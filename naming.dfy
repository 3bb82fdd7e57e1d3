/**
 * Output file names: `_sanitize` and the filename built in `_run_batch` from the
 * template, the sanitized model id, the session id and the chosen extension.
 */
module Naming {
  import opened Strings

  /** The nine characters `_sanitize` replaces with `_`. */
  const Reserved: string := "<>:\"/\\|?*"

  const ModelPlaceholder: string := "{model}"
  const SessionPlaceholder: string := "{session}"

  /** The template the form starts with, `{session}_{model}_response`, written in its two halves. */
  const DefaultTemplate: string := DefaultHead + DefaultTail
  const DefaultHead: string := SessionPlaceholder + "_"
  const DefaultTail: string := ModelPlaceholder + "_response"

  function SanitizeChar(c: char): char {
    if c in Reserved then '_' else c
  }

  /**
   * What `_sanitize` computes: every reserved character becomes `_`, every other
   * character stays where it is.
   */
  function Sanitized(name: string): (r: string)
    ensures |r| == |name|
    ensures forall c :: c in r ==> c !in Reserved
    ensures forall i :: 0 <= i < |name| && name[i] !in Reserved ==> r[i] == name[i]
    ensures forall i :: 0 <= i < |name| && name[i] in Reserved ==> r[i] == '_'
  {
    seq(|name|, i requires 0 <= i < |name| => SanitizeChar(name[i]))
  }

  /** Sanitizing a sanitized name changes nothing. */
  lemma SanitizedIdempotent(name: string)
    ensures Sanitized(Sanitized(name)) == Sanitized(name)
  {
  }

  /**
   * `_sanitize`: one `replace` pass per reserved character, in the order the
   * source lists them.
   */
  method Sanitize(name: string) returns (r: string)
    ensures r == Sanitized(name)
  {
    r := name;
    var k := 0;
    while k < |Reserved|
      invariant 0 <= k <= |Reserved|
      invariant |r| == |name|
      invariant forall i :: 0 <= i < |name| ==> r[i] == (if name[i] in Reserved[..k] then '_' else name[i])
    {
      ReplaceOneChar(r, Reserved[k], '_');
      r := ReplaceAll(r, [Reserved[k]], "_");
      assert Reserved[..k + 1] == Reserved[..k] + [Reserved[k]];
      k := k + 1;
    }
    assert Reserved[..k] == Reserved;
  }

  /** Append `ext` unless the name already ends with it. */
  function WithExtension(name: string, ext: string): (r: string)
    ensures EndsWith(r, ext)
    ensures r == name <==> EndsWith(name, ext)
    ensures r == name || r == name + ext
  {
    if EndsWith(name, ext) then name
    else
      assert (name + ext)[|name + ext| - |ext|..] == ext;
      name + ext
  }

  /** Adding the extension twice is adding it once. */
  lemma WithExtensionIdempotent(name: string, ext: string)
    ensures WithExtension(WithExtension(name, ext), ext) == WithExtension(name, ext)
  {
  }

  /**
   * The file name `_run_batch` writes to: `{model}` replaced by the sanitized id,
   * then `{session}` by the session id, then the extension appended if missing.
   */
  function Filename(template: string, modelId: string, session: string, ext: string): string
  {
    var named := ReplaceAll(template, ModelPlaceholder, Sanitized(modelId));
    WithExtension(ReplaceAll(named, SessionPlaceholder, session), ext)
  }

  /** Every file name ends with the chosen extension. */
  lemma FilenameHasExtension(template: string, modelId: string, session: string, ext: string)
    ensures EndsWith(Filename(template, modelId, session, ext), ext)
  {
  }

  /**
   * A template without `{model}` names every model's file the same way, so later
   * models overwrite earlier ones; this is why starting a batch with such a
   * template asks for confirmation.
   */
  lemma FilenameIgnoresModelWithoutPlaceholder(template: string, id1: string, id2: string, session: string, ext: string)
    requires !Contains(template, ModelPlaceholder)
    ensures Filename(template, id1, session, ext) == Filename(template, id2, session, ext)
  {
    ReplaceAbsent(template, ModelPlaceholder, Sanitized(id1));
    ReplaceAbsent(template, ModelPlaceholder, Sanitized(id2));
  }

  /** No `{model}` starts inside the `{session}_` head of the default template. */
  lemma DefaultTemplateHead()
    ensures forall i: nat :: i < |DefaultHead| ==> !OccursAt(DefaultTemplate, ModelPlaceholder, i)
  {
    forall i: nat | i < |DefaultHead|
      ensures !OccursAt(DefaultTemplate, ModelPlaceholder, i)
    {
      if i == 0 {
        assert DefaultTemplate[1] != ModelPlaceholder[1];
      } else {
        assert DefaultTemplate[i] != '{';
      }
    }
  }

  /** The `{model}_response` tail of the default template. */
  lemma DefaultTemplateTail(safe: string)
    ensures ReplaceAll(DefaultTail, ModelPlaceholder, safe) == safe + "_response"
  {
    MissingFirstChar("_response", ModelPlaceholder);
    ReplaceAbsent("_response", ModelPlaceholder, safe);
    ReplaceAtStart(ModelPlaceholder, "_response", safe);
  }

  /** The first substitution on the default template. */
  lemma DefaultTemplateModelStep(safe: string)
    ensures ReplaceAll(DefaultTemplate, ModelPlaceholder, safe) == DefaultHead + safe + "_response"
  {
    DefaultTemplateHead();
    ReplaceAfterPrefix(DefaultHead, DefaultTail, ModelPlaceholder, safe);
    DefaultTemplateTail(safe);
    Associative(DefaultHead, safe, "_response");
  }

  /** The second substitution, when the inserted id brings no `{` with it. */
  lemma DefaultTemplateSessionStep(safe: string, session: string)
    requires '{' !in safe
    ensures ReplaceAll(DefaultHead + safe + "_response", SessionPlaceholder, session)
         == session + "_" + safe + "_response"
  {
    var tail := safe + "_response";
    var rest := "_" + tail;
    assert '{' !in rest;
    MissingFirstChar(rest, SessionPlaceholder);
    ReplaceAbsent(rest, SessionPlaceholder, session);
    ReplaceAtStart(SessionPlaceholder, rest, session);
    Associative(SessionPlaceholder + "_", safe, "_response");
    Associative(SessionPlaceholder, "_", tail);
    Associative(session, "_", tail);
    Associative(session + "_", safe, "_response");
  }

  /**
   * With the default template, the name is `<session>_<sanitized id>_response<ext>`
   * for the two extensions the form offers, as long as the id has no `{` (an id
   * containing `{session}` would have that text replaced too).
   */
  lemma DefaultTemplateFilename(modelId: string, session: string, ext: string)
    requires '{' !in modelId
    requires ext == ".md" || ext == ".txt"
    ensures Filename(DefaultTemplate, modelId, session, ext)
         == session + "_" + Sanitized(modelId) + "_response" + ext
  {
    var safe := Sanitized(modelId);
    assert '{' !in safe;
    DefaultTemplateModelStep(safe);
    DefaultTemplateSessionStep(safe, session);
    var base := session + "_" + safe + "_response";
    assert !EndsWith(base, ext) by {
      assert base[|base| - 1] == 'e';
    }
  }
}
