/**
 * The checks `_start_batch` makes on the form before it starts a batch, in the
 * order it makes them, and the job it hands to the worker.
 */
module Validation {
  import opened Wrappers
  import opened Strings
  import Naming

  /** The form fields as read from the widgets, before stripping. */
  datatype Form = Form(
    sysPrompt: string,
    prompt: string,
    folder: string,
    template: string,
    maxWait: string)

  /** What the worker receives: stripped fields and the parsed wait limit (`None`: no limit). */
  datatype Job = Job(
    sysPrompt: string,
    prompt: string,
    folder: string,
    template: string,
    maxWait: Option<real>)

  datatype StartError = InvalidMaxWait | EmptyPrompt | EmptyFolder | MissingFolder | NoModelsSelected

  /** A batch starts, an error is shown, or the user declines the overwrite warning. */
  datatype Decision = Start(job: Job) | Refuse(error: StartError) | Declined

  /**
   * The wait limit: a blank field or exactly `"0"` means no limit and is not parsed;
   * anything else goes through `float`, whose failure (`parse` gives `None`) is an
   * error. The outer `None` is that error.
   */
  function MaxWait(raw: string, parse: string -> Option<real>): (r: Option<Option<real>>)
    ensures raw == "" || raw == "0" ==> r == Some(None)
    ensures raw != "" && raw != "0" ==> (r.Some? <==> parse(raw).Some?)
    ensures r.Some? && r.value.Some? ==> parse(raw) == r.value
  {
    if raw == "" || raw == "0" then Some(None)
    else if parse(raw).None? then None
    else Some(parse(raw))
  }

  /**
   * `_start_batch`'s decision. `isDir` stands for `os.path.isdir`, `confirm` for the
   * answer to the overwrite warning (asked only when the template lacks `{model}`),
   * and `selectedCount` for the number of ticked models.
   */
  function Decide(form: Form, parse: string -> Option<real>, isDir: string -> bool,
                  confirm: bool, selectedCount: nat): (d: Decision)
    ensures d.Start? <==>
      MaxWait(Trim(form.maxWait), parse).Some?
      && Trim(form.prompt) != "" && Trim(form.folder) != "" && isDir(Trim(form.folder))
      && (Contains(Trim(form.template), Naming.ModelPlaceholder) || confirm)
      && selectedCount > 0
    ensures d.Start? ==>
      d.job == Job(Trim(form.sysPrompt), Trim(form.prompt), Trim(form.folder), Trim(form.template),
                   MaxWait(Trim(form.maxWait), parse).value)
    ensures d == Declined <==>
      MaxWait(Trim(form.maxWait), parse).Some?
      && Trim(form.prompt) != "" && Trim(form.folder) != "" && isDir(Trim(form.folder))
      && !Contains(Trim(form.template), Naming.ModelPlaceholder) && !confirm
  {
    var folder := Trim(form.folder);
    var template := Trim(form.template);
    match MaxWait(Trim(form.maxWait), parse)
    case None => Refuse(InvalidMaxWait)
    case Some(maxWait) =>
      if Trim(form.prompt) == "" then Refuse(EmptyPrompt)
      else if folder == "" then Refuse(EmptyFolder)
      else if !isDir(folder) then Refuse(MissingFolder)
      else if !Contains(template, Naming.ModelPlaceholder) && !confirm then Declined
      else if selectedCount == 0 then Refuse(NoModelsSelected)
      else Start(Job(Trim(form.sysPrompt), Trim(form.prompt), folder, template, maxWait))
  }

  /** The first failing check decides the error: the wait limit, then the prompt, then the folder. */
  lemma ErrorOrder(form: Form, parse: string -> Option<real>, isDir: string -> bool, confirm: bool, selectedCount: nat)
    ensures MaxWait(Trim(form.maxWait), parse).None? ==>
      Decide(form, parse, isDir, confirm, selectedCount) == Refuse(InvalidMaxWait)
    ensures MaxWait(Trim(form.maxWait), parse).Some? && Trim(form.prompt) == "" ==>
      Decide(form, parse, isDir, confirm, selectedCount) == Refuse(EmptyPrompt)
    ensures MaxWait(Trim(form.maxWait), parse).Some? && Trim(form.prompt) != "" && Trim(form.folder) == "" ==>
      Decide(form, parse, isDir, confirm, selectedCount) == Refuse(EmptyFolder)
    ensures MaxWait(Trim(form.maxWait), parse).Some? && Trim(form.prompt) != "" && Trim(form.folder) != ""
            && !isDir(Trim(form.folder)) ==>
      Decide(form, parse, isDir, confirm, selectedCount) == Refuse(MissingFolder)
  {
  }

  /**
   * The empty selection is checked last: a form that passes every other check and
   * has no ticked model is refused for that reason, and only for that one.
   */
  lemma NothingSelected(form: Form, parse: string -> Option<real>, isDir: string -> bool, confirm: bool)
    requires MaxWait(Trim(form.maxWait), parse).Some?
    requires Trim(form.prompt) != "" && Trim(form.folder) != "" && isDir(Trim(form.folder))
    requires Contains(Trim(form.template), Naming.ModelPlaceholder) || confirm
    ensures Decide(form, parse, isDir, confirm, 0) == Refuse(NoModelsSelected)
  {
  }

  /** Whitespace around a field does not matter: a padded `"0"` also means no limit. */
  lemma PaddedZeroMeansNoLimit(before: string, after: string, parse: string -> Option<real>)
    requires AllSpace(before) && AllSpace(after)
    ensures MaxWait(Trim(before + "0" + after), parse) == Some(None)
  {
    var s := before + "0" + after;
    var r := Trim(s);
    var i := |s| - |TrimStart(s)|;
    assert s[|before|] == '0';
    assert i == |before| && |r| == 1;
  }
}
