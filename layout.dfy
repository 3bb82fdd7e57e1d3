/**
 * The text written to each output file (`_run_batch`): a header naming the model
 * and the session, the response, and a footer with the generation time and the
 * tokens per second. Time and rate arrive already formatted as strings.
 */
module Layout {
  import opened Wrappers
  import opened Strings

  /** The extension that selects the Markdown layout; any other gets the plain one. */
  const Markdown: string := ".md"

  /** Width of the rules in the plain layout. */
  const RuleWidth: nat := 60

  /** `c * n` in Python. */
  function Repeat(c: char, n: nat): (r: string)
    ensures |r| == n
    ensures forall i :: 0 <= i < n ==> r[i] == c
  {
    seq(n, _ => c)
  }

  function Header(ext: string, modelId: string, session: string): string {
    if ext == Markdown then
      "# Model: " + modelId + "\n**Session:** " + session + "\n\n---\n\n"
    else
      "Model: " + modelId + "\nSession: " + session + "\n" + Repeat('=', RuleWidth) + "\n"
  }

  function Footer(ext: string, time: string, tps: string): string {
    if ext == Markdown then
      "\n\n---\n\n*Generation Time:* " + time + "\n\n*Tokens Per Second (TPS):* " + tps + "\n"
    else
      "\n\n" + Repeat('-', RuleWidth) + "\nGeneration Time: " + time + "\nTokens Per Second (TPS): " + tps + "\n"
  }

  /**
   * The whole file, as the successive `write` calls produce it: the header, the
   * response and the footer.
   */
  function FileText(ext: string, modelId: string, session: string, content: string, time: string, tps: string): string {
    Header(ext, modelId, session) + content + Footer(ext, time, tps)
  }

  /** The file starts with the header, ends with the footer, and holds the response untouched between them. */
  lemma FileTextParts(ext: string, modelId: string, session: string, content: string, time: string, tps: string)
    ensures var r := FileText(ext, modelId, session, content, time, tps);
      StartsWith(r, Header(ext, modelId, session))
      && EndsWith(r, Footer(ext, time, tps))
      && |r| == |Header(ext, modelId, session)| + |content| + |Footer(ext, time, tps)|
      && r[|Header(ext, modelId, session)|..|r| - |Footer(ext, time, tps)|] == content
  {
    var h := Header(ext, modelId, session);
    var f := Footer(ext, time, tps);
    var r := h + content + f;
    assert r[..|h|] == h;
    assert r[|r| - |f|..] == f;
    assert r[|h|..|r| - |f|] == content;
  }

  /** Reading a file back: the response between the expected header and footer, if they are there. */
  function ContentOf(ext: string, modelId: string, session: string, time: string, tps: string, text: string): (r: Option<string>)
    ensures r.Some? ==> |r.value| <= |text|
  {
    var h := Header(ext, modelId, session);
    var f := Footer(ext, time, tps);
    if |h| + |f| <= |text| && StartsWith(text, h) && EndsWith(text, f) then Some(text[|h|..|text| - |f|])
    else None
  }

  /** The response can always be recovered from the file that holds it. */
  lemma ContentRoundTrip(ext: string, modelId: string, session: string, content: string, time: string, tps: string)
    ensures ContentOf(ext, modelId, session, time, tps, FileText(ext, modelId, session, content, time, tps)) == Some(content)
  {
    FileTextParts(ext, modelId, session, content, time, tps);
  }

  /** Two responses written with the same metadata give the same file only if they are equal. */
  lemma FileTextInjective(ext: string, modelId: string, session: string, c1: string, c2: string, time: string, tps: string)
    requires FileText(ext, modelId, session, c1, time, tps) == FileText(ext, modelId, session, c2, time, tps)
    ensures c1 == c2
  {
    ContentRoundTrip(ext, modelId, session, c1, time, tps);
    ContentRoundTrip(ext, modelId, session, c2, time, tps);
  }

  /** Concatenation regrouped, for the two layouts spelled out below. */
  lemma Regroup(x: string, a: string, b: string, c: string, d: string, e: string, f: string, g: string)
    ensures x + (a + b + c + d + e + f + g) == x + a + b + c + d + e + f + g
  {
  }

  /** The Markdown file, spelled out. */
  lemma MarkdownFile(modelId: string, session: string, content: string, time: string, tps: string)
    ensures FileText(".md", modelId, session, content, time, tps)
         == "# Model: " + modelId + "\n**Session:** " + session + "\n\n---\n\n" + content
          + "\n\n---\n\n*Generation Time:* " + time + "\n\n*Tokens Per Second (TPS):* " + tps + "\n"
  {
    var h := Header(".md", modelId, session);
    var f := Footer(".md", time, tps);
    assert h == "# Model: " + modelId + "\n**Session:** " + session + "\n\n---\n\n";
    assert f == "\n\n---\n\n*Generation Time:* " + time + "\n\n*Tokens Per Second (TPS):* " + tps + "\n";
    Regroup(h + content, "\n\n---\n\n*Generation Time:* ", time, "\n\n*Tokens Per Second (TPS):* ", tps, "\n", [], []);
  }

  /** Any other extension, `.txt` or not, gives the plain file with its two 60-character rules. */
  lemma PlainFile(ext: string, modelId: string, session: string, content: string, time: string, tps: string)
    requires ext != ".md"
    ensures FileText(ext, modelId, session, content, time, tps)
         == "Model: " + modelId + "\nSession: " + session + "\n" + Repeat('=', 60) + "\n" + content
          + "\n\n" + Repeat('-', 60) + "\nGeneration Time: " + time + "\nTokens Per Second (TPS): " + tps + "\n"
  {
    var h := Header(ext, modelId, session);
    assert h == "Model: " + modelId + "\nSession: " + session + "\n" + Repeat('=', 60) + "\n";
    Regroup(h + content, "\n\n", Repeat('-', 60), "\nGeneration Time: ", time, "\nTokens Per Second (TPS): ", tps, "\n");
  }
}
