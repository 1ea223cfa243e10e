/** `applyUpdate` of lib/ai/morph.ts: ask the merge service to apply an
    update snippet to a file, and fall back to appending the snippet as
    comments when the call fails. The HTTP exchange is not modelled; its
    outcome is a parameter. */
module Morph {
  import opened Wrappers
  import opened Lines
  import opened DiffPreview

  datatype UpdateRequest = UpdateRequest(path: string, original: string, updateSnippet: string)

  datatype UpdateResponse = UpdateResponse(merged: string, diffPreview: string)

  /** What the service call came to: it threw, answered with a non-OK
      status or an unreadable body (`Failed`), or answered with a body whose
      `choices[0].message.content` is a string or missing. Truthy content
      that is not a string makes `merged.split` throw inside the same
      `try`, so it is folded into `Failed`. Falsy content that is not a
      string (`null`, `0`, `false`) is replaced by the original just like a
      missing one, so it is `Completed(None)`. */
  datatype ServiceOutcome = Failed | Completed(content: Option<string>)

  /** The chat request the source posts. */
  datatype ChatRequest = ChatRequest(model: string, content: string, maxTokens: nat)

  const DefaultModel: string := "morph-pro-apply"
  const MaxTokens: nat := 4000
  const TodoLine: string := "// TODO: Apply this update manually:"
  const CommentPrefix: string := "// "
  const FallbackBanner: string := "+ Added update snippet as comment (API error)"
  const SnippetPreviewLength: nat := 100

  /** The request body: the model (`MORPH_MODEL || 'morph-pro-apply'`) and
      one user message holding the original text followed by the snippet
      between `<update>` tags. */
  function BuildRequest(req: UpdateRequest, modelSetting: Option<string>): (chat: ChatRequest)
    ensures modelSetting.Some? && modelSetting.value != "" ==> chat.model == modelSetting.value
    ensures modelSetting.None? || modelSetting.value == "" ==> chat.model == DefaultModel
    ensures StartsWith(chat.content, req.original)
  {
    var model := if modelSetting.Some? && modelSetting.value != "" then modelSetting.value else DefaultModel;
    ChatRequest(model, req.original + "\n<update>\n" + req.updateSnippet + "\n</update>", MaxTokens)
  }

  /** `snippet.split('\n').join('\n// ')`. */
  function CommentOut(snippet: string): string {
    Join(Split(snippet, '\n'), "\n" + CommentPrefix)
  }

  /** The merged text of the fallback: the original, a blank line, the
      TODO marker, then the snippet with every line commented. */
  function FallbackMerged(original: string, snippet: string): (merged: string)
    ensures StartsWith(merged, original)
  {
    original + "\n\n" + TodoLine + "\n" + CommentPrefix + CommentOut(snippet)
  }

  /** The fixed fallback preview: a banner and the first 100 characters of
      the snippet. */
  function FallbackPreview(snippet: string): (preview: string)
    ensures |preview| == |FallbackBanner| + 3 + Min(SnippetPreviewLength, |snippet|) + 3
    ensures StartsWith(preview, FallbackBanner + "\n+ ")
    ensures EndsWith(preview, "...")
    ensures preview[|FallbackBanner| + 3..|preview| - 3] == snippet[..Min(SnippetPreviewLength, |snippet|)]
  {
    FallbackBanner + "\n+ " + snippet[..Min(SnippetPreviewLength, |snippet|)] + "..."
  }

  /** `applyUpdate`: the completion if it is a non-empty string, the
      original otherwise, diffed against the original; or the fallback. */
  function ApplyUpdate(req: UpdateRequest, outcome: ServiceOutcome): (resp: UpdateResponse)
    ensures outcome.Completed? ==> resp.diffPreview == Preview(req.original, resp.merged)
    ensures outcome.Completed? && outcome.content.Some? && outcome.content.value != "" ==>
              resp.merged == outcome.content.value
    ensures outcome.Completed? && (outcome.content.None? || outcome.content.value == "") ==>
              resp.merged == req.original
    ensures outcome.Failed? ==> StartsWith(resp.merged, req.original)
    ensures outcome.Failed? ==> resp.merged == FallbackMerged(req.original, req.updateSnippet)
    ensures outcome.Failed? ==> resp.diffPreview == FallbackPreview(req.updateSnippet)
  {
    match outcome
    case Completed(content) =>
      var merged := if content.Some? && content.value != "" then content.value else req.original;
      UpdateResponse(merged, Preview(req.original, merged))
    case Failed =>
      UpdateResponse(FallbackMerged(req.original, req.updateSnippet), FallbackPreview(req.updateSnippet))
  }

  /** Each line with the comment prefix. */
  function Commented(lines: seq<string>): (commented: seq<string>)
    ensures |commented| == |lines|
    ensures forall k :: 0 <= k < |lines| ==> commented[k] == CommentPrefix + lines[k]
  {
    seq(|lines|, k requires 0 <= k < |lines| => CommentPrefix + lines[k])
  }

  /** Joining with `"\n// "` after a leading `"// "` is joining the
      commented lines with `"\n"`. */
  lemma {:induction false} CommentOutJoin(lines: seq<string>)
    requires |lines| > 0
    ensures CommentPrefix + Join(lines, "\n" + CommentPrefix) == Join(Commented(lines), "\n")
    decreases |lines|
  {
    if |lines| > 1 {
      CommentOutJoin(lines[1..]);
      JoinCons(lines, "\n" + CommentPrefix);
      JoinCons(Commented(lines), "\n");
      assert Commented(lines)[1..] == Commented(lines[1..]);
    }
  }

  /** Line by line, the fallback text is the original's lines, an empty
      line, the TODO marker, and every snippet line behind `// `. */
  lemma FallbackLines(original: string, snippet: string)
    ensures Split(FallbackMerged(original, snippet), '\n')
            == Split(original, '\n') + ["", TodoLine] + Commented(Split(snippet, '\n'))
  {
    var tail := CommentPrefix + CommentOut(snippet);
    CommentOutJoin(Split(snippet, '\n'));
    CommentedLinesRoundTrip(snippet);
    assert Split(tail, '\n') == Commented(Split(snippet, '\n'));
    TodoLineIsOneLine();
    MarkerBlockLines(original, TodoLine, tail);
    assert FallbackMerged(original, snippet) == original + "\n\n" + TodoLine + "\n" + tail;
  }

  /** The lines of the original, a blank line and a one-line marker, then
      whatever follows. */
  lemma MarkerBlockLines(original: string, marker: string, tail: string)
    requires '\n' !in marker
    ensures Split(original + "\n\n" + marker + "\n" + tail, '\n')
            == Split(original, '\n') + ["", marker] + Split(tail, '\n')
  {
    var s3 := marker + ['\n'] + tail;
    var s2 := "" + ['\n'] + s3;
    var s1 := original + ['\n'] + s2;
    var rest := Split(tail, '\n');
    FallbackRegroup(original, marker, tail, s1);
    SplitWithoutSeparator(marker, '\n');
    SplitConcat(marker, tail, '\n');
    SplitConcat("", s3, '\n');
    SplitConcat(original, s2, '\n');
    assert [""] + ([marker] + rest) == ["", marker] + rest;
    assert Split(original, '\n') + (["", marker] + rest) == Split(original, '\n') + ["", marker] + rest;
  }

  lemma TodoLineIsOneLine()
    ensures '\n' !in TodoLine
  {
  }

  /** Commented snippet lines hold no newline, so they split back apart. */
  lemma CommentedLinesRoundTrip(snippet: string)
    ensures Split(Join(Commented(Split(snippet, '\n')), "\n"), '\n') == Commented(Split(snippet, '\n'))
  {
    var lines := Split(snippet, '\n');
    var commented := Commented(lines);
    SplitPiecesLackSeparator(snippet, '\n');
    forall k | 0 <= k < |commented|
      ensures '\n' !in commented[k]
    {
      assert commented[k] == CommentPrefix + lines[k];
    }
    SplitJoin(commented, '\n');
  }

  /** The fallback text regrouped around its three newlines. This lemma
      is separate, and compares character by character, because asserting
      the equation directly inside `MarkerBlockLines` makes that proof
      several times more expensive for the solver. */
  lemma FallbackRegroup(original: string, marker: string, tail: string, s: string)
    requires s == original + ['\n'] + ("" + ['\n'] + (marker + ['\n'] + tail))
    ensures original + "\n\n" + marker + "\n" + tail == s
  {
    assert |original + "\n\n" + marker + "\n" + tail| == |s|;
    forall k | 0 <= k < |s|
      ensures (original + "\n\n" + marker + "\n" + tail)[k] == s[k]
    {
    }
  }

  /** A missing or empty completion keeps the original and reports no
      change: it does not take the fallback. */
  lemma EmptyCompletionKeepsOriginal(req: UpdateRequest, content: Option<string>)
    requires content.None? || content.value == ""
    ensures ApplyUpdate(req, Completed(content)) == UpdateResponse(req.original, NoChanges)
  {
    PreviewOfSameText(req.original);
  }

  /** The fallback preview depends on the snippet only. */
  lemma FallbackPreviewIgnoresOriginal(a: UpdateRequest, b: UpdateRequest)
    requires a.updateSnippet == b.updateSnippet
    ensures ApplyUpdate(a, Failed).diffPreview == ApplyUpdate(b, Failed).diffPreview
  {
  }

  /** The prompt's lines are the original's lines, the opening tag, the
      snippet's lines and the closing tag. */
  lemma PromptLines(req: UpdateRequest, modelSetting: Option<string>)
    ensures Split(BuildRequest(req, modelSetting).content, '\n')
            == Split(req.original, '\n') + ["<update>"] + Split(req.updateSnippet, '\n') + ["</update>"]
  {
    var s3 := req.updateSnippet + ['\n'] + "</update>";
    var s2 := "<update>" + ['\n'] + s3;
    var s1 := req.original + ['\n'] + s2;
    assert Split(s3, '\n') == Split(req.updateSnippet, '\n') + ["</update>"] by {
      SplitWithoutSeparator("</update>", '\n');
      SplitConcat(req.updateSnippet, "</update>", '\n');
    }
    assert Split(s2, '\n') == ["<update>"] + Split(s3, '\n') by {
      SplitWithoutSeparator("<update>", '\n');
      SplitConcat("<update>", s3, '\n');
    }
    assert Split(s1, '\n') == Split(req.original, '\n') + Split(s2, '\n') by {
      SplitConcat(req.original, s2, '\n');
    }
    assert BuildRequest(req, modelSetting).content == s1 by {
      PromptRegroup(req.original, "\n<update>\n", req.updateSnippet, "\n</update>", s1);
    }
  }

  /** The prompt text regrouped around its three newlines. The two
      literals enter as parameters pinned by the precondition, and the
      equation is compared character by character. Asserting it directly
      inside `PromptLines` exceeds the solver's resource limit there. */
  lemma PromptRegroup(a: string, b: string, c: string, d: string, s: string)
    requires b == "\n<update>\n" && d == "\n</update>"
    requires s == a + ['\n'] + ("<update>" + ['\n'] + (c + ['\n'] + "</update>"))
    ensures a + b + c + d == s
  {
    assert b == ['\n'] + "<update>" + ['\n'];
    assert d == ['\n'] + "</update>";
    assert |a + b + c + d| == |s|;
    forall k | 0 <= k < |s|
      ensures (a + b + c + d)[k] == s[k]
    {
    }
  }
}
