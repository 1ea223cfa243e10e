/** The `DiffView` component of components/DiffView.tsx: it re-splits a
    stored preview, keeps the last 25 lines and colours each line by its
    first character. Markup and styling are not modelled. */
module DiffView {
  import opened Wrappers
  import opened Lines
  import opened DiffPreview

  datatype LineClass = AdditionLine | RemovalLine | Neutral

  datatype DisplayLine = DisplayLine(text: string, lineClass: LineClass)

  /** The placeholder ("No recent changes") or the list of shown lines. */
  datatype View = NoRecentChanges | RecentChanges(lines: seq<DisplayLine>)

  /** How many lines the view keeps (`lines.slice(-25)`). */
  const DisplayLimit: nat := 25

  /** `startsWith('+')` first, then `startsWith('-')`, else neutral. */
  function Classify(line: string): (c: LineClass)
    ensures c == AdditionLine <==> StartsWith(line, "+")
    ensures c == RemovalLine <==> !StartsWith(line, "+") && StartsWith(line, "-")
    ensures c == Neutral <==> !StartsWith(line, "+") && !StartsWith(line, "-")
  {
    if |line| > 0 && line[0] == '+' then AdditionLine
    else if |line| > 0 && line[0] == '-' then RemovalLine
    else Neutral
  }

  function Texts(lines: seq<DisplayLine>): (texts: seq<string>)
    ensures |texts| == |lines|
    ensures forall k :: 0 <= k < |lines| ==> texts[k] == lines[k].text
  {
    seq(|lines|, k requires 0 <= k < |lines| => lines[k].text)
  }

  /** What the component shows for its `diffContent` property. */
  function Render(content: Option<string>): (view: View)
    ensures view.NoRecentChanges? <==> content.None? || content.value == ""
    ensures view.RecentChanges? ==>
              var pieces := Split(content.value, '\n');
              && |view.lines| == Min(DisplayLimit, |pieces|)
              && (forall k :: 0 <= k < |view.lines| ==>
                    view.lines[k].text == pieces[|pieces| - |view.lines| + k])
              && (forall k :: 0 <= k < |view.lines| ==>
                    view.lines[k].lineClass == Classify(view.lines[k].text))
  {
    if content.None? || content.value == "" then NoRecentChanges
    else
      var shown := TakeLast(Split(content.value, '\n'), DisplayLimit);
      RecentChanges(seq(|shown|, k requires 0 <= k < |shown| => DisplayLine(shown[k], Classify(shown[k]))))
  }

  /** Text with at most 25 lines is shown whole. */
  lemma ShortContentShownWhole(content: string)
    requires content != ""
    requires |Split(content, '\n')| <= DisplayLimit
    ensures Texts(Render(Some(content)).lines) == Split(content, '\n')
  {
  }

  /** The shown lines, joined back, are the end of the stored text: lines
      are shown unchanged and only whole leading lines are dropped. */
  lemma ShownTextIsSuffix(content: string)
    requires content != ""
    ensures EndsWith(content, Join(Texts(Render(Some(content)).lines), "\n"))
  {
    TakeLastOfSplitIsSuffix(content, '\n', DisplayLimit);
    assert Texts(Render(Some(content)).lines) == TakeLast(Split(content, '\n'), DisplayLimit);
  }

  /** The class a record's rendered line receives. */
  function RecordClass(c: Change): LineClass {
    match c
    case Addition => AdditionLine
    case Removal => RemovalLine
  }

  /** A one-line text is shown as that single line. */
  lemma SingleLineShown(line: string)
    requires line != "" && '\n' !in line
    ensures Render(Some(line)) == RecentChanges([DisplayLine(line, Classify(line))])
  {
    SplitWithoutSeparator(line, '\n');
  }

  /** "No changes detected" is shown as one neutral line. */
  lemma NoChangesShownNeutral()
    ensures Render(Some(NoChanges)) == RecentChanges([DisplayLine(NoChanges, Neutral)])
  {
    NoChangesHasNoNewline();
    SingleLineShown(NoChanges);
  }

  lemma NoChangesHasNoNewline()
    ensures NoChanges != "" && '\n' !in NoChanges && NoChanges[0] == 'N'
  {
  }

  /** A rendering of fewer than 25 records is shown whole, its summary
      line first and neutral, and every record line in the class of its
      change. */
  lemma ShortRenderingShown(diff: seq<DiffRecord>, added: nat, removed: nat)
    requires 0 < |diff| < DisplayLimit && SingleLineTexts(diff)
    ensures RenderPreview(diff, added, removed) != ""
    ensures var lines := Render(Some(RenderPreview(diff, added, removed))).lines;
      && |lines| == 1 + |diff|
      && lines[0] == DisplayLine(Summary(added, removed), Neutral)
      && (forall k :: 1 <= k < |lines| ==>
            lines[k] == DisplayLine(RenderRecord(diff[k - 1]), RecordClass(diff[k - 1].change)))
  {
    RenderPreviewNonEmpty(diff, added, removed);
    RenderPreviewPieces(diff, added, removed);
    SummaryShape(added, removed);
    ShortLinesShown(RenderPreview(diff, added, removed), Summary(added, removed), diff);
  }

  /** The view of a text whose lines are a neutral summary line and fewer
      than 25 rendered records. */
  lemma ShortLinesShown(text: string, summary: string, diff: seq<DiffRecord>)
    requires 0 < |diff| < DisplayLimit && text != ""
    requires |summary| > 0 && summary[0] != '+' && summary[0] != '-'
    requires Split(text, '\n') == [summary] + RenderRecords(TakeLast(diff, PreviewLimit))
    ensures var lines := Render(Some(text)).lines;
      && |lines| == 1 + |diff|
      && lines[0] == DisplayLine(summary, Neutral)
      && (forall k :: 1 <= k < |lines| ==>
            lines[k] == DisplayLine(RenderRecord(diff[k - 1]), RecordClass(diff[k - 1].change)))
  {
    var pieces := Split(text, '\n');
    PiecesLayout(pieces, diff, summary);
    var lines := Render(Some(text)).lines;
    assert |lines| == |pieces|;
    assert lines[0] == DisplayLine(summary, Neutral) by {
      assert lines[0].text == pieces[0];
    }
    forall k | 1 <= k < |lines|
      ensures lines[k] == DisplayLine(RenderRecord(diff[k - 1]), RecordClass(diff[k - 1].change))
    {
      assert lines[k].text == pieces[k];
      assert pieces[k] == RenderRecord(diff[k - 1]);
      RecordLineClass(diff[k - 1]);
    }
  }

  /** A rendered record is coloured by its change. */
  lemma RecordLineClass(r: DiffRecord)
    ensures Classify(RenderRecord(r)) == RecordClass(r.change)
  {
  }

  /** A preview with fewer than 25 records is shown whole, its summary line
      first and neutral, and every record line in the class of its change. */
  lemma ShortPreviewShown(original: string, merged: string)
    requires 0 < |Diff(original, merged)| < DisplayLimit
    ensures Preview(original, merged) != ""
    ensures var diff := Diff(original, merged);
      var lines := Render(Some(Preview(original, merged))).lines;
      && |lines| == 1 + |diff|
      && lines[0] == DisplayLine(Summary(Count(diff, Addition), Count(diff, Removal)), Neutral)
      && (forall k :: 1 <= k < |lines| ==>
            lines[k] == DisplayLine(RenderRecord(diff[k - 1]), RecordClass(diff[k - 1].change)))
  {
    var diff := Diff(original, merged);
    DiffIsSingleLine(original, merged);
    assert Preview(original, merged) == RenderPreview(diff, Count(diff, Addition), Count(diff, Removal));
    ShortRenderingShown(diff, Count(diff, Addition), Count(diff, Removal));
  }

  /** A rendering that kept 25 records loses its summary line in the view:
      all 25 shown lines are records, each in the class of its change. */
  lemma FullRenderingDropsSummary(diff: seq<DiffRecord>, added: nat, removed: nat)
    requires |diff| >= PreviewLimit && SingleLineTexts(diff)
    ensures RenderPreview(diff, added, removed) != ""
    ensures var lines := Render(Some(RenderPreview(diff, added, removed))).lines;
      && |lines| == DisplayLimit
      && (forall k :: 0 <= k < |lines| ==>
            lines[k] == DisplayLine(RenderRecord(diff[|diff| - PreviewLimit + k]),
                                    RecordClass(diff[|diff| - PreviewLimit + k].change)))
  {
    RenderPreviewNonEmpty(diff, added, removed);
    RenderPreviewPieces(diff, added, removed);
    FullLinesShown(RenderPreview(diff, added, removed), Summary(added, removed), diff);
  }

  /** The view of a text whose lines are a summary line and 25 rendered
      records: the summary is the line that falls off. */
  lemma FullLinesShown(text: string, summary: string, diff: seq<DiffRecord>)
    requires |diff| >= PreviewLimit && text != ""
    requires Split(text, '\n') == [summary] + RenderRecords(TakeLast(diff, PreviewLimit))
    ensures var lines := Render(Some(text)).lines;
      && |lines| == DisplayLimit
      && (forall k :: 0 <= k < |lines| ==>
            lines[k] == DisplayLine(RenderRecord(diff[|diff| - PreviewLimit + k]),
                                    RecordClass(diff[|diff| - PreviewLimit + k].change)))
  {
    var pieces := Split(text, '\n');
    PiecesLayout(pieces, diff, summary);
    assert |pieces| == DisplayLimit + 1;
    var lines := Render(Some(text)).lines;
    assert |lines| == DisplayLimit;
    forall k | 0 <= k < |lines|
      ensures lines[k] == DisplayLine(RenderRecord(diff[|diff| - PreviewLimit + k]),
                                      RecordClass(diff[|diff| - PreviewLimit + k].change))
    {
      assert lines[k].text == pieces[k + 1];
      assert pieces[k + 1] == RenderRecord(diff[|diff| - PreviewLimit + k]);
      RecordLineClass(diff[|diff| - PreviewLimit + k]);
    }
  }

  /** A preview that kept 25 records loses its summary line in the view:
      all 25 shown lines are records, each in the class of its change. */
  lemma FullPreviewDropsSummary(original: string, merged: string)
    requires |Diff(original, merged)| >= PreviewLimit
    ensures Preview(original, merged) != ""
    ensures var diff := Diff(original, merged);
      var lines := Render(Some(Preview(original, merged))).lines;
      && |lines| == DisplayLimit
      && (forall k :: 0 <= k < |lines| ==>
            lines[k] == DisplayLine(RenderRecord(diff[|diff| - PreviewLimit + k]),
                                    RecordClass(diff[|diff| - PreviewLimit + k].change)))
  {
    var diff := Diff(original, merged);
    DiffIsSingleLine(original, merged);
    assert Preview(original, merged) == RenderPreview(diff, Count(diff, Addition), Count(diff, Removal));
    FullRenderingDropsSummary(diff, Count(diff, Addition), Count(diff, Removal));
  }
}
