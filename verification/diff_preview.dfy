/** The positional line diff of `generateDiffPreview` in lib/ai/morph.ts:
    both texts are split on newlines and compared index by index (a missing
    line reads as the empty line), the differing lines become `- ` and `+ `
    records, and the last 25 records are rendered under a summary line. */
module DiffPreview {
  import opened Lines
  import opened Decimal

  datatype Change = Removal | Addition

  /** One emitted record. `index` is the line position that produced it; it
      is not rendered, and is kept so that order can be stated. */
  datatype DiffRecord = DiffRecord(index: nat, change: Change, text: string)

  /** How many records the preview keeps (`diff.slice(-25)`). */
  const PreviewLimit: nat := 25

  const NoChanges: string := "No changes detected"

  /** `lines[i] || ''`: an index past the end reads as the empty line. */
  function Pad(lines: seq<string>, i: nat): string {
    if i < |lines| then lines[i] else ""
  }

  function MaxLength(a: seq<string>, b: seq<string>): nat {
    if |a| >= |b| then |a| else |b|
  }

  /** The records one index emits, given its two padded lines. */
  function RecordsAt(i: nat, originalLine: string, mergedLine: string): seq<DiffRecord> {
    if originalLine == mergedLine then []
    else if originalLine != "" && mergedLine == "" then [DiffRecord(i, Removal, originalLine)]
    else if originalLine == "" && mergedLine != "" then [DiffRecord(i, Addition, mergedLine)]
    else [DiffRecord(i, Removal, originalLine), DiffRecord(i, Addition, mergedLine)]
  }

  /** The records each index emits, as a function of the index. */
  function Emitted(originalLines: seq<string>, mergedLines: seq<string>): nat -> seq<DiffRecord> {
    (i: nat) => RecordsAt(i, Pad(originalLines, i), Pad(mergedLines, i))
  }

  /** The concatenation `chunk(0) + chunk(1) + ... + chunk(k - 1)`. */
  function Flatten(chunk: nat -> seq<DiffRecord>, k: nat): seq<DiffRecord>
    decreases k
  {
    if k == 0 then [] else Flatten(chunk, k - 1) + chunk(k - 1)
  }

  /** The records of indices `0 .. k-1`, in loop order. */
  function Records(originalLines: seq<string>, mergedLines: seq<string>, k: nat): seq<DiffRecord> {
    Flatten(Emitted(originalLines, mergedLines), k)
  }

  /** The full, untruncated record list of two texts. */
  function Diff(original: string, merged: string): seq<DiffRecord> {
    var originalLines := Split(original, '\n');
    var mergedLines := Split(merged, '\n');
    Records(originalLines, mergedLines, MaxLength(originalLines, mergedLines))
  }

  /** Number of records of one kind. */
  function Count(records: seq<DiffRecord>, c: Change): nat
    decreases |records|
  {
    if |records| == 0 then 0
    else Count(records[..|records| - 1], c) + (if records[|records| - 1].change == c then 1 else 0)
  }

  /** Index `i` removes a line: the original line is non-empty and differs. */
  predicate RemovedAt(originalLines: seq<string>, mergedLines: seq<string>, i: nat) {
    Pad(originalLines, i) != "" && Pad(originalLines, i) != Pad(mergedLines, i)
  }

  /** Index `i` adds a line: the merged line is non-empty and differs. */
  predicate AddedAt(originalLines: seq<string>, mergedLines: seq<string>, i: nat) {
    Pad(mergedLines, i) != "" && Pad(mergedLines, i) != Pad(originalLines, i)
  }

  /** Number of indices below `k` where `p` holds. */
  function Tally(p: nat -> bool, k: nat): nat
    decreases k
  {
    if k == 0 then 0 else Tally(p, k - 1) + (if p(k - 1) then 1 else 0)
  }

  function Removes(originalLines: seq<string>, mergedLines: seq<string>): nat -> bool {
    (i: nat) => RemovedAt(originalLines, mergedLines, i)
  }

  function Adds(originalLines: seq<string>, mergedLines: seq<string>): nat -> bool {
    (i: nat) => AddedAt(originalLines, mergedLines, i)
  }

  /** Number of indices below `k` that remove a line, counted by index. */
  function RemovedBefore(originalLines: seq<string>, mergedLines: seq<string>, k: nat): nat {
    Tally(Removes(originalLines, mergedLines), k)
  }

  /** Number of indices below `k` that add a line, counted by index. */
  function AddedBefore(originalLines: seq<string>, mergedLines: seq<string>, k: nat): nat {
    Tally(Adds(originalLines, mergedLines), k)
  }

  /** A record says what its index holds: a removal carries the original
      line, an addition the merged line, and that line is non-empty and
      differs from the other side. */
  predicate Faithful(originalLines: seq<string>, mergedLines: seq<string>, r: DiffRecord) {
    match r.change
    case Removal => r.text == Pad(originalLines, r.index) && RemovedAt(originalLines, mergedLines, r.index)
    case Addition => r.text == Pad(mergedLines, r.index) && AddedAt(originalLines, mergedLines, r.index)
  }

  /** Position of a record in the output order: by index, removal first. */
  function Key(r: DiffRecord): nat {
    2 * r.index + (if r.change == Addition then 1 else 0)
  }

  /** Two texts whose padded lines agree at every index. */
  ghost predicate LinesAgree(original: string, merged: string) {
    forall i: nat :: Pad(Split(original, '\n'), i) == Pad(Split(merged, '\n'), i)
  }

  function Summary(added: nat, removed: nat): string {
    NatToString(added) + " additions, " + NatToString(removed) + " deletions"
  }

  function RenderRecord(r: DiffRecord): string {
    match r.change
    case Removal => "- " + r.text
    case Addition => "+ " + r.text
  }

  function RenderRecords(records: seq<DiffRecord>): (rendered: seq<string>)
    ensures |rendered| == |records|
  {
    seq(|records|, k requires 0 <= k < |records| => RenderRecord(records[k]))
  }

  /** The rendering step: the summary line over the whole list, then the
      last `PreviewLimit` records; or the fixed text when there is none. */
  function RenderPreview(diff: seq<DiffRecord>, added: nat, removed: nat): string {
    var shown := TakeLast(diff, PreviewLimit);
    if |shown| > 0 then Summary(added, removed) + "\n" + Join(RenderRecords(shown), "\n")
    else NoChanges
  }

  /** The preview string of `generateDiffPreview(original, merged)`. */
  function Preview(original: string, merged: string): string {
    RenderPreview(Diff(original, merged), Count(Diff(original, merged), Addition), Count(Diff(original, merged), Removal))
  }

  /** `generateDiffPreview` as the source writes it: split both texts, run
      the comparison loop, then truncate and render. */
  method GenerateDiffPreview(original: string, merged: string) returns (preview: string)
    ensures preview == Preview(original, merged)
  {
    var originalLines := Split(original, '\n');
    var mergedLines := Split(merged, '\n');
    var diff, addedCount, removedCount := CompareAll(originalLines, mergedLines);
    preview := RenderPreview(diff, addedCount, removedCount);
  }

  /** The comparison loop of `generateDiffPreview`: one pass over the
      indices up to the longer line list, pushing records and bumping the
      two counters. */
  method CompareAll(originalLines: seq<string>, mergedLines: seq<string>)
    returns (diff: seq<DiffRecord>, addedCount: nat, removedCount: nat)
    ensures diff == Records(originalLines, mergedLines, MaxLength(originalLines, mergedLines))
    ensures addedCount == Count(diff, Addition) && removedCount == Count(diff, Removal)
  {
    diff, addedCount, removedCount := [], 0, 0;
    var maxLength := if |originalLines| >= |mergedLines| then |originalLines| else |mergedLines|;
    var i := 0;
    while i < maxLength
      invariant 0 <= i <= maxLength
      invariant diff == Records(originalLines, mergedLines, i)
      invariant addedCount == Count(diff, Addition)
      invariant removedCount == Count(diff, Removal)
    {
      diff, addedCount, removedCount := CompareIndex(originalLines, mergedLines, i, diff, addedCount, removedCount);
      i := i + 1;
    }
  }

  /** One pass of the loop: compare the two lines at index `i` (a missing
      line reads as `''`), push the records and bump the counters. */
  method CompareIndex(originalLines: seq<string>, mergedLines: seq<string>, i: nat,
                      diff: seq<DiffRecord>, addedCount: nat, removedCount: nat)
    returns (diff': seq<DiffRecord>, addedCount': nat, removedCount': nat)
    requires diff == Records(originalLines, mergedLines, i)
    requires addedCount == Count(diff, Addition) && removedCount == Count(diff, Removal)
    ensures diff' == Records(originalLines, mergedLines, i + 1)
    ensures addedCount' == Count(diff', Addition) && removedCount' == Count(diff', Removal)
  {
    var originalLine := if i < |originalLines| then originalLines[i] else "";
    var mergedLine := if i < |mergedLines| then mergedLines[i] else "";
    var emitted, added, removed := CompareLines(i, originalLine, mergedLine);
    LineOutcomeIsRecordsAt(i, originalLine, mergedLine, emitted, added, removed);
    CompareStep(originalLines, mergedLines, i, diff, emitted);
    diff', addedCount', removedCount' := diff + emitted, addedCount + added, removedCount + removed;
  }

  /** Appending the records of index `i` to those below it gives the
      records below `i + 1`, and the counters add up. */
  lemma CompareStep(originalLines: seq<string>, mergedLines: seq<string>, i: nat,
                    diff: seq<DiffRecord>, emitted: seq<DiffRecord>)
    requires diff == Records(originalLines, mergedLines, i)
    requires emitted == RecordsAt(i, Pad(originalLines, i), Pad(mergedLines, i))
    ensures diff + emitted == Records(originalLines, mergedLines, i + 1)
    ensures Count(diff + emitted, Addition) == Count(diff, Addition) + Count(emitted, Addition)
    ensures Count(diff + emitted, Removal) == Count(diff, Removal) + Count(emitted, Removal)
  {
    RecordsStep(originalLines, mergedLines, i + 1);
    CountAppend(diff, emitted, Addition);
    CountAppend(diff, emitted, Removal);
  }

  /** The loop body of `generateDiffPreview` for one index: the records it
      pushes and how much it adds to each counter. */
  method CompareLines(i: nat, originalLine: string, mergedLine: string)
    returns (emitted: seq<DiffRecord>, added: nat, removed: nat)
    ensures removed == (if originalLine != "" && originalLine != mergedLine then 1 else 0)
    ensures added == (if mergedLine != "" && mergedLine != originalLine then 1 else 0)
    ensures |emitted| == added + removed
    ensures removed == 1 ==> emitted[0] == DiffRecord(i, Removal, originalLine)
    ensures added == 1 ==> emitted[|emitted| - 1] == DiffRecord(i, Addition, mergedLine)
  {
    emitted, added, removed := [], 0, 0;
    if originalLine != mergedLine {
      if originalLine != "" && mergedLine == "" {
        emitted := [DiffRecord(i, Removal, originalLine)];
        removed := 1;
      } else if originalLine == "" && mergedLine != "" {
        emitted := [DiffRecord(i, Addition, mergedLine)];
        added := 1;
      } else {
        emitted := [DiffRecord(i, Removal, originalLine), DiffRecord(i, Addition, mergedLine)];
        removed := 1;
        added := 1;
      }
    }
  }

  /** What one pass of the loop body pushes, stated by its counters, is
      exactly the records `RecordsAt` assigns to that index, and each
      counter counts the records of its kind. */
  lemma LineOutcomeIsRecordsAt(i: nat, originalLine: string, mergedLine: string,
                               emitted: seq<DiffRecord>, added: nat, removed: nat)
    requires removed == (if originalLine != "" && originalLine != mergedLine then 1 else 0)
    requires added == (if mergedLine != "" && mergedLine != originalLine then 1 else 0)
    requires |emitted| == added + removed
    requires removed == 1 ==> emitted[0] == DiffRecord(i, Removal, originalLine)
    requires added == 1 ==> emitted[|emitted| - 1] == DiffRecord(i, Addition, mergedLine)
    ensures emitted == RecordsAt(i, originalLine, mergedLine)
    ensures added == Count(emitted, Addition) && removed == Count(emitted, Removal)
  {
    CountRecordsAt(i, originalLine, mergedLine);
  }

  /** One step of `Records`. */
  lemma RecordsStep(originalLines: seq<string>, mergedLines: seq<string>, k: nat)
    requires k > 0
    ensures Records(originalLines, mergedLines, k)
            == Records(originalLines, mergedLines, k - 1)
               + RecordsAt(k - 1, Pad(originalLines, k - 1), Pad(mergedLines, k - 1))
  {
  }

  lemma {:induction false} CountAppend(a: seq<DiffRecord>, b: seq<DiffRecord>, c: Change)
    ensures Count(a + b, c) == Count(a, c) + Count(b, c)
    decreases |b|
  {
    if |b| > 0 {
      var ab := a + b;
      assert ab[..|ab| - 1] == a + b[..|b| - 1];
      CountAppend(a, b[..|b| - 1], c);
    } else {
      assert a + b == a;
    }
  }

  /** Keys strictly increase along the list. */
  predicate Sorted(records: seq<DiffRecord>) {
    forall j, l :: 0 <= j < l < |records| ==> Key(records[j]) < Key(records[l])
  }

  /** The records of one index carry that index, are faithful to it, are
      at most two, and put the removal first. */
  lemma RecordsAtWellFormed(originalLines: seq<string>, mergedLines: seq<string>, i: nat, t: nat)
    requires t < |Emitted(originalLines, mergedLines)(i)|
    ensures |Emitted(originalLines, mergedLines)(i)| <= 2
    ensures Emitted(originalLines, mergedLines)(i)[t].index == i
    ensures Faithful(originalLines, mergedLines, Emitted(originalLines, mergedLines)(i)[t])
    ensures t > 0 ==> Emitted(originalLines, mergedLines)(i)[t].change == Addition
                      && Emitted(originalLines, mergedLines)(i)[0].change == Removal
  {
  }

  /** Concatenations only grow. */
  lemma {:induction false} FlattenGrows(chunk: nat -> seq<DiffRecord>, i: nat, k: nat)
    ensures i <= k ==> |Flatten(chunk, i)| <= |Flatten(chunk, k)|
    decreases k
  {
    if i < k {
      FlattenGrows(chunk, i, k - 1);
    }
  }

  /** Element `t` of `chunk(i)` sits in the concatenation right after the
      chunks before `i`. */
  lemma {:induction false} FlattenAt(chunk: nat -> seq<DiffRecord>, k: nat, i: nat, t: nat)
    requires i < k && t < |chunk(i)|
    ensures |Flatten(chunk, i)| + t < |Flatten(chunk, k)|
    ensures Flatten(chunk, k)[|Flatten(chunk, i)| + t] == chunk(i)[t]
    decreases k
  {
    if i < k - 1 {
      FlattenAt(chunk, k - 1, i, t);
    }
  }

  /** Every element of the concatenation comes from exactly one place: the
      chunk `i` whose span covers position `j`. */
  lemma {:induction false} FlattenLocate(chunk: nat -> seq<DiffRecord>, k: nat, j: nat) returns (i: nat, t: nat)
    requires j < |Flatten(chunk, k)|
    ensures i < k && t < |chunk(i)|
    ensures j == |Flatten(chunk, i)| + t
    ensures Flatten(chunk, k)[j] == chunk(i)[t]
    decreases k
  {
    if j < |Flatten(chunk, k - 1)| {
      i, t := FlattenLocate(chunk, k - 1, j);
    } else {
      i, t := k - 1, j - |Flatten(chunk, k - 1)|;
    }
  }

  /** Counting a kind over the concatenation adds up the chunks: when each
      chunk holds one record of kind `c` exactly where `p` holds, the count
      is the number of such indices. */
  lemma {:induction false} FlattenCount(chunk: nat -> seq<DiffRecord>, p: nat -> bool, c: Change, k: nat)
    requires forall i: nat :: i < k ==> Count(chunk(i), c) == (if p(i) then 1 else 0)
    ensures Count(Flatten(chunk, k), c) == Tally(p, k)
    decreases k
  {
    if k > 0 {
      FlattenCount(chunk, p, c, k - 1);
      CountAppend(Flatten(chunk, k - 1), chunk(k - 1), c);
    }
  }

  /** The concatenation is empty exactly when every chunk is. */
  lemma {:induction false} FlattenEmpty(chunk: nat -> seq<DiffRecord>, k: nat)
    ensures |Flatten(chunk, k)| == 0 <==> forall i: nat :: i < k ==> |chunk(i)| == 0
    decreases k
  {
    if k > 0 {
      FlattenEmpty(chunk, k - 1);
      if |Flatten(chunk, k)| == 0 {
        forall i: nat | i < k
          ensures |chunk(i)| == 0
        {
          if i < k - 1 {
            assert |Flatten(chunk, k - 1)| == 0;
          }
        }
      }
    }
  }

  /** Every record is faithful to its index, which lies below `k`. */
  lemma RecordFaithful(originalLines: seq<string>, mergedLines: seq<string>, k: nat, j: nat)
    requires j < |Records(originalLines, mergedLines, k)|
    ensures Records(originalLines, mergedLines, k)[j].index < k
    ensures Faithful(originalLines, mergedLines, Records(originalLines, mergedLines, k)[j])
  {
    var i, t := FlattenLocate(Emitted(originalLines, mergedLines), k, j);
    RecordsAtWellFormed(originalLines, mergedLines, i, t);
  }

  /** Each chunk holds records of its own index, in increasing key order. */
  ghost predicate KeyedChunks(chunk: nat -> seq<DiffRecord>) {
    && (forall i: nat, t :: 0 <= t < |chunk(i)| ==> chunk(i)[t].index == i)
    && (forall i: nat, t1, t2 :: 0 <= t1 < t2 < |chunk(i)| ==> Key(chunk(i)[t1]) < Key(chunk(i)[t2]))
  }

  /** Concatenating keyed chunks in index order gives strictly increasing
      keys. */
  lemma FlattenKeyOrder(chunk: nat -> seq<DiffRecord>, k: nat, j: nat, l: nat)
    requires KeyedChunks(chunk)
    requires j < l < |Flatten(chunk, k)|
    ensures Key(Flatten(chunk, k)[j]) < Key(Flatten(chunk, k)[l])
  {
    var i1, t1 := FlattenLocate(chunk, k, j);
    var i2, t2 := FlattenLocate(chunk, k, l);
    assert |Flatten(chunk, i2 + 1)| == |Flatten(chunk, i2)| + |chunk(i2)|;
    FlattenGrows(chunk, i2 + 1, i1);
    if i1 == i2 {
      assert t1 < t2;
    }
  }

  /** The chunks of the comparison loop are keyed. */
  lemma EmittedKeyed(originalLines: seq<string>, mergedLines: seq<string>)
    ensures KeyedChunks(Emitted(originalLines, mergedLines))
  {
    var chunk := Emitted(originalLines, mergedLines);
    forall i: nat, t | 0 <= t < |chunk(i)|
      ensures chunk(i)[t].index == i
    {
      RecordsAtWellFormed(originalLines, mergedLines, i, t);
    }
    forall i: nat, t1, t2 | 0 <= t1 < t2 < |chunk(i)|
      ensures Key(chunk(i)[t1]) < Key(chunk(i)[t2])
    {
      RecordsAtWellFormed(originalLines, mergedLines, i, t2);
      RecordsAtWellFormed(originalLines, mergedLines, i, t1);
    }
  }

  /** Records come strictly in (index, removal-before-addition) order. */
  lemma RecordsKeyOrder(originalLines: seq<string>, mergedLines: seq<string>, k: nat, j: nat, l: nat)
    requires j < l < |Records(originalLines, mergedLines, k)|
    ensures Key(Records(originalLines, mergedLines, k)[j]) < Key(Records(originalLines, mergedLines, k)[l])
  {
    EmittedKeyed(originalLines, mergedLines);
    FlattenKeyOrder(Emitted(originalLines, mergedLines), k, j, l);
  }

  lemma RecordsSorted(originalLines: seq<string>, mergedLines: seq<string>, k: nat)
    ensures Sorted(Records(originalLines, mergedLines, k))
  {
    forall j, l | 0 <= j < l < |Records(originalLines, mergedLines, k)|
      ensures Key(Records(originalLines, mergedLines, k)[j]) < Key(Records(originalLines, mergedLines, k)[l])
    {
      RecordsKeyOrder(originalLines, mergedLines, k, j, l);
    }
  }

  /** An index below `k` that removes a line has its removal record at the
      start of its span, and one that adds a line has its addition record
      at the end of its span. */
  lemma ChangesRecorded(originalLines: seq<string>, mergedLines: seq<string>, k: nat, i: nat)
    requires i < k
    ensures RemovedAt(originalLines, mergedLines, i) ==>
              |Records(originalLines, mergedLines, i)| < |Records(originalLines, mergedLines, k)|
              && Records(originalLines, mergedLines, k)[|Records(originalLines, mergedLines, i)|]
                 == DiffRecord(i, Removal, Pad(originalLines, i))
    ensures RemovedAt(originalLines, mergedLines, i) && AddedAt(originalLines, mergedLines, i) ==>
              |Records(originalLines, mergedLines, i)| + 1 < |Records(originalLines, mergedLines, k)|
              && Records(originalLines, mergedLines, k)[|Records(originalLines, mergedLines, i)| + 1]
                 == DiffRecord(i, Addition, Pad(mergedLines, i))
    ensures AddedAt(originalLines, mergedLines, i) ==>
              DiffRecord(i, Addition, Pad(mergedLines, i)) in Records(originalLines, mergedLines, k)
  {
    var chunk := Emitted(originalLines, mergedLines);
    var here := chunk(i);
    if |here| > 0 {
      FlattenAt(chunk, k, i, 0);
      FlattenAt(chunk, k, i, |here| - 1);
    }
  }

  /** What one index adds to each counter. */
  lemma CountRecordsAt(i: nat, originalLine: string, mergedLine: string)
    ensures Count(RecordsAt(i, originalLine, mergedLine), Removal)
            == (if originalLine != "" && originalLine != mergedLine then 1 else 0)
    ensures Count(RecordsAt(i, originalLine, mergedLine), Addition)
            == (if mergedLine != "" && mergedLine != originalLine then 1 else 0)
    ensures |RecordsAt(i, originalLine, mergedLine)|
            == Count(RecordsAt(i, originalLine, mergedLine), Addition) + Count(RecordsAt(i, originalLine, mergedLine), Removal)
  {
    var here := RecordsAt(i, originalLine, mergedLine);
    if |here| == 2 {
      assert here[..1] == [here[0]];
      assert here[..1][..0] == [];
    } else if |here| == 1 {
      assert here[..0] == [];
    }
  }

  /** Every record is either a removal or an addition. */
  lemma {:induction false} CountTotal(records: seq<DiffRecord>)
    ensures |records| == Count(records, Addition) + Count(records, Removal)
    decreases |records|
  {
    if |records| > 0 {
      CountTotal(records[..|records| - 1]);
    }
  }

  /** The two counters agree with counting changed indices. */
  lemma RecordsCounts(originalLines: seq<string>, mergedLines: seq<string>, k: nat)
    ensures Count(Records(originalLines, mergedLines, k), Removal) == RemovedBefore(originalLines, mergedLines, k)
    ensures Count(Records(originalLines, mergedLines, k), Addition) == AddedBefore(originalLines, mergedLines, k)
  {
    var chunk := Emitted(originalLines, mergedLines);
    forall i: nat | i < k
      ensures Count(chunk(i), Removal) == (if Removes(originalLines, mergedLines)(i) then 1 else 0)
      ensures Count(chunk(i), Addition) == (if Adds(originalLines, mergedLines)(i) then 1 else 0)
    {
      CountRecordsAt(i, Pad(originalLines, i), Pad(mergedLines, i));
    }
    FlattenCount(chunk, Removes(originalLines, mergedLines), Removal, k);
    FlattenCount(chunk, Adds(originalLines, mergedLines), Addition, k);
  }

  /** The padded lines agree at every index below `k`. */
  predicate AgreeBelow(originalLines: seq<string>, mergedLines: seq<string>, k: nat) {
    forall i :: 0 <= i < k ==> Pad(originalLines, i) == Pad(mergedLines, i)
  }

  /** No records up to `k` exactly when every index below `k` agrees. */
  lemma RecordsEmptyIff(originalLines: seq<string>, mergedLines: seq<string>, k: nat)
    ensures |Records(originalLines, mergedLines, k)| == 0 <==> AgreeBelow(originalLines, mergedLines, k)
  {
    var chunk := Emitted(originalLines, mergedLines);
    FlattenEmpty(chunk, k);
    forall i: nat
      ensures |chunk(i)| == 0 <==> Pad(originalLines, i) == Pad(mergedLines, i)
    {
    }
  }

  /** The counters of `generateDiffPreview`, taken over the untruncated
      list: removals are the indices whose original line is non-empty and
      differs, additions those whose merged line is non-empty and differs,
      and the list holds one record per counted change. */
  lemma DiffCounts(original: string, merged: string)
    ensures Count(Diff(original, merged), Removal)
            == RemovedBefore(Split(original, '\n'), Split(merged, '\n'), MaxLength(Split(original, '\n'), Split(merged, '\n')))
    ensures Count(Diff(original, merged), Addition)
            == AddedBefore(Split(original, '\n'), Split(merged, '\n'), MaxLength(Split(original, '\n'), Split(merged, '\n')))
    ensures |Diff(original, merged)| == Count(Diff(original, merged), Addition) + Count(Diff(original, merged), Removal)
  {
    var ol := Split(original, '\n');
    var ml := Split(merged, '\n');
    RecordsCounts(ol, ml, MaxLength(ol, ml));
    CountTotal(Diff(original, merged));
  }

  /** The record list says what the texts hold and keeps their order:
      every record is faithful to its line index, indices never decrease,
      every index that removes or adds a line has its record, and at an
      index where both lines are non-empty and differ, the removal of the
      original line is immediately followed by the addition of the merged
      one. */
  lemma DiffOrder(original: string, merged: string)
    ensures forall j :: 0 <= j < |Diff(original, merged)| ==>
              Faithful(Split(original, '\n'), Split(merged, '\n'), Diff(original, merged)[j])
    ensures forall j, l :: 0 <= j < l < |Diff(original, merged)| ==>
              Diff(original, merged)[j].index <= Diff(original, merged)[l].index
    ensures forall i: nat :: RemovedAt(Split(original, '\n'), Split(merged, '\n'), i) ==>
              DiffRecord(i, Removal, Pad(Split(original, '\n'), i)) in Diff(original, merged)
    ensures forall i: nat :: AddedAt(Split(original, '\n'), Split(merged, '\n'), i) ==>
              DiffRecord(i, Addition, Pad(Split(merged, '\n'), i)) in Diff(original, merged)
    ensures forall i: nat :: RemovedAt(Split(original, '\n'), Split(merged, '\n'), i)
                             && AddedAt(Split(original, '\n'), Split(merged, '\n'), i) ==>
              exists j :: 0 <= j < |Diff(original, merged)| - 1
                          && Diff(original, merged)[j] == DiffRecord(i, Removal, Pad(Split(original, '\n'), i))
                          && Diff(original, merged)[j + 1] == DiffRecord(i, Addition, Pad(Split(merged, '\n'), i))
  {
    var ol := Split(original, '\n');
    var ml := Split(merged, '\n');
    var n := MaxLength(ol, ml);
    var diff := Records(ol, ml, n);
    assert Diff(original, merged) == diff;
    forall j | 0 <= j < |diff|
      ensures Faithful(ol, ml, diff[j])
    {
      RecordFaithful(ol, ml, n, j);
    }
    RecordsSorted(ol, ml, n);
    RecordsIndexOrder(diff);
    forall i: nat | RemovedAt(ol, ml, i) || AddedAt(ol, ml, i)
      ensures RemovedAt(ol, ml, i) ==> DiffRecord(i, Removal, Pad(ol, i)) in diff
      ensures AddedAt(ol, ml, i) ==> DiffRecord(i, Addition, Pad(ml, i)) in diff
      ensures RemovedAt(ol, ml, i) && AddedAt(ol, ml, i) ==>
                exists j :: 0 <= j < |diff| - 1
                            && diff[j] == DiffRecord(i, Removal, Pad(ol, i))
                            && diff[j + 1] == DiffRecord(i, Addition, Pad(ml, i))
    {
      assert n <= i ==> Pad(ol, i) == "" && Pad(ml, i) == "";
      ChangesRecorded(ol, ml, n, i);
      var j := |Records(ol, ml, i)|;
      if RemovedAt(ol, ml, i) {
        assert diff[j] == DiffRecord(i, Removal, Pad(ol, i));
      }
    }
  }

  /** Under the key order, record indices never decrease. */
  lemma RecordsIndexOrder(records: seq<DiffRecord>)
    requires Sorted(records)
    ensures forall j, l :: 0 <= j < l < |records| ==> records[j].index <= records[l].index
  {
    forall j, l | 0 <= j < l < |records|
      ensures records[j].index <= records[l].index
    {
      assert Key(records[j]) < Key(records[l]);
    }
  }

  lemma PadOfSplitHasNoNewline(s: string, i: nat)
    ensures '\n' !in Pad(Split(s, '\n'), i)
  {
    SplitPiecesLackSeparator(s, '\n');
  }

  /** The summary line starts with a digit and holds no newline. */
  lemma SummaryShape(added: nat, removed: nat)
    ensures |Summary(added, removed)| > 0 && IsDigit(Summary(added, removed)[0])
    ensures '\n' !in Summary(added, removed)
  {
    var a := NatToString(added);
    var r := NatToString(removed);
    assert Summary(added, removed) == a + " additions, " + r + " deletions";
    assert forall k :: 0 <= k < |a| ==> a[k] != '\n';
    assert forall k :: 0 <= k < |r| ==> r[k] != '\n';
  }

  /** The preview is `"No changes detected"` exactly when the padded lines
      of the two texts agree at every index. */
  lemma {:induction false} NoChangesIff(original: string, merged: string)
    ensures Preview(original, merged) == NoChanges <==> LinesAgree(original, merged)
  {
    var ol := Split(original, '\n');
    var ml := Split(merged, '\n');
    var n := MaxLength(ol, ml);
    var diff := Diff(original, merged);
    assert diff == Records(ol, ml, n);
    RecordsEmptyIff(ol, ml, n);
    if |diff| > 0 {
      var added := Count(diff, Addition);
      var removed := Count(diff, Removal);
      SummaryShape(added, removed);
      var p := Preview(original, merged);
      assert p == Summary(added, removed) + "\n" + Join(RenderRecords(TakeLast(diff, PreviewLimit)), "\n");
      assert p[0] == Summary(added, removed)[0];
      assert p != NoChanges by { assert NoChanges[0] == 'N'; }
      assert !AgreeBelow(ol, ml, n);
      var i :| 0 <= i < n && Pad(ol, i) != Pad(ml, i);
      assert !LinesAgree(original, merged);
    } else {
      assert AgreeBelow(ol, ml, n);
      forall i: nat
        ensures Pad(ol, i) == Pad(ml, i)
      {
        if i >= n {
          assert Pad(ol, i) == "" == Pad(ml, i);
        }
      }
    }
  }

  /** Identical texts have no changes. */
  lemma PreviewOfSameText(a: string)
    ensures Preview(a, a) == NoChanges
  {
    NoChangesIff(a, a);
  }

  /** A trailing newline is invisible: the extra empty last line reads the
      same as a missing one. */
  lemma PreviewIgnoresTrailingNewline(a: string)
    ensures Preview(a, a + "\n") == NoChanges
  {
    SplitConcat(a, "", '\n');
    assert a + "\n" == a + ['\n'] + "";
    var ol := Split(a, '\n');
    assert Split(a + "\n", '\n') == ol + [""];
    forall i: nat
      ensures Pad(ol, i) == Pad(ol + [""], i)
    {
    }
    NoChangesIff(a, a + "\n");
  }

  /** No record text holds a newline. */
  predicate SingleLineTexts(records: seq<DiffRecord>) {
    forall j :: 0 <= j < |records| ==> '\n' !in records[j].text
  }

  /** Each record carries one split line, so none holds a newline. */
  lemma DiffIsSingleLine(original: string, merged: string)
    ensures SingleLineTexts(Diff(original, merged))
  {
    var ol := Split(original, '\n');
    var ml := Split(merged, '\n');
    var diff := Records(ol, ml, MaxLength(ol, ml));
    assert Diff(original, merged) == diff;
    forall j | 0 <= j < |diff|
      ensures '\n' !in diff[j].text
    {
      RecordFaithful(ol, ml, MaxLength(ol, ml), j);
      PadOfSplitHasNoNewline(original, diff[j].index);
      PadOfSplitHasNoNewline(merged, diff[j].index);
    }
  }

  /** Rendering adds a two-character marker and no newline. */
  lemma RenderedRecordsHaveNoNewline(records: seq<DiffRecord>)
    requires SingleLineTexts(records)
    ensures forall k :: 0 <= k < |RenderRecords(records)| ==> '\n' !in RenderRecords(records)[k]
  {
    forall k | 0 <= k < |records|
      ensures '\n' !in RenderRecord(records[k])
    {
      var text := records[k].text;
      assert '\n' !in text;
      assert RenderRecord(records[k]) == "- " + text || RenderRecord(records[k]) == "+ " + text;
    }
  }

  /** Split back on newlines, a non-empty rendering is its summary line
      followed by the rendered kept records. */
  lemma RenderPreviewPieces(diff: seq<DiffRecord>, added: nat, removed: nat)
    requires |diff| > 0 && SingleLineTexts(diff)
    ensures Split(RenderPreview(diff, added, removed), '\n')
            == [Summary(added, removed)] + RenderRecords(TakeLast(diff, PreviewLimit))
  {
    var tail := TakeLast(diff, PreviewLimit);
    assert SingleLineTexts(tail) by {
      forall j | 0 <= j < |tail|
        ensures '\n' !in tail[j].text
      {
        assert tail[j] == diff[|diff| - |tail| + j];
      }
    }
    var rendered := RenderRecords(tail);
    var summary := Summary(added, removed);
    RenderedRecordsHaveNoNewline(tail);
    SplitJoin(rendered, '\n');
    SummaryShape(added, removed);
    SplitWithoutSeparator(summary, '\n');
    SplitConcat(summary, Join(rendered, "\n"), '\n');
    assert RenderPreview(diff, added, removed) == summary + ['\n'] + Join(rendered, "\n");
  }

  /** The lines of a non-empty rendering, once split back: the summary
      line followed by the last `min(25, |diff|)` records, one per line,
      each starting with `+ ` or `- `. */
  lemma PiecesLayout(pieces: seq<string>, diff: seq<DiffRecord>, summary: string)
    requires pieces == [summary] + RenderRecords(TakeLast(diff, PreviewLimit))
    ensures |pieces| == 1 + Min(PreviewLimit, |diff|)
    ensures pieces[0] == summary
    ensures forall k :: 1 <= k < |pieces| ==>
              pieces[k] == RenderRecord(diff[|diff| - Min(PreviewLimit, |diff|) + k - 1])
    ensures forall k :: 1 <= k < |pieces| ==>
              StartsWith(pieces[k], "+ ") || StartsWith(pieces[k], "- ")
  {
    var tail := TakeLast(diff, PreviewLimit);
    forall k | 1 <= k < |pieces|
      ensures pieces[k] == RenderRecord(diff[|diff| - |tail| + k - 1])
      ensures StartsWith(pieces[k], "+ ") || StartsWith(pieces[k], "- ")
    {
      assert pieces[k] == RenderRecords(tail)[k - 1];
      assert tail[k - 1] == diff[|diff| - |tail| + k - 1];
      RenderRecordMarker(tail[k - 1]);
    }
  }

  /** A rendered record starts with its two-character marker. */
  lemma RenderRecordMarker(r: DiffRecord)
    ensures StartsWith(RenderRecord(r), "+ ") || StartsWith(RenderRecord(r), "- ")
  {
  }

  /** A non-empty rendering is never the empty string. */
  lemma RenderPreviewNonEmpty(diff: seq<DiffRecord>, added: nat, removed: nat)
    requires |diff| > 0
    ensures RenderPreview(diff, added, removed) != ""
  {
    var shown := TakeLast(diff, PreviewLimit);
    assert RenderPreview(diff, added, removed) == Summary(added, removed) + "\n" + Join(RenderRecords(shown), "\n");
  }

  /** When there is any record, the preview is the summary line, counted
      over the full list, followed by the last `min(25, |diff|)` records,
      one per line, each starting with `+ ` or `- `. */
  lemma PreviewLayout(original: string, merged: string)
    requires |Diff(original, merged)| > 0
    ensures |Split(Preview(original, merged), '\n')| == 1 + Min(PreviewLimit, |Diff(original, merged)|)
    ensures Split(Preview(original, merged), '\n')[0]
            == Summary(Count(Diff(original, merged), Addition), Count(Diff(original, merged), Removal))
    ensures forall k :: 1 <= k < |Split(Preview(original, merged), '\n')| ==>
              Split(Preview(original, merged), '\n')[k]
              == RenderRecord(Diff(original, merged)[|Diff(original, merged)| - Min(PreviewLimit, |Diff(original, merged)|) + k - 1])
    ensures forall k :: 1 <= k < |Split(Preview(original, merged), '\n')| ==>
              StartsWith(Split(Preview(original, merged), '\n')[k], "+ ")
              || StartsWith(Split(Preview(original, merged), '\n')[k], "- ")
  {
    var diff := Diff(original, merged);
    var summary := Summary(Count(diff, Addition), Count(diff, Removal));
    var pieces := Split(Preview(original, merged), '\n');
    assert pieces == [summary] + RenderRecords(TakeLast(diff, PreviewLimit)) by {
      DiffIsSingleLine(original, merged);
      assert Preview(original, merged) == RenderPreview(diff, Count(diff, Addition), Count(diff, Removal));
      RenderPreviewPieces(diff, Count(diff, Addition), Count(diff, Removal));
    }
    PiecesLayout(pieces, diff, summary);
  }

  /** Scenario: one changed line gives one removal then one addition. */
  lemma ChangedLineScenario()
    ensures Preview("a\nb", "a\nx") == "1 additions, 1 deletions\n- b\n+ x"
  {
    var diff := [DiffRecord(1, Removal, "b"), DiffRecord(1, Addition, "x")];
    ChangedLineDiff();
    CountRecordsAt(1, "b", "x");
    assert diff == RecordsAt(1, "b", "x");
    assert Count(diff, Addition) == 1 && Count(diff, Removal) == 1;
    ChangedLineRendering();
  }

  lemma ChangedLineDiff()
    ensures Diff("a\nb", "a\nx") == [DiffRecord(1, Removal, "b"), DiffRecord(1, Addition, "x")]
  {
    var ol: seq<string> := ["a", "b"];
    var ml: seq<string> := ["a", "x"];
    assert Diff("a\nb", "a\nx") == Records(ol, ml, 2) by {
      TwoLines("a", "b");
      TwoLines("a", "x");
    }
    assert Records(ol, ml, 1) == [] by {
      RecordsStep(ol, ml, 1);
      assert Pad(ol, 0) == Pad(ml, 0);
    }
    assert Records(ol, ml, 2) == RecordsAt(1, "b", "x") by {
      RecordsStep(ol, ml, 2);
      assert Pad(ol, 1) == "b" && Pad(ml, 1) == "x";
    }
  }

  lemma TwoLines(first: string, second: string)
    requires '\n' !in first && '\n' !in second
    ensures Split(first + "\n" + second, '\n') == [first, second]
  {
    assert first + "\n" + second == first + ['\n'] + second;
    SplitConcat(first, second, '\n');
    SplitWithoutSeparator(first, '\n');
    SplitWithoutSeparator(second, '\n');
  }

  lemma ChangedLineRendering()
    ensures RenderPreview([DiffRecord(1, Removal, "b"), DiffRecord(1, Addition, "x")], 1, 1)
            == "1 additions, 1 deletions\n- b\n+ x"
  {
    var diff := [DiffRecord(1, Removal, "b"), DiffRecord(1, Addition, "x")];
    assert Summary(1, 1) == "1 additions, 1 deletions" by {
      assert NatToString(1) == "1";
    }
    assert TakeLast(diff, PreviewLimit) == diff;
    assert RenderRecords(diff) == ["- b", "+ x"] by {
      assert RenderRecord(diff[0]) == "- b" && RenderRecord(diff[1]) == "+ x";
    }
    assert Join(["- b", "+ x"], "\n") == "- b\n+ x";
  }
}
