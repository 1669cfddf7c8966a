/**
 Splitting a stream of epoch records into one file per epoch.  The loop buffers
 the newest record of the current epoch and writes it when the epoch changes.
 A file is modelled by the number of the input line whose record it holds.
 */
module JsonlSplit {
  import opened Wrappers

  /** Blank and malformed lines are skipped; a record has a tag or not and may be JSON `null`. */
  datatype Line = Skipped | Record(tag: Option<int>, isNull: bool)

  datatype Entry = Entry(epoch: int, line: nat, isNull: bool)

  function Untagged(lines: seq<Line>): nat {
    if lines == [] then 0
    else
      var n := |lines| - 1;
      Untagged(lines[..n]) + if LacksTag(lines[n]) then 1 else 0
  }

  /** An untagged record gets minus the number of untagged ones before it. */
  function EpochOf(tag: Option<int>, untagged: int): int {
    if tag.Some? then tag.value else -untagged
  }

  /** The records with their epochs. */
  function Tagged(lines: seq<Line>): seq<Entry> {
    if lines == [] then []
    else
      var n := |lines| - 1;
      match lines[n]
      case Skipped => Tagged(lines[..n])
      case Record(tag, isNull) => Tagged(lines[..n]) + [Entry(EpochOf(tag, Untagged(lines[..n])), n, isNull)]
  }

  predicate InOrder(es: seq<Entry>) {
    forall i, j | 0 <= i < j < |es| :: es[i].line < es[j].line
  }

  lemma {:induction false} TaggedInOrder(lines: seq<Line>)
    ensures forall i | 0 <= i < |Tagged(lines)| :: Tagged(lines)[i].line < |lines|
    ensures InOrder(Tagged(lines))
  {
    if lines != [] {
      TaggedInOrder(lines[..|lines| - 1]);
    }
  }

  // ---- Fallback tags -----------------------------------------------------------------------------

  lemma {:induction false} TaggedAt(lines: seq<Line>, i: nat)
    requires i < |Tagged(lines)|
    ensures var e := Tagged(lines)[i];
            && e.line < |lines| && lines[e.line].Record? && e.isNull == lines[e.line].isNull
            && e.epoch == EpochOf(lines[e.line].tag, Untagged(lines[..e.line]))
  {
    var n := |lines| - 1;
    if i < |Tagged(lines[..n])| {
      TaggedAt(lines[..n], i);
      assert lines[..n][..Tagged(lines[..n])[i].line] == lines[..Tagged(lines[..n])[i].line];
    }
  }

  /** The record of this entry carries no epoch of its own. */
  predicate Fallback(lines: seq<Line>, e: Entry) {
    e.line < |lines| && LacksTag(lines[e.line])
  }

  lemma {:induction false} UntaggedBetween(lines: seq<Line>, m: nat, n: nat)
    requires m <= n <= |lines| && forall k | m <= k < n :: !LacksTag(lines[k])
    ensures Untagged(lines[..n]) == Untagged(lines[..m])
    decreases n
  {
    if m < n {
      UntaggedBetween(lines, m, n - 1);
      assert lines[..n][..n - 1] == lines[..n - 1];
    }
  }

  /** A record with an epoch keeps it. */
  lemma OwnTag(lines: seq<Line>, i: nat)
    requires i < |Tagged(lines)| && !Fallback(lines, Tagged(lines)[i])
    ensures var e := Tagged(lines)[i];
            e.line < |lines| && lines[e.line].Record? && lines[e.line].tag == Some(e.epoch)
  {
    TaggedAt(lines, i);
  }

  /** Fallback tags start at zero. */
  lemma FirstFallback(lines: seq<Line>, i: nat)
    requires i < |Tagged(lines)| && Fallback(lines, Tagged(lines)[i])
    requires forall k | 0 <= k < Tagged(lines)[i].line :: !LacksTag(lines[k])
    ensures Tagged(lines)[i].epoch == 0
  {
    TaggedAt(lines, i);
    UntaggedBetween(lines, 0, Tagged(lines)[i].line);
    assert lines[..0] == [];
  }

  /** They fall by one from each untagged record to the next. */
  lemma FallbackFalls(lines: seq<Line>, i: nat, j: nat)
    requires i < j < |Tagged(lines)| && Fallback(lines, Tagged(lines)[i]) && Fallback(lines, Tagged(lines)[j])
    requires forall k | Tagged(lines)[i].line < k < Tagged(lines)[j].line :: !LacksTag(lines[k])
    ensures Tagged(lines)[j].epoch == Tagged(lines)[i].epoch - 1
  {
    TaggedAt(lines, i);
    TaggedAt(lines, j);
    TaggedInOrder(lines);
    var m := Tagged(lines)[i].line;
    UntaggedBetween(lines, m + 1, Tagged(lines)[j].line);
    assert lines[..m + 1][..m] == lines[..m] && lines[..m + 1][m] == lines[m];
  }

  /** They are never positive, so they never meet a record of a positive epoch. */
  lemma FallbackMeetsNoEpoch(lines: seq<Line>, i: nat, j: nat)
    requires i < |Tagged(lines)| && j < |Tagged(lines)|
    requires Fallback(lines, Tagged(lines)[i]) && !Fallback(lines, Tagged(lines)[j])
    ensures Tagged(lines)[i].epoch <= 0
    ensures Tagged(lines)[j].epoch > 0 ==> Tagged(lines)[i].epoch != Tagged(lines)[j].epoch
  {
    TaggedAt(lines, i);
  }

  type Files = map<int, nat>

  /** Writing a `null` record is refused. */
  function Flush(files: Files, e: Option<Entry>): Files {
    if e.None? || e.value.isNull then files else files[e.value.epoch := e.value.line]
  }

  /** The simple writer: every record straight to its file. */
  function Direct(es: seq<Entry>): Files {
    if es == [] then map[] else Flush(Direct(es[..|es| - 1]), Some(es[|es| - 1]))
  }

  function LastEntry(es: seq<Entry>): Option<Entry> {
    if es == [] then None else Some(es[|es| - 1])
  }

  /** What the buffering loop has written so far; the newest entry is still in the buffer. */
  function Buffered(es: seq<Entry>): Files {
    if |es| <= 1 then map[]
    else
      var n := |es| - 1;
      if es[n].epoch == es[n - 1].epoch then Buffered(es[..n]) else Flush(Buffered(es[..n]), Some(es[n - 1]))
  }

  // ---- What each file holds --------------------------------------------------------------------

  predicate Kept(es: seq<Entry>, i: nat, e: int) {
    i < |es| && es[i].epoch == e && !es[i].isNull
  }

  /** A kept record directly followed by another epoch. */
  predicate Closed(es: seq<Entry>, i: nat, e: int) {
    Kept(es, i, e) && i + 1 < |es| && es[i + 1].epoch != e
  }

  /** A kept record not directly followed by its own epoch. */
  predicate RunEnd(es: seq<Entry>, i: nat, e: int) {
    Kept(es, i, e) && (i + 1 < |es| ==> es[i + 1].epoch != e)
  }

  function KeptAt(es: seq<Entry>, e: int): set<nat> {
    set i: nat | i < |es| && Kept(es, i, e)
  }

  function ClosedAt(es: seq<Entry>, e: int): set<nat> {
    set i: nat | i < |es| && Closed(es, i, e)
  }

  function RunEndsAt(es: seq<Entry>, e: int): set<nat> {
    set i: nat | i < |es| && RunEnd(es, i, e)
  }

  ghost predicate IsNewest(i: nat, chosen: set<nat>) {
    i in chosen && forall j | j in chosen :: j <= i
  }

  /** The file of epoch `e` holds the newest chosen record, and exists only if there is one. */
  ghost predicate HoldsNewest(files: Files, es: seq<Entry>, e: int, chosen: set<nat>) {
    if e in files then exists i: nat :: IsNewest(i, chosen) && i < |es| && files[e] == es[i].line
    else chosen == {}
  }

  lemma {:induction false} DirectHolds(es: seq<Entry>, e: int)
    ensures HoldsNewest(Direct(es), es, e, KeptAt(es, e))
  {
    if es != [] {
      var n := |es| - 1;
      var before, after := KeptAt(es[..n], e), KeptAt(es, e);
      DirectHolds(es[..n], e);
      assert forall i: nat | i < n :: i in before <==> i in after;
      if Kept(es, n, e) {
        assert IsNewest(n, after) && Direct(es)[e] == es[n].line;
      } else if e in Direct(es) {
        var i: nat :| IsNewest(i, before) && i < n && Direct(es)[e] == es[..n][i].line;
        assert IsNewest(i, after) && es[i].line == es[..n][i].line;
      } else {
        assert after == before;
      }
    }
  }

  lemma BufferedSnoc(es: seq<Entry>, x: Entry)
    ensures Buffered(es + [x]) ==
            if es == [] || x.epoch == es[|es| - 1].epoch then Buffered(es) else Flush(Buffered(es), LastEntry(es))
  {
    assert (es + [x])[..|es|] == es;
  }

  lemma ClosedSnoc(es: seq<Entry>, x: Entry, e: int)
    ensures ClosedAt(es + [x], e) ==
            ClosedAt(es, e) + if es != [] && Kept(es, |es| - 1, e) && x.epoch != e then {|es| - 1} else {}
  {
  }

  lemma BufferedHoldsSnoc(es: seq<Entry>, x: Entry, e: int)
    requires HoldsNewest(Buffered(es), es, e, ClosedAt(es, e))
    ensures HoldsNewest(Buffered(es + [x]), es + [x], e, ClosedAt(es + [x], e))
  {
    var all, files := es + [x], Buffered(es + [x]);
    var before, after := ClosedAt(es, e), ClosedAt(all, e);
    BufferedSnoc(es, x);
    ClosedSnoc(es, x, e);
    if es != [] && Kept(es, |es| - 1, e) && x.epoch != e {
      assert IsNewest(|es| - 1, after) && files[e] == all[|es| - 1].line;
    } else if e in files {
      var i: nat :| IsNewest(i, before) && i < |es| && files[e] == es[i].line;
      assert all[i] == es[i] && IsNewest(i, after);
    }
  }

  lemma {:induction false} BufferedHolds(es: seq<Entry>, e: int)
    ensures HoldsNewest(Buffered(es), es, e, ClosedAt(es, e))
  {
    if es != [] {
      BufferedHolds(es[..|es| - 1], e);
      BufferedHoldsSnoc(es[..|es| - 1], es[|es| - 1], e);
      assert es[..|es| - 1] + [es[|es| - 1]] == es;
    }
  }

  /** After the final flush each file holds the newest record that ends its run. */
  lemma SplitHolds(es: seq<Entry>, e: int)
    ensures HoldsNewest(Flush(Buffered(es), LastEntry(es)), es, e, RunEndsAt(es, e))
  {
    BufferedHolds(es, e);
    var files := Flush(Buffered(es), LastEntry(es));
    var n := |es|;
    assert RunEndsAt(es, e) == ClosedAt(es, e) + if n > 0 && Kept(es, n - 1, e) then {n - 1} else {};
    if n > 0 && Kept(es, n - 1, e) {
      assert IsNewest(n - 1, RunEndsAt(es, e)) && files[e] == es[n - 1].line;
    } else if e in files {
      var i: nat :| IsNewest(i, ClosedAt(es, e)) && i < n && files[e] == es[i].line;
      assert IsNewest(i, RunEndsAt(es, e));
    }
  }

  // ---- Buffering against writing directly --------------------------------------------------------

  /** No epoch's newest record is followed by a `null` of the same epoch. */
  predicate NewestSurvive(es: seq<Entry>) {
    forall i: nat | i < |es| && Kept(es, i, es[i].epoch) && NoLater(es, i) :: RunEnd(es, i, es[i].epoch)
  }

  predicate NoLater(es: seq<Entry>, i: nat)
    requires i < |es|
  {
    forall j: nat | i < j < |es| :: !Kept(es, j, es[i].epoch)
  }

  lemma NewestIff(es: seq<Entry>, e: int, i: nat)
    ensures i < |es| && Kept(es, i, e) && NoLater(es, i) <==> IsNewest(i, KeptAt(es, e))
  {
    var kept := KeptAt(es, e);
    if IsNewest(i, kept) {
      forall j: nat | i < j < |es| ensures !Kept(es, j, e) {
        assert j !in kept;
      }
    }
  }

  lemma SameFileIff(es: seq<Entry>, e: int)
    requires InOrder(es)
    ensures Get(Flush(Buffered(es), LastEntry(es)), e) == Get(Direct(es), e) <==>
            forall i: nat | i < |es| && Kept(es, i, e) && NoLater(es, i) :: RunEnd(es, i, e)
  {
    SplitHolds(es, e);
    DirectHolds(es, e);
    var files, direct := Flush(Buffered(es), LastEntry(es)), Direct(es);
    var kept, ends := KeptAt(es, e), RunEndsAt(es, e);
    assert ends <= kept;
    forall i: nat ensures i < |es| && Kept(es, i, e) && NoLater(es, i) <==> IsNewest(i, kept) {
      NewestIff(es, e, i);
    }
    if e in direct {
      var i: nat :| IsNewest(i, kept) && i < |es| && direct[e] == es[i].line;
      assert forall j: nat | IsNewest(j, kept) :: j == i;
      assert Kept(es, i, e) && NoLater(es, i) && (i in ends <==> RunEnd(es, i, e));
      if e in files {
        var k: nat :| IsNewest(k, ends) && k < |es| && files[e] == es[k].line;
        assert k in kept;
      }
    }
  }

  /** Buffering writes what the simple writer writes exactly when every epoch's newest record survives. */
  lemma BufferingIsDirectIff(lines: seq<Line>)
    ensures var es := Tagged(lines);
            Flush(Buffered(es), LastEntry(es)) == Direct(es) <==> NewestSurvive(es)
  {
    var es := Tagged(lines);
    TaggedInOrder(lines);
    var files, direct := Flush(Buffered(es), LastEntry(es)), Direct(es);
    forall e ensures Get(files, e) == Get(direct, e) <==>
                     forall i: nat | i < |es| && Kept(es, i, e) && NoLater(es, i) :: RunEnd(es, i, e)
    {
      SameFileIff(es, e);
    }
    if NewestSurvive(es) {
      forall e ensures Get(files, e) == Get(direct, e) {}
      MapsAgree(files, direct);
    } else {
      var i: nat :| i < |es| && Kept(es, i, es[i].epoch) && NoLater(es, i) && !RunEnd(es, i, es[i].epoch);
      assert Get(files, es[i].epoch) != Get(direct, es[i].epoch);
    }
  }

  /** Without `null` lines, also across rollbacks, buffering is invisible. */
  lemma BufferingIsDirectWithoutNulls(lines: seq<Line>)
    requires forall i | 0 <= i < |lines| && lines[i].Record? :: !lines[i].isNull
    ensures var es := Tagged(lines); Flush(Buffered(es), LastEntry(es)) == Direct(es)
  {
    BufferingIsDirectIff(lines);
    NoNullEntries(lines);
    var es := Tagged(lines);
    forall i: nat | i < |es| && Kept(es, i, es[i].epoch) && NoLater(es, i) ensures RunEnd(es, i, es[i].epoch) {
      assert i + 1 < |es| ==> !Kept(es, i + 1, es[i].epoch);
    }
  }

  lemma {:induction false} NoNullEntries(lines: seq<Line>)
    requires forall i | 0 <= i < |lines| && lines[i].Record? :: !lines[i].isNull
    ensures forall i | 0 <= i < |Tagged(lines)| :: !Tagged(lines)[i].isNull
  {
    if lines != [] {
      NoNullEntries(lines[..|lines| - 1]);
    }
  }

  /** A `null` taking the fallback tag 0 right after the only record of epoch 0 loses that record. */
  lemma NullLosesEpochZero()
    ensures var es := Tagged([Record(Some(0), false), Record(None, true)]);
            Direct(es) == map[0 := 0] && Flush(Buffered(es), LastEntry(es)) == map[]
  {
    var lines := [Record(Some(0), false), Record(None, true)];
    assert lines[..1] == [Record(Some(0), false)];
    assert lines[..1][..0] == [];
    assert Tagged(lines[..1]) == [Entry(0, 0, false)];
    assert Untagged(lines[..1]) == 0;
    var es := Tagged(lines);
    assert es == [Entry(0, 0, false), Entry(0, 1, true)];
    assert es[..1] == [Entry(0, 0, false)];
  }

  // ---- The loop ----------------------------------------------------------------------------------

  predicate LacksTag(line: Line) {
    line.Record? && line.tag.None?
  }

  /** The line strict mode stops at: the first record without a tag, or the end. */
  function StopLine(lines: seq<Line>): (n: nat)
    ensures n <= |lines|
    ensures forall i | 0 <= i < n :: !LacksTag(lines[i])
    ensures n < |lines| ==> LacksTag(lines[n])
  {
    if lines == [] || LacksTag(lines[0]) then 0 else 1 + StopLine(lines[1..])
  }

  /** Put a record into the buffer, writing the one it replaces when the epoch changes. */
  method Accept(files: Files, epoch: Option<int>, record: Option<Entry>, x: Entry, ghost es: seq<Entry>)
    returns (files': Files, epoch': Option<int>, record': Option<Entry>)
    requires files == Buffered(es) && record == LastEntry(es)
    requires epoch == if record.Some? then Some(record.value.epoch) else None
    ensures files' == Buffered(es + [x]) && record' == LastEntry(es + [x]) && epoch' == Some(x.epoch)
  {
    files', epoch', record' := files, epoch, Some(x);
    BufferedSnoc(es, x);
    if epoch.None? {
      epoch' := Some(x.epoch);
    } else if x.epoch != epoch.value {
      files' := Flush(files, record);
      epoch' := Some(x.epoch);
    }
  }

  lemma TaggedNext(lines: seq<Line>, n: nat)
    requires n < |lines|
    ensures Untagged(lines[..n + 1]) == Untagged(lines[..n]) + if LacksTag(lines[n]) then 1 else 0
    ensures Tagged(lines[..n + 1]) == Tagged(lines[..n]) +
            if lines[n].Skipped? then []
            else [Entry(EpochOf(lines[n].tag, Untagged(lines[..n])), n, lines[n].isNull)]
  {
    assert lines[..n + 1][..n] == lines[..n];
  }

  /** The files after a whole stream, or after an abort that leaves the buffer unwritten. */
  ghost predicate Leaves(files: Files, es: seq<Entry>, aborted: bool) {
    files == if aborted then Buffered(es) else Flush(Buffered(es), LastEntry(es))
  }

  /**
   Non-strict: the files of the whole stream.  Strict: stops at the first
   untagged record with an error, and the run in the buffer is not written.
   */
  method Split(lines: seq<Line>, strict: bool) returns (files: Files, code: int)
    ensures code == if strict && StopLine(lines) < |lines| then 1 else 0
    ensures code == 0 ==> Leaves(files, Tagged(lines), false)
    ensures code == 1 ==> Leaves(files, Tagged(lines[..StopLine(lines)]), true)
  {
    files, code := map[], 0;
    var epoch: Option<int>, record: Option<Entry> := None, None;
    var sequential := 0;
    ghost var es := [];
    for n := 0 to |lines|
      invariant sequential == Untagged(lines[..n]) && es == Tagged(lines[..n])
      invariant strict ==> forall i | 0 <= i < n :: !LacksTag(lines[i])
      invariant code == 0 && files == Buffered(es) && record == LastEntry(es)
      invariant epoch == if record.Some? then Some(record.value.epoch) else None
    {
      if LacksTag(lines[n]) && strict {
        assert StopLine(lines) == n;
        return files, 1;
      }
      TaggedNext(lines, n);
      if lines[n].Record? {
        ghost var next := Tagged(lines[..n + 1]);
        var e := EpochOf(lines[n].tag, sequential);
        if lines[n].tag.None? {
          sequential := sequential + 1;
        }
        files, epoch, record := Accept(files, epoch, record, Entry(e, n, lines[n].isNull), es);
        es := next;
      }
    }
    assert lines[..|lines|] == lines;
    files := Flush(files, record);
  }
}
