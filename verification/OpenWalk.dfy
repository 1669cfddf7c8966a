/**
 The rows of the left panel as the cursor sees them: which rows it may rest
 on, in which order, and that this is the walk of the open part of the tree.
 */
module OpenWalk {
  import opened Wrappers
  import opened JsonPointer
  import opened JsonValues
  import opened Schema
  import opened RowTree

  datatype Item = Item(entry: nat, path: Path, container: bool, expanded: bool)

  datatype Section = Section(items: seq<Item>, expanded: bool)

  /** A collapsed container above an item of the same entry hides it. */
  predicate Hides(c: Item, it: Item) {
    c.entry == it.entry && c.container && !c.expanded && c.path < it.path
  }

  predicate Visible(items: seq<Item>, i: nat)
    requires i < |items|
  {
    forall j | 0 <= j < |items| :: !Hides(items[j], items[i])
  }

  /** Sections hold rows, the first of which is a top-level row. */
  predicate WellFormedSection(s: Section) {
    s.items != [] && s.items[0].path == []
  }

  /** The cursor may rest on visible rows, and on the header of a collapsed section. */
  predicate Legal(ss: seq<Section>, s: nat, i: nat) {
    s < |ss| && if ss[s].expanded then i < |ss[s].items| && Visible(ss[s].items, i) else i == 0
  }

  predicate Before(s: nat, i: nat, t: nat, j: nat) {
    s < t || (s == t && i < j)
  }

  /** Row `(t, j)` is the first legal one after `(s, i)`. */
  ghost predicate IsNext(ss: seq<Section>, s: nat, i: nat, t: nat, j: nat) {
    Legal(ss, t, j) && Before(s, i, t, j) && NoneBetween(ss, s, i, t, j)
  }

  ghost predicate NoneBetween(ss: seq<Section>, s: nat, i: nat, t: nat, j: nat) {
    forall u: nat, k: nat | Legal(ss, u, k) :: !(Before(s, i, u, k) && Before(u, k, t, j))
  }

  /** No legal row follows. */
  ghost predicate IsLast(ss: seq<Section>, s: nat, i: nat) {
    forall u: nat, k: nat | Legal(ss, u, k) :: !Before(s, i, u, k)
  }

  ghost predicate IsFirst(ss: seq<Section>, s: nat, i: nat) {
    forall u: nat, k: nat | Legal(ss, u, k) :: !Before(u, k, s, i)
  }

  /** Steps back and forth cancel: a row has one predecessor and one successor. */
  lemma NextIsInjective(ss: seq<Section>, s: nat, i: nat, t: nat, j: nat, s': nat, i': nat)
    requires Legal(ss, s, i) && Legal(ss, s', i')
    requires IsNext(ss, s, i, t, j) && IsNext(ss, s', i', t, j)
    ensures s == s' && i == i'
  {
    assert !(Before(s, i, s', i') && Before(s', i', t, j));
    assert !(Before(s', i', s, i) && Before(s, i, t, j));
  }

  lemma NextIsUnique(ss: seq<Section>, s: nat, i: nat, t: nat, j: nat, t': nat, j': nat)
    requires IsNext(ss, s, i, t, j) && IsNext(ss, s, i, t', j')
    ensures t == t' && j == j'
  {
    assert !(Before(s, i, t, j) && Before(t, j, t', j'));
    assert !(Before(s, i, t', j') && Before(t', j', t, j));
  }

  function Flip(items: seq<Item>, i: nat): seq<Item>
    requires i < |items|
  {
    items[i := items[i].(expanded := !items[i].expanded)]
  }

  function Flipped(ss: seq<Section>, s: nat, i: nat): seq<Section>
    requires s < |ss| && i < |ss[s].items|
  {
    ss[s := ss[s].(items := Flip(ss[s].items, i))]
  }

  /** Flipping a row never hides the row itself. */
  lemma FlipKeepsVisible(items: seq<Item>, i: nat)
    requires i < |items| && Visible(items, i)
    ensures Visible(Flip(items, i), i)
  {
    var flipped := Flip(items, i);
    forall j | 0 <= j < |items| ensures !Hides(flipped[j], flipped[i]) {
      assert !Hides(items[j], items[i]);
    }
  }

  // ---- Visible rows are the open tree walk ----------------------------------------------------

  /** Which containers of which entry are expanded. */
  type OpenSet = set<(nat, Path)>

  function ItemsOf(rows: seq<Row>, open: OpenSet): (items: seq<Item>)
    ensures |items| == |rows|
    ensures forall i | 0 <= i < |rows| ::
              items[i] == Item(rows[i].entry, rows[i].path, rows[i].container, (rows[i].entry, rows[i].path) in open)
  {
    if rows == [] then []
    else
      var r := rows[|rows| - 1];
      ItemsOf(rows[..|rows| - 1], open) + [Item(r.entry, r.path, r.container, (r.entry, r.path) in open)]
  }

  function OpenOf(open: OpenSet, e: nat): set<Path> {
    set p | p in open && p.0 == e :: p.1
  }

  /** An entry with its value and schema definition. */
  datatype Entry = Entry(index: nat, value: Json, def: Option<Param>)

  function SectionRows(es: seq<Entry>): seq<Row> {
    if es == [] then []
    else
      var e := es[|es| - 1];
      SectionRows(es[..|es| - 1]) + EntryRows(e.index, e.value, e.def)
  }

  function OpenSectionRows(es: seq<Entry>, open: OpenSet): seq<Row> {
    if es == [] then []
    else
      var e := es[|es| - 1];
      OpenSectionRows(es[..|es| - 1], open) + OpenEntryRows(e.index, e.value, e.def, OpenOf(open, e.index))
  }

  /** The rows among the first `n` on which the cursor may rest. */
  function VisibleRows(rows: seq<Row>, open: OpenSet, n: nat): seq<Row>
    requires n <= |rows|
  {
    if n == 0 then []
    else
      VisibleRows(rows, open, n - 1) + if Visible(ItemsOf(rows, open), n - 1) then [rows[n - 1]] else []
  }

  /** Every ancestor of every row is listed as a container of the same entry. */
  ghost predicate Rooted(rows: seq<Row>) {
    forall i | 0 <= i < |rows| :: RootedRow(rows, rows[i])
  }

  ghost predicate RootedRow(rows: seq<Row>, r: Row) {
    forall n | 0 <= n < |r.path| :: HasContainer(rows, r.entry, r.path[..n])
  }

  ghost predicate HasContainer(rows: seq<Row>, e: nat, path: Path) {
    exists j :: 0 <= j < |rows| && rows[j] == Row(e, path, true)
  }

  lemma VisibleIffAllOpen(rows: seq<Row>, open: OpenSet, i: nat)
    requires i < |rows| && Rooted(rows)
    ensures Visible(ItemsOf(rows, open), i) <==> AllOpen(rows[i].path, OpenOf(open, rows[i].entry))
  {
    var items, r := ItemsOf(rows, open), rows[i];
    if Visible(items, i) {
      forall n | 0 <= n < |r.path| ensures r.path[..n] in OpenOf(open, r.entry) {
        assert RootedRow(rows, r) && HasContainer(rows, r.entry, r.path[..n]);
        var j :| 0 <= j < |rows| && rows[j] == Row(r.entry, r.path[..n], true);
        assert !Hides(items[j], items[i]);
        assert (r.entry, r.path[..n]) in open;
      }
    }
    if AllOpen(r.path, OpenOf(open, r.entry)) {
      forall j | 0 <= j < |items| ensures !Hides(items[j], items[i]) {
        if items[j].entry == r.entry && items[j].path < r.path {
          assert r.path[..|items[j].path|] == items[j].path;
          assert items[j].path in OpenOf(open, r.entry);
        }
      }
    }
  }

  /** Rows of the list whose ancestors are all expanded, entry by entry. */
  function ShownIn(rows: seq<Row>, open: OpenSet): seq<Row> {
    if rows == [] then []
    else
      var r := rows[|rows| - 1];
      ShownIn(rows[..|rows| - 1], open) + if AllOpen(r.path, OpenOf(open, r.entry)) then [r] else []
  }

  lemma {:induction false} VisibleRowsAreShown(rows: seq<Row>, open: OpenSet, n: nat)
    requires n <= |rows| && Rooted(rows)
    ensures VisibleRows(rows, open, n) == ShownIn(rows[..n], open)
  {
    if n > 0 {
      VisibleRowsAreShown(rows, open, n - 1);
      VisibleIffAllOpen(rows, open, n - 1);
      assert rows[..n][..n - 1] == rows[..n - 1];
    }
  }

  lemma {:induction false} ShownInConcat(a: seq<Row>, b: seq<Row>, open: OpenSet)
    ensures ShownIn(a + b, open) == ShownIn(a, open) + ShownIn(b, open)
    decreases |b|
  {
    if b == [] {
      assert a + b == a;
    } else {
      assert (a + b)[..|a + b| - 1] == a + b[..|b| - 1];
      ShownInConcat(a, b[..|b| - 1], open);
    }
  }

  lemma {:induction false} ShownInOneEntry(rows: seq<Row>, e: nat, open: OpenSet)
    requires forall i | 0 <= i < |rows| :: rows[i].entry == e
    ensures ShownIn(rows, open) == Shown(rows, OpenOf(open, e))
    decreases |rows|
  {
    if rows != [] {
      ShownInOneEntry(rows[..|rows| - 1], e, open);
    }
  }

  ghost predicate AllOf(rows: seq<Row>, e: nat) {
    forall i | 0 <= i < |rows| :: rows[i].entry == e
  }

  lemma {:induction false} ObjectRowsOf(e: nat, v: Json, fields: seq<Param>, path: Path)
    ensures AllOf(ObjectRows(e, v, fields, path), e)
    decreases fields, 1
  {
    if v.Obj? {
      KnownRowsOf(e, v, fields, path, |fields|);
    }
  }

  lemma {:induction false} KnownRowsOf(e: nat, v: Json, fields: seq<Param>, path: Path, n: nat)
    requires v.Obj? && n <= |fields|
    ensures AllOf(KnownRows(e, v, fields, path, n), e)
    decreases fields, 0, n
  {
    if n > 0 {
      KnownRowsOf(e, v, fields, path, n - 1);
      FieldRowsOf(e, v, fields[n - 1], path);
    }
  }

  lemma {:induction false} FieldRowsOf(e: nat, v: Json, f: Param, path: Path)
    requires v.Obj?
    ensures AllOf(FieldRows(e, v, f, path), e)
    decreases f
  {
    if f.Nested? && f.key in v.members {
      ObjectRowsOf(e, v.members[f.key], f.fields, path + [f.key]);
    }
  }

  lemma EntryRowsOf(e: nat, v: Json, def: Option<Param>)
    ensures AllOf(EntryRows(e, v, def), e)
  {
    if def.Some? && def.value.Nested? {
      ObjectRowsOf(e, v, def.value.fields, []);
    }
  }

  lemma EntryRooted(e: nat, v: Json, def: Option<Param>)
    ensures Rooted(EntryRows(e, v, def))
  {
    var rows := EntryRows(e, v, def);
    EntryAncestors(e, v, def);
    EntryRowsOf(e, v, def);
    forall i | 0 <= i < |rows| ensures RootedRow(rows, rows[i]) {
      forall n | 0 <= n < |rows[i].path| ensures HasContainer(rows, rows[i].entry, rows[i].path[..n]) {
        assert ContainerAt(rows, rows[i].path[..n]);
        var j :| 0 <= j < |rows| && rows[j].container && rows[j].path == rows[i].path[..n];
        assert rows[j] == Row(e, rows[i].path[..n], true);
      }
    }
  }

  lemma RootedConcat(a: seq<Row>, b: seq<Row>)
    requires Rooted(a) && Rooted(b)
    ensures Rooted(a + b)
  {
    var all := a + b;
    forall i | 0 <= i < |all| ensures RootedRow(all, all[i]) {
      var side := if i < |a| then a else b;
      var off := if i < |a| then 0 else |a|;
      assert all[i] == side[i - off] && RootedRow(side, side[i - off]);
      forall n | 0 <= n < |all[i].path| ensures HasContainer(all, all[i].entry, all[i].path[..n]) {
        assert HasContainer(side, all[i].entry, all[i].path[..n]);
        var j :| 0 <= j < |side| && side[j] == Row(all[i].entry, all[i].path[..n], true);
        assert all[off + j] == side[j];
      }
    }
  }

  lemma {:induction false} SectionShown(es: seq<Entry>, open: OpenSet)
    ensures Rooted(SectionRows(es)) && ShownIn(SectionRows(es), open) == OpenSectionRows(es, open)
    decreases |es|
  {
    if es != [] {
      var n := |es| - 1;
      var e := es[n];
      var rows := EntryRows(e.index, e.value, e.def);
      SectionShown(es[..n], open);
      EntryRooted(e.index, e.value, e.def);
      RootedConcat(SectionRows(es[..n]), rows);
      ShownInConcat(SectionRows(es[..n]), rows, open);
      EntryRowsOf(e.index, e.value, e.def);
      ShownInOneEntry(rows, e.index, open);
      ShownIsOpenWalk(e.index, e.value, e.def, OpenOf(open, e.index));
    }
  }

  /** In an expanded section the cursor's rows, in order, are the walk that opens only expanded containers. */
  lemma VisibleRowsAreOpenWalk(es: seq<Entry>, open: OpenSet)
    ensures var rows := SectionRows(es); VisibleRows(rows, open, |rows|) == OpenSectionRows(es, open)
  {
    var rows := SectionRows(es);
    SectionShown(es, open);
    VisibleRowsAreShown(rows, open, |rows|);
    assert rows[..|rows|] == rows;
  }

  // ---- Sections built from entries ----------------------------------------------------------------

  /** The entries of one section, in display order. */
  ghost predicate GoodGroup(es: seq<Entry>) {
    && es != []
    && (forall i, j | 0 <= i < j < |es| :: es[i].index != es[j].index)
    && forall i | 0 <= i < |es| :: es[i].def.Some? ==> WellFormedParam(es[i].def.value)
  }

  ghost predicate FromEntries(rows: seq<Row>, es: seq<Entry>) {
    forall i | 0 <= i < |rows| :: exists j :: 0 <= j < |es| && rows[i].entry == es[j].index
  }

  lemma {:induction false} SectionDistinct(es: seq<Entry>)
    requires forall i, j | 0 <= i < j < |es| :: es[i].index != es[j].index
    requires forall i | 0 <= i < |es| :: es[i].def.Some? ==> WellFormedParam(es[i].def.value)
    ensures Distinct(SectionRows(es)) && FromEntries(SectionRows(es), es)
    decreases |es|
  {
    if es != [] {
      var n := |es| - 1;
      var head, last := SectionRows(es[..n]), EntryRows(es[n].index, es[n].value, es[n].def);
      SectionDistinct(es[..n]);
      EntryDistinct(es[n].index, es[n].value, es[n].def);
      EntryRowsOf(es[n].index, es[n].value, es[n].def);
      EntriesConcat(es, head, last);
    }
  }

  lemma EntriesConcat(es: seq<Entry>, head: seq<Row>, last: seq<Row>)
    requires es != [] && forall i, j | 0 <= i < j < |es| :: es[i].index != es[j].index
    requires Distinct(head) && FromEntries(head, es[..|es| - 1])
    requires Distinct(last) && AllOf(last, es[|es| - 1].index)
    ensures Distinct(head + last) && FromEntries(head + last, es)
  {
    var n := |es| - 1;
    forall i | 0 <= i < |head|
      ensures head[i].entry != es[n].index && exists j :: 0 <= j < n && head[i].entry == es[j].index
    {
      var j :| 0 <= j < n && head[i].entry == es[..n][j].index;
      assert es[..n][j] == es[j];
    }
    forall i | 0 <= i < |head + last|
      ensures exists j :: 0 <= j < |es| && (head + last)[i].entry == es[j].index
    {
      if i >= |head| { assert (head + last)[i].entry == es[n].index; }
    }
  }

  lemma {:induction false} SectionStartsAtTop(es: seq<Entry>)
    requires es != []
    ensures SectionRows(es) != [] && SectionRows(es)[0].path == []
    decreases |es|
  {
    var n := |es| - 1;
    if n > 0 {
      SectionStartsAtTop(es[..n]);
    } else {
      assert SectionRows(es[..n]) == [];
    }
  }

  function RowOf(it: Item): Row {
    Row(it.entry, it.path, it.container)
  }

  /** The items show exactly these rows. */
  ghost predicate Lists(items: seq<Item>, rows: seq<Row>) {
    |items| == |rows| && forall i | 0 <= i < |rows| :: RowOf(items[i]) == rows[i]
  }

  /** The positions whose rows are expanded. */
  function OpenIn(items: seq<Item>): OpenSet {
    set i | 0 <= i < |items| && items[i].expanded :: (items[i].entry, items[i].path)
  }

  lemma OnePlace(rows: seq<Row>, i: nat, j: nat)
    requires Distinct(rows) && i < |rows| && j < |rows| && SamePlace(rows[i], rows[j])
    ensures i == j
  {
  }

  /** Distinct rows keep their own expansion. */
  lemma ItemsFromOpen(items: seq<Item>, rows: seq<Row>)
    requires Lists(items, rows) && Distinct(rows)
    ensures items == ItemsOf(rows, OpenIn(items))
  {
    var again := ItemsOf(rows, OpenIn(items));
    forall i | 0 <= i < |items| ensures items[i] == again[i] {
      assert RowOf(items[i]) == rows[i];
      if (rows[i].entry, rows[i].path) in OpenIn(items) {
        var j :| 0 <= j < |items| && items[j].expanded &&
                 (items[j].entry, items[j].path) == (rows[i].entry, rows[i].path);
        assert RowOf(items[j]) == rows[j];
        OnePlace(rows, i, j);
      }
    }
  }

  ghost predicate BuiltAt(groups: seq<seq<Entry>>, ss: seq<Section>, s: nat) {
    s < |ss| == |groups| && GoodGroup(groups[s]) && Lists(ss[s].items, SectionRows(groups[s]))
  }

  /** Every section lists the rows of its own group of entries. */
  ghost predicate Built(groups: seq<seq<Entry>>, ss: seq<Section>) {
    |ss| == |groups| && forall s | 0 <= s < |ss| :: BuiltAt(groups, ss, s)
  }

  /** A section that shows its entries, with all containers closed. */
  ghost predicate Fresh(es: seq<Entry>, section: Section) {
    section.expanded && Lists(section.items, SectionRows(es)) && AllClosed(section.items)
  }

  predicate AllClosed(items: seq<Item>) {
    forall i | 0 <= i < |items| :: !items[i].expanded
  }

  /** The first sections as they are when the editor opens. */
  ghost predicate AllFresh(groups: seq<seq<Entry>>, ss: seq<Section>) {
    |ss| <= |groups| && forall s | 0 <= s < |ss| :: Fresh(groups[s], ss[s])
  }

  lemma AllFreshSnoc(groups: seq<seq<Entry>>, ss: seq<Section>, section: Section)
    requires AllFresh(groups, ss) && |ss| < |groups| && Fresh(groups[|ss|], section)
    ensures AllFresh(groups, ss + [section])
  {
    var ss' := ss + [section];
    forall s | 0 <= s < |ss'| ensures Fresh(groups[s], ss'[s]) {
      if s < |ss| { assert ss'[s] == ss[s]; }
    }
  }

  lemma FreshBuilt(groups: seq<seq<Entry>>, ss: seq<Section>)
    requires |ss| == |groups| && forall s | 0 <= s < |ss| :: GoodGroup(groups[s])
    requires AllFresh(groups, ss)
    ensures Built(groups, ss)
  {
    forall s | 0 <= s < |ss| ensures BuiltAt(groups, ss, s) {
      assert Fresh(groups[s], ss[s]);
    }
  }

  lemma BuiltSection(groups: seq<seq<Entry>>, ss: seq<Section>, s: nat)
    requires Built(groups, ss) && s < |ss|
    ensures WellFormedSection(ss[s])
  {
    assert BuiltAt(groups, ss, s);
    SectionStartsAtTop(groups[s]);
    assert RowOf(ss[s].items[0]) == SectionRows(groups[s])[0];
  }

  lemma BuiltKept(groups: seq<seq<Entry>>, ss: seq<Section>, s: nat, section: Section)
    requires Built(groups, ss) && s < |ss| && |section.items| == |ss[s].items|
    requires forall i | 0 <= i < |section.items| :: RowOf(section.items[i]) == RowOf(ss[s].items[i])
    ensures Built(groups, ss[s := section])
  {
    var rows, ss' := SectionRows(groups[s]), ss[s := section];
    assert BuiltAt(groups, ss, s);
    forall i | 0 <= i < |rows| ensures RowOf(section.items[i]) == rows[i] {
      assert RowOf(ss[s].items[i]) == rows[i];
    }
    forall t | 0 <= t < |ss'| ensures BuiltAt(groups, ss', t) {
      assert BuiltAt(groups, ss, t);
    }
  }

  // ---- The stops of the cursor -----------------------------------------------------------------------

  /** Where the cursor may rest, as the reader sees it. */
  datatype Stop = Header(section: nat) | Place(section: nat, row: Row)

  datatype Position = Position(section: nat, item: nat)

  ghost predicate LegalAt(ss: seq<Section>, p: Position) {
    Legal(ss, p.section, p.item)
  }

  predicate Precedes(p: Position, q: Position) {
    Before(p.section, p.item, q.section, q.item)
  }

  function Stops(s: nat, rows: seq<Row>): (r: seq<Stop>)
    ensures |r| == |rows| && forall i | 0 <= i < |rows| :: r[i] == Place(s, rows[i])
  {
    seq(|rows|, i requires 0 <= i < |rows| => Place(s, rows[i]))
  }

  /** An expanded section shows its open rows, a collapsed one only its header. */
  function SectionStops(es: seq<Entry>, s: nat, section: Section): seq<Stop> {
    if section.expanded then Stops(s, OpenSectionRows(es, OpenIn(section.items))) else [Header(s)]
  }

  /** The recursive walk of the first `n` groups, opening expanded sections and containers only. */
  function WalkOpen(groups: seq<seq<Entry>>, ss: seq<Section>, n: nat): seq<Stop>
    requires n <= |ss| == |groups|
  {
    if n == 0 then [] else WalkOpen(groups, ss, n - 1) + SectionStops(groups[n - 1], n - 1, ss[n - 1])
  }

  /** The visible positions among the first `n` items. */
  function VisibleIn(s: nat, items: seq<Item>, n: nat): seq<Position>
    requires n <= |items|
  {
    if n == 0 then [] else VisibleIn(s, items, n - 1) + if Visible(items, n - 1) then [Position(s, n - 1)] else []
  }

  function SectionPositions(s: nat, section: Section): seq<Position> {
    if section.expanded then VisibleIn(s, section.items, |section.items|) else [Position(s, 0)]
  }

  /** The legal positions of the first `n` sections, in order. */
  function Positions(ss: seq<Section>, n: nat): seq<Position>
    requires n <= |ss|
  {
    if n == 0 then [] else Positions(ss, n - 1) + SectionPositions(n - 1, ss[n - 1])
  }

  function StopAt(ss: seq<Section>, p: Position): Stop {
    if p.section < |ss| && ss[p.section].expanded && p.item < |ss[p.section].items| then
      Place(p.section, RowOf(ss[p.section].items[p.item]))
    else Header(p.section)
  }

  /** The positions show exactly these stops, in order. */
  ghost predicate Shows(ss: seq<Section>, ps: seq<Position>, stops: seq<Stop>) {
    |ps| == |stops| && forall i | 0 <= i < |ps| :: StopAt(ss, ps[i]) == stops[i]
  }

  lemma ShowsConcat(ss: seq<Section>, a: seq<Position>, b: seq<Position>, x: seq<Stop>, y: seq<Stop>)
    requires Shows(ss, a, x) && Shows(ss, b, y)
    ensures Shows(ss, a + b, x + y)
  {
  }

  /** The visible positions are those of the visible rows. */
  ghost predicate ShowsRows(ss: seq<Section>, s: nat, ps: seq<Position>, rows: seq<Row>) {
    |ps| == |rows| && forall i | 0 <= i < |ps| :: StopAt(ss, ps[i]) == Place(s, rows[i])
  }

  lemma {:induction false} VisiblePositions(ss: seq<Section>, s: nat, rows: seq<Row>, open: OpenSet, n: nat)
    requires s < |ss| && ss[s].expanded && ss[s].items == ItemsOf(rows, open) && n <= |rows|
    ensures ShowsRows(ss, s, VisibleIn(s, ss[s].items, n), VisibleRows(rows, open, n))
    decreases n
  {
    if n == 0 {
      assert VisibleIn(s, ss[s].items, 0) == [] && VisibleRows(rows, open, 0) == [];
    } else {
      VisiblePositions(ss, s, rows, open, n - 1);
      assert RowOf(ss[s].items[n - 1]) == rows[n - 1];
    }
  }

  lemma SectionIsWalked(groups: seq<seq<Entry>>, ss: seq<Section>, s: nat)
    requires Built(groups, ss) && s < |ss|
    ensures Shows(ss, SectionPositions(s, ss[s]), SectionStops(groups[s], s, ss[s]))
  {
    if ss[s].expanded {
      assert BuiltAt(groups, ss, s);
      var rows, open := SectionRows(groups[s]), OpenIn(ss[s].items);
      SectionDistinct(groups[s]);
      ItemsFromOpen(ss[s].items, rows);
      VisiblePositions(ss, s, rows, open, |rows|);
      VisibleRowsAreOpenWalk(groups[s], open);
    }
  }

  ghost predicate SectionShows(es: seq<Entry>, ss: seq<Section>, s: nat) {
    s < |ss| && Shows(ss, SectionPositions(s, ss[s]), SectionStops(es, s, ss[s]))
  }

  lemma {:induction false} WalkUpTo(groups: seq<seq<Entry>>, ss: seq<Section>, n: nat)
    requires n <= |ss| == |groups| && forall s | 0 <= s < |ss| :: SectionShows(groups[s], ss, s)
    ensures Shows(ss, Positions(ss, n), WalkOpen(groups, ss, n))
    decreases n
  {
    if n == 0 {
      assert Positions(ss, 0) == [] && WalkOpen(groups, ss, 0) == [];
    } else {
      WalkUpTo(groups, ss, n - 1);
      assert SectionShows(groups[n - 1], ss, n - 1);
      WalkStep(groups, ss, n);
    }
  }

  /** The legal positions, in order, are the walk of the open part of the tree. */
  lemma PositionsAreWalked(groups: seq<seq<Entry>>, ss: seq<Section>)
    requires Built(groups, ss)
    ensures Shows(ss, Positions(ss, |ss|), WalkOpen(groups, ss, |ss|))
  {
    forall s | 0 <= s < |ss| ensures SectionShows(groups[s], ss, s) {
      SectionIsWalked(groups, ss, s);
    }
    WalkUpTo(groups, ss, |ss|);
  }

  lemma WalkStep(groups: seq<seq<Entry>>, ss: seq<Section>, n: nat)
    requires 0 < n <= |ss| == |groups| && Shows(ss, Positions(ss, n - 1), WalkOpen(groups, ss, n - 1))
    requires Shows(ss, SectionPositions(n - 1, ss[n - 1]), SectionStops(groups[n - 1], n - 1, ss[n - 1]))
    ensures Shows(ss, Positions(ss, n), WalkOpen(groups, ss, n))
  {
    ShowsConcat(ss, Positions(ss, n - 1), SectionPositions(n - 1, ss[n - 1]),
                WalkOpen(groups, ss, n - 1), SectionStops(groups[n - 1], n - 1, ss[n - 1]));
  }

  // ---- Positions are exactly the legal ones, in order --------------------------------------------------

  ghost predicate Ascending(ps: seq<Position>) {
    forall a, b | 0 <= a < b < |ps| :: Precedes(ps[a], ps[b])
  }

  /** The list holds exactly the legal positions of sections `from` up to `to`. */
  ghost predicate Exactly(ps: seq<Position>, ss: seq<Section>, from: nat, to: nat) {
    forall p :: p in ps <==> from <= p.section < to && LegalAt(ss, p)
  }

  lemma {:induction false} VisibleInIs(s: nat, items: seq<Item>, n: nat)
    requires n <= |items|
    ensures forall p :: p in VisibleIn(s, items, n) <==> p.section == s && p.item < n && Visible(items, p.item)
    ensures Ascending(VisibleIn(s, items, n))
    decreases n
  {
    if n > 0 {
      VisibleInIs(s, items, n - 1);
    }
  }

  lemma SectionPositionsAre(ss: seq<Section>, s: nat)
    requires s < |ss|
    ensures Exactly(SectionPositions(s, ss[s]), ss, s, s + 1) && Ascending(SectionPositions(s, ss[s]))
  {
    if ss[s].expanded {
      VisibleInIs(s, ss[s].items, |ss[s].items|);
    }
  }

  lemma {:induction false} PositionsAre(ss: seq<Section>, n: nat)
    requires n <= |ss|
    ensures Exactly(Positions(ss, n), ss, 0, n) && Ascending(Positions(ss, n))
    decreases n
  {
    if n == 0 {
      assert Positions(ss, 0) == [];
    } else {
      PositionsAre(ss, n - 1);
      SectionPositionsAre(ss, n - 1);
      ExactlyConcat(Positions(ss, n - 1), SectionPositions(n - 1, ss[n - 1]), ss, n - 1);
      PositionsUnfold(ss, n);
    }
  }

  lemma PositionsUnfold(ss: seq<Section>, n: nat)
    requires 0 < n <= |ss|
    ensures Positions(ss, n) == Positions(ss, n - 1) + SectionPositions(n - 1, ss[n - 1])
  {
  }

  lemma ExactlyConcat(ps: seq<Position>, qs: seq<Position>, ss: seq<Section>, s: nat)
    requires Exactly(ps, ss, 0, s) && Ascending(ps) && Exactly(qs, ss, s, s + 1) && Ascending(qs)
    ensures Exactly(ps + qs, ss, 0, s + 1) && Ascending(ps + qs)
  {
    forall a, b | 0 <= a < b < |ps + qs| ensures Precedes((ps + qs)[a], (ps + qs)[b]) {
      if a < |ps| <= b {
        assert (ps + qs)[a] == ps[a] && (ps + qs)[b] == qs[b - |ps|];
        assert ps[a] in ps && qs[b - |ps|] in qs;
      }
    }
  }

  lemma IndexOf(ss: seq<Section>, p: Position) returns (a: nat)
    requires LegalAt(ss, p)
    ensures a < |Positions(ss, |ss|)| && Positions(ss, |ss|)[a] == p
  {
    PositionsAre(ss, |ss|);
    assert p in Positions(ss, |ss|);
    a :| 0 <= a < |Positions(ss, |ss|)| && Positions(ss, |ss|)[a] == p;
  }

  lemma NeighboursAscend(ss: seq<Section>, a: nat, b: nat)
    requires a < |Positions(ss, |ss|)| && b < |Positions(ss, |ss|)|
    ensures LegalAt(ss, Positions(ss, |ss|)[a])
    ensures Precedes(Positions(ss, |ss|)[a], Positions(ss, |ss|)[b]) <==> a < b
  {
    var ps := Positions(ss, |ss|);
    PositionsAre(ss, |ss|);
    assert ps[a] in ps;
    if b < a { assert Precedes(ps[b], ps[a]); }
  }

  predicate DownFrom(ps: seq<Position>, n: nat, p: Position, q: Position) {
    n < |ps| && ps[n] == p && q == if n + 1 < |ps| then ps[n + 1] else p
  }

  predicate UpFrom(ps: seq<Position>, n: nat, p: Position, q: Position) {
    n < |ps| && ps[n] == p && q == if n > 0 then ps[n - 1] else p
  }

  /** One step down from `p` leads to `q`: the next position of the walk, or nowhere. */
  ghost predicate StepsDown(ps: seq<Position>, p: Position, q: Position) {
    exists n :: DownFrom(ps, n, p, q)
  }

  ghost predicate StepsUp(ps: seq<Position>, p: Position, q: Position) {
    exists n :: UpFrom(ps, n, p, q)
  }

  lemma NextIsStep(ss: seq<Section>, s: nat, i: nat, t: nat, j: nat)
    requires Legal(ss, s, i) && IsNext(ss, s, i, t, j)
    ensures StepsDown(Positions(ss, |ss|), Position(s, i), Position(t, j))
    ensures StepsUp(Positions(ss, |ss|), Position(t, j), Position(s, i))
  {
    var ps := Positions(ss, |ss|);
    var a := IndexOf(ss, Position(s, i));
    var b := IndexOf(ss, Position(t, j));
    NeighboursAscend(ss, a, b);
    if a + 1 < b {
      NeighboursAscend(ss, a, a + 1);
      NeighboursAscend(ss, a + 1, b);
      assert false;
    }
    assert DownFrom(ps, a, Position(s, i), Position(t, j));
    assert UpFrom(ps, b, Position(t, j), Position(s, i));
  }

  lemma LastStays(ss: seq<Section>, s: nat, i: nat)
    requires Legal(ss, s, i) && IsLast(ss, s, i)
    ensures StepsDown(Positions(ss, |ss|), Position(s, i), Position(s, i))
  {
    var ps := Positions(ss, |ss|);
    var a := IndexOf(ss, Position(s, i));
    if a + 1 < |ps| {
      NeighboursAscend(ss, a + 1, a);
      NeighboursAscend(ss, a, a + 1);
      assert false;
    }
    assert DownFrom(ps, a, Position(s, i), Position(s, i));
  }

  lemma FirstStays(ss: seq<Section>, s: nat, i: nat)
    requires Legal(ss, s, i) && IsFirst(ss, s, i)
    ensures StepsUp(Positions(ss, |ss|), Position(s, i), Position(s, i))
  {
    var ps := Positions(ss, |ss|);
    var a := IndexOf(ss, Position(s, i));
    if a > 0 {
      NeighboursAscend(ss, a - 1, a);
      assert false;
    }
    assert UpFrom(ps, a, Position(s, i), Position(s, i));
  }
}
