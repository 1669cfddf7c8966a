/** The dashboard grid allocator: panels flow left to right over 24 columns. */
module GridLayout {
  const COLUMNS := 24

  datatype Panel = Panel(x: nat, y: nat, w: nat, h: nat)

  predicate Covers(p: Panel, column: int, line: int) {
    p.x <= column < p.x + p.w && p.y <= line < p.y + p.h
  }

  ghost predicate Overlap(p: Panel, q: Panel) {
    exists column, line :: Covers(p, column, line) && Covers(q, column, line)
  }

  datatype Op = Place(w: nat, h: nat) | Row | Break

  /** The allocator and every panel it has handed out. */
  datatype Grid = Grid(x: nat, y: nat, rowH: nat, panels: seq<Panel>)

  function Wrapped(g: Grid): Grid {
    g.(x := 0, y := g.y + g.rowH, rowH := 0)
  }

  function Broken(g: Grid): Grid {
    if g.x > 0 then Wrapped(g) else g
  }

  function Apply(g: Grid, op: Op): Grid {
    match op
    case Break => Broken(g)
    case Row =>
      var b := Broken(g);
      b.(y := b.y + 1, panels := b.panels + [Panel(0, b.y, COLUMNS, 1)])
    case Place(w, h) =>
      var b := if g.x + w > COLUMNS then Wrapped(g) else g;
      Grid(b.x + w, b.y, if h > b.rowH then h else b.rowH, b.panels + [Panel(b.x, b.y, w, h)])
  }

  function Draw(ops: seq<Op>): Grid {
    if ops == [] then Grid(0, 0, 0, []) else Apply(Draw(ops[..|ops| - 1]), ops[|ops| - 1])
  }

  // ---- Safety ------------------------------------------------------------------------------

  /** A panel lies above the current line, or in the current row left of the cursor, or is empty. */
  predicate Behind(p: Panel, g: Grid) {
    p.w == 0 || p.y + p.h <= g.y || (p.y == g.y && p.x + p.w <= g.x && p.h <= g.rowH)
  }

  ghost predicate Safe(g: Grid) {
    && (forall i | 0 <= i < |g.panels| :: Behind(g.panels[i], g))
    && forall i, j | 0 <= i < j < |g.panels| :: !Overlap(g.panels[i], g.panels[j])
  }

  lemma BehindIsDisjoint(p: Panel, g: Grid, w: nat, h: nat)
    requires Behind(p, g)
    ensures !Overlap(p, Panel(g.x, g.y, w, h))
  {
  }

  lemma WrappedSafe(g: Grid)
    requires Safe(g)
    ensures Safe(Wrapped(g))
  {
    forall i | 0 <= i < |g.panels| ensures Behind(g.panels[i], Wrapped(g)) {
      assert Behind(g.panels[i], g);
    }
  }

  lemma AddSafe(g: Grid, w: nat, h: nat, next: Grid)
    requires Safe(g)
    requires next.panels == g.panels + [Panel(g.x, g.y, w, h)]
    requires forall p | Behind(p, g) :: Behind(p, next)
    requires Behind(Panel(g.x, g.y, w, h), next)
    ensures Safe(next)
  {
    var n := |g.panels|;
    forall i | 0 <= i < n ensures Behind(next.panels[i], next) && !Overlap(next.panels[i], next.panels[n]) {
      assert Behind(g.panels[i], g);
      BehindIsDisjoint(g.panels[i], g, w, h);
    }
  }

  lemma ApplySafe(g: Grid, op: Op)
    requires Safe(g)
    ensures Safe(Apply(g, op))
  {
    WrappedSafe(g);
    match op {
      case Break =>
      case Row => AddSafe(Broken(g), COLUMNS, 1, Apply(g, op));
      case Place(w, h) => AddSafe(if g.x + w > COLUMNS then Wrapped(g) else g, w, h, Apply(g, op));
    }
  }

  lemma {:induction false} DrawSafe(ops: seq<Op>)
    ensures Safe(Draw(ops))
  {
    if ops != [] {
      DrawSafe(ops[..|ops| - 1]);
      ApplySafe(Draw(ops[..|ops| - 1]), ops[|ops| - 1]);
    }
  }

  /** No two panels of any run share a cell. */
  lemma NeverOverlaps(ops: seq<Op>, i: nat, j: nat)
    requires i < j < |Draw(ops).panels|
    ensures !Overlap(Draw(ops).panels[i], Draw(ops).panels[j])
  {
    DrawSafe(ops);
  }

  predicate FitsIffNarrow(p: Panel) {
    p.x + p.w <= COLUMNS <==> p.w <= COLUMNS
  }

  lemma ApplyFits(g: Grid, op: Op)
    requires forall i | 0 <= i < |g.panels| :: FitsIffNarrow(g.panels[i])
    ensures forall i | 0 <= i < |Apply(g, op).panels| :: FitsIffNarrow(Apply(g, op).panels[i])
  {
  }

  /** A panel stays inside the columns exactly when it is no wider than they are. */
  lemma {:induction false} WithinColumnsIff(ops: seq<Op>)
    ensures forall i | 0 <= i < |Draw(ops).panels| :: FitsIffNarrow(Draw(ops).panels[i])
  {
    if ops != [] {
      WithinColumnsIff(ops[..|ops| - 1]);
      ApplyFits(Draw(ops[..|ops| - 1]), ops[|ops| - 1]);
    }
  }

  /** After a break the current line is at or below the bottom of everything placed. */
  lemma BreakClearsEverything(ops: seq<Op>, i: nat)
    requires i < |Draw(ops + [Break]).panels|
    ensures var g := Draw(ops + [Break]); g.panels[i].w == 0 || g.panels[i].y + g.panels[i].h <= g.y
  {
    DrawSafe(ops);
    assert (ops + [Break])[..|ops + [Break]| - 1] == ops;
    assert Behind(Draw(ops).panels[i], Draw(ops));
  }

  // ---- Rows ------------------------------------------------------------------------------------

  datatype Size = Size(w: nat, h: nat)

  function Placing(sizes: seq<Size>): (ops: seq<Op>)
    ensures |ops| == |sizes| && forall i | 0 <= i < |sizes| :: ops[i] == Place(sizes[i].w, sizes[i].h)
  {
    seq(|sizes|, i requires 0 <= i < |sizes| => Place(sizes[i].w, sizes[i].h))
  }

  /** The width of the first `n` panels together. */
  function Widths(sizes: seq<Size>, n: nat): nat
    requires n <= |sizes|
  {
    if n == 0 then 0 else Widths(sizes, n - 1) + sizes[n - 1].w
  }

  /** The height of the tallest of the first `n` panels, and of what the row already holds. */
  function Tallest(rowH: nat, sizes: seq<Size>, n: nat): nat
    requires n <= |sizes|
  {
    if n == 0 then rowH
    else if sizes[n - 1].h > Tallest(rowH, sizes, n - 1) then sizes[n - 1].h
    else Tallest(rowH, sizes, n - 1)
  }

  lemma DrawSnoc(ops: seq<Op>, op: Op)
    ensures Draw(ops + [op]) == Apply(Draw(ops), op)
  {
    assert (ops + [op])[..|ops + [op]| - 1] == ops;
  }

  lemma BreakStartsLine(ops: seq<Op>)
    ensures Draw(ops + [Break]).x == 0 && Draw(ops + [Break]).panels == Draw(ops).panels
  {
    DrawSnoc(ops, Break);
  }

  /** From `from` on the panels stand side by side on one line. */
  predicate InLine(panels: seq<Panel>, from: nat, sizes: seq<Size>, n: nat, y: nat)
    requires n <= |sizes|
  {
    && |panels| == from + n
    && forall i | 0 <= i < n :: panels[from + i] == Panel(Widths(sizes, i), y, sizes[i].w, sizes[i].h)
  }

  /** The grid after the first `n` panels of a row that began at `start`. */
  predicate Filled(g: Grid, start: Grid, sizes: seq<Size>, n: nat)
    requires n <= |sizes|
  {
    && g.x == Widths(sizes, n) && g.y == start.y && g.rowH == Tallest(start.rowH, sizes, n)
    && InLine(g.panels, |start.panels|, sizes, n, start.y)
  }

  lemma FillStep(g: Grid, start: Grid, sizes: seq<Size>, n: nat)
    requires n < |sizes| && Filled(g, start, sizes, n) && Widths(sizes, n + 1) <= COLUMNS
    ensures Filled(Apply(g, Place(sizes[n].w, sizes[n].h)), start, sizes, n + 1)
  {
    var next := Apply(g, Place(sizes[n].w, sizes[n].h));
    var from := |start.panels|;
    forall i | 0 <= i < n + 1
      ensures next.panels[from + i] == Panel(Widths(sizes, i), start.y, sizes[i].w, sizes[i].h)
    {
      if i < n { assert next.panels[from + i] == g.panels[from + i]; }
    }
  }

  /** Panels that fit into the row together fill it from the left. */
  lemma {:induction false} RowFills(ops: seq<Op>, sizes: seq<Size>, n: nat)
    requires n <= |sizes| && Draw(ops).x == 0 && Widths(sizes, n) <= COLUMNS
    ensures Filled(Draw(ops + Placing(sizes)[..n]), Draw(ops), sizes, n)
    decreases n
  {
    var placing := Placing(sizes);
    if n == 0 {
      assert ops + placing[..0] == ops;
    } else {
      RowFills(ops, sizes, n - 1);
      var before := ops + placing[..n - 1];
      assert ops + placing[..n] == before + [placing[n - 1]];
      DrawSnoc(before, placing[n - 1]);
      FillStep(Draw(before), Draw(ops), sizes, n - 1);
    }
  }

  lemma RowFilled(ops: seq<Op>, sizes: seq<Size>)
    requires Widths(sizes, |sizes|) <= COLUMNS
    ensures Filled(Draw(ops + [Break] + Placing(sizes)), Draw(ops + [Break]), sizes, |sizes|)
    ensures Draw(ops + [Break]).panels == Draw(ops).panels
  {
    BreakStartsLine(ops);
    RowFills(ops + [Break], sizes, |sizes|);
    assert Placing(sizes)[..|sizes|] == Placing(sizes);
  }

  /** After a break, panels that are together no wider than the columns share one line, side by side. */
  lemma SideBySide(ops: seq<Op>, sizes: seq<Size>)
    requires Widths(sizes, |sizes|) <= COLUMNS
    ensures InLine(Draw(ops + [Break] + Placing(sizes)).panels, |Draw(ops).panels|, sizes, |sizes|,
                   Draw(ops + [Break]).y)
  {
    RowFilled(ops, sizes);
  }

  /** The first panel that does not fit starts the next line, right below the tallest of the row. */
  lemma NextLine(ops: seq<Op>, sizes: seq<Size>, w: nat, h: nat)
    requires Widths(sizes, |sizes|) <= COLUMNS < Widths(sizes, |sizes|) + w
    ensures var start := Draw(ops + [Break]);
            var g := Draw(ops + [Break] + Placing(sizes) + [Place(w, h)]);
            g.panels != [] &&
            g.panels[|g.panels| - 1] == Panel(0, start.y + Tallest(start.rowH, sizes, |sizes|), w, h)
  {
    RowFilled(ops, sizes);
    DrawSnoc(ops + [Break] + Placing(sizes), Place(w, h));
  }

  /** A row header is one line high and as wide as the grid; the next panel starts on the line below it. */
  lemma HeaderLine(ops: seq<Op>, w: nat, h: nat)
    requires w <= 24
    ensures var before, after := Draw(ops).panels, Draw(ops + [Row] + [Place(w, h)]).panels;
            && |after| == |before| + 2 && after[..|before|] == before
            && var header := after[|before|];
               header == Panel(0, header.y, 24, 1) && after[|before| + 1] == Panel(0, header.y + 1, w, h)
  {
    DrawSnoc(ops, Row);
    DrawSnoc(ops + [Row], Place(w, h));
  }

  // ---- In place ------------------------------------------------------------------------------

  class Layout {
    var x: nat
    var y: nat
    var rowH: nat
    ghost var panels: seq<Panel>

    ghost function State(): Grid
      reads this
    {
      Grid(x, y, rowH, panels)
    }

    constructor ()
      ensures State() == Draw([])
    {
      x, y, rowH, panels := 0, 0, 0, [];
    }

    method PlacePanel(w: nat, h: nat) returns (pos: Panel)
      modifies this
      ensures State() == Apply(old(State()), Place(w, h)) && panels == old(panels) + [pos]
      ensures pos.w == w && pos.h == h
    {
      if x + w > COLUMNS {
        y := y + rowH;
        x := 0;
        rowH := 0;
      }
      pos := Panel(x, y, w, h);
      panels := panels + [pos];
      x := x + w;
      rowH := if h > rowH then h else rowH;
    }

    method RowBreak()
      modifies this
      ensures State() == Apply(old(State()), Break)
    {
      if x > 0 {
        y := y + rowH;
        x := 0;
        rowH := 0;
      }
    }

    method AddRow() returns (pos: Panel)
      modifies this
      ensures State() == Apply(old(State()), Row) && panels == old(panels) + [pos]
    {
      RowBreak();
      pos := Panel(0, y, COLUMNS, 1);
      panels := panels + [pos];
      y := y + 1;
    }
  }
}
