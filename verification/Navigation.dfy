/** Cursor movement over the collapsible rows of the left panel, in browse mode. */
module Navigation {
  import opened Wrappers
  import opened JsonPointer
  import opened RowTree
  import opened OpenWalk

  datatype Command = Down | Up | Fold | Open

  /** The rows of one section, expanded with all its containers closed. */
  method BuildSection(es: seq<Entry>) returns (section: Section)
    ensures Fresh(es, section)
  {
    var rows: seq<Row> := [];
    var i := 0;
    while i < |es|
      invariant 0 <= i <= |es|
      invariant rows == SectionRows(es[..i])
    {
      rows := WalkEntryRows(es[i].index, es[i].value, es[i].def, rows);
      assert es[..i + 1][..i] == es[..i];
      i := i + 1;
    }
    assert es[..i] == es;
    section := Section(ItemsOf(rows, {}), true);
  }

  method BuildSections(groups: seq<seq<Entry>>) returns (ss: seq<Section>)
    ensures |ss| == |groups| && AllFresh(groups, ss)
  {
    ss := [];
    var s := 0;
    while s < |groups|
      invariant 0 <= s <= |groups| && |ss| == s && AllFresh(groups, ss)
    {
      var section := BuildSection(groups[s]);
      AllFreshSnoc(groups, ss, section);
      ss := ss + [section];
      s := s + 1;
    }
  }

  lemma TopIsLegal(groups: seq<seq<Entry>>, ss: seq<Section>)
    requires |ss| == |groups| > 0 && forall s | 0 <= s < |ss| :: GoodGroup(groups[s])
    requires AllFresh(groups, ss)
    ensures Built(groups, ss) && Legal(ss, 0, 0)
  {
    FreshBuilt(groups, ss);
    BuiltSection(groups, ss, 0);
  }

  class App {
    ghost const groups: seq<seq<Entry>>
    var sections: seq<Section>
    var cursorSection: nat
    var cursorItem: nat
    var typing: bool

    /** The sections list the rows of their entries, and the cursor rests on a legal one. */
    ghost predicate Valid()
      reads this
    {
      Built(groups, sections) && Legal(sections, cursorSection, cursorItem)
    }

    function Cursor(): Position
      reads this
    {
      Position(cursorSection, cursorItem)
    }

    /** All sections start expanded and all containers closed. */
    constructor (groups: seq<seq<Entry>>)
      requires groups != [] && forall s | 0 <= s < |groups| :: GoodGroup(groups[s])
      ensures Valid() && this.groups == groups && !typing && Cursor() == Position(0, 0)
      ensures |sections| == |groups| && AllFresh(groups, sections)
    {
      var built := BuildSections(groups);
      this.groups := groups;
      sections := built;
      cursorSection := 0;
      cursorItem := 0;
      typing := false;
      TopIsLegal(groups, built);
    }

    /** Looks for a collapsed container at every proper prefix of the path. */
    method IsVisible(s: nat, i: nat) returns (visible: bool)
      requires s < |sections| && i < |sections[s].items|
      ensures visible <==> Visible(sections[s].items, i)
    {
      var items := sections[s].items;
      var item := items[i];
      var n := 0;
      while n < |item.path|
        invariant 0 <= n <= |item.path|
        invariant forall j | 0 <= j < |items| && |items[j].path| < n :: !Hides(items[j], item)
      {
        var j := 0;
        while j < |items|
          invariant 0 <= j <= |items|
          invariant forall k | 0 <= k < j && |items[k].path| <= n :: !Hides(items[k], item)
          invariant forall k | 0 <= k < |items| && |items[k].path| < n :: !Hides(items[k], item)
        {
          var c := items[j];
          if c.entry == item.entry && c.container && c.path == item.path[..n] && !c.expanded {
            assert Hides(items[j], item);
            return false;
          }
          if Hides(c, item) && |c.path| == n {
            assert c.path == item.path[..n];
          }
          j := j + 1;
        }
        n := n + 1;
      }
      return true;
    }

    /** To the next place of the open walk, or nowhere from its end. */
    method CursorDown()
      requires Valid()
      modifies this`cursorSection, this`cursorItem
      ensures Valid()
      ensures typing || IsLast(sections, old(cursorSection), old(cursorItem)) ==>
                cursorSection == old(cursorSection) && cursorItem == old(cursorItem)
      ensures !typing && !IsLast(sections, old(cursorSection), old(cursorItem)) ==>
                IsNext(sections, old(cursorSection), old(cursorItem), cursorSection, cursorItem)
      ensures !typing ==> StepsDown(Positions(sections, |sections|), old(Cursor()), Cursor())
    {
      if typing {
        return;
      }
      var s: nat, i: nat := cursorSection, cursorItem;
      while true
        invariant s < |sections|
        invariant unchanged(this)
        invariant if sections[s].expanded then i < |sections[s].items| else i == 0
        invariant (s == cursorSection && i == cursorItem) || Before(cursorSection, cursorItem, s, i)
        invariant forall u: nat, k: nat | Legal(sections, u, k) && Before(cursorSection, cursorItem, u, k) ::
                    Before(s, i, u, k)
        decreases |sections| - s, |sections[s].items| - i
      {
        if sections[s].expanded && i + 1 < |sections[s].items| {
          i := i + 1;
        } else if s + 1 < |sections| {
          s := s + 1;
          i := 0;
        } else {
          LastStays(sections, cursorSection, cursorItem);
          return;
        }
        BuiltSection(groups, sections, s);
        var visible := IsVisible(s, i);
        if visible {
          NextIsStep(sections, cursorSection, cursorItem, s, i);
          cursorSection, cursorItem := s, i;
          return;
        }
      }
    }

    /** To the previous place of the open walk, or nowhere from its start. */
    method CursorUp()
      requires Valid()
      modifies this`cursorSection, this`cursorItem
      ensures Valid()
      ensures typing || IsFirst(sections, old(cursorSection), old(cursorItem)) ==>
                cursorSection == old(cursorSection) && cursorItem == old(cursorItem)
      ensures !typing && !IsFirst(sections, old(cursorSection), old(cursorItem)) ==>
                IsNext(sections, cursorSection, cursorItem, old(cursorSection), old(cursorItem))
      ensures !typing ==> StepsUp(Positions(sections, |sections|), old(Cursor()), Cursor())
    {
      if typing {
        return;
      }
      var s: nat, i: nat := cursorSection, cursorItem;
      while true
        invariant s < |sections|
        invariant unchanged(this)
        invariant if sections[s].expanded then i < |sections[s].items| else i == 0
        invariant (s == cursorSection && i == cursorItem) || Before(s, i, cursorSection, cursorItem)
        invariant forall u: nat, k: nat | Legal(sections, u, k) && Before(u, k, cursorSection, cursorItem) ::
                    Before(u, k, s, i)
        decreases s, i
      {
        if i > 0 {
          i := i - 1;
        } else if s > 0 {
          s := s - 1;
          BuiltSection(groups, sections, s);
          if sections[s].expanded && sections[s].items != [] {
            i := |sections[s].items| - 1;
          } else {
            NextIsStep(sections, s, 0, cursorSection, cursorItem);
            cursorSection, cursorItem := s, 0;
            return;
          }
        } else {
          FirstStays(sections, cursorSection, cursorItem);
          return;
        }
        var visible := IsVisible(s, i);
        if visible {
          NextIsStep(sections, s, i, cursorSection, cursorItem);
          cursorSection, cursorItem := s, i;
          return;
        }
      }
    }

    /** Collapse or expand the section under the cursor. */
    method ToggleSection()
      requires Valid()
      modifies this`sections, this`cursorItem
      ensures Valid()
      ensures typing ==> sections == old(sections) && cursorItem == old(cursorItem)
      ensures !typing ==>
                var s := cursorSection;
                && sections == old(sections)[s := old(sections)[s].(expanded := !old(sections)[s].expanded)]
                && cursorItem == 0
    {
      if typing {
        return;
      }
      var s := cursorSection;
      sections := sections[s := sections[s].(expanded := !sections[s].expanded)];
      BuiltKept(groups, old(sections), s, sections[s]);
      BuiltSection(groups, sections, s);
      if !sections[s].expanded {
        cursorItem := 0;
      }
      assert Visible(sections[s].items, 0);
    }

    /** Enter on a container row flips its expansion; other rows leave the tree alone. */
    method ToggleContainer() returns (toggled: bool)
      requires Valid()
      modifies this`sections
      ensures Valid()
      ensures toggled <==>
              && !typing && old(sections)[cursorSection].expanded
              && old(sections)[cursorSection].items[cursorItem].container
      ensures sections == if toggled then Flipped(old(sections), cursorSection, cursorItem) else old(sections)
    {
      if typing || !sections[cursorSection].expanded {
        return false;
      }
      var s, i := cursorSection, cursorItem;
      var items := sections[s].items;
      if !items[i].container {
        return false;
      }
      FlipKeepsVisible(items, i);
      BuiltKept(groups, sections, s, sections[s].(items := Flip(items, i)));
      sections := Flipped(sections, s, i);
      toggled := true;
    }

    /**
     Whatever sequence of moves and toggles is made, the places where the cursor
     may rest, in order, are the walk that opens only expanded sections and
     containers, with one header for each collapsed section; and the cursor
     rests on one of them.
     */
    method Run(commands: seq<Command>)
      requires Valid()
      modifies this
      ensures Valid() && typing == old(typing)
      ensures Shows(sections, Positions(sections, |sections|), WalkOpen(groups, sections, |sections|))
      ensures Cursor() in Positions(sections, |sections|)
    {
      var n := 0;
      while n < |commands|
        invariant 0 <= n <= |commands|
        invariant Valid() && typing == old(typing)
      {
        match commands[n] {
          case Down => CursorDown();
          case Up => CursorUp();
          case Fold => ToggleSection();
          case Open => var _ := ToggleContainer();
        }
        n := n + 1;
      }
      PositionsAreWalked(groups, sections);
      PositionsAre(sections, |sections|);
      assert LegalAt(sections, Cursor());
    }

    /** Away from the ends, a step down and a step up cancel. */
    method DownThenUp()
      requires Valid() && !typing && !IsLast(sections, cursorSection, cursorItem)
      modifies this`cursorSection, this`cursorItem
      ensures cursorSection == old(cursorSection) && cursorItem == old(cursorItem)
    {
      ghost var s, i := cursorSection, cursorItem;
      CursorDown();
      ghost var t, j := cursorSection, cursorItem;
      assert !IsFirst(sections, t, j);
      CursorUp();
      NextIsInjective(sections, s, i, t, j, cursorSection, cursorItem);
    }

    method UpThenDown()
      requires Valid() && !typing && !IsFirst(sections, cursorSection, cursorItem)
      modifies this`cursorSection, this`cursorItem
      ensures cursorSection == old(cursorSection) && cursorItem == old(cursorItem)
    {
      ghost var s, i := cursorSection, cursorItem;
      CursorUp();
      ghost var t, j := cursorSection, cursorItem;
      assert !IsLast(sections, t, j);
      CursorDown();
      NextIsUnique(sections, t, j, s, i, cursorSection, cursorItem);
    }
  }
}
