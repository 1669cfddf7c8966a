/** Report paths with list indices and pool ids taken out, so that counters group by shape. */
module PathShapes {

  function PastClose(s: string): (r: string)
    requires ']' in s
    ensures |r| < |s|
  {
    if s[0] == ']' then s[1..] else PastClose(s[1..])
  }

  /** What follows the first closing bracket, or everything if there is none. */
  function AfterClose(s: string): (r: string)
    ensures |r| <= |s|
  {
    if ']' in s then PastClose(s) else s
  }

  function Collapse(path: string): string
    decreases |path|
  {
    if path == "" then ""
    else if path[0] == '[' then "[]" + Collapse(AfterClose(path[1..]))
    else [path[0]] + Collapse(path[1..])
  }

  lemma {:induction false} PastCloseAt(s: string, j: nat)
    requires j < |s| && s[j] == ']' && ']' !in s[..j]
    ensures ']' in s && PastClose(s) == s[j + 1..]
  {
    if j > 0 {
      assert s[..j][0] == s[0];
      assert s[1..][..j - 1] == s[..j][1..];
      PastCloseAt(s[1..], j - 1);
      assert s[1..][j..] == s[j + 1..];
    }
  }

  method FindClose(path: string, i: nat) returns (j: int)
    requires i <= |path|
    ensures j == -1 ==> ']' !in path[i..]
    ensures j != -1 ==> i <= j < |path| && path[j] == ']' && ']' !in path[i..j]
  {
    j := i;
    while j < |path|
      invariant i <= j <= |path| && ']' !in path[i..j]
    {
      if path[j] == ']' {
        return;
      }
      j := j + 1;
    }
    assert path[i..j] == path[i..];
    j := -1;
  }

  method CollapsePath(path: string) returns (out: string)
    ensures out == Collapse(path)
  {
    out := "";
    var i := 0;
    while i < |path|
      invariant 0 <= i <= |path|
      invariant out + Collapse(path[i..]) == Collapse(path)
    {
      if path[i] == '[' {
        var j := FindClose(path, i);
        SkipBracket(path, i, j);
        out := out + "[]";
        i := if j != -1 then j + 1 else i + 1;
      } else {
        assert path[i..][1..] == path[i + 1..];
        out := out + [path[i]];
        i := i + 1;
      }
    }
  }

  lemma SkipBracket(path: string, i: nat, j: int)
    requires i < |path| && path[i] == '['
    requires j == -1 ==> ']' !in path[i..]
    requires j != -1 ==> i <= j < |path| && path[j] == ']' && ']' !in path[i..j]
    ensures Collapse(path[i..]) == "[]" + Collapse(path[if j != -1 then j + 1 else i + 1..])
  {
    var rest := path[i + 1..];
    assert path[i..] == [path[i]] + rest;
    if j != -1 {
      CloseAfter(path, i, j);
    }
  }

  lemma CloseAfter(path: string, i: nat, j: nat)
    requires i < j < |path| && path[j] == ']' && ']' !in path[i..j]
    ensures ']' in path[i + 1..] && PastClose(path[i + 1..]) == path[j + 1..]
  {
    var rest := path[i + 1..];
    assert rest[..j - i - 1] == path[i..j][1..];
    PastCloseAt(rest, j - i - 1);
    assert rest[j - i..] == path[j + 1..];
  }

  // ---- Shapes ----------------------------------------------------------------------------------------

  predicate NoBracket(s: string) {
    '[' !in s && ']' !in s
  }

  /** Every opening bracket is followed by a closing one. */
  predicate Closed(s: string) {
    forall i | 0 <= i < |s| && s[i] == '[' :: ']' in s[i..]
  }

  lemma {:induction false} CollapsePlain(s: string)
    requires NoBracket(s)
    ensures Collapse(s) == s
  {
    if s != "" {
      CollapsePlain(s[1..]);
    }
  }

  lemma {:induction false} PastCloseConcat(x: string, y: string)
    requires ']' in x
    ensures ']' in x + y && PastClose(x + y) == PastClose(x) + y
  {
    if x[0] == ']' {
      assert (x + y)[1..] == x[1..] + y;
    } else {
      PastCloseConcat(x[1..], y);
      assert (x + y)[1..] == x[1..] + y;
    }
  }

  lemma {:induction false} PastCloseSuffix(x: string) returns (k: nat)
    requires ']' in x
    ensures k <= |x| && PastClose(x) == x[k..]
  {
    if x[0] == ']' {
      k := 1;
    } else {
      var l := PastCloseSuffix(x[1..]);
      k := l + 1;
      assert x[1..][l..] == x[k..];
    }
  }

  lemma ClosedSuffix(x: string, k: nat)
    requires Closed(x) && k <= |x|
    ensures Closed(x[k..])
  {
    forall i | 0 <= i < |x[k..]| && x[k..][i] == '[' ensures ']' in x[k..][i..] {
      assert x[k..][i..] == x[k + i..];
      assert x[k + i] == '[';
    }
  }

  /** A suffix without brackets is kept, whatever is in front of it. */
  lemma {:induction false} CollapseSuffix(x: string, s: string)
    requires NoBracket(s)
    ensures Collapse(x + s) == Collapse(x) + s
    decreases |x|
  {
    if x == "" {
      assert x + s == s;
      CollapsePlain(s);
    } else {
      assert (x + s)[1..] == x[1..] + s;
      if x[0] == '[' {
        if ']' in x[1..] { PastCloseConcat(x[1..], s); }
        assert AfterClose(x[1..] + s) == AfterClose(x[1..]) + s;
        CollapseSuffix(AfterClose(x[1..]), s);
        Regroup("[]", Collapse(AfterClose(x[1..])), s);
      } else {
        CollapseSuffix(x[1..], s);
        Regroup([x[0]], Collapse(x[1..]), s);
      }
    }
  }

  /** A closed front is collapsed on its own. */
  lemma {:induction false} CollapseConcat(x: string, y: string)
    requires Closed(x)
    ensures Collapse(x + y) == Collapse(x) + Collapse(y)
    decreases |x|
  {
    if x == "" {
      assert x + y == y;
    } else {
      assert (x + y)[1..] == x[1..] + y;
      if x[0] == '[' {
        assert x[0..] == x;
        assert ']' in x[1..];
        PastCloseConcat(x[1..], y);
        var k := PastCloseSuffix(x[1..]);
        assert x[1..][k..] == x[1 + k..];
        ClosedSuffix(x, 1 + k);
        CollapseConcat(PastClose(x[1..]), y);
        Regroup("[]", Collapse(PastClose(x[1..])), Collapse(y));
      } else {
        ClosedSuffix(x, 1);
        CollapseConcat(x[1..], y);
        Regroup([x[0]], Collapse(x[1..]), Collapse(y));
      }
    }
  }

  lemma Regroup(a: string, b: string, c: string)
    ensures a + b + c == a + (b + c)
  {
  }

  /** A bracketed index or id leaves only its brackets. */
  lemma CollapseItem(id: string)
    requires ']' !in id
    ensures Collapse("[" + id + "]") == "[]" && Closed("[" + id + "]")
  {
    var s := "[" + id + "]";
    assert s[1..] == id + "]";
    assert (id + "]")[..|id|] == id;
    PastCloseAt(id + "]", |id|);
    forall i | 0 <= i < |s| && s[i] == '[' ensures ']' in s[i..] {
      assert s[i..][|s| - 1 - i] == ']';
    }
  }

  lemma ClosedConcat(x: string, y: string)
    requires Closed(x) && Closed(y)
    ensures Closed(x + y)
  {
    forall i | 0 <= i < |x + y| && (x + y)[i] == '[' ensures ']' in (x + y)[i..] {
      if i < |x| {
        assert (x + y)[i..] == x[i..] + y;
      } else {
        assert (x + y)[i..] == y[i - |x|..];
      }
    }
  }
}
