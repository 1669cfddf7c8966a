/**
 RFC 6901 JSON pointers: the strings under which synthesised configuration
 paths are recorded, and the decoding applied when a pointer is followed.
 */
module JsonPointer {
  import opened Wrappers

  type Path = seq<string>

  /** Replace every occurrence of the character `c` by `with`. */
  function ReplaceChar(s: string, c: char, with: string): string {
    if s == "" then ""
    else (if s[0] == c then with else [s[0]]) + ReplaceChar(s[1..], c, with)
  }

  /** Replace every occurrence of the two-character text `a b`, left to right, by `c`. */
  function ReplacePair(s: string, a: char, b: char, c: char): string {
    if s == "" then ""
    else if |s| >= 2 && s[0] == a && s[1] == b then [c] + ReplacePair(s[2..], a, b, c)
    else [s[0]] + ReplacePair(s[1..], a, b, c)
  }

  /** `~` first, then `/`: the other order would escape the new `~` again. */
  function EscapeSegment(seg: string): string {
    ReplaceChar(ReplaceChar(seg, '~', "~0"), '/', "~1")
  }

  function UnescapeSegment(seg: string): string {
    ReplacePair(ReplacePair(seg, '~', '1', '/'), '~', '0', '~')
  }

  function Pointer(path: Path): string {
    if path == [] then ""
    else Pointer(path[..|path| - 1]) + "/" + EscapeSegment(path[|path| - 1])
  }

  /** The text before the first `/`, and what follows from there on. */
  function FirstToken(s: string): (r: (string, string))
    ensures r.0 + r.1 == s
    ensures '/' !in r.0
    ensures r.1 != "" ==> r.1[0] == '/'
  {
    if s == "" || s[0] == '/' then ("", s)
    else var (t, rest) := FirstToken(s[1..]); ([s[0]] + t, rest)
  }

  /** Follow section 4 of RFC 6901: a pointer is empty or starts with `/`. */
  function Decode(ptr: string): Option<Path>
    decreases |ptr|
  {
    if ptr == "" then Some([])
    else if ptr[0] != '/' then None
    else
      var (token, rest) := FirstToken(ptr[1..]);
      assert |rest| <= |ptr[1..]|;
      match Decode(rest)
      case None => None
      case Some(tail) => Some([UnescapeSegment(token)] + tail)
  }

  /** The accumulating loop of the source. */
  method PathToJsonPointer(path: Path) returns (out: string)
    ensures out == Pointer(path)
    ensures Decode(out) == Some(path)
  {
    out := "";
    var i := 0;
    while i < |path|
      invariant 0 <= i <= |path|
      invariant out == Pointer(path[..i])
    {
      assert path[..i + 1][..i] == path[..i];
      out := out + "/" + EscapeSegment(path[i]);
      i := i + 1;
    }
    assert path[..i] == path;
    DecodePointer(path);
  }

  // ---- Escaping one segment --------------------------------------------

  lemma {:induction false} ReplaceCharCons(c: char, s: string, x: char, with: string)
    ensures ReplaceChar([c] + s, x, with) == (if c == x then with else [c]) + ReplaceChar(s, x, with)
  {
    assert ([c] + s)[1..] == s;
  }

  lemma {:induction false} ReplaceCharConcat(a: string, b: string, x: char, with: string)
    ensures ReplaceChar(a + b, x, with) == ReplaceChar(a, x, with) + ReplaceChar(b, x, with)
  {
    if a == "" {
      assert a + b == b;
    } else {
      assert (a + b)[1..] == a[1..] + b;
      ReplaceCharConcat(a[1..], b, x, with);
    }
  }

  function EscapeChar(c: char): string {
    if c == '~' then "~0" else if c == '/' then "~1" else [c]
  }

  lemma {:induction false} EscapeCons(seg: string)
    requires seg != ""
    ensures EscapeSegment(seg) == EscapeChar(seg[0]) + EscapeSegment(seg[1..])
  {
    var head := if seg[0] == '~' then "~0" else [seg[0]];
    ReplaceCharConcat(head, ReplaceChar(seg[1..], '~', "~0"), '/', "~1");
    assert ReplaceChar(head, '/', "~1") == EscapeChar(seg[0]) by {
      ReplaceCharCons(head[0], head[1..], '/', "~1");
      assert head == [head[0]] + head[1..];
      if |head| == 2 {
        assert head[1..] == ['0'] + "";
        ReplaceCharCons('0', "", '/', "~1");
      }
    }
  }

  lemma {:induction false} EscapedHasNoSlash(seg: string)
    ensures '/' !in EscapeSegment(seg)
  {
    if seg != "" {
      EscapeCons(seg);
      EscapedHasNoSlash(seg[1..]);
    }
  }

  lemma {:induction false} ReplacePairStep(c: char, s: string, a: char, b: char, x: char)
    ensures c != a ==> ReplacePair([c] + s, a, b, x) == [c] + ReplacePair(s, a, b, x)
    ensures ReplacePair([a, b] + s, a, b, x) == [x] + ReplacePair(s, a, b, x)
    ensures c != a && c != b ==> ReplacePair([a, c] + s, a, b, x) == [a, c] + ReplacePair(s, a, b, x)
  {
    assert ([c] + s)[1..] == s;
    assert ([a, b] + s)[2..] == s;
    assert ([a, c] + s)[1..] == [c] + s;
  }

  /** The first decoding pass restores exactly the slashes. */
  lemma {:induction false} FirstPass(seg: string)
    ensures ReplacePair(EscapeSegment(seg), '~', '1', '/') == ReplaceChar(seg, '~', "~0")
  {
    if seg != "" {
      EscapeCons(seg);
      FirstPass(seg[1..]);
      var tail := EscapeSegment(seg[1..]);
      ReplacePairStep(if seg[0] == '~' then '0' else seg[0], tail, '~', '1', '/');
    }
  }

  lemma {:induction false} SecondPass(seg: string)
    ensures ReplacePair(ReplaceChar(seg, '~', "~0"), '~', '0', '~') == seg
  {
    if seg != "" {
      SecondPass(seg[1..]);
      ReplacePairStep(seg[0], ReplaceChar(seg[1..], '~', "~0"), '~', '0', '~');
    }
  }

  lemma {:induction false} UnescapeEscape(seg: string)
    ensures UnescapeSegment(EscapeSegment(seg)) == seg
  {
    FirstPass(seg);
    SecondPass(seg);
  }

  // ---- Whole pointers ----------------------------------------------------

  lemma {:induction false} PointerConcat(a: Path, b: Path)
    ensures Pointer(a + b) == Pointer(a) + Pointer(b)
  {
    if b == [] {
      assert a + b == a;
    } else {
      assert (a + b)[..|a + b| - 1] == a + b[..|b| - 1];
      PointerConcat(a, b[..|b| - 1]);
    }
  }

  lemma {:induction false} FirstTokenOf(t: string, rest: string)
    requires '/' !in t
    requires rest != "" ==> rest[0] == '/'
    ensures FirstToken(t + rest) == (t, rest)
  {
    if t == "" {
      assert t + rest == rest;
    } else {
      assert (t + rest)[1..] == t[1..] + rest;
      FirstTokenOf(t[1..], rest);
      assert [t[0]] + t[1..] == t;
    }
  }

  lemma PointerCons(path: Path)
    requires path != []
    ensures Pointer(path) == "/" + EscapeSegment(path[0]) + Pointer(path[1..])
  {
    assert path == [path[0]] + path[1..];
    PointerConcat([path[0]], path[1..]);
    assert Pointer([path[0]]) == Pointer([]) + "/" + EscapeSegment(path[0]);
  }

  /** Decoding inverts encoding, for paths of arbitrary strings. */
  lemma {:induction false} DecodePointer(path: Path)
    ensures Decode(Pointer(path)) == Some(path)
  {
    if path != [] {
      PointerCons(path);
      var rest := Pointer(path[1..]);
      assert rest != "" ==> rest[0] == '/' by {
        if path[1..] != [] { PointerCons(path[1..]); }
      }
      EscapedHasNoSlash(path[0]);
      assert Pointer(path)[1..] == EscapeSegment(path[0]) + rest;
      FirstTokenOf(EscapeSegment(path[0]), rest);
      DecodePointer(path[1..]);
      UnescapeEscape(path[0]);
      assert [path[0]] + path[1..] == path;
    }
  }

  /** A recorded pointer names one tree position only. */
  lemma PointerInjective(a: Path, b: Path)
    ensures Pointer(a) == Pointer(b) <==> a == b
  {
    DecodePointer(a);
    DecodePointer(b);
  }
}
