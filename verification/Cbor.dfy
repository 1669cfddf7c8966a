/**
 RFC 8949 data items, and the rewriting of a definite-length map into the
 indefinite-length form.
 */
module Cbor {
  import opened Arithmetic
  import opened Wrappers

  newtype Byte = b: int | 0 <= b < 256

  type Bytes = seq<Byte>

  /** Decoded items.  Floats keep their bits; indefinite strings are concatenated. */
  datatype Item =
    | UInt(n: nat)
    | NInt(n: nat)
    | ByteString(bytes: Bytes)
    | TextString(bytes: Bytes)
    | Array(items: seq<Item>)
    | Map(pairs: seq<(Item, Item)>)
    | Tag(tag: nat, content: Item)
    | Simple(code: nat)
    | Float(width: nat, bits: nat)

  /** A parsed prefix and the bytes left over. */
  datatype Parsed<T> = Fail | Ok(value: T, rest: Bytes)

  // ---- Heads (section 3) -------------------------------------------------------

  function BigEndian(bs: Bytes): nat {
    if bs == [] then 0 else 256 * BigEndian(bs[..|bs| - 1]) + bs[|bs| - 1] as int
  }

  /** Additional information 24 to 27 announces 1, 2, 4 or 8 argument bytes. */
  function ArgumentWidth(info: nat): nat {
    if info == 24 then 1 else if info == 25 then 2 else if info == 26 then 4 else if info == 27 then 8 else 0
  }

  function ParseArgument(info: nat, s: Bytes): (r: Parsed<nat>)
    ensures r.Ok? ==> |r.rest| <= |s|
  {
    var w := ArgumentWidth(info);
    if info < 24 then Ok(info, s)
    else if info > 27 || |s| < w then Fail
    else Ok(BigEndian(s[..w]), s[w..])
  }

  const BREAK: Byte := 0xff

  // ---- Items (sections 3.1, 3.2 and 3.3) -----------------------------------------

  function Parse(s: Bytes): (r: Parsed<Item>)
    ensures r.Ok? ==> |r.rest| < |s|
    decreases |s|, 1
  {
    if s == [] then Fail
    else
      var major, info := s[0] as int / 32, s[0] as int % 32;
      if info == 31 then ParseIndefinite(major, s[1..])
      else match ParseArgument(info, s[1..])
           case Fail => Fail
           case Ok(arg, rest) => ParseBody(major, info, arg, rest)
  }

  function ParseBody(major: nat, info: nat, arg: nat, s: Bytes): (r: Parsed<Item>)
    ensures r.Ok? ==> |r.rest| <= |s|
    decreases |s|, 4
  {
    match major
    case 0 => Ok(UInt(arg), s)
    case 1 => Ok(NInt(arg), s)
    case 2 => if |s| < arg then Fail else Ok(ByteString(s[..arg]), s[arg..])
    case 3 => if |s| < arg then Fail else Ok(TextString(s[..arg]), s[arg..])
    case 4 => (match ParseItems(arg, s) case Fail => Fail case Ok(xs, rest) => Ok(Array(xs), rest))
    case 5 => (match ParsePairs(arg, s) case Fail => Fail case Ok(ps, rest) => Ok(Map(ps), rest))
    case 6 => (match Parse(s) case Fail => Fail case Ok(x, rest) => Ok(Tag(arg, x), rest))
    case _ =>
      if info < 24 then Ok(Simple(arg), s)
      else if info == 24 then (if arg < 32 then Fail else Ok(Simple(arg), s))
      else Ok(Float(ArgumentWidth(info), arg), s)
  }

  function ParseIndefinite(major: nat, s: Bytes): (r: Parsed<Item>)
    ensures r.Ok? ==> |r.rest| <= |s|
    decreases |s|, 4
  {
    match major
    case 2 => (match ParseChunks(2, s) case Fail => Fail case Ok(bs, rest) => Ok(ByteString(bs), rest))
    case 3 => (match ParseChunks(3, s) case Fail => Fail case Ok(bs, rest) => Ok(TextString(bs), rest))
    case 4 => (match ParseItemsToBreak(s) case Fail => Fail case Ok(xs, rest) => Ok(Array(xs), rest))
    case 5 => (match ParsePairsToBreak(s) case Fail => Fail case Ok(ps, rest) => Ok(Map(ps), rest))
    case _ => Fail
  }

  function ParseItems(n: nat, s: Bytes): (r: Parsed<seq<Item>>)
    ensures r.Ok? ==> |r.rest| <= |s|
    decreases |s|, 3, n
  {
    if n == 0 then Ok([], s)
    else match Parse(s)
         case Fail => Fail
         case Ok(x, rest) =>
           match ParseItems(n - 1, rest)
           case Fail => Fail
           case Ok(xs, rest') => Ok([x] + xs, rest')
  }

  function ParsePair(s: Bytes): (r: Parsed<(Item, Item)>)
    ensures r.Ok? ==> |r.rest| < |s|
    decreases |s|, 2
  {
    match Parse(s)
    case Fail => Fail
    case Ok(k, rest) =>
      match Parse(rest)
      case Fail => Fail
      case Ok(v, rest') => Ok((k, v), rest')
  }

  function ParsePairs(n: nat, s: Bytes): (r: Parsed<seq<(Item, Item)>>)
    ensures r.Ok? ==> |r.rest| <= |s|
    decreases |s|, 3, n
  {
    if n == 0 then Ok([], s)
    else match ParsePair(s)
         case Fail => Fail
         case Ok(p, rest) =>
           match ParsePairs(n - 1, rest)
           case Fail => Fail
           case Ok(ps, rest') => Ok([p] + ps, rest')
  }

  function ParseItemsToBreak(s: Bytes): (r: Parsed<seq<Item>>)
    ensures r.Ok? ==> |r.rest| <= |s|
    decreases |s|, 3
  {
    if s == [] then Fail
    else if s[0] == BREAK then Ok([], s[1..])
    else match Parse(s)
         case Fail => Fail
         case Ok(x, rest) =>
           match ParseItemsToBreak(rest)
           case Fail => Fail
           case Ok(xs, rest') => Ok([x] + xs, rest')
  }

  function ParsePairsToBreak(s: Bytes): (r: Parsed<seq<(Item, Item)>>)
    ensures r.Ok? ==> |r.rest| <= |s|
    decreases |s|, 3
  {
    if s == [] then Fail
    else if s[0] == BREAK then Ok([], s[1..])
    else match ParsePair(s)
         case Fail => Fail
         case Ok(p, rest) =>
           match ParsePairsToBreak(rest)
           case Fail => Fail
           case Ok(ps, rest') => Ok([p] + ps, rest')
  }

  /** Chunks of an indefinite string: definite strings of the same major type. */
  function ParseChunks(major: nat, s: Bytes): (r: Parsed<Bytes>)
    ensures r.Ok? ==> |r.rest| <= |s|
    decreases |s|, 3
  {
    if s == [] then Fail
    else if s[0] == BREAK then Ok([], s[1..])
    else if s[0] as int / 32 != major || s[0] as int % 32 == 31 then Fail
    else match ParseArgument(s[0] as int % 32, s[1..])
         case Fail => Fail
         case Ok(n, rest) =>
           if |rest| < n then Fail
           else match ParseChunks(major, rest[n..])
                case Fail => Fail
                case Ok(bs, rest') => Ok(rest[..n] + bs, rest')
  }

  /** One item and nothing after it. */
  function Decode(s: Bytes): Option<Item> {
    match Parse(s)
    case Fail => None
    case Ok(x, rest) => if rest == [] then Some(x) else None
  }

  // ---- Parsing does not look past what it consumes ----------------------------------

  /** What parsing `s + t` says, given what parsing `s` says: the same, with `t` left over. */
  ghost predicate Local<T>(short: Parsed<T>, long: Parsed<T>, t: Bytes) {
    && (short.Ok? ==> long == Ok(short.value, short.rest + t))
    && (long.Ok? && |long.rest| >= |t| ==> short.Ok?)
  }

  lemma ArgumentLocal(info: nat, s: Bytes, t: Bytes)
    ensures Local(ParseArgument(info, s), ParseArgument(info, s + t), t)
  {
    var w := ArgumentWidth(info);
    if |s| >= w {
      assert (s + t)[..w] == s[..w] && (s + t)[w..] == s[w..] + t;
    }
  }

  lemma {:induction false} ParseLocal(s: Bytes, t: Bytes)
    ensures Local(Parse(s), Parse(s + t), t)
    decreases |s|, 1
  {
    if s != [] {
      var info := s[0] as int % 32;
      assert (s + t)[1..] == s[1..] + t;
      if info == 31 {
        IndefiniteLocal(s[0] as int / 32, s[1..], t);
      } else {
        ArgumentLocal(info, s[1..], t);
        var a := ParseArgument(info, s[1..]);
        if a.Ok? {
          BodyLocal(s[0] as int / 32, info, a.value, a.rest, t);
        } else {
          LongFails(s, t);
        }
      }
    } else {
      assert s + t == t;
    }
  }

  /** When the argument is cut off, the longer parse either fails or eats into `t`. */
  lemma LongFails(s: Bytes, t: Bytes)
    requires s != [] && s[0] as int % 32 != 31
    requires ParseArgument(s[0] as int % 32, s[1..]).Fail?
    ensures Parse(s + t).Fail? || |Parse(s + t).rest| < |t|
  {
    assert (s + t)[1..] == s[1..] + t;
    ArgumentLocal(s[0] as int % 32, s[1..], t);
  }

  lemma {:induction false} BodyLocal(major: nat, info: nat, arg: nat, s: Bytes, t: Bytes)
    ensures Local(ParseBody(major, info, arg, s), ParseBody(major, info, arg, s + t), t)
    decreases |s|, 4
  {
    if major == 2 || major == 3 {
      if |s| >= arg {
        assert (s + t)[..arg] == s[..arg] && (s + t)[arg..] == s[arg..] + t;
      }
    } else if major == 4 {
      ItemsLocal(arg, s, t);
    } else if major == 5 {
      PairsLocal(arg, s, t);
    } else if major == 6 {
      ParseLocal(s, t);
    }
  }

  lemma {:induction false} IndefiniteLocal(major: nat, s: Bytes, t: Bytes)
    ensures Local(ParseIndefinite(major, s), ParseIndefinite(major, s + t), t)
    decreases |s|, 4
  {
    if major == 2 || major == 3 {
      ChunksLocal(major, s, t);
    } else if major == 4 {
      ItemsToBreakLocal(s, t);
    } else if major == 5 {
      PairsToBreakLocal(s, t);
    }
  }

  lemma {:induction false} ItemsLocal(n: nat, s: Bytes, t: Bytes)
    ensures Local(ParseItems(n, s), ParseItems(n, s + t), t)
    decreases |s|, 3, n
  {
    if n > 0 {
      ParseLocal(s, t);
      if Parse(s).Ok? { ItemsLocal(n - 1, Parse(s).rest, t); }
    }
  }

  lemma {:induction false} PairLocal(s: Bytes, t: Bytes)
    ensures Local(ParsePair(s), ParsePair(s + t), t)
    decreases |s|, 2
  {
    ParseLocal(s, t);
    if Parse(s).Ok? { ParseLocal(Parse(s).rest, t); }
  }

  lemma {:induction false} PairsLocal(n: nat, s: Bytes, t: Bytes)
    ensures Local(ParsePairs(n, s), ParsePairs(n, s + t), t)
    decreases |s|, 3, n
  {
    if n > 0 {
      PairLocal(s, t);
      if ParsePair(s).Ok? { PairsLocal(n - 1, ParsePair(s).rest, t); }
    }
  }

  lemma {:induction false} ItemsToBreakLocal(s: Bytes, t: Bytes)
    ensures Local(ParseItemsToBreak(s), ParseItemsToBreak(s + t), t)
    decreases |s|, 3
  {
    if s != [] {
      assert (s + t)[1..] == s[1..] + t;
      if s[0] != BREAK {
        ParseLocal(s, t);
        if Parse(s).Ok? { ItemsToBreakLocal(Parse(s).rest, t); }
      }
    } else {
      assert s + t == t;
    }
  }

  lemma {:induction false} PairsToBreakLocal(s: Bytes, t: Bytes)
    ensures Local(ParsePairsToBreak(s), ParsePairsToBreak(s + t), t)
    decreases |s|, 3
  {
    if s != [] {
      assert (s + t)[1..] == s[1..] + t;
      if s[0] != BREAK {
        PairLocal(s, t);
        if ParsePair(s).Ok? { PairsToBreakLocal(ParsePair(s).rest, t); }
      }
    } else {
      assert s + t == t;
    }
  }

  lemma SliceLocal(s: Bytes, n: nat, t: Bytes)
    requires n <= |s|
    ensures (s + t)[..n] == s[..n] && (s + t)[n..] == s[n..] + t
  {
  }

  lemma {:induction false} ChunksLocal(major: nat, s: Bytes, t: Bytes)
    ensures Local(ParseChunks(major, s), ParseChunks(major, s + t), t)
    decreases |s|, 3
  {
    if s != [] {
      assert (s + t)[1..] == s[1..] + t;
      var info := s[0] as int % 32;
      if s[0] != BREAK && s[0] as int / 32 == major && info != 31 {
        ArgumentLocal(info, s[1..], t);
        var a := ParseArgument(info, s[1..]);
        if a.Ok? && |a.rest| >= a.value {
          SliceLocal(a.rest, a.value, t);
          ChunksLocal(major, a.rest[a.value..], t);
        }
      }
    } else {
      assert s + t == t;
    }
  }

  // ---- From definite to indefinite ----------------------------------------------------

  /** No well-formed item starts with the break byte. */
  lemma BreakStartsNoItem(s: Bytes)
    requires s != [] && s[0] == BREAK
    ensures Parse(s).Fail? && ParsePair(s).Fail?
  {
  }

  /** `n` pairs and nothing else, exactly when the same pairs are closed by a break. */
  lemma {:induction false} PairsThenBreak(s: Bytes, ps: seq<(Item, Item)>)
    ensures ParsePairs(|ps|, s) == Ok(ps, []) <==> ParsePairsToBreak(s + [BREAK]) == Ok(ps, [])
    decreases |s|
  {
    var long := s + [BREAK];
    if s == [] {
      assert long == [BREAK];
    } else {
      PairLocal(s, [BREAK]);
      if s[0] == BREAK {
        BreakStartsNoItem(s);
        assert long[1..] != [];
      } else if ParsePair(s).Ok? && ps != [] {
        PairsThenBreak(ParsePair(s).rest, ps[1..]);
        assert [ps[0]] + ps[1..] == ps;
      } else if ParsePair(s).Ok? {
        assert ParsePairsToBreak(long).Ok? ==> ParsePairsToBreak(long).value != [];
      } else {
        BrokenTail(s);
      }
    }
  }

  /** A pair that does not fit before the break byte is never completed by it. */
  lemma BrokenTail(s: Bytes)
    requires s != [] && s[0] != BREAK && ParsePair(s).Fail?
    ensures ParsePairsToBreak(s + [BREAK]).Fail?
  {
    PairLocal(s, [BREAK]);
    assert (s + [BREAK])[0] == s[0];
    var long := ParsePair(s + [BREAK]);
    if long.Ok? {
      assert long.rest == [];
    }
  }

  /** The width of a definite map head, or nothing if the byte is not one. */
  function MapHeadWidth(b: Byte): Option<nat> {
    if 0xa0 <= b <= 0xb7 then Some(1)
    else if b == 0xb8 then Some(2)
    else if b == 0xb9 then Some(3)
    else if b == 0xba then Some(5)
    else if b == 0xbb then Some(9)
    else None
  }

  /** `None` where the source panics: no bytes, another head, or a head cut short. */
  function ToIndefinite(definite: Bytes): Option<Bytes> {
    if definite == [] then None
    else match MapHeadWidth(definite[0])
         case None => None
         case Some(w) => if |definite| < w then None else Some([0xbf] + definite[w..] + [BREAK])
  }

  method ToIndefiniteMap(definite: Bytes) returns (out: Option<Bytes>)
    ensures out == ToIndefinite(definite)
  {
    if definite == [] {
      return None;
    }
    var w := MapHeadWidth(definite[0]);
    if w.None? || |definite| < w.value {
      return None;
    }
    var bytes: Bytes := [0xbf];
    bytes := bytes + definite[w.value..];
    bytes := bytes + [BREAK];
    out := Some(bytes);
  }

  /** The number of pairs a definite map head announces. */
  function AnnouncedPairs(definite: Bytes): nat
    requires ToIndefinite(definite).Some?
  {
    if definite[0] <= 0xb7 then definite[0] as int - 0xa0 else BigEndian(definite[1..MapHeadWidth(definite[0]).value])
  }

  lemma DefiniteDecodes(definite: Bytes)
    requires ToIndefinite(definite).Some?
    ensures var w := MapHeadWidth(definite[0]).value;
            Parse(definite) == match ParsePairs(AnnouncedPairs(definite), definite[w..])
                               case Fail => Fail
                               case Ok(ps, rest) => Ok(Map(ps), rest)
  {
    var w := MapHeadWidth(definite[0]).value;
    assert definite[0] as int / 32 == 5;
    assert definite[1..][..w - 1] == definite[1..w];
    assert definite[1..][w - 1..] == definite[w..];
  }

  lemma IndefiniteDecodes(body: Bytes)
    ensures Parse([0xbf] + body) ==
            match ParsePairsToBreak(body) case Fail => Fail case Ok(ps, rest) => Ok(Map(ps), rest)
  {
    assert ([0xbf] + body)[1..] == body;
  }

  /**
   For all five head widths: the definite bytes decode to a map exactly when the
   rewritten bytes decode to the same pair sequence and the head counted it right.
   */
  lemma RewritePreservesPairs(definite: Bytes, ps: seq<(Item, Item)>)
    requires ToIndefinite(definite).Some?
    ensures Decode(definite) == Some(Map(ps)) <==>
            Decode(ToIndefinite(definite).value) == Some(Map(ps)) && AnnouncedPairs(definite) == |ps|
  {
    var body := definite[MapHeadWidth(definite[0]).value..];
    var n := AnnouncedPairs(definite);
    DefiniteDecodes(definite);
    assert [0xbf] + body + [BREAK] == [0xbf] + (body + [BREAK]);
    IndefiniteDecodes(body + [BREAK]);
    PairsThenBreak(body, ps);
    ParsePairsCount(n, body);
  }

  lemma {:induction false} ParsePairsCount(n: nat, s: Bytes)
    ensures ParsePairs(n, s).Ok? ==> |ParsePairs(n, s).value| == n
    decreases n
  {
    if n > 0 && ParsePair(s).Ok? {
      ParsePairsCount(n - 1, ParsePair(s).rest);
    }
  }

  // ---- Unsigned integers -----------------------------------------------------------------

  function BytesOf(n: nat, width: nat): (r: Bytes)
    ensures |r| == width
  {
    if width == 0 then [] else BytesOf(n / 256, width - 1) + [(n % 256) as Byte]
  }

  function Pow256(w: nat): (r: nat)
    ensures r > 0
  {
    if w == 0 then 1 else 256 * Pow256(w - 1)
  }

  lemma {:induction false} BigEndianOf(n: nat, width: nat)
    ensures BigEndian(BytesOf(n, width)) == n % Pow256(width)
  {
    if width > 0 {
      BigEndianOf(n / 256, width - 1);
      assert BytesOf(n, width)[..width - 1] == BytesOf(n / 256, width - 1);
      SplitMod(n, Pow256(width - 1));
    }
  }

  lemma SplitMod(n: nat, p: nat)
    requires p > 0
    ensures 256 * (n / 256 % p) + n % 256 == n % (256 * p)
  {
    var q, r := n / 256, n % 256;
    var a, b := q / p, q % p;
    assert n == 256 * (a * p + b) + r;
    assert 256 * (a * p) == a * (256 * p) by { MulSwap(a, p); }
    assert 0 <= 256 * b + r < 256 * p;
    DivModIs(n, 256 * p, a, 256 * b + r);
  }

  lemma MulSwap(a: nat, p: nat)
    ensures 256 * (a * p) == a * (256 * p)
  {
  }

  lemma {:induction false} BigEndianBound(bs: Bytes)
    ensures BigEndian(bs) < Pow256(|bs|)
  {
    if bs != [] {
      BigEndianBound(bs[..|bs| - 1]);
    }
  }

  /** The shape of the source: the widest case truncates to 32 bits. */
  function EncodeUint(n: nat): Bytes {
    if n <= 23 then [n as Byte]
    else if n <= 0xff then [0x18] + BytesOf(n, 1)
    else if n <= 0xffff then [0x19] + BytesOf(n, 2)
    else [0x1a] + BytesOf(n, 4)
  }

  lemma ArgumentOf(n: nat, info: nat, rest: Bytes)
    requires 24 <= info <= 27
    ensures var w := ArgumentWidth(info); ParseArgument(info, BytesOf(n, w) + rest) == Ok(n % Pow256(w), rest)
  {
    var w := ArgumentWidth(info);
    BigEndianOf(n, w);
    assert (BytesOf(n, w) + rest)[..w] == BytesOf(n, w) && (BytesOf(n, w) + rest)[w..] == rest;
  }

  lemma HeadParses(head: Byte, arg: Bytes, rest: Bytes)
    requires head < 31
    ensures Parse([head] + arg + rest) == match ParseArgument(head as int, arg + rest)
                                          case Fail => Fail
                                          case Ok(n, r) => Ok(UInt(n), r)
  {
    assert ([head] + arg + rest)[1..] == arg + rest;
  }

  lemma Powers()
    ensures Pow256(1) == 0x100 && Pow256(2) == 0x1_0000 && Pow256(4) == 0x1_0000_0000
  {
    assert Pow256(1) == 256 * Pow256(0);
    assert Pow256(2) == 256 * Pow256(1);
    assert Pow256(3) == 256 * Pow256(2);
  }

  lemma WideParses(n: nat, info: nat, rest: Bytes)
    requires 24 <= info <= 26
    ensures var w := ArgumentWidth(info);
            Parse([info as Byte] + BytesOf(n, w) + rest) == Ok(UInt(n % Pow256(w)), rest)
  {
    HeadParses(info as Byte, BytesOf(n, ArgumentWidth(info)), rest);
    ArgumentOf(n, info, rest);
  }

  lemma EncodedParses(n: nat, rest: Bytes)
    ensures Parse(EncodeUint(n) + rest) == Ok(UInt(if n <= 0xffff then n else n % 0x1_0000_0000), rest)
  {
    Powers();
    if n <= 23 {
      HeadParses(n as Byte, [], rest);
      assert [n as Byte] + [] + rest == EncodeUint(n) + rest && [] + rest == rest;
    } else if n <= 0xff {
      WideParses(n, 24, rest);
    } else if n <= 0xffff {
      WideParses(n, 25, rest);
    } else {
      WideParses(n, 26, rest);
    }
  }

  /** Decodable to the same number exactly below 2^32; larger keys wrap silently. */
  lemma EncodeUintRoundTrip(n: nat)
    ensures Decode(EncodeUint(n)) == Some(UInt(n)) <==> n < 0x1_0000_0000
  {
    EncodedParses(n, []);
    assert EncodeUint(n) + [] == EncodeUint(n);
    if n >= 0x1_0000_0000 {
      assert n % 0x1_0000_0000 < n;
    }
  }

  lemma EncodeUintWraps()
    ensures Decode(EncodeUint(0x1_0000_0000)) == Some(UInt(0))
  {
    EncodedParses(0x1_0000_0000, []);
    assert EncodeUint(0x1_0000_0000) + [] == EncodeUint(0x1_0000_0000);
  }

  /** No encoding of the same number is shorter. */
  lemma EncodeUintShortest(n: nat, s: Bytes)
    requires Decode(s) == Some(UInt(n)) && n < 0x1_0000_0000
    ensures |EncodeUint(n)| <= |s|
  {
    var info := s[0] as int % 32;
    var w := ArgumentWidth(info);
    UIntHead(s);
    if info >= 24 {
      BigEndianBound(s[1..][..w]);
      Powers();
    }
  }

  lemma UIntHead(s: Bytes)
    requires Parse(s).Ok? && Parse(s).value.UInt?
    ensures s[0] as int / 32 == 0 && s[0] as int % 32 < 28
    ensures ParseArgument(s[0] as int % 32, s[1..]) == Ok(Parse(s).value.n, Parse(s).rest)
  {
    var major, info := s[0] as int / 32, s[0] as int % 32;
    if info != 31 {
      var a := ParseArgument(info, s[1..]);
      assert Parse(s) == ParseBody(major, info, a.value, a.rest);
    }
  }

  method SingleEntryMap(key: nat) returns (v: Bytes)
    ensures Decode(v) == Some(Map([(UInt(key), UInt(0))])) <==> key < 0x1_0000_0000
    ensures ToIndefinite(v).Some?
    ensures Decode(ToIndefinite(v).value) == Decode(v)
  {
    v := [0xa1];
    v := v + EncodeUint(key);
    v := v + [0x00];
    SingleEntryDecodes(key, v);
  }

  lemma OnePair(s: Bytes, p: (Item, Item))
    requires ParsePair(s) == Ok(p, [])
    ensures ParsePairs(1, s) == Ok([p], [])
  {
    var none: seq<(Item, Item)> := [];
    assert ParsePairs(0, []) == Ok(none, []);
    assert [p] + none == [p];
  }

  lemma EntryParses(key: nat)
    ensures ParsePair(EncodeUint(key) + [0x00]) ==
            Ok((UInt(if key <= 0xffff then key else key % 0x1_0000_0000), UInt(0)), [])
  {
    EncodedParses(key, [0x00]);
    assert Parse([0x00]) == Ok(UInt(0), []) by { assert [0x00 as Byte][1..] == []; }
  }

  lemma SingleEntryDecodes(key: nat, v: Bytes)
    requires v == [0xa1] + EncodeUint(key) + [0x00]
    ensures Decode(v) == Some(Map([(UInt(key), UInt(0))])) <==> key < 0x1_0000_0000
    ensures ToIndefinite(v).Some?
    ensures Decode(ToIndefinite(v).value) == Decode(v)
  {
    var decoded := if key <= 0xffff then key else key % 0x1_0000_0000;
    var body := v[1..];
    assert body == EncodeUint(key) + [0x00];
    EntryParses(key);
    DefiniteDecodes(v);
    var ps := [(UInt(decoded), UInt(0))];
    OnePair(body, ps[0]);
    RewritePreservesPairs(v, ps);
    if key >= 0x1_0000_0000 {
      assert decoded < key;
      assert ps[0].0 == UInt(decoded);
    }
  }
}
