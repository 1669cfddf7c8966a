/**
 Data items written with definite lengths and shortest heads, as section 4.2.1 of
 RFC 8949 has it, read back by the decoder, and rewritten.
 */
module CborItems {
  import opened Wrappers
  import opened Cbor

  const WORD := 0x1_0000_0000_0000_0000

  /** The shortest head for a length or number below 2^64. */
  function Head(major: nat, n: nat): Bytes
    requires major < 8
  {
    var first := 32 * major;
    if n < 24 then [(first + n) as Byte]
    else if n <= 0xff then [(first + 24) as Byte] + BytesOf(n, 1)
    else if n <= 0xffff then [(first + 25) as Byte] + BytesOf(n, 2)
    else if n <= 0xffff_ffff then [(first + 26) as Byte] + BytesOf(n, 4)
    else [(first + 27) as Byte] + BytesOf(n, 8)
  }

  predicate Encodable(x: Item)
    decreases x
  {
    match x
    case UInt(n) => n < WORD
    case NInt(n) => n < WORD
    case ByteString(bs) => |bs| < WORD
    case TextString(bs) => |bs| < WORD
    case Array(xs) => |xs| < WORD && forall i | 0 <= i < |xs| :: Encodable(xs[i])
    case Map(ps) => |ps| < WORD && forall i | 0 <= i < |ps| :: Encodable(ps[i].0) && Encodable(ps[i].1)
    case Tag(n, c) => n < WORD && Encodable(c)
    case Simple(code) => code < 24 || 32 <= code < 256
    case Float(w, bits) => (w == 2 || w == 4 || w == 8) && bits < Pow256(w)
  }

  function EncodeItem(x: Item): Bytes
    requires Encodable(x)
    decreases x, 1
  {
    match x
    case UInt(n) => Head(0, n)
    case NInt(n) => Head(1, n)
    case ByteString(bs) => Head(2, |bs|) + bs
    case TextString(bs) => Head(3, |bs|) + bs
    case Array(xs) => Head(4, |xs|) + EncodeItems(xs)
    case Map(ps) => Head(5, |ps|) + EncodePairs(ps)
    case Tag(n, c) => Head(6, n) + EncodeItem(c)
    case Simple(code) => Head(7, code)
    case Float(w, bits) => [if w == 2 then 0xf9 else if w == 4 then 0xfa else 0xfb] + BytesOf(bits, w)
  }

  function EncodeItems(xs: seq<Item>): Bytes
    requires forall i | 0 <= i < |xs| :: Encodable(xs[i])
    decreases xs, 0
  {
    if xs == [] then [] else EncodeItem(xs[0]) + EncodeItems(xs[1..])
  }

  function EncodePairs(ps: seq<(Item, Item)>): Bytes
    requires forall i | 0 <= i < |ps| :: Encodable(ps[i].0) && Encodable(ps[i].1)
    decreases ps, 0
  {
    if ps == [] then [] else EncodePair(ps[0]) + EncodePairs(ps[1..])
  }

  function EncodePair(p: (Item, Item)): Bytes
    requires Encodable(p.0) && Encodable(p.1)
    decreases p, 0
  {
    EncodeItem(p.0) + EncodeItem(p.1)
  }

  // ---- Heads -----------------------------------------------------------------------------------------

  function Info(n: nat): nat {
    if n < 24 then n else if n <= 0xff then 24 else if n <= 0xffff then 25 else if n <= 0xffff_ffff then 26 else 27
  }

  lemma LongPower()
    ensures Pow256(8) == WORD
  {
    Powers();
    assert Pow256(5) == 256 * Pow256(4);
    assert Pow256(6) == 256 * Pow256(5);
    assert Pow256(7) == 256 * Pow256(6);
    assert Pow256(8) == 256 * Pow256(7);
  }

  lemma Fits(n: nat, info: nat)
    requires n < WORD && info == Info(n) && info >= 24
    ensures n % Pow256(ArgumentWidth(info)) == n
  {
    Powers();
    LongPower();
  }

  lemma HeadIs(major: nat, n: nat)
    requires major < 8
    ensures Head(major, n) == [(32 * major + Info(n)) as Byte] + BytesOf(n, ArgumentWidth(Info(n)))
  {
  }

  lemma FirstByte(major: nat, info: nat)
    requires major < 8 && info < 32
    ensures (32 * major + info) / 32 == major && (32 * major + info) % 32 == info
  {
  }

  lemma HeadReads(major: nat, n: nat, t: Bytes)
    requires major < 8 && n < WORD
    ensures Parse(Head(major, n) + t) == ParseBody(major, Info(n), n, t)
  {
    var info := Info(n);
    var arg := BytesOf(n, ArgumentWidth(info));
    var s := Head(major, n) + t;
    HeadIs(major, n);
    FirstByte(major, info);
    assert s[0] == (32 * major + info) as Byte && s[1..] == arg + t;
    if info < 24 {
      assert arg + t == t;
    } else {
      ArgumentOf(n, info, t);
      Fits(n, info);
    }
  }

  // ---- Reading back ----------------------------------------------------------------------------------

  lemma Regroup(a: Bytes, b: Bytes, t: Bytes)
    ensures a + b + t == a + (b + t)
  {
  }

  lemma StringReads(major: nat, bs: Bytes, t: Bytes)
    requires (major == 2 || major == 3) && |bs| < WORD
    ensures Parse(Head(major, |bs|) + bs + t) == Ok(if major == 2 then ByteString(bs) else TextString(bs), t)
  {
    Regroup(Head(major, |bs|), bs, t);
    HeadReads(major, |bs|, bs + t);
    assert (bs + t)[..|bs|] == bs && (bs + t)[|bs|..] == t;
  }

  lemma FloatReads(w: nat, bits: nat, t: Bytes)
    requires Encodable(Float(w, bits))
    ensures Parse(EncodeItem(Float(w, bits)) + t) == Ok(Float(w, bits), t)
  {
    var info := if w == 2 then 25 else if w == 4 then 26 else 27;
    Below(bits, Pow256(w));
    ArgumentOf(bits, info, t);
    FloatHead(info, BytesOf(bits, w), t);
    assert EncodeItem(Float(w, bits)) == [(32 * 7 + info) as Byte] + BytesOf(bits, w);
  }

  lemma FloatHead(info: nat, arg: Bytes, t: Bytes)
    requires 25 <= info <= 27
    ensures ParseArgument(info, arg + t).Ok? ==>
              var r := ParseArgument(info, arg + t);
              Parse([(32 * 7 + info) as Byte] + arg + t) == Ok(Float(ArgumentWidth(info), r.value), r.rest)
  {
    var s := [(32 * 7 + info) as Byte] + arg + t;
    FirstByte(7, info);
    assert s[0] == (32 * 7 + info) as Byte && s[1..] == arg + t;
  }

  lemma Below(n: nat, m: nat)
    requires n < m
    ensures n % m == n
  {
  }

  /** The decoder reads back every item, and leaves what follows it. */
  lemma {:induction false} ItemReads(x: Item, t: Bytes)
    requires Encodable(x)
    ensures Parse(EncodeItem(x) + t) == Ok(x, t)
    decreases x, 1
  {
    match x {
      case UInt(n) => HeadReads(0, n, t);
      case NInt(n) => HeadReads(1, n, t);
      case ByteString(bs) => StringReads(2, bs, t);
      case TextString(bs) => StringReads(3, bs, t);
      case Array(xs) =>
        Regroup(Head(4, |xs|), EncodeItems(xs), t);
        HeadReads(4, |xs|, EncodeItems(xs) + t);
        ItemsRead(xs, t);
      case Map(ps) =>
        Regroup(Head(5, |ps|), EncodePairs(ps), t);
        HeadReads(5, |ps|, EncodePairs(ps) + t);
        PairsRead(ps, t);
      case Tag(n, c) =>
        Regroup(Head(6, n), EncodeItem(c), t);
        HeadReads(6, n, EncodeItem(c) + t);
        ItemReads(c, t);
      case Simple(code) => HeadReads(7, code, t);
      case Float(w, bits) => FloatReads(w, bits, t);
    }
  }

  lemma {:induction false} ItemsRead(xs: seq<Item>, t: Bytes)
    requires forall i | 0 <= i < |xs| :: Encodable(xs[i])
    ensures ParseItems(|xs|, EncodeItems(xs) + t) == Ok(xs, t)
    decreases xs, 0
  {
    if xs == [] {
      assert EncodeItems(xs) + t == t;
    } else {
      var rest := EncodeItems(xs[1..]);
      Regroup(EncodeItem(xs[0]), rest, t);
      ItemReads(xs[0], rest + t);
      ItemsRead(xs[1..], t);
      assert [xs[0]] + xs[1..] == xs;
    }
  }

  lemma {:induction false} PairsRead(ps: seq<(Item, Item)>, t: Bytes)
    requires forall i | 0 <= i < |ps| :: Encodable(ps[i].0) && Encodable(ps[i].1)
    ensures ParsePairs(|ps|, EncodePairs(ps) + t) == Ok(ps, t)
    decreases ps, 0
  {
    if ps == [] {
      assert EncodePairs(ps) + t == t;
    } else {
      var rest := EncodePairs(ps[1..]);
      Regroup(EncodePair(ps[0]), rest, t);
      PairReads(ps[0], rest + t);
      PairsRead(ps[1..], t);
      assert [ps[0]] + ps[1..] == ps;
    }
  }

  lemma {:induction false} PairReads(p: (Item, Item), t: Bytes)
    requires Encodable(p.0) && Encodable(p.1)
    ensures ParsePair(EncodePair(p) + t) == Ok(p, t)
    decreases p, 0
  {
    Regroup(EncodeItem(p.0), EncodeItem(p.1), t);
    ItemReads(p.0, EncodeItem(p.1) + t);
    ItemReads(p.1, t);
  }

  lemma DecodesBack(x: Item)
    requires Encodable(x)
    ensures Decode(EncodeItem(x)) == Some(x)
  {
    ItemReads(x, []);
    assert EncodeItem(x) + [] == EncodeItem(x);
  }

  /** Every map written with definite length is rewritten to an encoding of the same map. */
  lemma RewrittenMapDecodes(ps: seq<(Item, Item)>)
    requires Encodable(Map(ps))
    ensures ToIndefinite(EncodeItem(Map(ps))).Some?
    ensures Decode(ToIndefinite(EncodeItem(Map(ps))).value) == Some(Map(ps))
  {
    var definite := EncodeItem(Map(ps));
    DecodesBack(Map(ps));
    HeadIs(5, |ps|);
    assert definite[0] == (32 * 5 + Info(|ps|)) as Byte;
    RewritePreservesPairs(definite, ps);
  }

  /** Reserved heads, breaks out of place, and simple values that have a one-byte form are refused. */
  lemma IllFormed(major: nat, info: nat, code: nat, t: Bytes)
    requires major < 8 && info < 32 && code < 32
    ensures 28 <= info <= 30 ==> Parse([(32 * major + info) as Byte] + t) == Fail
    ensures info == 31 && major in {0, 1, 6, 7} ==> Parse([(32 * major + info) as Byte] + t) == Fail
    ensures Parse([0xf8, code as Byte] + t) == Fail
  {
    FirstByte(major, info);
    assert ([(32 * major + info) as Byte] + t)[1..] == t;
    var s := [0xf8, code as Byte] + t;
    assert s[1..] == BytesOf(code, 1) + t;
    ArgumentOf(code, 24, t);
    Powers();
  }
}
