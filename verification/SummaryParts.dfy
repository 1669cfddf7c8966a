/**
 The parts of a summary, described without hashing as the raw parts they
 stand for.
 */
module SummaryParts {
  import opened Wrappers
  import opened Ordering
  import opened Digests
  import opened CanonTexts
  import opened Summaries

  // ---- Parts of a summary -----------------------------------------------------------------

  /** How a summary shows a raw value: summarised under a key, as it is, or as a relay tag. */
  datatype Via = Under(key: Option<string>) | Unread | Tag(tag: string)

  datatype Side = Side(v: Value, via: Via)

  function Image(s: Side, json: Renderer): Value {
    match s.via
    case Under(key) => Summarise(s.v, key, json)
    case Unread => s.v
    case Tag(tag) => Str(tag)
  }

  /** What the summary of a value is made of, before anything is hashed. */
  datatype Kind =
    | Scalar(w: Value)
    | Items(elems: seq<Side>)
    | Fields(sides: map<string, Side>)
    | FlatMap(m: map<string, Value>)
    | BigMap(slots: map<string, Side>)
    | BigList(all: seq<Side>)

  predicate FlatDigest(key: Option<string>, m: map<string, Value>) {
    Digestable(key) && Flat(m)
  }

  function UnreadEntries(m: map<string, Value>): map<string, Side> {
    map k | k in m :: Side(m[k], Unread)
  }

  function ReadEntries(m: map<string, Value>): map<string, Side> {
    map k | k in m :: Side(m[k], Under(Some(k)))
  }

  function Each(xs: seq<Value>, via: Via): (r: seq<Side>)
    ensures |r| == |xs| && forall i | 0 <= i < |xs| :: r[i] == Side(xs[i], via)
  {
    seq(|xs|, i requires 0 <= i < |xs| => Side(xs[i], via))
  }

  function RelaySides(m: map<string, Value>): map<string, Side>
    requires !ShapeOf(m).NoRelay?
  {
    match ShapeOf(m)
    case Wrapped(k, tag) =>
      WrappedKey(m);
      map[RELAY := Side(m[k], Tag(tag))] + UnreadEntries(RelayFields(m[k].entries, {}))
    case Tagged(tag) => map[RELAY := Side(m["type"], Tag(tag))] + UnreadEntries(RelayFields(m, {"type"}))
  }

  function DictKind(m: map<string, Value>, key: Option<string>): Kind {
    if !ShapeOf(m).NoRelay? then Fields(RelaySides(m))
    else if DIGEST in m then Fields(UnreadEntries(m))
    else if FlatDigest(key, m) then FlatMap(m)
    else if |m| > LARGE_MAP_THRESHOLD then BigMap(ReadEntries(m))
    else Fields(ReadEntries(m) - {"stakePercent"})
  }

  function KindOf(s: Side): Kind {
    if s.via.Tag? then Scalar(Str(s.via.tag))
    else
      match s.v
      case Dict(m) => if s.via.Unread? then Fields(UnreadEntries(m)) else DictKind(m, s.via.key)
      case List(xs) =>
        if s.via.Unread? then Items(Each(xs, Unread))
        else if |xs| > LARGE_MAP_THRESHOLD then BigList(Each(xs, Under(None)))
        else Items(Each(xs, Under(None)))
      case _ => Scalar(s.v)
  }

  // ---- Parts are smaller ---------------------------------------------------------------------

  ghost predicate AllBelow(f: map<string, Side>, d: nat) {
    forall k | k in f :: Depth(f[k].v) < d
  }

  ghost predicate EachBelow(xs: seq<Side>, d: nat) {
    forall i | 0 <= i < |xs| :: Depth(xs[i].v) < d
  }

  lemma {:induction false} FoldKeysBelow(ks: seq<string>, m: map<string, Value>, d: nat)
    requires Covers(m, ks) && forall k | k in m :: Depth(m[k]) < d
    ensures forall n | n in FoldKeys(ks, m) :: Depth(FoldKeys(ks, m)[n]) < d
  {
    if ks != [] {
      FoldKeysBelow(ks[..|ks| - 1], m, d);
    }
  }

  lemma RelaySidesBelow(m: map<string, Value>)
    requires !ShapeOf(m).NoRelay?
    ensures AllBelow(RelaySides(m), Depth(Dict(m)))
  {
    DepthBelow(Dict(m));
    var shape := ShapeOf(m);
    if shape.Wrapped? {
      WrappedKey(m);
      var inner := m[shape.key];
      DepthBelow(inner);
      FoldKeysBelow(Sorted(inner.entries.Keys - {}), inner.entries, Depth(inner));
    } else {
      FoldKeysBelow(Sorted(m.Keys - {"type"}), m, Depth(Dict(m)));
    }
  }

  ghost predicate KindBelow(kind: Kind, d: nat) {
    match kind
    case Items(xs) => EachBelow(xs, d)
    case Fields(f) => AllBelow(f, d)
    case BigMap(f) => AllBelow(f, d)
    case BigList(xs) => EachBelow(xs, d)
    case _ => true
  }

  /** Every part of a value is nested less deeply than the value. */
  lemma PartsBelow(s: Side)
    ensures KindBelow(KindOf(s), Depth(s.v))
  {
    DepthBelow(s.v);
    if s.v.Dict? && s.via.Under? && !ShapeOf(s.v.entries).NoRelay? {
      RelaySidesBelow(s.v.entries);
    }
  }

  // ---- The image of each kind ------------------------------------------------------------------

  function ImageMap(f: map<string, Side>, json: Renderer): (r: map<string, Value>)
    ensures r.Keys == f.Keys
  {
    map k | k in f :: Image(f[k], json)
  }

  function Images(xs: seq<Side>, json: Renderer): (r: seq<Value>)
    ensures |r| == |xs| && forall i | 0 <= i < |xs| :: r[i] == Image(xs[i], json)
  {
    seq(|xs|, i requires 0 <= i < |xs| => Image(xs[i], json))
  }

  /** What is hashed for a large map. */
  function BigMapInput(f: map<string, Side>, json: Renderer): HashInput {
    MapText(MapLines(FoldEntries(ImageMap(f, json)), json))
  }

  function BigMapRecord(f: map<string, Side>, total: Option<Value>, json: Renderer): map<string, Value> {
    LargeRecord(|f|, BigMapInput(f, json), total)
  }

  /** What is hashed for a long list. */
  function BigListInput(xs: seq<Side>, json: Renderer): HashInput {
    BagText(BagLines(FoldEach(Images(xs, json)), json))
  }

  function BigListRecord(xs: seq<Side>, json: Renderer): map<string, Value> {
    LargeRecord(|xs|, BigListInput(xs, json), None)
  }

  lemma TaggedImage(x: Value, tag: string, fields: map<string, Value>, json: Renderer)
    ensures ImageMap(map[RELAY := Side(x, Tag(tag))] + UnreadEntries(fields), json) == map[RELAY := Str(tag)] + fields
  {
    var f := map[RELAY := Side(x, Tag(tag))] + UnreadEntries(fields);
    forall k | k in f ensures Image(f[k], json) == (map[RELAY := Str(tag)] + fields)[k] {
    }
  }

  lemma RelayImage(m: map<string, Value>, json: Renderer)
    requires !ShapeOf(m).NoRelay?
    ensures ImageMap(RelaySides(m), json) == CanonRelay(m)
  {
    var shape := ShapeOf(m);
    if shape.Wrapped? {
      WrappedKey(m);
      CanonWrapped(m, shape.key, shape.tag);
      TaggedImage(m[shape.key], shape.tag, RelayFields(m[shape.key].entries, {}), json);
    } else {
      TaggedImage(m["type"], shape.tag, RelayFields(m, {"type"}), json);
    }
  }

  lemma UnreadImage(m: map<string, Value>, json: Renderer)
    ensures ImageMap(UnreadEntries(m), json) == m
  {
  }

  lemma ReadImage(m: map<string, Value>, json: Renderer)
    ensures ImageMap(ReadEntries(m), json) == Slots(Dict(m), json)
    ensures ImageMap(ReadEntries(m) - {"stakePercent"}, json) == Slots(Dict(m), json) - {"stakePercent"}
    ensures |ReadEntries(m)| == |m|
  {
    assert ReadEntries(m).Keys == m.Keys;
    assert |ReadEntries(m).Keys| == |ReadEntries(m)| && |m.Keys| == |m|;
  }

  lemma DictImage(m: map<string, Value>, key: Option<string>, json: Renderer)
    ensures match DictKind(m, key)
            case Fields(f) => Summarise(Dict(m), key, json) == Dict(ImageMap(f, json))
            case FlatMap(n) => n == m && Summarise(Dict(m), key, json) == Dict(DigestRecord(m, json))
            case BigMap(f) =>
              && f == ReadEntries(m) && |f| > LARGE_MAP_THRESHOLD
              && Summarise(Dict(m), key, json) == Dict(BigMapRecord(f, Total(m), json))
            case _ => false
  {
    if !ShapeOf(m).NoRelay? {
      SummariseRelay(m, key, json);
      RelayImage(m, json);
    } else if DIGEST in m {
      SummariseReady(m, key, json);
      UnreadImage(m, json);
    } else if FlatDigest(key, m) {
      SummariseDigestable(m, key, json);
    } else {
      SummariseOrdinary(m, key, json);
      ReadImage(m, json);
      SlotCount(m, json);
    }
  }

  lemma SlotCount(m: map<string, Value>, json: Renderer)
    ensures |Slots(Dict(m), json)| == |m|
  {
    assert |Slots(Dict(m), json).Keys| == |m.Keys| == |m|;
  }

  lemma UnreadList(xs: seq<Value>, json: Renderer)
    ensures Images(Each(xs, Unread), json) == xs
  {
  }

  lemma ReadList(xs: seq<Value>, json: Renderer)
    ensures Images(Each(xs, Under(None)), json) == SummariseEach(xs, json)
  {
  }

  ghost predicate Shows(s: Side, kind: Kind, v: Value, json: Renderer) {
    match kind
    case Scalar(w) => v == w && !w.Dict? && !w.List?
    case Items(xs) => v == List(Images(xs, json))
    case Fields(f) => v == Dict(ImageMap(f, json))
    case FlatMap(m) => v == Dict(DigestRecord(m, json))
    case BigMap(f) =>
      && s.v.Dict? && f == ReadEntries(s.v.entries) && |f| > LARGE_MAP_THRESHOLD
      && v == Dict(BigMapRecord(f, Total(s.v.entries), json))
    case BigList(xs) => |xs| > LARGE_MAP_THRESHOLD && v == Dict(BigListRecord(xs, json))
  }

  /** A summary is determined by its kind. */
  lemma ImageOf(s: Side, json: Renderer)
    ensures Shows(s, KindOf(s), Image(s, json), json)
  {
    if !s.via.Tag? {
      match s.v {
        case Dict(m) => DictShows(s, m, json);
        case List(xs) => ListShows(s, xs, json);
        case _ =>
      }
    }
  }

  lemma DictShows(s: Side, m: map<string, Value>, json: Renderer)
    requires s.v == Dict(m) && !s.via.Tag?
    ensures Shows(s, KindOf(s), Image(s, json), json)
  {
    if s.via.Unread? {
      UnreadImage(m, json);
    } else {
      DictImage(m, s.via.key, json);
    }
  }

  lemma ListShows(s: Side, xs: seq<Value>, json: Renderer)
    requires s.v == List(xs) && !s.via.Tag?
    ensures Shows(s, KindOf(s), Image(s, json), json)
  {
    if s.via.Unread? {
      UnreadList(xs, json);
    } else {
      ReadListShows(s, xs, json);
    }
  }

  lemma ReadListShows(s: Side, xs: seq<Value>, json: Renderer)
    requires s.v == List(xs) && s.via.Under?
    ensures Shows(s, KindOf(s), Image(s, json), json)
  {
    ReadList(xs, json);
    if |xs| > LARGE_MAP_THRESHOLD {
      SummariseLong(xs, s.via.key, json);
    } else {
      SummariseShort(xs, s.via.key, json);
    }
  }
}
