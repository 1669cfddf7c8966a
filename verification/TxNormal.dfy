/**
 Transaction normalisation before a wire round trip is judged: caches of the
 received bytes are cleared, and collections whose order the ledger cannot
 observe are sorted.
 */
module TxNormal {
  import opened Wrappers
  import opened Sorting

  type Bytes = seq<nat>
  type Hash28 = h: Bytes | |h| == 28 witness seq(28, _ => 0)
  type Hash32 = h: Bytes | |h| == 32 witness seq(32, _ => 0)

  const PADDING: Bytes := [0, 0, 0, 0]

  function NoHash(): Hash32 {
    seq(32, _ => 0)
  }

  /** Fields that normalisation neither reads nor writes, taken together. */
  type Rest = Bytes

  datatype Era = Byron | Shelley | Allegra | Mary | Alonzo | Babbage | Conway | Dijkstra
  datatype TxInput = TxInput(id: Hash32, index: nat)
  datatype Credential = VerificationKey(hash: Hash28) | Script(hash: Hash28)
  datatype OutputDatum = NoInlineDatum(rest: Rest) | InlineDatum(data: Rest, raw: Option<Bytes>)
  datatype Output = Output(rest: Rest, datum: OutputDatum, raw: Option<Bytes>)
  datatype Tag = Spend | Mint | Cert | Reward | Vote | Propose | Guarding
  datatype Redeemer = Redeemer(tag: Tag, index: nat, rest: Rest)
  datatype Auxiliary = Auxiliary(rest: Rest, raw: Option<Bytes>)

  datatype Witnesses = Witnesses(redeemers: seq<Redeemer>, datums: seq<Rest>, rest: Rest,
                                 rawRedeemers: Option<Bytes>, rawDatums: Option<Bytes>, scriptDataHash: Option<Hash32>)

  datatype SubTx = SubTx(id: Hash32, rawBody: Option<Bytes>, inputs: seq<TxInput>, referenceInputs: seq<TxInput>,
                         outputs: seq<Output>, guards: seq<Credential>, rest: Rest,
                         witnesses: Witnesses, aux: Option<Auxiliary>)

  /** Body key 14 has two in-memory views, `signers` and `guards`. */
  datatype Tx = Tx(hash: Hash32, raw: Option<Bytes>, rawBody: Option<Bytes>, rawWitnesses: Option<Bytes>,
                   era: Era, inputs: seq<TxInput>, collateral: seq<TxInput>, referenceInputs: seq<TxInput>,
                   signers: seq<Hash32>, guards: seq<Credential>,
                   outputs: seq<Output>, collateralReturn: Option<Output>, subs: seq<SubTx>,
                   certificates: seq<Rest>, proposals: seq<Rest>, rest: Rest,
                   witnesses: Witnesses, aux: Option<Auxiliary>)

  /** The orders used for sorting; nothing below depends on which total orders they are. */
  datatype Orders = Orders(input: Order<TxInput>, signer: Order<Hash32>, guard: Order<Credential>,
                           encode: Rest -> Bytes, encoding: Order<Bytes>)

  ghost predicate Lawful(o: Orders) {
    TotalOrder(o.input) && TotalOrder(o.signer) && TotalOrder(o.guard) && TotalOrder(o.encoding)
  }

  // ---- Orders on witnesses ---------------------------------------------------------------

  function TagOrd(t: Tag): nat {
    match t
    case Spend => 0
    case Mint => 1
    case Cert => 2
    case Reward => 3
    case Vote => 4
    case Propose => 5
    case Guarding => 6
  }

  function RedeemerLe(r: Redeemer, s: Redeemer): bool {
    TagOrd(r.tag) < TagOrd(s.tag) || (r.tag == s.tag && r.index <= s.index)
  }

  function DatumLe(o: Orders): Order<Rest> {
    (d: Rest, e: Rest) => o.encoding(o.encode(d), o.encode(e))
  }

  lemma WitnessOrders(o: Orders)
    requires Lawful(o)
    ensures TotalPreorder(RedeemerLe) && TotalPreorder(DatumLe(o))
  {
    assert TotalPreorder(RedeemerLe);
    assert TotalPreorder(DatumLe(o)) by {
      var le := DatumLe(o);
      forall x, y ensures le(x, y) || le(y, x) {
        assert o.encoding(o.encode(x), o.encode(y)) || o.encoding(o.encode(y), o.encode(x));
      }
      forall x, y, z | le(x, y) && le(y, z) ensures le(x, z) {
        assert o.encoding(o.encode(x), o.encode(y)) && o.encoding(o.encode(y), o.encode(z));
      }
    }
  }

  /** Two redeemers tie exactly when they carry the same tag and index. */
  lemma RedeemersTieByPointer(r: Redeemer, s: Redeemer)
    ensures Tied(r, s, RedeemerLe) <==> r.tag == s.tag && r.index == s.index
  {
  }

  // ---- The normal form --------------------------------------------------------------------

  function ClearOutput(o: Output): Output {
    o.(raw := None, datum := if o.datum.InlineDatum? then o.datum.(raw := None) else o.datum)
  }

  function ClearOutputs(os: seq<Output>): seq<Output> {
    seq(|os|, i requires 0 <= i < |os| => ClearOutput(os[i]))
  }

  function ClearAux(a: Option<Auxiliary>): Option<Auxiliary> {
    if a.Some? then Some(a.value.(raw := None)) else None
  }

  function ClearWitnesses(w: Witnesses): Witnesses {
    w.(rawRedeemers := None, rawDatums := None, scriptDataHash := None)
  }

  function SortWitnesses(w: Witnesses, o: Orders): Witnesses {
    Witnesses(SortBy(w.redeemers, RedeemerLe), SortBy(w.datums, DatumLe(o)), w.rest,
              w.rawRedeemers, w.rawDatums, w.scriptDataHash)
  }

  predicate Sets(era: Era) {
    era.Conway? || era.Dijkstra?
  }

  function ClearSub(s: SubTx): SubTx {
    s.(id := NoHash(), rawBody := None, outputs := ClearOutputs(s.outputs),
       witnesses := ClearWitnesses(s.witnesses), aux := ClearAux(s.aux))
  }

  function SortSub(s: SubTx, o: Orders): SubTx {
    s.(inputs := SortBy(s.inputs, o.input), referenceInputs := SortBy(s.referenceInputs, o.input),
       witnesses := SortWitnesses(s.witnesses, o))
  }

  function NormSub(s: SubTx, era: Era, o: Orders): SubTx {
    if Sets(era) then SortSub(ClearSub(s), o) else ClearSub(s)
  }

  function NormSubs(subs: seq<SubTx>, era: Era, o: Orders): seq<SubTx> {
    seq(|subs|, i requires 0 <= i < |subs| => NormSub(subs[i], era, o))
  }

  /** A signer list seen as guards: the first 28 bytes of each hash. */
  function AsGuards(signers: seq<Hash32>): seq<Credential> {
    seq(|signers|, i requires 0 <= i < |signers| => VerificationKey(signers[i][..28]))
  }

  /** A guard list seen as signers: its key hashes, padded. */
  function AsSigners(guards: seq<Credential>): seq<Hash32> {
    if guards == [] then []
    else
      var n := |guards| - 1;
      AsSigners(guards[..n]) + if guards[n].VerificationKey? then [guards[n].hash + PADDING] else []
  }

  function NormSigners(era: Era, signers: seq<Hash32>, guards: seq<Credential>, o: Orders): seq<Hash32> {
    if era.Conway? then SortBy(signers, o.signer)
    else if era.Dijkstra? then SortBy(AsSigners(guards), o.signer)
    else signers
  }

  function NormGuards(era: Era, signers: seq<Hash32>, guards: seq<Credential>, o: Orders): seq<Credential> {
    if era.Conway? then SortBy(AsGuards(SortBy(signers, o.signer)), o.guard)
    else if era.Dijkstra? then Dedup(SortBy(guards, o.guard))
    else guards
  }

  function NormInputs(ins: seq<TxInput>, era: Era, o: Orders): seq<TxInput> {
    if Sets(era) then SortBy(ins, o.input) else ins
  }

  function Norm(t: Tx, o: Orders): Tx {
    t.(hash := NoHash(), raw := None, rawBody := None, rawWitnesses := None,
       inputs := NormInputs(t.inputs, t.era, o),
       collateral := NormInputs(t.collateral, t.era, o),
       referenceInputs := NormInputs(t.referenceInputs, t.era, o),
       signers := NormSigners(t.era, t.signers, t.guards, o),
       guards := NormGuards(t.era, t.signers, t.guards, o),
       outputs := ClearOutputs(t.outputs),
       collateralReturn := if t.collateralReturn.Some? then Some(ClearOutput(t.collateralReturn.value)) else None,
       subs := NormSubs(t.subs, t.era, o),
       witnesses := SortWitnesses(ClearWitnesses(t.witnesses), o),
       aux := ClearAux(t.aux))
  }

  // ---- What the comparison is meant to ignore ------------------------------------------------

  predicate SameDatum(d: OutputDatum, e: OutputDatum) {
    match (d, e)
    case (NoInlineDatum(x), NoInlineDatum(y)) => x == y
    case (InlineDatum(x, _), InlineDatum(y, _)) => x == y
    case _ => false
  }

  predicate SameOutput(o: Output, p: Output) {
    o.rest == p.rest && SameDatum(o.datum, p.datum)
  }

  predicate SameOutputs(os: seq<Output>, ps: seq<Output>) {
    |os| == |ps| && forall i | 0 <= i < |os| :: SameOutput(os[i], ps[i])
  }

  predicate SameAux(a: Option<Auxiliary>, b: Option<Auxiliary>) {
    a.Some? == b.Some? && (a.Some? ==> a.value.rest == b.value.rest)
  }

  predicate SameReturn(a: Option<Output>, b: Option<Output>) {
    a.Some? == b.Some? && (a.Some? ==> SameOutput(a.value, b.value))
  }

  /** Redeemers of one pointer, and datums of one encoding, appear in the same relative order. */
  ghost predicate SortedAlike(v: Witnesses, w: Witnesses, o: Orders) {
    SameClasses(v.redeemers, w.redeemers, RedeemerLe) && SameClasses(v.datums, w.datums, DatumLe(o))
  }

  ghost predicate SameInputs(a: seq<TxInput>, b: seq<TxInput>, era: Era) {
    if Sets(era) then multiset(a) == multiset(b) else a == b
  }

  ghost predicate SimilarSub(s: SubTx, u: SubTx, era: Era, o: Orders) {
    && SameInputs(s.inputs, u.inputs, era) && SameInputs(s.referenceInputs, u.referenceInputs, era)
    && SameOutputs(s.outputs, u.outputs) && s.guards == u.guards && s.rest == u.rest && SameAux(s.aux, u.aux)
    && s.witnesses.rest == u.witnesses.rest
    && if Sets(era) then SortedAlike(s.witnesses, u.witnesses, o)
       else s.witnesses.redeemers == u.witnesses.redeemers && s.witnesses.datums == u.witnesses.datums
  }

  ghost predicate SimilarSubs(a: seq<SubTx>, b: seq<SubTx>, era: Era, o: Orders) {
    |a| == |b| && forall i | 0 <= i < |a| :: SimilarSub(a[i], b[i], era, o)
  }

  /**
   Body key 14.  Conway compares signers as a bag and ignores the guard view.
   Dijkstra ignores the signer view and compares script guards as a set but key
   guards as a bag, because the signer view is derived before repeats are dropped.
   */
  ghost predicate SameKey14(t: Tx, u: Tx) {
    if t.era.Conway? then multiset(t.signers) == multiset(u.signers)
    else if t.era.Dijkstra? then
      forall h: Hash28 ::
        && multiset(t.guards)[VerificationKey(h)] == multiset(u.guards)[VerificationKey(h)]
        && (Script(h) in t.guards <==> Script(h) in u.guards)
    else t.signers == u.signers && t.guards == u.guards
  }

  /** Equal up to wire caches and unobservable order; certificates and proposals keep theirs. */
  ghost predicate Similar(t: Tx, u: Tx, o: Orders) {
    && t.era == u.era
    && SameInputs(t.inputs, u.inputs, t.era) && SameInputs(t.collateral, u.collateral, t.era)
    && SameInputs(t.referenceInputs, u.referenceInputs, t.era)
    && SameKey14(t, u)
    && SameOutputs(t.outputs, u.outputs) && SameReturn(t.collateralReturn, u.collateralReturn)
    && SimilarSubs(t.subs, u.subs, t.era, o)
    && t.certificates == u.certificates && t.proposals == u.proposals && t.rest == u.rest
    && t.witnesses.rest == u.witnesses.rest && SortedAlike(t.witnesses, u.witnesses, o)
    && SameAux(t.aux, u.aux)
  }

  // ---- Part by part ------------------------------------------------------------------------

  lemma OutputsIff(os: seq<Output>, ps: seq<Output>)
    ensures ClearOutputs(os) == ClearOutputs(ps) <==> SameOutputs(os, ps)
  {
    if ClearOutputs(os) == ClearOutputs(ps) {
      assert |ClearOutputs(os)| == |os| && |ClearOutputs(ps)| == |ps|;
      forall i | 0 <= i < |os| ensures SameOutput(os[i], ps[i]) {
        assert ClearOutputs(os)[i] == ClearOutputs(ps)[i];
      }
    }
  }

  lemma InputsIff(a: seq<TxInput>, b: seq<TxInput>, era: Era, o: Orders)
    requires Lawful(o)
    ensures NormInputs(a, era, o) == NormInputs(b, era, o) <==> SameInputs(a, b, era)
  {
    SortEqualIffSameBag(a, b, o.input);
  }

  /** The order of inputs is ignored from Conway on and observed before. */
  lemma InputOrderByEra(a: seq<TxInput>, b: seq<TxInput>, era: Era, o: Orders)
    requires Lawful(o)
    ensures NormInputs(a, era, o) == NormInputs(b, era, o) <==>
            if era == Conway || era == Dijkstra then multiset(a) == multiset(b) else a == b
  {
    InputsIff(a, b, era, o);
  }

  lemma SortedWitnessesIff(v: Witnesses, w: Witnesses, o: Orders)
    requires Lawful(o)
    ensures SortWitnesses(ClearWitnesses(v), o) == SortWitnesses(ClearWitnesses(w), o) <==>
            v.rest == w.rest && SortedAlike(v, w, o)
  {
    WitnessOrders(o);
    SortEqualIffClasses(v.redeemers, w.redeemers, RedeemerLe);
    SortEqualIffClasses(v.datums, w.datums, DatumLe(o));
  }

  lemma SubIff(s: SubTx, u: SubTx, era: Era, o: Orders)
    requires Lawful(o)
    ensures NormSub(s, era, o) == NormSub(u, era, o) <==> SimilarSub(s, u, era, o)
  {
    OutputsIff(s.outputs, u.outputs);
    InputsIff(s.inputs, u.inputs, era, o);
    InputsIff(s.referenceInputs, u.referenceInputs, era, o);
    SortedWitnessesIff(s.witnesses, u.witnesses, o);
  }

  lemma SubsIff(a: seq<SubTx>, b: seq<SubTx>, era: Era, o: Orders)
    requires Lawful(o)
    ensures NormSubs(a, era, o) == NormSubs(b, era, o) <==> SimilarSubs(a, b, era, o)
  {
    var x, y := NormSubs(a, era, o), NormSubs(b, era, o);
    assert |x| == |a| && |y| == |b|;
    if |a| == |b| {
      forall i | 0 <= i < |a| ensures x[i] == y[i] <==> SimilarSub(a[i], b[i], era, o) {
        SubIff(a[i], b[i], era, o);
      }
    }
  }

  /** The key-hash view counts each key guard once per occurrence. */
  lemma {:induction false} SignerCount(guards: seq<Credential>, s: Hash32)
    ensures multiset(AsSigners(guards))[s] ==
            if s[28..] == PADDING then multiset(guards)[VerificationKey(s[..28])] else 0
  {
    if guards != [] {
      var n := |guards| - 1;
      SignerCount(guards[..n], s);
      CountSnoc(guards, VerificationKey(s[..28]));
      if guards[n].VerificationKey? {
        PaddedIs(guards[n].hash, s);
        CountSnoc(AsSigners(guards), s);
        assert AsSigners(guards)[..|AsSigners(guards)| - 1] == AsSigners(guards[..n]);
      }
    }
  }

  // ---- Redeemer order ------------------------------------------------------------------------------

  const TAGS := [Spend, Mint, Cert, Reward, Vote, Propose, Guarding]

  predicate Earlier(t: Tag, u: Tag) {
    exists i, j :: 0 <= i < j < |TAGS| && TAGS[i] == t && TAGS[j] == u
  }

  /** Redeemers come by purpose, and by index within one purpose. */
  predicate InTurn(rs: seq<Redeemer>) {
    forall i, j | 0 <= i < j < |rs| ::
      Earlier(rs[i].tag, rs[j].tag) || (rs[i].tag == rs[j].tag && rs[i].index <= rs[j].index)
  }

  lemma TagPlace(t: Tag)
    ensures TagOrd(t) < |TAGS| && TAGS[TagOrd(t)] == t
  {
  }

  lemma TurnIff(r: Redeemer, s: Redeemer)
    ensures RedeemerLe(r, s) <==> Earlier(r.tag, s.tag) || (r.tag == s.tag && r.index <= s.index)
  {
    TagPlace(r.tag);
    TagPlace(s.tag);
    assert TagOrd(r.tag) < TagOrd(s.tag) ==> Earlier(r.tag, s.tag);
    assert forall i | 0 <= i < |TAGS| :: TagOrd(TAGS[i]) == i;
  }

  lemma SortedInTurn(rs: seq<Redeemer>)
    ensures InTurn(SortBy(rs, RedeemerLe))
  {
    assert TotalPreorder(RedeemerLe);
    SortIsSorted(rs, RedeemerLe);
    var out := SortBy(rs, RedeemerLe);
    forall i, j | 0 <= i < j < |out|
      ensures Earlier(out[i].tag, out[j].tag) || (out[i].tag == out[j].tag && out[i].index <= out[j].index)
    {
      TurnIff(out[i], out[j]);
    }
  }

  /** Every era orders the redeemers of the transaction; the set eras also those of its sub-transactions. */
  lemma RedeemersInTurn(t: Tx, o: Orders, i: nat)
    ensures InTurn(Norm(t, o).witnesses.redeemers)
    ensures i < |t.subs| && (t.era == Conway || t.era == Dijkstra) ==>
              InTurn(Norm(t, o).subs[i].witnesses.redeemers)
    ensures i < |t.subs| && t.era != Conway && t.era != Dijkstra ==>
              Norm(t, o).subs[i].witnesses.redeemers == t.subs[i].witnesses.redeemers
  {
    SortedInTurn(t.witnesses.redeemers);
    if i < |t.subs| { SortedInTurn(t.subs[i].witnesses.redeemers); }
  }

  /** The key guards of a list, in order. */
  function KeyGuards(guards: seq<Credential>): seq<Credential> {
    if guards == [] then []
    else
      var n := |guards| - 1;
      KeyGuards(guards[..n]) + if guards[n].VerificationKey? then [guards[n]] else []
  }

  lemma AsGuardsSnoc(signers: seq<Hash32>, s: Hash32)
    ensures AsGuards(signers + [s]) == AsGuards(signers) + [VerificationKey(s[..28])]
  {
  }

  lemma Unpadded(h: Hash28)
    ensures (h + PADDING)[..28] == h && (h + PADDING)[28..] == PADDING
  {
  }

  /** The guard view of padded key hashes is those key hashes. */
  lemma {:induction false} GuardsOfSigners(guards: seq<Credential>)
    ensures AsGuards(AsSigners(guards)) == KeyGuards(guards)
  {
    if guards != [] {
      var n := |guards| - 1;
      GuardsOfSigners(guards[..n]);
      if guards[n].VerificationKey? {
        AsGuardsSnoc(AsSigners(guards[..n]), guards[n].hash + PADDING);
        Unpadded(guards[n].hash);
      }
    }
  }

  /** Padded signers survive the way through the guard view. */
  lemma {:induction false} SignersOfGuards(signers: seq<Hash32>)
    requires forall i | 0 <= i < |signers| :: signers[i][28..] == PADDING
    ensures AsSigners(AsGuards(signers)) == signers
  {
    if signers != [] {
      var n := |signers| - 1;
      var s := signers[n];
      SignersOfGuards(signers[..n]);
      assert signers == signers[..n] + [s];
      AsGuardsSnoc(signers[..n], s);
      assert AsGuards(signers)[..n] == AsGuards(signers[..n]);
      assert s[..28] + PADDING == s;
    }
  }

  lemma PaddedIs(h: Hash28, s: Hash32)
    ensures s == h + PADDING <==> s[28..] == PADDING && s[..28] == h
  {
    assert s == s[..28] + s[28..];
  }

  ghost predicate SameKeyCounts(g: seq<Credential>, h: seq<Credential>) {
    forall k: Hash28 :: multiset(g)[VerificationKey(k)] == multiset(h)[VerificationKey(k)]
  }

  lemma SignersIff(g: seq<Credential>, h: seq<Credential>)
    ensures multiset(AsSigners(g)) == multiset(AsSigners(h)) <==> SameKeyCounts(g, h)
  {
    forall s: Hash32
      ensures multiset(AsSigners(g))[s] == multiset(AsSigners(h))[s] <==>
              (s[28..] == PADDING ==> multiset(g)[VerificationKey(s[..28])] == multiset(h)[VerificationKey(s[..28])])
    {
      SignerCount(g, s);
      SignerCount(h, s);
    }
    SameBag(AsSigners(g), AsSigners(h));
    if multiset(AsSigners(g)) == multiset(AsSigners(h)) {
      forall k: Hash28 ensures multiset(g)[VerificationKey(k)] == multiset(h)[VerificationKey(k)] {
        var s: Hash32 := k + PADDING;
        PaddedIs(k, s);
        assert multiset(AsSigners(g))[s] == multiset(AsSigners(h))[s];
      }
    }
  }

  ghost predicate SameScripts(g: seq<Credential>, h: seq<Credential>) {
    forall k: Hash28 :: Script(k) in g <==> Script(k) in h
  }

  lemma DijkstraKey14(g: seq<Credential>, h: seq<Credential>, o: Orders)
    requires Lawful(o)
    ensures SortBy(AsSigners(g), o.signer) == SortBy(AsSigners(h), o.signer) &&
            Dedup(SortBy(g, o.guard)) == Dedup(SortBy(h, o.guard)) <==>
            SameKeyCounts(g, h) && SameScripts(g, h)
  {
    SortEqualIffSameBag(AsSigners(g), AsSigners(h), o.signer);
    SignersIff(g, h);
    SortDedupIffSameSet(g, h, o.guard);
    if SameKeyCounts(g, h) {
      forall c: Credential ensures (c in g <==> c in h) <==> (c.Script? ==> (c in g <==> c in h)) {
        if c.VerificationKey? {
          assert multiset(g)[VerificationKey(c.hash)] == multiset(h)[VerificationKey(c.hash)];
          assert (c in multiset(g) <==> c in g) && (c in multiset(h) <==> c in h);
        }
      }
    }
  }

  lemma Key14Iff(t: Tx, u: Tx, o: Orders)
    requires Lawful(o) && t.era == u.era
    ensures Norm(t, o).signers == Norm(u, o).signers && Norm(t, o).guards == Norm(u, o).guards <==> SameKey14(t, u)
  {
    if t.era.Conway? {
      SortEqualIffSameBag(t.signers, u.signers, o.signer);
    } else if t.era.Dijkstra? {
      DijkstraKey14(t.guards, u.guards, o);
      assert SameKey14(t, u) <==> SameKeyCounts(t.guards, u.guards) && SameScripts(t.guards, u.guards);
    }
  }

  // ---- Main theorems -------------------------------------------------------------------------

  /** Normalisation identifies exactly the transactions that differ in caches and set order only. */
  lemma SameNormIffSimilar(t: Tx, u: Tx, o: Orders)
    requires Lawful(o)
    ensures Norm(t, o) == Norm(u, o) <==> Similar(t, u, o)
  {
    if t.era == u.era {
      InputsIff(t.inputs, u.inputs, t.era, o);
      InputsIff(t.collateral, u.collateral, t.era, o);
      InputsIff(t.referenceInputs, u.referenceInputs, t.era, o);
      Key14Iff(t, u, o);
      OutputsIff(t.outputs, u.outputs);
      SubsIff(t.subs, u.subs, t.era, o);
      SortedWitnessesIff(t.witnesses, u.witnesses, o);
    } else {
      assert Norm(t, o).era != Norm(u, o).era;
    }
  }

  ghost predicate NoRepeatedKeyGuard(guards: seq<Credential>) {
    forall i, j | 0 <= i < j < |guards| :: guards[i].VerificationKey? ==> guards[i] != guards[j]
  }

  lemma {:induction false} CountTwoIff<T>(s: seq<T>, x: T)
    ensures multiset(s)[x] >= 2 <==> exists i, j :: 0 <= i < j < |s| && s[i] == x && s[j] == x
  {
    if s != [] {
      var n := |s| - 1;
      CountTwoIff(s[..n], x);
      assert s == s[..n] + [s[n]];
      assert multiset(s) == multiset(s[..n]) + multiset{s[n]};
      assert multiset(s[..n])[x] >= 1 <==> x in s[..n];
      if s[n] == x && x in s[..n] {
        var i :| 0 <= i < n && s[..n][i] == x;
        assert s[i] == x && s[n] == x;
      }
      if i, j :| 0 <= i < j < n && s[..n][i] == x && s[..n][j] == x {
        assert s[i] == x && s[j] == x;
      }
      if i, j :| 0 <= i < j < |s| && s[i] == x && s[j] == x {
        assert s[..n][i] == x;
        assert j < n ==> s[..n][j] == x;
      }
    }
  }

  lemma RepeatsIff(guards: seq<Credential>)
    ensures NoRepeatedKeyGuard(guards) <==> forall k: Hash28 :: multiset(guards)[VerificationKey(k)] <= 1
  {
    forall k: Hash28 { CountTwoIff(guards, VerificationKey(k)); }
    if forall k: Hash28 :: multiset(guards)[VerificationKey(k)] <= 1 {
      forall i, j | 0 <= i < j < |guards| && guards[i].VerificationKey? ensures guards[i] != guards[j] {
        CountTwoIff(guards, VerificationKey(guards[i].hash));
      }
    }
  }

  lemma DijkstraNormIsSimilar(g: seq<Credential>, o: Orders)
    requires Lawful(o)
    ensures var d := Dedup(SortBy(g, o.guard));
            SameScripts(d, g) && (SameKeyCounts(d, g) <==> NoRepeatedKeyGuard(g))
  {
    var d := Dedup(SortBy(g, o.guard));
    SortDedupIs(g, o.guard);
    RepeatsIff(g);
    forall k: Hash28 ensures Script(k) in d <==> Script(k) in g {
      assert Script(k) in d <==> Script(k) in multiset(d);
    }
    forall k: Hash28
      ensures multiset(d)[VerificationKey(k)] == multiset(g)[VerificationKey(k)] <==>
              multiset(g)[VerificationKey(k)] <= 1
    {
      assert VerificationKey(k) in g <==> VerificationKey(k) in multiset(g);
    }
  }

  lemma NormPartsSimilar(ins: seq<TxInput>, os: seq<Output>, era: Era, o: Orders)
    requires Lawful(o)
    ensures SameInputs(NormInputs(ins, era, o), ins, era) && SameOutputs(ClearOutputs(os), os)
  {
    SortKeepsBag(ins, o.input);
  }

  lemma NormWitnessesSimilar(w: Witnesses, o: Orders)
    requires Lawful(o)
    ensures SortedAlike(SortWitnesses(ClearWitnesses(w), o), w, o)
  {
    WitnessOrders(o);
    SortSameClasses(w.redeemers, [], RedeemerLe);
    SortSameClasses(w.datums, [], DatumLe(o));
  }

  lemma NormSubIsSimilar(s: SubTx, era: Era, o: Orders)
    requires Lawful(o)
    ensures SimilarSub(NormSub(s, era, o), s, era, o)
  {
    NormPartsSimilar(s.inputs, s.outputs, era, o);
    NormPartsSimilar(s.referenceInputs, s.outputs, era, o);
    NormWitnessesSimilar(s.witnesses, o);
  }

  lemma NormSubsSimilar(subs: seq<SubTx>, era: Era, o: Orders)
    requires Lawful(o)
    ensures SimilarSubs(NormSubs(subs, era, o), subs, era, o)
  {
    forall i | 0 <= i < |subs| ensures SimilarSub(NormSubs(subs, era, o)[i], subs[i], era, o) {
      NormSubIsSimilar(subs[i], era, o);
    }
  }

  lemma NormKey14(t: Tx, o: Orders)
    requires Lawful(o)
    ensures SameKey14(Norm(t, o), t) <==> (t.era.Dijkstra? ==> NoRepeatedKeyGuard(t.guards))
  {
    var d := Norm(t, o);
    if t.era.Conway? {
      SortKeepsBag(t.signers, o.signer);
    } else if t.era.Dijkstra? {
      DijkstraNormIsSimilar(t.guards, o);
      assert SameKey14(d, t) <==> SameKeyCounts(d.guards, t.guards) && SameScripts(d.guards, t.guards);
    }
  }

  /** A normal form stands for its transaction exactly when Dijkstra guards repeat no key. */
  lemma NormIsSimilar(t: Tx, o: Orders)
    requires Lawful(o)
    ensures Similar(Norm(t, o), t, o) <==> (t.era.Dijkstra? ==> NoRepeatedKeyGuard(t.guards))
  {
    NormPartsSimilar(t.inputs, t.outputs, t.era, o);
    NormPartsSimilar(t.collateral, t.outputs, t.era, o);
    NormPartsSimilar(t.referenceInputs, t.outputs, t.era, o);
    NormWitnessesSimilar(t.witnesses, o);
    NormKey14(t, o);
    NormSubsSimilar(t.subs, t.era, o);
  }

  /** Normalising twice is normalising once, except for Dijkstra guards that repeat a key. */
  lemma NormIdempotentIff(t: Tx, o: Orders)
    requires Lawful(o)
    ensures Norm(Norm(t, o), o) == Norm(t, o) <==> (t.era.Dijkstra? ==> NoRepeatedKeyGuard(t.guards))
  {
    SameNormIffSimilar(Norm(t, o), t, o);
    NormIsSimilar(t, o);
  }

  /** Two applications always suffice. */
  lemma NormStableAfterTwo(t: Tx, o: Orders)
    requires Lawful(o)
    ensures Norm(Norm(Norm(t, o), o), o) == Norm(Norm(t, o), o)
  {
    var d := Norm(t, o);
    NormIdempotentIff(d, o);
    if t.era.Dijkstra? {
      SortDedupIs(t.guards, o.guard);
      RepeatsIff(d.guards);
    }
  }

  /** The failing family at its smallest: one key guard written twice. */
  lemma RepeatedKeyIsNotStable(t: Tx, h: Hash28, o: Orders)
    requires Lawful(o) && t.era.Dijkstra? && t.guards == [VerificationKey(h), VerificationKey(h)]
    ensures Norm(Norm(t, o), o) != Norm(t, o)
  {
    NormIdempotentIff(t, o);
    assert t.guards[0] == t.guards[1];
  }

  // ---- In place ----------------------------------------------------------------------------

  class Transaction {
    var hash: Hash32
    var raw: Option<Bytes>
    var rawBody: Option<Bytes>
    var rawWitnesses: Option<Bytes>
    const era: Era
    var inputs: seq<TxInput>
    var collateral: seq<TxInput>
    var referenceInputs: seq<TxInput>
    var signers: seq<Hash32>
    var guards: seq<Credential>
    var outputs: seq<Output>
    var collateralReturn: Option<Output>
    var subs: seq<SubTx>
    const certificates: seq<Rest>
    const proposals: seq<Rest>
    const rest: Rest
    var witnesses: Witnesses
    var aux: Option<Auxiliary>

    constructor (t: Tx)
      ensures Value() == t
    {
      hash, raw, rawBody, rawWitnesses, era := t.hash, t.raw, t.rawBody, t.rawWitnesses, t.era;
      inputs, collateral, referenceInputs := t.inputs, t.collateral, t.referenceInputs;
      signers, guards := t.signers, t.guards;
      outputs, collateralReturn, subs := t.outputs, t.collateralReturn, t.subs;
      certificates, proposals, rest := t.certificates, t.proposals, t.rest;
      witnesses, aux := t.witnesses, t.aux;
    }

    function Value(): Tx
      reads this
    {
      Tx(hash, raw, rawBody, rawWitnesses, era, inputs, collateral, referenceInputs, signers, guards,
         outputs, collateralReturn, subs, certificates, proposals, rest, witnesses, aux)
    }

    method ClearOutputCaches()
      modifies `outputs
      ensures outputs == ClearOutputs(old(outputs))
    {
      ghost var before := outputs;
      var i := 0;
      while i < |outputs|
        invariant |outputs| == |before| && 0 <= i <= |before|
        invariant forall j | 0 <= j < |before| :: outputs[j] == if j < i then ClearOutput(before[j]) else before[j]
      {
        outputs := outputs[i := ClearOutput(outputs[i])];
        i := i + 1;
      }
    }

    method ClearSubCaches()
      modifies `subs
      ensures |subs| == |old(subs)| && forall j | 0 <= j < |subs| :: subs[j] == ClearSub(old(subs)[j])
    {
      ghost var before := subs;
      var i := 0;
      while i < |subs|
        invariant |subs| == |before| && 0 <= i <= |before|
        invariant forall j | 0 <= j < |before| :: subs[j] == if j < i then ClearSub(before[j]) else before[j]
      {
        subs := subs[i := ClearSub(subs[i])];
        i := i + 1;
      }
    }

    method SortSubs(o: Orders)
      modifies `subs
      ensures |subs| == |old(subs)| && forall j | 0 <= j < |subs| :: subs[j] == SortSub(old(subs)[j], o)
    {
      ghost var before := subs;
      var i := 0;
      while i < |subs|
        invariant |subs| == |before| && 0 <= i <= |before|
        invariant forall j | 0 <= j < |before| :: subs[j] == if j < i then SortSub(before[j], o) else before[j]
      {
        subs := subs[i := SortSub(subs[i], o)];
        i := i + 1;
      }
    }

    /** The two views of body key 14: whichever is not on the wire is rebuilt from the other. */
    method CanonicaliseKey14(o: Orders)
      requires Sets(era)
      modifies `signers, `guards
      ensures signers == NormSigners(era, old(signers), old(guards), o)
      ensures guards == NormGuards(era, old(signers), old(guards), o)
    {
      signers := SortBy(signers, o.signer);
      if !era.Dijkstra? {
        guards := AsGuards(signers);
      } else {
        signers := AsSigners(guards);
        signers := SortBy(signers, o.signer);
      }
      guards := SortBy(guards, o.guard);
      if era.Dijkstra? {
        guards := Dedup(guards);
      }
    }

    method CanonicaliseSetOrder(o: Orders)
      modifies `witnesses, `inputs, `collateral, `referenceInputs, `signers, `guards, `subs
      ensures witnesses == SortWitnesses(old(witnesses), o)
      ensures inputs == NormInputs(old(inputs), era, o)
      ensures collateral == NormInputs(old(collateral), era, o)
      ensures referenceInputs == NormInputs(old(referenceInputs), era, o)
      ensures signers == NormSigners(era, old(signers), old(guards), o)
      ensures guards == NormGuards(era, old(signers), old(guards), o)
      ensures |subs| == |old(subs)|
      ensures forall j | 0 <= j < |subs| ::
                subs[j] == if Sets(era) then SortSub(old(subs)[j], o) else old(subs)[j]
    {
      witnesses := SortWitnesses(witnesses, o);
      if !Sets(era) {
        return;
      }
      inputs := SortBy(inputs, o.input);
      collateral := SortBy(collateral, o.input);
      referenceInputs := SortBy(referenceInputs, o.input);
      CanonicaliseKey14(o);
      SortSubs(o);
    }

    method ClearCaches()
      modifies `hash, `raw, `rawBody, `rawWitnesses, `outputs, `collateralReturn, `subs, `witnesses, `aux
      ensures hash == NoHash() && raw == None && rawBody == None && rawWitnesses == None
      ensures outputs == ClearOutputs(old(outputs))
      ensures collateralReturn ==
              if old(collateralReturn).Some? then Some(ClearOutput(old(collateralReturn).value)) else None
      ensures |subs| == |old(subs)| && forall j | 0 <= j < |subs| :: subs[j] == ClearSub(old(subs)[j])
      ensures witnesses == ClearWitnesses(old(witnesses)) && aux == ClearAux(old(aux))
    {
      hash, raw, rawBody, rawWitnesses := NoHash(), None, None, None;
      ClearOutputCaches();
      if collateralReturn.Some? {
        collateralReturn := Some(ClearOutput(collateralReturn.value));
      }
      ClearSubCaches();
      witnesses := ClearWitnesses(witnesses);
      aux := ClearAux(aux);
    }

    /** Clears every wire cache and sorts what the ledger cannot observe; nothing else changes. */
    method NormaliseForComparison(o: Orders)
      modifies this
      ensures Value() == Norm(old(Value()), o)
    {
      ClearCaches();
      CanonicaliseSetOrder(o);
      assert subs == NormSubs(old(subs), era, o);
    }
  }
}
