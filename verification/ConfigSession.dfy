/**
 A configuration session on values: load, inject schema defaults, edit at a
 path, save.  These functions specify the classes in LoadedConfig.dfy, and the
 theorems about whole sessions are stated here.
 */
module ConfigSession {
  import opened Wrappers
  import opened JsonPointer
  import opened JsonValues
  import opened Schema
  import opened Hydration

  /** One top-level key: its value, its provenance, and its synthesised positions. */
  datatype Entry = Entry(key: string, value: Json, modified: bool, present: bool, synthetic: set<string>)

  // ---- Edits ---------------------------------------------------------------

  datatype Float64 = Finite(r: real) | NotFinite

  /** Number parsing and JSON printing, supplied by the environment. */
  datatype Text = Text(parseI64: string -> Option<int>, parseF64: string -> Option<Float64>, render: Json -> string)

  datatype Action = Type(raw: string) | Toggle | Cycle(choices: seq<string>)

  /** Typed text is read according to the kind of value it replaces. */
  function Coerce(was: Json, raw: string, t: Text): (r: Option<Json>)
    ensures r.Some? ==> Scalar(r.value)
    ensures r.Some? && Scalar(was) ==> (was.Bool? <==> r.value.Bool?) && (was.Num? <==> r.value.Num?)
  {
    match was
    case Bool(_) =>
      if raw == "true" then Some(Bool(true)) else if raw == "false" then Some(Bool(false)) else None
    case Num(_) =>
      (match t.parseI64(raw)
       case Some(i) => Some(Num(Integer(i)))
       case None =>
         match t.parseF64(raw)
         case Some(Finite(r)) => Some(Num(Float(r)))
         case _ => None)
    case _ => Some(Str(raw))
  }

  function IndexOf(xs: seq<string>, x: string): Option<nat> {
    if xs == [] then None
    else if xs[0] == x then Some(0)
    else match IndexOf(xs[1..], x)
         case None => None
         case Some(i) => Some(i + 1)
  }

  function NextChoice(choices: seq<string>, current: string): string
    requires choices != []
  {
    match IndexOf(choices, current)
    case None => choices[0]
    case Some(i) => choices[(i + 1) % |choices|]
  }

  function DisplayText(v: Json, t: Text): string {
    if v.Str? then v.s else t.render(v)
  }

  /** What an action makes of the value it is applied to; `None` when it is refused. */
  function NewValue(was: Json, a: Action, t: Text): (r: Option<Json>)
    ensures r.Some? ==> Scalar(r.value)
  {
    match a
    case Type(raw) => Coerce(was, raw, t)
    case Toggle => if was.Bool? then Some(Bool(!was.b)) else None
    case Cycle(choices) => if choices == [] then None else Some(Str(NextChoice(choices, DisplayText(was, t))))
  }

  /** Edit one entry at a path; `None` means refused and nothing changed. */
  function EditAt(e: Entry, path: Path, a: Action, t: Text): Option<Entry> {
    match At(e.value, path)
    case None => None
    case Some(was) =>
      match NewValue(was, a, t)
      case None => None
      case Some(x) =>
        Some(e.(value := Put(e.value, path, x),
                modified := true,
                synthetic := if path == [] then e.synthetic else e.synthetic - {Pointer(path)}))
  }

  // ---- Entry lists -----------------------------------------------------------

  predicate DistinctEntries(es: seq<Entry>) {
    forall i, j | 0 <= i < j < |es| :: es[i].key != es[j].key
  }

  function KeySet(es: seq<Entry>): set<string> {
    set i | 0 <= i < |es| :: es[i].key
  }

  function Lookup(es: seq<Entry>, k: string): (r: Option<Entry>)
    ensures r.Some? <==> k in KeySet(es)
    ensures r.Some? ==> r.value in es && r.value.key == k
  {
    if es == [] then None
    else if es[0].key == k then Some(es[0])
    else
      assert KeySet(es) == {es[0].key} + KeySet(es[1..]);
      Lookup(es[1..], k)
  }

  lemma LookupAt(es: seq<Entry>, i: nat)
    requires DistinctEntries(es) && i < |es|
    ensures Lookup(es, es[i].key) == Some(es[i])
  {
  }

  /** What the user sees: the value under every key. */
  function View(es: seq<Entry>): map<string, Json> {
    map k | k in KeySet(es) :: Lookup(es, k).value.value
  }

  // ---- Load, inject, save ----------------------------------------------------

  /** Entries of a file object, in its iteration order. */
  function Load(file: map<string, Json>, order: seq<string>): (es: seq<Entry>)
    requires forall k | k in order :: k in file
    ensures |es| == |order|
    ensures forall i | 0 <= i < |es| :: es[i] == Entry(order[i], file[order[i]], false, true, {})
  {
    if order == [] then []
    else
      var n := |order| - 1;
      Load(file, order[..n]) + [Entry(order[n], file[order[n]], false, true, {})]
  }

  function SyntheticEntry(f: Param): Option<Entry> {
    match DefaultAsJson(f)
    case None => None
    case Some(d) => Some(Entry(f.key, d, false, false, {}))
  }

  /** Synthetic entries for the schema keys that are not present. */
  function Missing(schema: seq<Param>, present: set<string>): seq<Entry> {
    if schema == [] then []
    else
      var n := |schema| - 1;
      var f := schema[n];
      Missing(schema[..n], present) +
      if f.key !in present && SyntheticEntry(f).Some? then [SyntheticEntry(f).value] else []
  }

  function HydrateEntry(e: Entry, schema: seq<Param>): (r: Entry)
    ensures r.key == e.key && r.present == e.present
  {
    match Find(schema, e.key)
    case Some(Nested(_, fields)) =>
      e.(value := Hydrate(e.value, fields), synthetic := e.synthetic + Inserted(e.value, fields, []))
    case _ => e
  }

  function HydrateEntries(es: seq<Entry>, schema: seq<Param>): (r: seq<Entry>)
    ensures |r| == |es|
    ensures forall i | 0 <= i < |es| :: r[i] == HydrateEntry(es[i], schema)
  {
    if es == [] then []
    else HydrateEntries(es[..|es| - 1], schema) + [HydrateEntry(es[|es| - 1], schema)]
  }

  function Inject(es: seq<Entry>, schema: seq<Param>): seq<Entry> {
    HydrateEntries(es + Missing(schema, KeySet(es)), schema)
  }

  /** The value written for an entry, or nothing for an untouched synthetic one. */
  function Emit(e: Entry, schema: seq<Param>): Option<Json> {
    var v := EmitValue(e, schema);
    if !e.present && DefaultAt(schema, e.key) == Some(v) then None else Some(v)
  }

  function EmitValue(e: Entry, schema: seq<Param>): Json {
    match Find(schema, e.key)
    case Some(Nested(_, fields)) => Prune(e.value, fields, [], e.synthetic)
    case _ => e.value
  }

  function Saved(es: seq<Entry>, schema: seq<Param>): map<string, Json> {
    if es == [] then map[]
    else
      var n := |es| - 1;
      match Emit(es[n], schema)
      case None => Saved(es[..n], schema)
      case Some(v) => Saved(es[..n], schema)[es[n].key := v]
  }

  lemma MissingExtend(schema: seq<Param>, present: set<string>, i: nat)
    requires i < |schema|
    ensures Missing(schema[..i + 1], present) == Missing(schema[..i], present) +
            if schema[i].key !in present && SyntheticEntry(schema[i]).Some? then [SyntheticEntry(schema[i]).value]
            else []
  {
    assert schema[..i + 1][..i] == schema[..i];
  }

  lemma SavedExtend(es: seq<Entry>, schema: seq<Param>, i: nat)
    requires i < |es|
    ensures Saved(es[..i + 1], schema) == match Emit(es[i], schema)
                                          case None => Saved(es[..i], schema)
                                          case Some(v) => Saved(es[..i], schema)[es[i].key := v]
  {
    assert es[..i + 1][..i] == es[..i];
  }

  // ---- Lookups through the list operations -----------------------------------

  lemma {:induction false} LookupConcat(a: seq<Entry>, b: seq<Entry>, k: string)
    ensures Lookup(a + b, k) == if Lookup(a, k).Some? then Lookup(a, k) else Lookup(b, k)
  {
    if a == [] {
      assert a + b == b;
    } else {
      assert (a + b)[1..] == a[1..] + b;
      LookupConcat(a[1..], b, k);
    }
  }

  lemma {:induction false} LookupLoad(file: map<string, Json>, order: seq<string>, k: string)
    requires Enumerates(order, file.Keys)
    ensures Lookup(Load(file, order), k) == if k in file then Some(Entry(k, file[k], false, true, {})) else None
    ensures DistinctEntries(Load(file, order))
  {
    var es := Load(file, order);
    if k in file {
      var i :| 0 <= i < |order| && order[i] == k;
      LookupAt(es, i);
    }
  }

  lemma {:induction false} LookupMissing(schema: seq<Param>, present: set<string>, k: string)
    requires DistinctKeys(schema)
    ensures Lookup(Missing(schema, present), k) ==
            match Find(schema, k)
            case None => None
            case Some(f) => if k in present then None else SyntheticEntry(f)
  {
    if schema != [] {
      var n := |schema| - 1;
      var f := schema[n];
      LookupMissing(schema[..n], present, k);
      var last := if f.key !in present && SyntheticEntry(f).Some? then [SyntheticEntry(f).value] else [];
      LookupConcat(Missing(schema[..n], present), last, k);
      FindInit(schema, k);
    }
  }

  lemma FindInit(schema: seq<Param>, k: string)
    requires DistinctKeys(schema) && schema != []
    ensures var n := |schema| - 1;
            Find(schema, k) == if schema[n].key == k then Some(schema[n]) else Find(schema[..n], k)
  {
    var n := |schema| - 1;
    if schema[n].key == k {
      FindAt(schema, n);
    } else if Find(schema[..n], k).Some? {
      var i :| 0 <= i < n && schema[..n][i] == Find(schema[..n], k).value;
      FindAt(schema, i);
    } else {
      NotFoundInit(schema, k);
    }
  }

  lemma NotFoundInit(schema: seq<Param>, k: string)
    requires schema != [] && schema[|schema| - 1].key != k && Find(schema[..|schema| - 1], k).None?
    ensures Find(schema, k).None?
  {
    var n := |schema| - 1;
    if Find(schema, k).Some? {
      var i :| 0 <= i < |schema| && schema[i] == Find(schema, k).value;
      FoundInPrefix(schema[..n], k, i);
    }
  }

  lemma FoundInPrefix(schema: seq<Param>, k: string, i: nat)
    requires i < |schema| && schema[i].key == k
    ensures Find(schema, k).Some?
  {
  }

  lemma {:induction false} MissingDistinct(schema: seq<Param>, present: set<string>)
    requires DistinctKeys(schema)
    ensures DistinctEntries(Missing(schema, present))
    ensures KeySet(Missing(schema, present)) <= Keys(schema) - present
  {
    if schema != [] {
      var n := |schema| - 1;
      MissingDistinct(schema[..n], present);
      KeysExtend(schema, n);
      assert schema[..n + 1] == schema;
      var head, all := Missing(schema[..n], present), Missing(schema, present);
      forall i | 0 <= i < |all| ensures all[i].key in Keys(schema) - present {
        if i < |head| {
          assert all[i] == head[i];
          assert head[i].key in KeySet(head);
        }
      }
      forall i, j | 0 <= i < j < |all| ensures all[i].key != all[j].key {
        assert all[i] == head[i];
        assert head[i].key in KeySet(head);
        if j < |head| { assert all[j] == head[j]; }
      }
    }
  }

  lemma {:induction false} LookupHydrate(es: seq<Entry>, schema: seq<Param>, k: string)
    ensures Lookup(HydrateEntries(es, schema), k) ==
            match Lookup(es, k) case None => None case Some(e) => Some(HydrateEntry(e, schema))
  {
    if es != [] {
      LookupHydrate(es[1..], schema, k);
      assert HydrateEntries(es, schema)[1..] == HydrateEntries(es[1..], schema);
    }
  }

  /** Injection, one key at a time. */
  lemma LookupInject(es: seq<Entry>, schema: seq<Param>, k: string)
    requires DistinctKeys(schema)
    ensures Lookup(Inject(es, schema), k) ==
            match Lookup(es, k)
            case Some(e) => Some(HydrateEntry(e, schema))
            case None =>
              match DefaultAt(schema, k)
              case None => None
              case Some(d) => Some(HydrateEntry(Entry(k, d, false, false, {}), schema))
  {
    var missing := Missing(schema, KeySet(es));
    LookupHydrate(es + missing, schema, k);
    LookupConcat(es, missing, k);
    LookupMissing(schema, KeySet(es), k);
  }

  lemma {:induction false} SavedAnswers(es: seq<Entry>, schema: seq<Param>, k: string)
    requires DistinctEntries(es)
    ensures Get(Saved(es, schema), k) == match Lookup(es, k) case None => None case Some(e) => Emit(e, schema)
  {
    if es != [] {
      var n := |es| - 1;
      SavedAnswers(es[..n], schema, k);
      LookupConcat(es[..n], [es[n]], k);
      assert es[..n] + [es[n]] == es;
    }
  }

  // ---- What every session keeps ----------------------------------------------

  predicate EntryReady(e: Entry, schema: seq<Param>) {
    && (!e.present ==> e.synthetic == {} && DefaultAt(schema, e.key).Some?)
    && match Find(schema, e.key)
       case Some(Nested(_, fields)) => Hydrate(e.value, fields) == e.value
       case _ => true
  }

  /** Keys are distinct, objects are hydrated, and no schema default is missing. */
  ghost predicate Ready(es: seq<Entry>, schema: seq<Param>) {
    && DistinctEntries(es)
    && (forall i | 0 <= i < |es| :: EntryReady(es[i], schema))
    && forall k :: DefaultAt(schema, k).Some? ==> k in KeySet(es)
  }

  lemma HydrateEntryReady(e: Entry, schema: seq<Param>)
    requires WellFormed(schema)
    requires !e.present ==> e.synthetic == {} && DefaultAt(schema, e.key) == Some(e.value)
    ensures EntryReady(HydrateEntry(e, schema), schema)
    ensures !e.present ==> HydrateEntry(e, schema) == e
  {
    match Find(schema, e.key) {
      case Some(Nested(_, fields)) =>
        assert WellFormedParam(Find(schema, e.key).value);
        HydrateIdempotent(e.value, fields, []);
        HydrateEmptyIsDefault(fields);
        HydrateIdempotent(EMPTY, fields, []);
      case _ =>
    }
  }

  lemma MissingAreDefaults(schema: seq<Param>, present: set<string>, i: nat)
    requires WellFormed(schema)
    requires i < |Missing(schema, present)|
    ensures var e := Missing(schema, present)[i];
            !e.present && e.synthetic == {} && DefaultAt(schema, e.key) == Some(e.value)
  {
    MissingDistinct(schema, present);
    var m := Missing(schema, present);
    LookupAt(m, i);
    LookupMissing(schema, present, m[i].key);
  }

  /** Injecting into freshly loaded entries makes the session ready. */
  lemma InjectReady(es: seq<Entry>, schema: seq<Param>)
    requires WellFormed(schema) && DistinctEntries(es)
    requires forall i | 0 <= i < |es| :: es[i].present
    ensures Ready(Inject(es, schema), schema)
  {
    var missing := Missing(schema, KeySet(es));
    var all := es + missing;
    var r := Inject(es, schema);
    MissingDistinct(schema, KeySet(es));
    forall i, j | 0 <= i < j < |r| ensures r[i].key != r[j].key {
      assert r[i].key == all[i].key && r[j].key == all[j].key;
      if j >= |es| { assert missing[j - |es|].key in KeySet(missing); }
      if i < |es| { assert es[i].key in KeySet(es); }
    }
    forall i | 0 <= i < |r| ensures EntryReady(r[i], schema) {
      if i >= |es| { MissingAreDefaults(schema, KeySet(es), i - |es|); }
      HydrateEntryReady(all[i], schema);
    }
    forall k | DefaultAt(schema, k).Some? ensures k in KeySet(r) {
      LookupInject(es, schema, k);
    }
  }

  /** On a ready session injection changes nothing at all. */
  lemma {:induction false} InjectIdempotent(es: seq<Entry>, schema: seq<Param>)
    requires WellFormed(schema) && Ready(es, schema)
    ensures Inject(es, schema) == es
  {
    var missing := Missing(schema, KeySet(es));
    if missing != [] {
      MissingDistinct(schema, KeySet(es));
      LookupAt(missing, 0);
      LookupMissing(schema, KeySet(es), missing[0].key);
    }
    assert missing == [];
    assert es + missing == es;
    forall i | 0 <= i < |es| ensures HydrateEntry(es[i], schema) == es[i] {
      match Find(schema, es[i].key) {
        case Some(Nested(_, fields)) =>
          assert WellFormedParam(Find(schema, es[i].key).value);
          HydrateIdempotent(es[i].value, fields, []);
          assert EntryReady(es[i], schema);
        case _ =>
      }
    }
  }

  // ---- Runs --------------------------------------------------------------------

  datatype Command =
    | Edit(index: nat, path: Path, action: Action)
    | Save
    | InjectAgain

  function MarkClean(es: seq<Entry>): (r: seq<Entry>)
    ensures |r| == |es|
    ensures forall i | 0 <= i < |es| :: r[i] == es[i].(modified := false)
  {
    if es == [] then [] else MarkClean(es[..|es| - 1]) + [es[|es| - 1].(modified := false)]
  }

  function Step(es: seq<Entry>, c: Command, schema: seq<Param>, t: Text): seq<Entry> {
    match c
    case Edit(i, path, a) =>
      if i < |es| && EditAt(es[i], path, a, t).Some? then es[i := EditAt(es[i], path, a, t).value] else es
    case Save => MarkClean(es)
    case InjectAgain => Inject(es, schema)
  }

  function Run(es: seq<Entry>, cs: seq<Command>, schema: seq<Param>, t: Text): seq<Entry>
    decreases |cs|
  {
    if cs == [] then es else Run(Step(es, cs[0], schema, t), cs[1..], schema, t)
  }

  lemma EditKeepsEntryReady(e: Entry, path: Path, a: Action, t: Text, schema: seq<Param>)
    requires EntryReady(e, schema)
    requires EditAt(e, path, a, t).Some?
    ensures EntryReady(EditAt(e, path, a, t).value, schema)
  {
    match Find(schema, e.key) {
      case Some(Nested(_, fields)) =>
        PutKeepsHydrated(e.value, fields, path, NewValue(At(e.value, path).value, a, t).value);
      case _ =>
    }
  }

  lemma SameKeys(a: seq<Entry>, b: seq<Entry>)
    requires |a| == |b| && forall i | 0 <= i < |a| :: a[i].key == b[i].key
    ensures KeySet(a) == KeySet(b)
  {
  }

  lemma StepReady(es: seq<Entry>, c: Command, schema: seq<Param>, t: Text)
    requires WellFormed(schema) && Ready(es, schema)
    ensures Ready(Step(es, c, schema, t), schema)
  {
    var r := Step(es, c, schema, t);
    match c {
      case InjectAgain => InjectIdempotent(es, schema);
      case Save =>
        SameKeys(es, r);
        forall i | 0 <= i < |r| ensures EntryReady(r[i], schema) {
          assert EntryReady(es[i], schema);
        }
      case Edit(i, path, a) =>
        SameKeys(es, r);
        assert i < |es| ==> EntryReady(es[i], schema);
        if i < |es| && EditAt(es[i], path, a, t).Some? {
          EditKeepsEntryReady(es[i], path, a, t, schema);
        }
    }
  }

  lemma {:induction false} RunReady(es: seq<Entry>, cs: seq<Command>, schema: seq<Param>, t: Text)
    requires WellFormed(schema) && Ready(es, schema)
    ensures Ready(Run(es, cs, schema, t), schema)
    decreases |cs|
  {
    if cs != [] {
      StepReady(es, cs[0], schema, t);
      RunReady(Step(es, cs[0], schema, t), cs[1..], schema, t);
    }
  }

  // ---- The view survives save and reload ------------------------------------------

  lemma ReloadedValue(e: Entry, schema: seq<Param>)
    requires WellFormed(schema) && EntryReady(e, schema)
    ensures HydrateEntry(Entry(e.key, EmitValue(e, schema), false, true, {}), schema).value == e.value
    ensures Emit(e, schema).None? ==> DefaultAt(schema, e.key) == Some(e.value)
  {
    match Find(schema, e.key) {
      case Some(Nested(_, fields)) =>
        assert WellFormedParam(Find(schema, e.key).value);
        HydrateUndoesPrune(e.value, fields, [], e.synthetic);
        HydrateEmptyIsDefault(fields);
        HydrateIdempotent(EMPTY, fields, []);
      case _ =>
    }
  }

  lemma ReloadKeepsView(es: seq<Entry>, schema: seq<Param>, order: seq<string>)
    requires WellFormed(schema) && Ready(es, schema)
    requires Enumerates(order, Saved(es, schema).Keys)
    ensures View(Inject(Load(Saved(es, schema), order), schema)) == View(es)
  {
    var file := Saved(es, schema);
    var loaded := Load(file, order);
    var r := Inject(loaded, schema);
    forall k ensures Get(View(r), k) == Get(View(es), k) {
      LookupInject(loaded, schema, k);
      LookupLoad(file, order, k);
      SavedAnswers(es, schema, k);
      if k in KeySet(es) {
        var e := Lookup(es, k).value;
        assert EntryReady(e, schema);
        ReloadedValue(e, schema);
        if Emit(e, schema).None? {
          HydrateEntryReady(Entry(k, e.value, false, false, {}), schema);
        }
      }
    }
    MapsAgree(View(r), View(es));
  }

  /** Load, inject, any run of commands, save, reload, inject: the user sees the same values. */
  lemma SessionSurvivesReload(file: map<string, Json>, order: seq<string>, cs: seq<Command>, order': seq<string>,
                              schema: seq<Param>, t: Text)
    requires WellFormed(schema) && Enumerates(order, file.Keys)
    requires Enumerates(order', Saved(Run(Inject(Load(file, order), schema), cs, schema, t), schema).Keys)
    ensures var es := Run(Inject(Load(file, order), schema), cs, schema, t);
            View(Inject(Load(Saved(es, schema), order'), schema)) == View(es)
  {
    var loaded := Load(file, order);
    LookupLoad(file, order, "");
    InjectReady(loaded, schema);
    RunReady(Inject(loaded, schema), cs, schema, t);
    ReloadKeepsView(Run(Inject(loaded, schema), cs, schema, t), schema, order');
  }

  // ---- Minimal diffs -------------------------------------------------------------

  function PromoteTop(k: string, v: Json, schema: seq<Param>): Json {
    match Find(schema, k)
    case Some(Nested(_, fields)) => Promote(v, fields)
    case _ => v
  }

  /** The file with `null` replaced by `{}` in every object-typed slot. */
  function PromoteFile(file: map<string, Json>, schema: seq<Param>): map<string, Json> {
    map k | k in file :: PromoteTop(k, file[k], schema)
  }

  /** Saving an untouched session reproduces the file. */
  lemma UntouchedSaveIsMinimal(file: map<string, Json>, order: seq<string>, schema: seq<Param>)
    requires WellFormed(schema) && Enumerates(order, file.Keys)
    ensures Saved(Inject(Load(file, order), schema), schema) == PromoteFile(file, schema)
  {
    var loaded := Load(file, order);
    var es := Inject(loaded, schema);
    LookupLoad(file, order, "");
    InjectReady(loaded, schema);
    forall k ensures Get(Saved(es, schema), k) == Get(PromoteFile(file, schema), k) {
      SavedAnswers(es, schema, k);
      LookupInject(loaded, schema, k);
      LookupLoad(file, order, k);
      if k in file {
        match Find(schema, k) {
          case Some(Nested(_, fields)) =>
            assert WellFormedParam(Find(schema, k).value);
            forall rel: Path | rel != []
              ensures Pointer([] + rel) in {} + Inserted(file[k], fields, []) <==> IsInserted(file[k], fields, rel)
            {
              InsertedExactly(file[k], fields, [], rel);
            }
            PruneUndoesHydrate(file[k], fields, [], {} + Inserted(file[k], fields, []));
          case _ =>
        }
      } else if DefaultAt(schema, k).Some? {
        var e := Entry(k, DefaultAt(schema, k).value, false, false, {});
        HydrateEntryReady(e, schema);
        EmitsNoUntouchedDefault(e, schema);
      }
    }
    MapsAgree(Saved(es, schema), PromoteFile(file, schema));
  }

  /** With nothing recorded as synthetic, pruning is the identity. */
  lemma {:induction false} PruneNothing(v: Json, fields: seq<Param>, path: Path)
    ensures Prune(v, fields, path, {}) == v
    decreases fields
  {
    if v.Obj? {
      forall k ensures Get(PruneMembers(v.members, fields, path, {}), k) == Get(v.members, k) {
        PruneAnswers(v.members, fields, path, {}, k);
        if k in v.members {
          match Find(fields, k) {
            case Some(Nested(_, inner)) => PruneNothing(v.members[k], inner, path + [k]);
            case _ =>
          }
        }
      }
      MapsAgree(PruneMembers(v.members, fields, path, {}), v.members);
    }
  }

  lemma EmitsNoUntouchedDefault(e: Entry, schema: seq<Param>)
    requires !e.present && e.synthetic == {}
    ensures Emit(e, schema).None? <==> DefaultAt(schema, e.key) == Some(e.value)
  {
    match Find(schema, e.key) {
      case Some(Nested(_, fields)) => PruneNothing(e.value, fields, []);
      case _ =>
    }
  }

  /** No object-typed slot of the file holds `null`. */
  predicate NoNullSlots(file: map<string, Json>, schema: seq<Param>) {
    forall i | 0 <= i < |schema| :: SlotsOf(file, schema[i])
  }

  predicate SlotsOf(file: map<string, Json>, f: Param) {
    f.Nested? && f.key in file ==> !NullSlot(file[f.key], f.fields)
  }

  lemma PromoteTopIdentity(file: map<string, Json>, schema: seq<Param>, i: nat)
    requires WellFormed(schema) && i < |schema| && schema[i].key in file
    ensures PromoteTop(schema[i].key, file[schema[i].key], schema) == file[schema[i].key] <==> SlotsOf(file, schema[i])
  {
    FindAt(schema, i);
    assert WellFormedParam(schema[i]);
    if schema[i].Nested? {
      PromoteIdentity(file[schema[i].key], schema[i].fields);
    }
  }

  /** The untouched file comes back identical exactly when no object slot holds `null`. */
  lemma UntouchedSaveIsIdentity(file: map<string, Json>, order: seq<string>, schema: seq<Param>)
    requires WellFormed(schema) && Enumerates(order, file.Keys)
    ensures Saved(Inject(Load(file, order), schema), schema) == file <==> NoNullSlots(file, schema)
  {
    UntouchedSaveIsMinimal(file, order, schema);
    var p := PromoteFile(file, schema);
    assert p == file ==> NoNullSlots(file, schema) by {
      forall i | p == file && 0 <= i < |schema| ensures SlotsOf(file, schema[i]) {
        if schema[i].key in file {
          PromoteTopIdentity(file, schema, i);
          assert p[schema[i].key] == PromoteTop(schema[i].key, file[schema[i].key], schema);
        }
      }
    }
    if NoNullSlots(file, schema) {
      forall k | k in file ensures PromoteTop(k, file[k], schema) == file[k] {
        if Find(schema, k).Some? {
          var i :| 0 <= i < |schema| && schema[i] == Find(schema, k).value;
          PromoteTopIdentity(file, schema, i);
        }
      }
      assert p == file;
    }
  }

  /** A saved file is stable: opening and saving it again writes the same object. */
  lemma SavedFileIsStable(es: seq<Entry>, schema: seq<Param>, order: seq<string>)
    requires WellFormed(schema) && Ready(es, schema)
    requires Enumerates(order, Saved(es, schema).Keys)
    ensures Saved(Inject(Load(Saved(es, schema), order), schema), schema) == Saved(es, schema)
  {
    var file := Saved(es, schema);
    forall i | 0 <= i < |schema| ensures SlotsOf(file, schema[i]) {
      var k := schema[i].key;
      if schema[i].Nested? && k in file {
        FindAt(schema, i);
        assert WellFormedParam(schema[i]);
        SavedAnswers(es, schema, k);
        var e := Lookup(es, k).value;
        assert EntryReady(e, schema);
        PrunedHasNoNullSlot(e.value, schema[i].fields, [], e.synthetic);
      }
    }
    UntouchedSaveIsIdentity(file, order, schema);
  }

  /** A key the file never had is written exactly while its value differs from the default. */
  lemma SyntheticKeySavedIffChanged(es: seq<Entry>, i: nat, schema: seq<Param>)
    requires WellFormed(schema) && Ready(es, schema)
    requires i < |es| && !es[i].present
    ensures es[i].key in Saved(es, schema) <==> DefaultAt(schema, es[i].key) != Some(es[i].value)
  {
    assert EntryReady(es[i], schema);
    LookupAt(es, i);
    SavedAnswers(es, schema, es[i].key);
    EmitsNoUntouchedDefault(es[i], schema);
  }

  // ---- Edits survive -----------------------------------------------------------

  /** Command `c` leaves the position `path` of entry `i` alone. */
  predicate Spares(c: Command, i: nat, path: Path) {
    c.Edit? && c.index == i ==> !Overlap(c.path, path)
  }

  /** The user's scalar `x` sits at `path` of entry `i` and is not recorded as synthetic. */
  ghost predicate Pinned(es: seq<Entry>, i: nat, path: Path, x: Json) {
    && i < |es| && es[i].present
    && At(es[i].value, path) == Some(x) && Scalar(x)
    && (path != [] ==> Pointer(path) !in es[i].synthetic)
  }

  lemma EditPins(es: seq<Entry>, i: nat, path: Path, a: Action, schema: seq<Param>, t: Text)
    requires i < |es| && es[i].present && EditAt(es[i], path, a, t).Some?
    ensures Pinned(Step(es, Edit(i, path, a), schema, t), i, path, NewValue(At(es[i].value, path).value, a, t).value)
  {
    AtPut(es[i].value, path, NewValue(At(es[i].value, path).value, a, t).value);
  }

  lemma StepKeepsPinned(es: seq<Entry>, c: Command, i: nat, path: Path, x: Json, schema: seq<Param>, t: Text)
    requires WellFormed(schema) && Ready(es, schema)
    requires Pinned(es, i, path, x) && Spares(c, i, path)
    ensures Pinned(Step(es, c, schema, t), i, path, x)
    ensures Step(es, c, schema, t)[i].key == es[i].key
  {
    match c {
      case InjectAgain => InjectIdempotent(es, schema);
      case Save =>
      case Edit(j, q, a) =>
        if j == i && EditAt(es[i], q, a, t).Some? {
          AtPutFrame(es[i].value, q, NewValue(At(es[i].value, q).value, a, t).value, path);
        }
    }
  }

  lemma {:induction false} RunKeepsPinned(
      es: seq<Entry>, cs: seq<Command>, i: nat, path: Path, x: Json, schema: seq<Param>, t: Text)
    requires WellFormed(schema) && Ready(es, schema)
    requires Pinned(es, i, path, x)
    requires forall j | 0 <= j < |cs| :: Spares(cs[j], i, path)
    ensures Pinned(Run(es, cs, schema, t), i, path, x)
    ensures Run(es, cs, schema, t)[i].key == es[i].key
    decreases |cs|
  {
    if cs != [] {
      StepKeepsPinned(es, cs[0], i, path, x, schema, t);
      StepReady(es, cs[0], schema, t);
      assert forall j | 0 <= j < |cs[1..]| :: cs[1..][j] == cs[j + 1];
      RunKeepsPinned(Step(es, cs[0], schema, t), cs[1..], i, path, x, schema, t);
    }
  }

  lemma PinnedIsSaved(es: seq<Entry>, i: nat, path: Path, x: Json, schema: seq<Param>)
    requires WellFormed(schema) && Ready(es, schema)
    requires Pinned(es, i, path, x)
    ensures es[i].key in Saved(es, schema)
    ensures At(Saved(es, schema)[es[i].key], path) == Some(x)
  {
    LookupAt(es, i);
    SavedAnswers(es, schema, es[i].key);
    assert [] + path == path;
    match Find(schema, es[i].key) {
      case Some(Nested(_, fields)) =>
        assert WellFormedParam(Find(schema, es[i].key).value);
        PruneKeepsUnrecorded(es[i].value, fields, [], es[i].synthetic, path);
      case _ =>
    }
  }

  /**
   An edited position of an entry the file has is written by every later save,
   with the edited value, even when that value is the schema default, until an
   edit overlaps it.
   */
  lemma EditSurvivesEverySave(
      es: seq<Entry>, i: nat, path: Path, a: Action, cs: seq<Command>, schema: seq<Param>, t: Text)
    requires WellFormed(schema) && Ready(es, schema)
    requires i < |es| && es[i].present && EditAt(es[i], path, a, t).Some?
    requires forall j | 0 <= j < |cs| :: Spares(cs[j], i, path)
    ensures var x := NewValue(At(es[i].value, path).value, a, t).value;
            var saved := Saved(Run(Step(es, Edit(i, path, a), schema, t), cs, schema, t), schema);
            es[i].key in saved && At(saved[es[i].key], path) == Some(x)
  {
    var x := NewValue(At(es[i].value, path).value, a, t).value;
    var first := Step(es, Edit(i, path, a), schema, t);
    EditPins(es, i, path, a, schema, t);
    StepReady(es, Edit(i, path, a), schema, t);
    RunKeepsPinned(first, cs, i, path, x, schema, t);
    RunReady(first, cs, schema, t);
    PinnedIsSaved(Run(first, cs, schema, t), i, path, x, schema);
  }
}
