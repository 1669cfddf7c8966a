/**
 The mutable objects of the editor: an entry edited in place, and the loaded
 configuration holding them.  Every method is tied to ConfigSession.
 */
module LoadedConfigs {
  import opened Wrappers
  import opened JsonPointer
  import opened JsonValues
  import opened Schema
  import opened Hydration
  import opened ConfigSession
  import opened Edits

  /** Follow an encoded pointer, as the JSON library does. */
  function FollowPointer(v: Json, ptr: string): Option<Json> {
    match Decode(ptr)
    case None => None
    case Some(path) => At(v, path)
  }

  class ConfigEntry {
    const key: string
    const presentInFile: bool
    var value: Json
    var modified: bool
    var syntheticPaths: set<string>

    ghost function State(): Entry
      reads this
    {
      Entry(key, value, modified, presentInFile, syntheticPaths)
    }

    constructor (key: string, value: Json, presentInFile: bool)
      ensures State() == Entry(key, value, false, presentInFile, {})
    {
      this.key := key;
      this.presentInFile := presentInFile;
      this.value := value;
      modified := false;
      syntheticPaths := {};
    }

    /** Store a new value at an existing position and stop treating it as synthetic. */
    method Store(path: Path, pointer: string, x: Json)
      requires pointer == Pointer(path) && At(value, path).Some?
      modifies this
      ensures State() == old(State()).(value := Put(old(value), path, x), modified := true,
                                       synthetic := if path == [] then old(syntheticPaths)
                                                    else old(syntheticPaths) - {pointer})
    {
      value := Put(value, path, x);
      modified := true;
      if path != [] {
        syntheticPaths := syntheticPaths - {pointer};
      }
    }

    method ApplyEditAt(path: Path, raw: string, t: Text) returns (ok: bool)
      modifies this
      ensures ok == EditAt(old(State()), path, Type(raw), t).Some?
      ensures State() == if ok then EditAt(old(State()), path, Type(raw), t).value else old(State())
      ensures At(old(value), path) == None ==> !ok
      ensures forall b :: At(old(value), path) == Some(Bool(b)) ==>
                && ok == (raw == "true" || raw == "false")
                && (raw == "true" ==> At(value, path) == Some(Bool(true)))
                && (raw == "false" ==> At(value, path) == Some(Bool(false)))
      ensures forall n, i :: At(old(value), path) == Some(Num(n)) && t.parseI64(raw) == Some(i) ==>
                ok && At(value, path) == Some(Num(Integer(i)))
      ensures forall n, f ::
                && At(old(value), path) == Some(Num(n))
                && t.parseI64(raw) == None && t.parseF64(raw) == Some(Finite(f)) ==>
                  ok && At(value, path) == Some(Num(Float(f)))
      ensures forall n :: At(old(value), path) == Some(Num(n)) && ok ==>
                t.parseI64(raw).Some? || exists f :: t.parseF64(raw) == Some(Finite(f))
      ensures forall x :: At(old(value), path) == Some(x) && !x.Bool? && !x.Num? ==>
                ok && At(value, path) == Some(Str(raw))
      ensures ok ==> forall other | !Overlap(path, other) :: At(value, other) == At(old(value), other)
    {
      var pointer := PathToJsonPointer(path);
      var slot := FollowPointer(value, pointer);
      if slot.None? {
        return false;
      }
      match slot.value {
        case Bool(b) => TypedOverBool(State(), path, b, raw, t);
        case Num(n) => TypedOverNumber(State(), path, n, raw, t);
        case _ => TypedOverOther(State(), path, raw, t);
      }
      var x := Coerce(slot.value, raw, t);
      if x.None? {
        return false;
      }
      EditKeepsOthers(State(), path, Type(raw), t);
      Store(path, pointer, x.value);
      ok := true;
    }

    method ToggleBoolAt(path: Path, t: Text) returns (ok: bool)
      modifies this
      ensures ok == EditAt(old(State()), path, Toggle, t).Some?
      ensures State() == if ok then EditAt(old(State()), path, Toggle, t).value else old(State())
      ensures ok <==> At(old(value), path) == Some(Bool(true)) || At(old(value), path) == Some(Bool(false))
      ensures forall b :: At(old(value), path) == Some(Bool(b)) ==> At(value, path) == Some(Bool(!b))
    {
      var pointer := PathToJsonPointer(path);
      var slot := FollowPointer(value, pointer);
      if slot.None? || !slot.value.Bool? {
        return false;
      }
      ToggleTwice(State(), path, slot.value.b, t);
      Store(path, pointer, Bool(!slot.value.b));
      ok := true;
    }

    method CycleEnumAt(path: Path, choices: seq<string>, t: Text)
      modifies this
      ensures State() == match EditAt(old(State()), path, Cycle(choices), t)
                         case Some(e) => e
                         case None => old(State())
    {
      if choices == [] {
        return;
      }
      var pointer := PathToJsonPointer(path);
      var slot := FollowPointer(value, pointer);
      if slot.Some? {
        Store(path, pointer, Str(NextChoice(choices, DisplayText(slot.value, t))));
      }
    }

    /** The value a save would write, and the default it is measured against. */
    method PrunedValue(schema: seq<Param>) returns (emit: Json, default: Option<Json>)
      requires WellFormed(schema)
      ensures emit == EmitValue(State(), schema) && default == DefaultAt(schema, key)
    {
      emit, default := value, None;
      var def := Find(schema, key);
      if def.Some? {
        assert WellFormedParam(def.value);
        if def.value.Nested? {
          emit := PruneSyntheticDefaults(value, def.value.fields, [], syntheticPaths);
        }
        default := BuildDefault(def.value);
      }
    }
  }

  ghost function States(es: seq<ConfigEntry>): (r: seq<Entry>)
    reads es
    ensures |r| == |es|
    ensures forall i | 0 <= i < |es| :: r[i] == es[i].State()
  {
    if es == [] then [] else States(es[..|es| - 1]) + [es[|es| - 1].State()]
  }

  /** No entry object occurs twice. */
  ghost predicate NoneTwice(es: seq<ConfigEntry>) {
    forall i, j | 0 <= i < j < |es| :: es[i] != es[j]
  }

  lemma NoneTwiceConcat(a: seq<ConfigEntry>, b: seq<ConfigEntry>)
    requires NoneTwice(a) && NoneTwice(b)
    requires forall x | x in a :: x !in b
    ensures NoneTwice(a + b)
  {
    forall i, j | 0 <= i < j < |a + b| ensures (a + b)[i] != (a + b)[j] {
      if i < |a| <= j { assert (a + b)[i] in a && (a + b)[j] in b; }
    }
  }

  lemma StatesConcat(a: seq<ConfigEntry>, b: seq<ConfigEntry>)
    ensures States(a + b) == States(a) + States(b)
  {
    forall i | 0 <= i < |a + b| ensures States(a + b)[i] == (States(a) + States(b))[i] {
      if i < |a| { assert (a + b)[i] == a[i]; } else { assert (a + b)[i] == b[i - |a|]; }
    }
  }

  lemma PresentKeys(es: seq<ConfigEntry>)
    ensures (set e | e in es :: e.key) == KeySet(States(es))
  {
    forall i | 0 <= i < |es| ensures es[i].key in KeySet(States(es)) {
      assert States(es)[i].key == es[i].key;
    }
  }

  /** New objects for the absent schema keys that have a default, in schema order. */
  method MissingEntries(schema: seq<Param>, present: set<string>) returns (added: seq<ConfigEntry>)
    requires WellFormed(schema)
    ensures fresh(added)
    ensures NoneTwice(added)
    ensures States(added) == Missing(schema, present)
  {
    added := [];
    ghost var model: seq<Entry> := [];
    var i := 0;
    while i < |schema|
      invariant 0 <= i <= |schema|
      invariant fresh(added)
      invariant NoneTwice(added)
      invariant model == Missing(schema[..i], present)
      invariant |model| == |added| && forall j | 0 <= j < |added| :: added[j].State() == model[j]
    {
      MissingExtend(schema, present, i);
      var f := schema[i];
      assert WellFormedParam(f);
      if f.key !in present {
        var d := BuildDefault(f);
        if d.Some? {
          var e := new ConfigEntry(f.key, d.value, false);
          added := added + [e];
          model := model + [e.State()];
        }
      }
      i := i + 1;
    }
    assert schema[..i] == schema;
  }

  class LoadedConfig {
    var entries: seq<ConfigEntry>

    ghost predicate Valid()
      reads this
    {
      NoneTwice(entries)
    }

    ghost function Contents(): seq<Entry>
      reads this, entries
    {
      States(entries)
    }

    /** `order` is the iteration order of the parsed file object. */
    constructor (file: map<string, Json>, order: seq<string>)
      requires Enumerates(order, file.Keys)
      ensures Valid() && fresh(entries)
      ensures Contents() == Load(file, order)
    {
      entries := [];
      new;
      var i := 0;
      while i < |order|
        invariant 0 <= i <= |order| == |order|
        invariant Valid() && fresh(entries)
        invariant |entries| == i
        invariant forall j | 0 <= j < i :: entries[j].State() == Entry(order[j], file[order[j]], false, true, {})
      {
        var e := new ConfigEntry(order[i], file[order[i]], true);
        entries := entries + [e];
        i := i + 1;
      }
    }

    method InjectSchemaDefaults(schema: seq<Param>)
      requires Valid() && WellFormed(schema)
      modifies this, entries
      ensures Valid() && old(entries) <= entries && fresh(set e | e in entries && e !in old(entries))
      ensures Contents() == Inject(old(Contents()), schema)
    {
      AppendMissing(schema);
      HydrateAll(schema);
    }

    /** First pass: one synthetic entry per absent schema key that has a default. */
    method AppendMissing(schema: seq<Param>)
      requires Valid() && WellFormed(schema)
      modifies this
      ensures Valid() && old(entries) <= entries && fresh(set e | e in entries && e !in old(entries))
      ensures Contents() == old(Contents()) + Missing(schema, KeySet(old(Contents())))
    {
      ghost var before := Contents();
      var present := set e | e in entries :: e.key;
      assert present == KeySet(before) by { PresentKeys(entries); }
      var added := MissingEntries(schema, present);
      assert NoneTwice(entries + added) by { NoneTwiceConcat(entries, added); }
      assert States(entries + added) == before + Missing(schema, KeySet(before)) by { StatesConcat(entries, added); }
      entries := entries + added;
    }

    /** Second pass: hydrate every entry whose parameter is an object. */
    method HydrateAll(schema: seq<Param>)
      requires Valid() && WellFormed(schema)
      modifies entries
      ensures Contents() == HydrateEntries(old(Contents()), schema)
    {
      ghost var before := Contents();
      var i := 0;
      while i < |entries|
        invariant 0 <= i <= |entries|
        invariant forall j | 0 <= j < |entries| ::
                    entries[j].State() == if j < i then HydrateEntry(before[j], schema) else before[j]
      {
        var e := entries[i];
        assert e.State() == before[i];
        var def := Find(schema, e.key);
        if def.Some? && def.value.Nested? {
          assert WellFormedParam(def.value);
          var v, s := HydrateObject(e.value, def.value.fields, [], e.syntheticPaths);
          e.value := v;
          e.syntheticPaths := s;
        }
        assert e.State() == HydrateEntry(before[i], schema);
        i := i + 1;
      }
    }

    /** The object a save writes; entries keep their hydrated values. */
    method BuildSavedObject(schema: seq<Param>) returns (obj: map<string, Json>)
      requires WellFormed(schema)
      ensures obj == Saved(Contents(), schema)
    {
      obj := map[];
      var i := 0;
      while i < |entries|
        invariant 0 <= i <= |entries|
        invariant obj == Saved(Contents()[..i], schema)
      {
        SavedExtend(Contents(), schema, i);
        var e := entries[i];
        assert e.State() == Contents()[i];
        var emit, default := e.PrunedValue(schema);
        if e.presentInFile || default != Some(emit) {
          obj := obj[e.key := emit];
        }
        i := i + 1;
      }
      assert Contents()[..i] == Contents();
    }

    /** Save returns the written object and clears the modified flags. */
    method SaveConfig(schema: seq<Param>) returns (obj: map<string, Json>)
      requires Valid() && WellFormed(schema)
      modifies entries
      ensures obj == Saved(old(Contents()), schema)
      ensures Contents() == MarkClean(old(Contents()))
    {
      obj := BuildSavedObject(schema);
      MarkAllClean();
    }

    method MarkAllClean()
      requires Valid()
      modifies entries
      ensures Contents() == MarkClean(old(Contents()))
    {
      ghost var before := Contents();
      var i := 0;
      while i < |entries|
        invariant 0 <= i <= |entries|
        invariant forall j | 0 <= j < |entries| ::
                    entries[j].State() == if j < i then before[j].(modified := false) else before[j]
      {
        entries[i].modified := false;
        i := i + 1;
      }
    }
  }
}
