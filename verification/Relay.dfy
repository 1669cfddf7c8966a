/**
 Pool relays as the ledger knows them, one of three variants with fields, and
 the two ways a dump spells them.  What the summary keeps of a spelled relay.
 */
module Relays {
  import opened Wrappers
  import opened Ordering
  import opened Digests
  import opened Summaries
  import opened Comparisons
  import Reductions

  datatype Variant = SingleHostAddr | SingleHostName | MultiHostName

  datatype Relay = Relay(variant: Variant, fields: map<string, Value>)

  /** A flat map with a `type`, or a wrapper whose one key names the variant. */
  datatype Spelling = Flat(text: string) | Wrapper(text: string)

  function Names(v: Variant): seq<string> {
    match v
    case SingleHostAddr => ["single host address", "singlehostaddr", "singlehostaddress"]
    case SingleHostName => ["single host name", "singlehostname"]
    case MultiHostName => ["multi host name", "multihostname"]
  }

  /** The same character up to the case of the Latin letters. */
  predicate SameLetter(c: char, d: char) {
    c == d || ('A' <= c <= 'Z' && d as int == c as int + 32) || ('A' <= d <= 'Z' && c as int == d as int + 32)
  }

  predicate SameLetters(a: string, b: string) {
    |a| == |b| && forall i | 0 <= i < |a| :: SameLetter(a[i], b[i])
  }

  predicate Space(c: char) {
    c in {' ', '\t', '\n', '\U{000B}', '\U{000C}', '\r', '\U{001C}', '\U{001D}', '\U{001E}', '\U{001F}'}
  }

  predicate Spaces(s: string) {
    forall i | 0 <= i < |s| :: Space(s[i])
  }

  ghost predicate SpellsAt(text: string, v: Variant, i: nat, j: nat, n: nat) {
    && i <= j <= |text| && n < |Names(v)|
    && Spaces(text[..i]) && Spaces(text[j..]) && SameLetters(text[i..j], Names(v)[n])
  }

  /** A name of the variant in any case, with any white space around it. */
  ghost predicate Spells(text: string, v: Variant) {
    exists i, j, n :: SpellsAt(text, v, i, j, n)
  }

  function Written(r: Relay, s: Spelling): map<string, Value> {
    match s
    case Flat(text) => r.fields["type" := Str(text)]
    case Wrapper(text) => map[text := Dict(r.fields)]
  }

  /** No two field names differ in case only; in the flat form no field is called `type`. */
  ghost predicate WellSpelled(r: Relay, s: Spelling) {
    && Spells(s.text, r.variant) && (s.Flat? ==> "type" !in r.fields)
    && forall j, k | j in r.fields && k in r.fields && j != k :: !SameLetters(j, k)
  }

  // ---- Case ------------------------------------------------------------------------------------

  function LowerChar(c: char): char {
    if 'A' <= c <= 'Z' then (c as int + 32) as char else c
  }

  lemma LowerCharIff(c: char, d: char)
    ensures LowerChar(c) == LowerChar(d) <==> SameLetter(c, d)
  {
  }

  lemma {:induction false} LowerAt(s: string, i: nat)
    requires i < |s|
    ensures Lower(s)[i] == LowerChar(s[i])
  {
    if i > 0 {
      LowerAt(s[1..], i - 1);
    }
  }

  lemma LowerIff(a: string, b: string)
    ensures Lower(a) == Lower(b) <==> SameLetters(a, b)
  {
    if |a| == |b| {
      forall i | 0 <= i < |a| ensures Lower(a)[i] == Lower(b)[i] <==> SameLetter(a[i], b[i]) {
        LowerAt(a, i);
        LowerAt(b, i);
        LowerCharIff(a[i], b[i]);
      }
      SeqsEqualIff(Lower(a), Lower(b));
    }
  }

  predicate IsLower(s: string) {
    forall i | 0 <= i < |s| :: !('A' <= s[i] <= 'Z')
  }

  lemma LowerKeeps(s: string)
    requires IsLower(s)
    ensures Lower(s) == s
  {
    forall i | 0 <= i < |s| ensures Lower(s)[i] == s[i] {
      LowerAt(s, i);
    }
  }

  // ---- White space ---------------------------------------------------------------------------------

  lemma BlankIff(c: char)
    ensures Blank(c) <==> Space(c)
  {
    assert '\n' as int == 10 && '\t' as int == 9 && '\r' as int == 13;
    if Blank(c) {
      var n := c as int;
      assert n == 32 || 9 <= n <= 13 || 28 <= n <= 31;
      assert c == n as char;
    }
  }

  /** Stripping takes away spaces on both sides, and a text that starts and ends otherwise stays. */
  lemma {:induction false} LeftStripped(s: string, i: nat)
    requires i < |s| && Spaces(s[..i]) && !Space(s[i])
    ensures StripLeft(s) == s[i..]
    decreases i
  {
    BlankIff(s[0]);
    if i > 0 {
      assert s[..i][0] == s[0];
      assert s[1..][..i - 1] == s[..i][1..];
      assert s[1..][i - 1] == s[i] && s[1..][i - 1..] == s[i..];
      LeftStripped(s[1..], i - 1);
    } else {
      assert s[0..] == s;
    }
  }

  lemma {:induction false} RightStripped(s: string, j: nat)
    requires 0 < j <= |s| && Spaces(s[j..]) && !Space(s[j - 1])
    ensures StripRight(s) == s[..j]
    decreases |s| - j
  {
    var n := |s| - 1;
    BlankIff(s[n]);
    if j <= n {
      assert s[j..][n - j] == s[n];
      assert s[..n][j..] == s[j..][..n - j] && s[..n][..j] == s[..j];
      RightStripped(s[..n], j);
    } else {
      assert s[..j] == s;
    }
  }

  lemma {:induction false} LeftStrip(s: string) returns (i: nat)
    ensures i <= |s| && StripLeft(s) == s[i..] && Spaces(s[..i])
  {
    if s != "" && Blank(s[0]) {
      BlankIff(s[0]);
      var k := LeftStrip(s[1..]);
      i := k + 1;
      assert s[1..][k..] == s[i..];
      forall m | 0 <= m < i ensures Space(s[..i][m]) {
        if m > 0 { assert s[..i][m] == s[1..][..k][m - 1]; }
      }
    } else {
      i := 0;
      assert s[0..] == s;
    }
  }

  lemma {:induction false} RightStrip(s: string) returns (j: nat)
    ensures j <= |s| && StripRight(s) == s[..j] && Spaces(s[j..])
  {
    var n := |s| - 1;
    if s != "" && Blank(s[n]) {
      BlankIff(s[n]);
      j := RightStrip(s[..n]);
      assert s[..n][..j] == s[..j];
      forall m | 0 <= m < |s| - j ensures Space(s[j..][m]) {
        if j + m < n { assert s[j..][m] == s[..n][j..][m]; }
      }
    } else {
      j := |s|;
      assert s[..j] == s;
    }
  }

  function Stripped(s: string): string {
    StripRight(StripLeft(s))
  }

  lemma StripBoth(s: string) returns (i: nat, j: nat)
    ensures i <= j <= |s| && Stripped(s) == s[i..j] && Spaces(s[..i]) && Spaces(s[j..])
  {
    i := LeftStrip(s);
    var k := RightStrip(s[i..]);
    j := i + k;
    assert s[i..][..k] == s[i..j] && s[i..][k..] == s[j..];
  }

  lemma StrippedIs(s: string, i: nat, j: nat)
    requires i < j <= |s| && Spaces(s[..i]) && Spaces(s[j..]) && !Space(s[i]) && !Space(s[j - 1])
    ensures Stripped(s) == s[i..j]
  {
    LeftStripped(s, i);
    var t := s[i..];
    assert t[j - i..] == s[j..] && t[j - i - 1] == s[j - 1] && t[..j - i] == s[i..j];
    RightStripped(t, j - i);
  }

  // ---- Variants ---------------------------------------------------------------------------------------

  /** How the comparison writes a variant. */
  function TagText(v: Variant): string {
    match v
    case SingleHostAddr => "singlehostaddr"
    case SingleHostName => "singlehostname"
    case MultiHostName => "multihostname"
  }

  lemma TagTextsDiffer(v: Variant, w: Variant)
    ensures TagText(v) == TagText(w) <==> v == w
  {
    assert "singlehostaddr"[10] == 'a' && "singlehostname"[10] == 'n';
    assert |"singlehostname"| == 14 && |"multihostname"| == 13;
  }

  predicate Tidy(n: string) {
    n != "" && !Space(n[0]) && !Space(n[|n| - 1]) && IsLower(n)
  }

  lemma NamesTidy(v: Variant, n: nat)
    requires n < |Names(v)|
    ensures Tidy(Names(v)[n])
  {
  }

  lemma NamedIff(core: string, v: Variant)
    ensures RelayNamed(core, v) <==> exists n :: 0 <= n < |Names(v)| && SameLetters(core, Names(v)[n])
  {
    forall n | 0 <= n < |Names(v)| ensures Lower(core) == Names(v)[n] <==> SameLetters(core, Names(v)[n]) {
      NamesTidy(v, n);
      LowerKeeps(Names(v)[n]);
      LowerIff(core, Names(v)[n]);
    }
  }

  ghost predicate RelayNamed(core: string, v: Variant) {
    exists n :: 0 <= n < |Names(v)| && Lower(core) == Names(v)[n]
  }

  lemma SpellsIff(text: string, v: Variant)
    ensures Spells(text, v) <==> RelayNamed(Stripped(text), v)
  {
    NamedIff(Stripped(text), v);
    if i: nat, j: nat, n: nat :| SpellsAt(text, v, i, j, n) {
      CoreStripped(text, v, i, j, n);
    }
    if n :| 0 <= n < |Names(v)| && SameLetters(Stripped(text), Names(v)[n]) {
      var i, j := StripBoth(text);
      assert SpellsAt(text, v, i, j, n);
    }
  }

  lemma CoreStripped(text: string, v: Variant, i: nat, j: nat, n: nat)
    requires SpellsAt(text, v, i, j, n)
    ensures Stripped(text) == text[i..j]
  {
    var core, name := text[i..j], Names(v)[n];
    NamesTidy(v, n);
    assert |core| == |name| && core[0] == text[i] && core[|core| - 1] == text[j - 1];
    NotSpace(core[0], name[0]);
    NotSpace(core[|core| - 1], name[|name| - 1]);
    StrippedIs(text, i, j);
  }

  lemma NotSpace(c: char, d: char)
    requires !Space(d)
    ensures SameLetter(c, d) ==> !Space(c)
  {
  }

  /** The tag of a text is that of the one variant it spells. */
  lemma TagIff(text: string, v: Variant)
    ensures RelayTag(text) == Some(TagText(v)) <==> Spells(text, v)
  {
    SpellsIff(text, v);
    NamesApart();
    assert Names(SingleHostAddr)[0] == "single host address" && Names(SingleHostAddr)[1] == "singlehostaddr";
    assert Names(SingleHostAddr)[2] == "singlehostaddress";
    assert Names(SingleHostName)[0] == "single host name" && Names(SingleHostName)[1] == "singlehostname";
    assert Names(MultiHostName)[0] == "multi host name" && Names(MultiHostName)[1] == "multihostname";
  }

  lemma NamesApart()
    ensures |"single host address"| == 19 && |"singlehostaddress"| == 17 && |"single host name"| == 16
    ensures |"multi host name"| == 15 && |"multihostname"| == 13
    ensures |"singlehostaddr"| == 14 && |"singlehostname"| == 14 && "singlehostaddr" != "singlehostname"
  {
    assert "singlehostaddr"[10] == 'a' && "singlehostname"[10] == 'n';
  }

  lemma TagNames(text: string) returns (v: Variant)
    requires RelayTag(text).Some?
    ensures RelayTag(text) == Some(TagText(v)) && Spells(text, v)
  {
    var tag := RelayTag(text).value;
    v := if tag == "singlehostaddr" then SingleHostAddr
         else if tag == "singlehostname" then SingleHostName
         else MultiHostName;
    TagIff(text, v);
  }

  // ---- Fields --------------------------------------------------------------------------------------------

  lemma {:induction false} FoldKeysAgree(ks: seq<string>, d: map<string, Value>, d': map<string, Value>)
    requires Covers(d, ks) && Covers(d', ks) && forall i | 0 <= i < |ks| :: d[ks[i]] == d'[ks[i]]
    ensures FoldKeys(ks, d) == FoldKeys(ks, d')
  {
    if ks != [] {
      FoldKeysAgree(ks[..|ks| - 1], d, d');
    }
  }

  lemma FlatFields(fields: map<string, Value>, x: Value)
    requires "type" !in fields
    ensures RelayFields(fields["type" := x], {"type"}) == RelayFields(fields, {})
  {
    var m := fields["type" := x];
    assert m.Keys - {"type"} == fields.Keys == fields.Keys - {};
    FoldKeysAgree(Sorted(fields.Keys), m, fields);
  }

  /** The summary of a spelled relay, unless it is a flat one without fields. */
  function Canonical(r: Relay): map<string, Value> {
    map[RELAY := Str(TagText(r.variant))] + RelayFields(r.fields, {})
  }

  lemma WrapperShape(r: Relay, text: string)
    requires RelayTag(text) == Some(TagText(r.variant))
    ensures var m := Written(r, Wrapper(text));
            !ShapeOf(m).NoRelay? && CanonRelay(m) == Canonical(r)
  {
    var m := Written(r, Wrapper(text));
    assert m.Keys == {text} && |m.Keys| == 1 && |m| == |m.Keys|;
    SortedIs({text}, [text]);
    assert ShapeOf(m) == Wrapped(text, TagText(r.variant));
    CanonWrapped(m, text, TagText(r.variant));
  }

  lemma FlatShape(r: Relay, text: string)
    requires RelayTag(text) == Some(TagText(r.variant)) && "type" !in r.fields && r.fields != map[]
    ensures var m := Written(r, Flat(text));
            !ShapeOf(m).NoRelay? && CanonRelay(m) == Canonical(r)
  {
    var m := Written(r, Flat(text));
    var k :| k in r.fields;
    assert k in m && "type" in m && k != "type";
    assert {k, "type"} <= m.Keys && |{k, "type"}| == 2;
    AtLeast(m.Keys, {k, "type"});
    assert |m| == |m.Keys|;
    FlatFields(r.fields, Str(text));
  }

  lemma {:induction false} AtLeast(a: set<string>, b: set<string>)
    requires b <= a
    ensures |a| >= |b|
  {
    assert |a - b| == |a| - |b|;
  }

  lemma WrittenShape(r: Relay, s: Spelling)
    requires WellSpelled(r, s) && !(s.Flat? && r.fields == map[])
    ensures var m := Written(r, s);
            !ShapeOf(m).NoRelay? && CanonRelay(m) == Canonical(r)
  {
    TagIff(s.text, r.variant);
    match s {
      case Wrapper(text) => WrapperShape(r, text);
      case Flat(text) => FlatShape(r, text);
    }
  }

  lemma WrittenSummary(r: Relay, s: Spelling, key: Option<string>, json: Renderer)
    requires WellSpelled(r, s) && !(s.Flat? && r.fields == map[])
    ensures Summarise(Dict(Written(r, s)), key, json) == Dict(Canonical(r))
  {
    WrittenShape(r, s);
    SummariseRelay(Written(r, s), key, json);
  }

  ghost predicate NoCaseClash(f: map<string, Value>) {
    forall j, k | j in f && k in f && j != k :: !SameLetters(j, k)
  }

  /** The folded fields hold each value under the lower-case name, and nothing else. */
  lemma FoldedField(f: map<string, Value>, k: string)
    requires NoCaseClash(f) && k in f
    ensures Lower(k) in RelayFields(f, {}) && RelayFields(f, {})[Lower(k)] == f[k]
  {
    forall i, j | i in f.Keys - {} && j in f.Keys - {} && i != j ensures Lower(i) != Lower(j) {
      LowerIff(i, j);
    }
    Reductions.RelayFieldAt(f, {}, k);
  }

  lemma FoldedName(f: map<string, Value>, n: string) returns (k: string)
    requires n in RelayFields(f, {})
    ensures k in f && n == Lower(k)
  {
    var ks := Sorted(f.Keys - {});
    Reductions.FoldKeysNames(ks, f, f);
    var i :| 0 <= i < |ks| && n == Lower(ks[i]);
    k := ks[i];
  }

  ghost predicate Spelled(f: map<string, Value>, name: string, x: Value) {
    exists k :: k in f && SameLetters(k, name) && f[k] == x
  }

  lemma SpelledIff(f: map<string, Value>, name: string, x: Value)
    requires NoCaseClash(f)
    ensures Spelled(f, name, x) <==> Get(RelayFields(f, {}), Lower(name)) == Some(x)
  {
    if k :| k in f && SameLetters(k, name) && f[k] == x {
      FoldedField(f, k);
      LowerIff(k, name);
    }
    if Get(RelayFields(f, {}), Lower(name)) == Some(x) {
      var k := FoldedName(f, Lower(name));
      FoldedField(f, k);
      LowerIff(k, name);
      assert SameLetters(k, name) && f[k] == x;
    }
  }

  // ---- What a summary shows ----------------------------------------------------------------------------------

  /** A field that is called like the tag covers it. */
  ghost predicate TagField(f: map<string, Value>) {
    exists k :: k in f && SameLetters(k, RELAY)
  }

  ghost predicate ShowsTag(r: Relay, x: Value) {
    if TagField(r.fields) then Spelled(r.fields, RELAY, x) else x == Str(TagText(r.variant))
  }

  /** Every field has one with the same value and the same name up to case. */
  ghost predicate FieldsWithin(f: map<string, Value>, g: map<string, Value>) {
    forall j | j in f && !SameLetters(j, RELAY) :: Spelled(g, j, f[j])
  }

  lemma RelayIsLower()
    ensures Lower(RELAY) == RELAY
  {
    RelayLetters(RELAY);
    LowerKeeps(RELAY);
  }

  lemma RelayLetters(s: string)
    requires s == RELAY
    ensures IsLower(s)
  {
  }

  lemma TagShown(r: Relay)
    requires NoCaseClash(r.fields)
    ensures ShowsTag(r, Canonical(r)[RELAY])
  {
    RelayIsLower();
    var f := RelayFields(r.fields, {});
    if RELAY in f {
      var k := FoldedName(r.fields, RELAY);
      LowerIff(k, RELAY);
      assert TagField(r.fields);
      SpelledIff(r.fields, RELAY, f[RELAY]);
    } else if k :| k in r.fields && SameLetters(k, RELAY) {
      FoldedField(r.fields, k);
      LowerIff(k, RELAY);
    }
  }

  lemma SameFolded(f: map<string, Value>, g: map<string, Value>, n: string)
    requires NoCaseClash(f) && NoCaseClash(g) && FieldsWithin(f, g) && n != RELAY && n in RelayFields(f, {})
    ensures n in RelayFields(g, {}) && RelayFields(g, {})[n] == RelayFields(f, {})[n]
  {
    var k := FoldedName(f, n);
    FoldedField(f, k);
    RelayIsLower();
    LowerIff(k, RELAY);
    SpelledIff(g, k, f[k]);
  }

  lemma CanonicalWithin(r: Relay, q: Relay)
    requires NoCaseClash(r.fields) && NoCaseClash(q.fields) && Canonical(r) == Canonical(q)
    ensures FieldsWithin(r.fields, q.fields)
  {
    RelayIsLower();
    forall j | j in r.fields && !SameLetters(j, RELAY) ensures Spelled(q.fields, j, r.fields[j]) {
      FoldedField(r.fields, j);
      LowerIff(j, RELAY);
      assert Canonical(r)[Lower(j)] == r.fields[j];
      assert Canonical(q)[Lower(j)] == r.fields[j];
      SpelledIff(q.fields, j, r.fields[j]);
    }
  }

  lemma OneTag(r: Relay, x: Value, y: Value)
    requires NoCaseClash(r.fields) && ShowsTag(r, x) && ShowsTag(r, y)
    ensures x == y
  {
    SpelledIff(r.fields, RELAY, x);
    SpelledIff(r.fields, RELAY, y);
  }

  /** The fields agree up to the case of their names, and so do the shown tags. */
  ghost predicate LookAlike(r: Relay, q: Relay) {
    && FieldsWithin(r.fields, q.fields) && FieldsWithin(q.fields, r.fields)
    && exists x :: BothShow(r, q, x)
  }

  ghost predicate BothShow(r: Relay, q: Relay, x: Value) {
    ShowsTag(r, x) && ShowsTag(q, x)
  }

  lemma LooksSame(r: Relay, q: Relay)
    requires NoCaseClash(r.fields) && NoCaseClash(q.fields) && Canonical(r) == Canonical(q)
    ensures LookAlike(r, q)
  {
    TagShown(r);
    TagShown(q);
    assert BothShow(r, q, Canonical(r)[RELAY]);
    CanonicalWithin(r, q);
    CanonicalWithin(q, r);
  }

  lemma CanonicalAt(r: Relay, q: Relay, n: string)
    requires NoCaseClash(r.fields) && NoCaseClash(q.fields) && n != RELAY
    requires FieldsWithin(r.fields, q.fields) && FieldsWithin(q.fields, r.fields)
    ensures Get(Canonical(r), n) == Get(Canonical(q), n)
  {
    if n in RelayFields(r.fields, {}) {
      SameFolded(r.fields, q.fields, n);
    } else if n in RelayFields(q.fields, {}) {
      SameFolded(q.fields, r.fields, n);
    }
  }

  lemma SameLooks(r: Relay, q: Relay)
    requires NoCaseClash(r.fields) && NoCaseClash(q.fields) && LookAlike(r, q)
    ensures Canonical(r) == Canonical(q)
  {
    var x :| BothShow(r, q, x);
    TagIs(r, x);
    TagIs(q, x);
    var a, b := Canonical(r), Canonical(q);
    forall n ensures Get(a, n) == Get(b, n) {
      if n != RELAY { CanonicalAt(r, q, n); }
    }
    MapsAgree(a, b);
  }

  lemma TagIs(r: Relay, x: Value)
    requires NoCaseClash(r.fields) && ShowsTag(r, x)
    ensures Canonical(r)[RELAY] == x
  {
    var y := Canonical(r)[RELAY];
    TagShown(r);
    OneTag(r, x, y);
  }

  /** Two relays are summarised alike exactly when they look alike. */
  lemma CanonicalIff(r: Relay, q: Relay)
    requires NoCaseClash(r.fields) && NoCaseClash(q.fields)
    ensures Canonical(r) == Canonical(q) <==> LookAlike(r, q)
  {
    if Canonical(r) == Canonical(q) {
      LooksSame(r, q);
    }
    if LookAlike(r, q) {
      SameLooks(r, q);
    }
  }

  // ---- Spelled relays ------------------------------------------------------------------------------------------

  /** A flat relay without fields is a map with the one key `type`, which is read as a wrapper. */
  predicate Unread(r: Relay, s: Spelling) {
    s.Flat? && r.fields == map[]
  }

  /**
   However two relays are spelled, their summaries are equal exactly when their
   variants are equal and their fields are, up to the case of the names.
   */
  lemma SpelledRelaysIff(r: Relay, s: Spelling, q: Relay, t: Spelling, key: Option<string>, key': Option<string>,
                         json: Renderer)
    requires WellSpelled(r, s) && !Unread(r, s) && !TagField(r.fields)
    requires WellSpelled(q, t) && !Unread(q, t) && !TagField(q.fields)
    ensures Summarise(Dict(Written(r, s)), key, json) == Summarise(Dict(Written(q, t)), key', json) <==>
            r.variant == q.variant && FieldsWithin(r.fields, q.fields) && FieldsWithin(q.fields, r.fields)
  {
    WrittenSummary(r, s, key, json);
    WrittenSummary(q, t, key', json);
    CanonicalIff(r, q);
    TagTextsDiffer(r.variant, q.variant);
    assert r.variant == q.variant ==> BothShow(r, q, Str(TagText(r.variant)));
  }

  /** With a field that is called like the tag, that field is shown in its place. */
  lemma CoveredTagsIff(r: Relay, s: Spelling, q: Relay, t: Spelling, key: Option<string>, key': Option<string>,
                       json: Renderer)
    requires WellSpelled(r, s) && !Unread(r, s) && WellSpelled(q, t) && !Unread(q, t)
    ensures Summarise(Dict(Written(r, s)), key, json) == Summarise(Dict(Written(q, t)), key', json) <==>
            LookAlike(r, q)
  {
    WrittenSummary(r, s, key, json);
    WrittenSummary(q, t, key', json);
    CanonicalIff(r, q);
  }

  /** Relays of different variants are always reported, under keys of the era and outside it. */
  lemma VariantsAreReported(r: Relay, s: Spelling, q: Relay, t: Spelling, c: Context, path: string, json: Renderer)
    requires WellSpelled(r, s) && !Unread(r, s) && !TagField(r.fields)
    requires WellSpelled(q, t) && !Unread(q, t) && !TagField(q.fields)
    requires r.variant != q.variant && !Excluded(path)
    ensures var x, y := Dict(Written(r, s)), Dict(Written(q, t));
            !Clean(Walk(c, path, Summarise(x, None, json), Summarise(y, None, json)))
  {
    var a, b := Dict(Canonical(r)), Dict(Canonical(q));
    WrittenSummary(r, s, None, json);
    WrittenSummary(q, t, None, json);
    TagTextsDiffer(r.variant, q.variant);
    TagShown(r);
    TagShown(q);
    TagsDecide(Expected(c), a, b, TagText(r.variant), TagText(q.variant));
    WalkCleanIffAlike(c, path, a, b);
  }

  lemma TagsDecide(strict: bool, a: Value, b: Value, x: string, y: string)
    requires a.Dict? && b.Dict? && RELAY in a.entries && RELAY in b.entries
    requires a.entries[RELAY] == Str(x) && b.entries[RELAY] == Str(y) && x != y
    ensures !Alike(strict, a, b)
  {
    SegmentLength(RELAY);
    assert |RELAY| == 9 && |"stakePercent"| == 12;
    assert RELAY !in {"numerator", "denominator"} by { assert RELAY[0] == '_'; }
    assert !AlikeKey(strict, a, b, RELAY);
  }

  // ---- Which maps are relays -----------------------------------------------------------------------------------

  /** A map is read as a relay when it is a wrapper named after a variant, or has such a `type` and something else. */
  ghost predicate IsRelay(m: map<string, Value>) {
    || (exists text, v, fields :: m == map[text := Dict(fields)] && Spells(text, v))
    || (|m| != 1 && "type" in m && m["type"].Str? && exists v :: Spells(m["type"].s, v))
  }

  lemma OneEntry(m: map<string, Value>)
    requires |m| == 1
    ensures var k := Sorted(m.Keys)[0]; k in m && m == map[k := m[k]]
  {
    assert |m.Keys| == 1;
    var k := Sorted(m.Keys)[0];
    assert m.Keys == {k} by { assert |m.Keys - {k}| == 0; }
  }

  lemma WrapperIsRelay(m: map<string, Value>, text: string, v: Variant, fields: map<string, Value>)
    requires m == map[text := Dict(fields)] && Spells(text, v)
    ensures !ShapeOf(m).NoRelay?
  {
    assert m.Keys == {text} && |m.Keys| == 1 && |m| == |m.Keys|;
    SortedIs({text}, [text]);
    TagIff(text, v);
  }

  lemma RelayIff(m: map<string, Value>)
    ensures !ShapeOf(m).NoRelay? <==> IsRelay(m)
  {
    if !ShapeOf(m).NoRelay? {
      if |m| == 1 {
        OneEntry(m);
        var k := Sorted(m.Keys)[0];
        var v := TagNames(k);
        assert m == map[k := Dict(m[k].entries)] && Spells(k, v);
      } else {
        var v := TagNames(m["type"].s);
      }
    }
    if text, v, fields :| m == map[text := Dict(fields)] && Spells(text, v) {
      WrapperIsRelay(m, text, v, fields);
    }
    if |m| != 1 && "type" in m && m["type"].Str? {
      if v :| Spells(m["type"].s, v) { TagIff(m["type"].s, v); }
    }
  }

  /** The summary puts a tag on exactly those maps. */
  lemma TaggedIff(m: map<string, Value>, key: Option<string>, json: Renderer)
    requires RELAY !in m
    ensures Summarise(Dict(m), key, json).Dict?
    ensures RELAY in Summarise(Dict(m), key, json).entries <==> IsRelay(m)
  {
    RelayIff(m);
    if ShapeOf(m).NoRelay? {
      NoTagAdded(m, key, json);
    } else {
      SummariseRelay(m, key, json);
    }
  }

  lemma NoTagAdded(m: map<string, Value>, key: Option<string>, json: Renderer)
    requires RELAY !in m && ShapeOf(m).NoRelay?
    ensures Summarise(Dict(m), key, json).Dict? && RELAY !in Summarise(Dict(m), key, json).entries
  {
    RecordKeys();
    if DIGEST in m {
      SummariseReady(m, key, json);
    } else if Digestable(key) && Summaries.Flat(m) {
      SummariseDigestable(m, key, json);
    } else {
      SummariseOrdinary(m, key, json);
      NoTagAssembled(Total(m), Slots(Dict(m), json), json);
    }
  }

  lemma NoTagAssembled(total: Option<Value>, slots: map<string, Value>, json: Renderer)
    requires RELAY !in slots
    ensures RELAY !in Assemble(total, slots, json)
  {
    RecordKeys();
  }

  /** A flat relay without fields is no relay to the tool: it keeps its `type` and gets no tag. */
  lemma BareFlatRelay(r: Relay, text: string, key: Option<string>, json: Renderer)
    requires r.fields == map[] && !Digestable(key)
    ensures Summarise(Dict(Written(r, Flat(text))), key, json) == Dict(map["type" := Str(text)])
  {
    var m := Written(r, Flat(text));
    assert m == map["type" := Str(text)];
    assert m.Keys == {"type"} && |m.Keys| == 1 && |m| == |m.Keys|;
    SortedIs({"type"}, ["type"]);
    assert DIGEST !in m by { assert |DIGEST| != |"type"|; }
    assert "type" != "stakePercent" by { assert |"type"| != |"stakePercent"|; }
    SummariseOrdinary(m, key, json);
    var slots := Slots(Dict(m), json);
    assert slots == m;
    assert |slots| == 1;
    assert slots - {"stakePercent"} == m;
  }
}
