# Dugite tools, verified in Dafny

A Dafny model of the self-contained algorithms of the Dugite node's tooling and
of its volatile chain window, with proofs of what they promise. Five parts:

1. **Configuration sessions** (`JsonPointer`, `Decimal`, `Json`, `Schema`,
   `Hydration`, `ConfigSession`, `Edits`, `LoadedConfig`, `ObjectDiff`,
   `DiffBaseline`, `SchemaPath`, `DiffLines`, `RowTree`, `RowPath`, `OpenWalk`,
   `Navigation`). A configuration file is loaded, completed with schema defaults,
   edited at JSON-pointer positions and saved with minimal changes. The laws are
   about whole sessions: hydration and pruning undo each other, the user's view
   survives save and reload, edits survive every later save. The editor's tree
   rows, its cursor and its diff overlay are proved against recursive reference
   walks, and the rows and diff lines also against the JSON values: which
   positions have one, in which order, and what it says.
2. **The volatile chain window** (`ChainFragment`). Push, rollback and anchor
   advance are proved against a ghost full chain, for every run.
3. **Epoch-dump comparison** (`Ordering`, `Digest`, `NodeDigest`, `CanonText`,
   `Summary`, `SummaryShape`, `Relay`, `Reduction`, `Era`, `PathShape`,
   `Comparison`, `Observation`, `SummaryParts`, `Fidelity`, `Verdict`,
   `DirectVerdict`, `Rational`, `Arithmetic`). Large parts of a dump are hashed
   before two dumps are compared. The verdict of the walk over two summaries is
   proved equivalent to a relation between the raw dumps that is defined without
   hashing, and to the verdict of walking the dumps themselves for all dumps of
   a checkable shape; where the two verdicts part, both are given exactly. What
   the counters hold is proved position by position.
4. **Wire forms in the fuzz crate** (`Cbor`, `CborItem`, `Sorting`, `TxNormal`).
   Rewriting a definite-length CBOR map to an indefinite one, and the normal form
   that identifies transactions equal up to caches and unobservable order.
5. **Two small scripts** (`GridLayout`, `JsonlSplit`). The dashboard grid
   allocator and the buffered splitter of an epoch-state stream.

`Wrappers` holds the option type and facts about maps and lists. Code that
updates things in place is written as methods, loops and classes, each proved
equal to a function on values; the theorems are about those functions. To
verify the project, give `dafny verify` the file `dfyconfig.toml`.

JSON objects are maps, because object equality ignores order. Iteration orders
that matter (file order, Python `sorted`) are explicit. A hexadecimal digest is
represented by the text it was computed from, so equal digests mean equal
hashed texts. Floating-point numbers are fractions of integers. Number parsing,
JSON printing and the encoding of Plutus data are function parameters. Theorems
about hashed texts assume of the JSON printer that different values print
differently and that a printed value in front of a `;` or `=` can be told from
what follows (`CanonTexts.Faithful`), as compact JSON promises; that the joined
texts then determine the hashed map or bag is proved.

## What the code does that its documentation does not say

Each of these is proved, with the exact condition under which the promise holds
unless the item says otherwise.

- Saving an untouched file changes it exactly when an object-typed slot holds
  `null`, which comes back as `{}` (`UntouchedSaveIsIdentity`).
- Replacing an object slot by a scalar, an array or `null` goes unreported in the
  diff overlay exactly when the object held no leaf and no unknown key at any
  depth of its schema (`ReplacedObjectIsSilent`).
- The overlay's originals are captured before defaults are filled in, so that it
  shows only what the user edited. It also shows every leaf that hydration
  filled, once its entry is marked as modified; only edits show exactly when the
  file left nothing to fill (`UneditedIsSilentIff`, `ReportedIff`).
- A diff line is identified by its dotted key only while no name holds a dot or
  ends in the mark of unknown keys; otherwise two positions can share one key
  (`ChangeHasOneLine`, `SharedKeys`). Given in one direction, with the failing
  family.
- `advance_anchor` keeps the window on the chain exactly for contained points;
  `Origin` on a block anchor leaves it (`AdvanceKeepsWindowIffContained`).
- `encode_cbor_uint` truncates keys from 2^32 on (`EncodeUintRoundTrip`).
- Reducing a dump is visible to the comparator when a digestable map spells a
  relay or sits inside a relay or a ready-made record (`ReductionInvisibleIffSafe`).
- A flat digest does not always determine its map: a `:` can move between a key
  and its value (`KeyColonAmbiguous`), and a value with both separators can hold
  an entry (`DigestAmbiguous`). Proved in one direction: if no key and no rendered
  value of one of two maps holds a separator, equal records mean equal keys and
  equal rendered values, whatever the other map is (`BareDigestUnambiguous`).
- The digest is said not to weaken the comparison. It hides the order of a long
  list (`LongListsPart`), and `5` against `"5"` in a digested map that also holds a
  string (`FlatMapsPart`, `FlatTypeHidden`). In the other direction it reports
  differences in a large map that the walk would take for equal (`LargeMapsPart`):
  `true` against `1`, other terms of one rational, pools in another order, and
  anything under an excluded key (`BooleanInHash`, `RationalInHash`,
  `PoolOrderInHash`). On dumps that hold none of this and no relays, both give the
  same verdict (`SummariesDecide`).
- The node's digest record is said to be byte-identical to the comparator's. For a
  map of integers and strings it is exactly when the map holds a string, or only
  natural numbers with a total below 2^64 (`RecordsMatchIff`); a negative amount
  or a boolean tells them apart (`NegativeTellsApart`, `BooleanTellsApart`).
- A relay written flat, with a `type` and no field, is not taken for a relay
  (`BareFlatRelay`), and a field called like `__relay__` covers the variant
  (`CoveredTagsIff`).
- A key outside its era that only one dump has goes unreported whatever it holds
  (`SilentOutsideEra`), although a comment says that real content there still
  falls through to be reported; and a large map outside its era is never looked
  into against a small one (`HashHidesOutsideEra`).
- Normalising a Dijkstra transaction twice differs from once exactly when a key
  guard is repeated (`NormIdempotentIff`). The comment on
  `canonicalise_set_order` says that witness-set collections are left alone; the
  code sorts redeemers and datums in every era, and the model follows the code.
- The stream splitter can lose an epoch's record to a `null` line that takes the
  same fallback tag (`BufferingIsDirectIff`, `NullLosesEpochZero`), and a strict
  abort leaves the buffered run unwritten (`Split`).

## Model

| member | source | states |
|---|---|---|
| JsonPointer.PathToJsonPointer | crates/dugite-config/src/path.rs:11-18 | the accumulating loop yields the RFC 6901 pointer of any path of arbitrary strings |
| JsonPointer.EscapedHasNoSlash | crates/dugite-config/src/path.rs:20-23 | an escaped segment holds no separator |
| JsonPointer.UnescapeEscape | crates/dugite-config/src/path.rs:20-23 | decoding `~1` then `~0` inverts the escaping order `~` then `/` |
| JsonPointer.DecodePointer | crates/dugite-config/src/path.rs:11-23 | splitting on `/` and unescaping inverts the encoding, for all paths |
| JsonPointer.PointerInjective | crates/dugite-config/src/path.rs:11-23 | two paths have the same pointer only if they are equal, so a recorded pointer names one tree position |
| JsonValues.AtPut | crates/dugite-config/src/config.rs:150-183 | after a pointer write the position holds the written value |
| JsonValues.AtPutFrame | crates/dugite-config/src/config.rs:150-183 | a pointer write is invisible at every position that does not overlap it, objects and array slots alike |
| Schema.BuildObjectDefault | crates/dugite-config/src/schema.rs:208-216 | the map-filling loop yields, per declared key, the recursive default, and omits keys without one |
| Schema.BuildDefault | crates/dugite-config/src/schema.rs:186-203 | the default of one parameter, recursing through nested objects |
| Schema.DefaultAnswers | crates/dugite-config/src/schema.rs:208-216 | the default object answers each key with that field's own default and nothing else |
| Hydration.HydrateObject | crates/dugite-config/src/config.rs:259-301 | the in-place walk with path stack computes the hydrated value and adds exactly the inserted pointers |
| Hydration.PruneSyntheticDefaults | crates/dugite-config/src/config.rs:314-359 | the in-place walk computes the pruned value, including the cascade over emptied parents |
| Hydration.HydrateUndoesPrune | crates/dugite-config/src/config.rs:259-359 | pruning a hydrated value with any synthetic set is undone by hydrating again |
| Hydration.HydrateIdempotent | crates/dugite-config/src/config.rs:259-301 | a second hydration changes nothing and records nothing |
| Hydration.HydrateEmptyIsDefault | crates/dugite-config/src/config.rs:272-300 | hydrating an empty object gives the schema's own default object |
| Hydration.InsertedExactly | crates/dugite-config/src/config.rs:272-300 | a position's pointer is recorded if and only if hydration filled that position |
| Hydration.PruneUndoesHydrate | crates/dugite-config/src/config.rs:259-359 | pruning with the recorded set gives back the original value, up to `null` becoming `{}` in object slots |
| Hydration.PromoteIdentity | crates/dugite-config/src/config.rs:265-271 | that `null` promotion is the identity if and only if no object slot holds `null` |
| Hydration.PrunedHasNoNullSlot | crates/dugite-config/src/config.rs:314-359 | no pruned form of a hydrated value holds `null` in an object slot |
| Hydration.PutKeepsHydrated | crates/dugite-config/src/config.rs:150-230 | replacing any existing position by a scalar keeps every schema slot filled |
| Hydration.PruneKeepsUnrecorded | crates/dugite-config/src/config.rs:324-358 | a scalar whose pointer is not recorded survives pruning with its value, and so do all its ancestors |
| Edits.TypedOverBool | crates/dugite-config/src/config.rs:86-110 | over a boolean the text `true` stores true, `false` stores false, and any other text is refused |
| Edits.TypedOverNumber | crates/dugite-config/src/config.rs:86-110 | over a number the parsed integer is stored, otherwise the parsed finite float, otherwise the text is refused |
| Edits.TypedOverOther | crates/dugite-config/src/config.rs:86-110 | over anything else the text itself is stored |
| Edits.EditKeepsOthers | crates/dugite-config/src/config.rs:150-230 | no edit changes a position that does not overlap the edited one |
| Edits.EditStores | crates/dugite-config/src/config.rs:150-230 | an accepted edit marks the entry, stores its value at the position and takes the position out of the synthetic set |
| Edits.ToggleTwice | crates/dugite-config/src/config.rs:186-204 | a toggle stores the other boolean, and a second one gives back the value |
| Edits.CycleEnters | crates/dugite-config/src/config.rs:207-230 | cycling from a value that is none of the choices leads to the first |
| Edits.CycleReaches | crates/dugite-config/src/config.rs:207-230 | cycling k times from a choice leads k places further round |
| Edits.CycleVisitsEachOnce | crates/dugite-config/src/config.rs:207-230 | cycling as often as there are distinct choices visits each exactly once and returns |
| ConfigSession.LookupInject | crates/dugite-config/src/config.rs:398-435 | per key, injection hydrates the present entry or adds the schema default, and adds nothing else |
| ConfigSession.SavedAnswers | crates/dugite-config/src/config.rs:499-530 | per key, the saved object holds exactly what its entry emits |
| ConfigSession.InjectReady | crates/dugite-config/src/config.rs:398-435 | after load and injection every object is hydrated and no default is missing |
| ConfigSession.InjectIdempotent | crates/dugite-config/src/config.rs:398-435 | injecting into such a session changes nothing |
| ConfigSession.RunReady | crates/dugite-config/src/config.rs:150-230 | every run of edits, saves and re-injections keeps that state |
| ConfigSession.SessionSurvivesReload | crates/dugite-config/src/config.rs:449-530 | load, inject, any run, save, reload, inject: every key has the value the user saw |
| ConfigSession.UntouchedSaveIsMinimal | crates/dugite-config/src/config.rs:499-530 | load, inject, save writes the file's object, up to `null` becoming `{}` in object slots |
| ConfigSession.UntouchedSaveIsIdentity | crates/dugite-config/src/config.rs:499-530 | the untouched file comes back identical if and only if no object slot holds `null` |
| ConfigSession.SavedFileIsStable | crates/dugite-config/src/config.rs:493-530 | opening and saving a saved file writes the same object |
| ConfigSession.SyntheticKeySavedIffChanged | crates/dugite-config/src/config.rs:509-528 | a key the file never had is written if and only if its value differs from the default |
| ConfigSession.EditSurvivesEverySave | crates/dugite-config/src/config.rs:150-230 | an edited position of a present entry is written by every later save with the edited value, even at the schema default, until an edit overlaps it |
| LoadedConfigs.ConfigEntry.ApplyEditAt | crates/dugite-config/src/config.rs:150-183 | after a typed edit: what a boolean, a number and any other position holds, which texts are refused, everything else unchanged, and all of it unchanged on refusal |
| LoadedConfigs.ConfigEntry.ToggleBoolAt | crates/dugite-config/src/config.rs:186-204 | accepted if and only if the position holds a boolean, which becomes the other one; unchanged otherwise |
| LoadedConfigs.ConfigEntry.CycleEnumAt | crates/dugite-config/src/config.rs:207-230 | the entry after cycling, and unchanged for no choices or a missing position |
| LoadedConfigs.LoadedConfig.constructor | crates/dugite-config/src/config.rs:449-478 | entries of the file object in its iteration order, unmodified and present |
| LoadedConfigs.LoadedConfig.InjectSchemaDefaults | crates/dugite-config/src/config.rs:398-435 | both passes of injection over the entry objects, keeping the old objects in place |
| LoadedConfigs.LoadedConfig.BuildSavedObject | crates/dugite-config/src/config.rs:499-530 | the rebuilt object, without changing the entries |
| LoadedConfigs.LoadedConfig.SaveConfig | crates/dugite-config/src/config.rs:493-563 | the written object, with all entries marked clean and values kept |
| LoadedConfigs.LoadedConfig.MarkAllClean | crates/dugite-config/src/config.rs:384-388 | clears every modified flag and nothing else |
| ObjectDiff.WalkObjectDiff | crates/dugite-config/src/diff.rs:135-211 | the recursive walk with its path stack appends the lines of the report over all positions, which the `DiffLines` rows characterise |
| ObjectDiff.PositionsDistinct | crates/dugite-config/src/diff.rs:135-211 | no position is reported twice |
| ObjectDiff.DiffEmptyIffSameView | crates/dugite-config/src/diff.rs:135-211 | the diff is empty if and only if both values look the same through the schema, for all pairs of values |
| ObjectDiff.DiffEmptyIffEqual | crates/dugite-config/src/diff.rs:135-211 | between two hydrated values whose object slots hold objects, it is empty if and only if they are equal |
| ObjectDiff.VisibleIsEverything | crates/dugite-config/src/diff.rs:143-160 | on such a value the diff sees every member |
| ObjectDiff.ReplacedObjectIsSilent | crates/dugite-config/src/diff.rs:143-160 | for any schema, turning an object slot into anything else is unreported if and only if the object shows no leaf and no unknown key at any depth |
| ObjectDiff.LostLeafIsReported | crates/dugite-config/src/diff.rs:143-176 | an empty object shows nothing, an object that holds a schema leaf does |
| DiffLines.PositionListed | crates/dugite-config/src/diff.rs:135-211 | the compared positions are exactly the declared scalars below declared objects, and the members of either value that their object does not declare |
| DiffLines.EveryLineTells | crates/dugite-config/src/diff.rs:135-224 | every line stands for such a position whose two values differ, with the dotted key, the loaded value on the left and the present one on the right, `(unset)` for an absent or null one |
| DiffLines.EveryChangeHasLine | crates/dugite-config/src/diff.rs:135-224 | every such position whose values differ has such a line |
| DiffLines.ChangeHasOneLine | crates/dugite-config/src/diff.rs:135-211 | without dots and the unknown mark in names, no other line has its key |
| DiffLines.ChangedText | crates/dugite-config/src/diff.rs:135-224 | so a text x changed to y has exactly one line, showing x and then y |
| DiffLines.DottedIsJoined | crates/dugite-config/src/diff.rs:164-167 | the dotted key is the names from the top key down, joined by dots |
| DiffLines.KeyTextInjective | crates/dugite-config/src/diff.rs:164-204 | without dots and the unknown mark in names, equal keys mean equal positions |
| DiffLines.SharedKeys | crates/dugite-config/src/diff.rs:164-204 | with them two positions can have the same key |
| DiffBaseline.HydrateKeeps | crates/dugite-config/src/app.rs:172-178 | hydration keeps the value at every reportable position that has one |
| DiffBaseline.ReportedIff | crates/dugite-config/src/app.rs:172-178 | against the file as loaded, a position that hydration filled is reported while it holds a value, any other if and only if it was edited |
| DiffBaseline.UneditedIsSilentIff | crates/dugite-config/src/app.rs:172-178 | an entry that was not edited compares empty if and only if no leaf with a default was missing |
| DiffBaseline.OnlyEditsShow | crates/dugite-config/src/app.rs:172-178 | in that case exactly the edited positions are reported, for every edited value |
| DiffBaseline.DiffEmptyIffUntouched | crates/dugite-config/src/diff.rs:101-130 | against the file as loaded, the diff of a hydrated entry is empty if and only if nothing was left to fill and the entry is what hydration made of the file |
| RowTree.WalkObjectRows | crates/dugite-config/src/app.rs:838-903 | the recursive walk appends the rows of an object below a path, which the `RowPaths` rows characterise |
| RowTree.ShownIsOpenWalk | crates/dugite-config/src/app.rs:838-903 | hiding rows below closed containers equals the recursive walk that only opens open ones |
| RowTree.EntryAncestors | crates/dugite-config/src/app.rs:838-903 | every proper prefix of a row's path is a container row of the same entry |
| RowTree.EntryDistinct | crates/dugite-config/src/app.rs:838-903 | no two rows of an entry address the same position |
| RowTree.WalkEntryRows | crates/dugite-config/src/app.rs:776-805 | appends the top-level row of an entry and the rows below it |
| RowPaths.EntryRowIff | crates/dugite-config/src/app.rs:838-903 | a path has a row if and only if it is the entry itself, or is reached through declared objects that hold objects and ends in a declared field or a member; the row is a container if and only if the schema declares an object there |
| RowPaths.EntryInOrder | crates/dugite-config/src/app.rs:838-903 | parents come before what is below them, declared fields in schema order, then other keys in increasing order |
| RowPaths.PlainEntryRow | crates/dugite-config/src/app.rs:776-805 | an entry without an object schema has one row and no container |
| OpenWalk.VisibleIffAllOpen | crates/dugite-config/src/app.rs:208-234 | a row is visible if and only if every container above it in its own entry is open |
| OpenWalk.VisibleRowsAreOpenWalk | crates/dugite-config/src/app.rs:763-805 | the visible rows of a section are the rows of the recursive walk of its entries that opens only open containers |
| OpenWalk.SectionDistinct | crates/dugite-config/src/app.rs:763-805 | rows of a section built from different entries are distinct, so that flipping one row flips one position |
| OpenWalk.ItemsFromOpen | crates/dugite-config/src/app.rs:346-366 | the items of a section are its rows together with the set of open positions |
| OpenWalk.PositionsAre | crates/dugite-config/src/app.rs:208-318 | the listed positions are exactly the legal ones, in cursor order |
| OpenWalk.PositionsAreWalked | crates/dugite-config/src/app.rs:763-903 | the legal positions, in order, show the walk that opens only expanded sections and containers, and one header for each collapsed section |
| OpenWalk.NextIsUnique | crates/dugite-config/src/app.rs:283-318 | there is at most one next row |
| OpenWalk.NextIsInjective | crates/dugite-config/src/app.rs:237-280 | no two legal rows have the same next row |
| OpenWalk.NextIsStep | crates/dugite-config/src/app.rs:237-318 | the next legal row is the next place of the walk |
| Navigation.BuildSection | crates/dugite-config/src/app.rs:768-805 | the rows of the entries in order, the section expanded and all containers closed |
| Navigation.App.constructor | crates/dugite-config/src/app.rs:172-198 | sections built from their entries, with the cursor on the first row, which is legal |
| Navigation.App.IsVisible | crates/dugite-config/src/app.rs:208-234 | the double loop finds whether some closed ancestor container hides the row |
| Navigation.App.CursorDown | crates/dugite-config/src/app.rs:283-318 | steps to the next place of the open walk, or stays at its end or while typing |
| Navigation.App.CursorUp | crates/dugite-config/src/app.rs:237-280 | steps to the previous place of the open walk, or stays at its start or while typing |
| Navigation.App.ToggleSection | crates/dugite-config/src/app.rs:325-335 | flips the section and leaves the cursor on its first row, which is legal |
| Navigation.App.ToggleContainer | crates/dugite-config/src/app.rs:346-366 | flips the container under the cursor, which stays visible, and nothing else |
| Navigation.App.Run | crates/dugite-config/src/app.rs:237-366 | after every run of moves and toggles the legal positions, in order, are the walk of the open part of the tree, and the cursor rests on one of them |
| Navigation.App.DownThenUp | crates/dugite-config/src/app.rs:237-318 | away from the last row, up undoes down |
| Navigation.App.UpThenDown | crates/dugite-config/src/app.rs:237-318 | away from the first row, down undoes up |
| ChainFragments.RollbackOnChain | crates/dugite-consensus/src/chain_fragment.rs:192-230 | rollback succeeds if and only if the point is contained, and cuts at its unique position on the chain |
| ChainFragments.AdvanceOnChain | crates/dugite-consensus/src/chain_fragment.rs:239-261 | deciding by slot removes exactly the blocks up to a contained point |
| ChainFragments.AdvanceKeepsWindowIffContained | crates/dugite-consensus/src/chain_fragment.rs:239-261 | an advance leaves a window of the same chain if and only if its point is contained |
| ChainFragments.AdvanceToOriginLeavesChain | crates/dugite-consensus/src/chain_fragment.rs:239-261 | advancing a block anchor to Origin never does |
| ChainFragments.ApplyExtend | crates/dugite-consensus/src/chain_fragment.rs:178-180 | a valid push keeps the invariants and appends to the full chain |
| ChainFragments.ApplyRollTo | crates/dugite-consensus/src/chain_fragment.rs:192-230 | a rollback reaches its point or changes nothing, and never touches the immutable part |
| ChainFragments.ApplyAnchorTo | crates/dugite-consensus/src/chain_fragment.rs:239-261 | an anchor advance keeps the full chain and only moves the border |
| ChainFragments.RunSafe | crates/dugite-consensus/src/chain_fragment.rs:42-52 | every run of valid pushes, rollbacks to any point and advances to contained points keeps linking and strict order, and the immutable prefix only grows |
| ChainFragments.RollbackBehindAnchorFails | crates/dugite-consensus/src/chain_fragment.rs:192-230 | after any run, a rollback to a point behind a once immutable block fails and changes nothing |
| ChainFragments.AdvanceRollbackCommute | crates/dugite-consensus/src/chain_fragment.rs:192-261 | advance and rollback commute if and only if the new anchor is not after the rollback point |
| ChainFragments.PopThenAdvance | crates/dugite-consensus/src/chain_fragment.rs:151-165 | taking the oldest header out and advancing to it equals the advance alone |
| ChainFragments.TrimKeepsLastK | crates/dugite-consensus/src/chain_fragment.rs:151-165 | advancing to the oldest header while more than k remain keeps the chain and exactly its last k blocks volatile |
| ChainFragments.TrimmedRollbackReaches | crates/dugite-consensus/src/chain_fragment.rs:192-230 | a rollback by at most k blocks still reaches its point after trimming |
| ChainFragments.NodeRunBuried | crates/dugite-consensus/src/chain_fragment.rs:149-261 | over every run that trims after each step, nothing within k of the highest tip ever reached becomes immutable |
| ChainFragments.ChainFragment.GetTip | crates/dugite-consensus/src/chain_fragment.rs:105-110 | the last header's point, or the anchor |
| ChainFragments.ChainFragment.PushHeader | crates/dugite-consensus/src/chain_fragment.rs:178-180 | appends the header |
| ChainFragments.ChainFragment.PopOldest | crates/dugite-consensus/src/chain_fragment.rs:163-165 | the removed header in front of the remaining ones is the old list |
| ChainFragments.ChainFragment.RollbackTo | crates/dugite-consensus/src/chain_fragment.rs:192-230 | the backward search truncates at the last matching header, or fails with the state unchanged |
| ChainFragments.ChainFragment.AdvanceAnchor | crates/dugite-consensus/src/chain_fragment.rs:239-261 | the popping loop removes exactly the headers due and reports their number |
| ChainFragments.ChainFragment.ContainsPoint | crates/dugite-consensus/src/chain_fragment.rs:291-302 | true if and only if the point is the anchor or a header's point |
| ChainFragments.ChainFragment.FindIntersect | crates/dugite-consensus/src/chain_fragment.rs:280-287 | the first contained point of the list, or none if there is none |
| Digests.DigestOfMap | scripts/validation/diff-cstreamer-dumps.py:192-233 | the hashing loop yields the count, the text of the sorted entries, and the sum only if every value is an integer |
| Digests.SumRemove | scripts/validation/diff-cstreamer-dumps.py:210-232 | the recorded sum is the sum: taking any key out takes out exactly its value |
| Digests.DigestUnambiguous | scripts/validation/diff-cstreamer-dumps.py:192-233 | with no `:` in keys and no `;` in rendered values, equal digests if and only if equal keys and equal rendered values |
| Digests.IntDigestDetectsEveryDifference | scripts/validation/diff-cstreamer-dumps.py:192-233 | integer maps in which no key holds `:`, or none holds `;`, have equal records if and only if they are equal |
| Digests.BareDigestUnambiguous | scripts/validation/diff-cstreamer-dumps.py:192-233 | with no separator in the keys and rendered values of one map, equal records if and only if equal keys, equal rendered values and a sum on both sides or none, for any other map |
| Digests.KeyColonAmbiguous | scripts/validation/diff-cstreamer-dumps.py:192-233 | unequal one-entry maps with equal records: a `:` in the key of one is in the value of the other |
| Digests.DigestAmbiguous | scripts/validation/diff-cstreamer-dumps.py:192-233 | a family of unequal maps with equal records once a value holds both separators |
| NodeDigests.NodeDigestOfMap | crates/dugite-node/src/main.rs:1394-1441 | the hashing loop with its checked 128-bit accumulator yields the count, the text of the sorted entries, and the sum exactly if all values are natural numbers with a total below 2^64 |
| NodeDigests.RecordsMatchIff | crates/dugite-node/src/main.rs:1376-1394 | for maps of integers and strings the node and the comparator write the same record if and only if the map holds a string or such a sum exists |
| NodeDigests.NodeRecordCompares | crates/dugite-node/src/main.rs:1376-1394 | the two records compare clean if and only if that holds or the key is outside its era |
| NodeDigests.NegativeTellsApart | crates/dugite-node/src/main.rs:1406-1411 | one negative amount makes the records differ |
| NodeDigests.BooleanTellsApart | crates/dugite-node/src/main.rs:1417-1420 | so does a boolean |
| CanonTexts.MapLinesInjective | scripts/validation/diff-cstreamer-dumps.py:187-295 | the text hashed for a large map determines the map |
| CanonTexts.BagLinesIff | scripts/validation/diff-cstreamer-dumps.py:301-310 | the texts hashed for two long lists are equal if and only if the lists are permutations of each other |
| SummaryShapes.DigestedMap | scripts/validation/diff-cstreamer-dumps.py:242-274 | maps of numbers and strings under `stake` and `delegations` become digest records, whatever their size |
| SummaryShapes.KeptMap | scripts/validation/diff-cstreamer-dumps.py:276-299 | other maps of at most 500 keys keep every entry but `stakePercent`, summarised |
| SummaryShapes.HashedMap | scripts/validation/diff-cstreamer-dumps.py:276-299 | larger ones become a record of their size, a hash, and their total if and only if they hold only numbers |
| SummaryShapes.ListShape | scripts/validation/diff-cstreamer-dumps.py:300-312 | lists of at most 500 elements are kept element by element, longer ones become a record of their length and a hash |
| Relays.TagIff | scripts/validation/diff-cstreamer-dumps.py:345-353 | a text has the tag of a variant if and only if it is one of its names, in any case and with white space around it |
| Relays.SpelledRelaysIff | scripts/validation/diff-cstreamer-dumps.py:356-391 | two relays, each written flat or wrapped, in any case and with white space, have equal summaries if and only if their variants are equal and their fields are up to the case of names |
| Relays.CoveredTagsIff | scripts/validation/diff-cstreamer-dumps.py:375-391 | the exact condition when a field is called like the tag, which it then covers |
| Relays.VariantsAreReported | scripts/validation/diff-cstreamer-dumps.py:375-391 | relays of different variants are never compared as equal, under keys of the era and outside it |
| Relays.RelayIff | scripts/validation/diff-cstreamer-dumps.py:375-391 | a map is taken for a relay if and only if it is a wrapper named after a variant, or has a `type` naming one and another key |
| Relays.TaggedIff | scripts/validation/diff-cstreamer-dumps.py:375-391 | the summary puts a tag on exactly those maps |
| Relays.BareFlatRelay | scripts/validation/diff-cstreamer-dumps.py:379-386 | a flat relay without fields keeps its `type` and gets no tag |
| Summaries.ReduceObj | scripts/validation/reduce-cstreamer-dumps.py:59-79 | the walk replaces exactly the raw digestable maps and reports whether there was one |
| Summaries.UntouchedIffFixed | scripts/validation/reduce-cstreamer-dumps.py:59-79 | reduction leaves a tree unchanged if and only if it holds no raw digestable map |
| SummaryShapes.ReducedEntry | scripts/validation/reduce-cstreamer-dumps.py:59-79 | an entry is replaced if and only if it is a non-empty raw map of numbers and strings under `stake` or `delegations` |
| Summaries.ReduceInvisible | scripts/validation/reduce-cstreamer-dumps.py:59-79 | reducing a safe tree, of any size, does not change its summary |
| Reductions.SummaryShrinks | scripts/validation/diff-cstreamer-dumps.py:242-312 | reduction never raises the number of non-record dictionaries a summary shows, through hashes and bags, and keeps it only if the tree is safe |
| Reductions.ReductionInvisibleIffSafe | scripts/validation/reduce-cstreamer-dumps.py:59-79 | for every tree whose summary does not raise an error, reduction leaves the summary unchanged if and only if the tree is safe |
| Reductions.RelayShapedStakeShows | scripts/validation/diff-cstreamer-dumps.py:375-391 | a stake map that spells a relay is summarised differently once reduced |
| SummaryParts.ImageOf | scripts/validation/diff-cstreamer-dumps.py:242-312 | a summary is determined by the raw parts it is made of: scalar, items, fields, digested map, large map or long list |
| SummaryFidelity.SameIff | scripts/validation/diff-cstreamer-dumps.py:242-312 | two raw values have equal summaries, as hashed or as a leaf compares them, if and only if they agree entry by entry, up to relay spelling, number types, the excluded key, the order of long lists and the type of digested values next to a string |
| SummaryVerdicts.AgreeIff | scripts/validation/diff-cstreamer-dumps.py:440-511 | the walk over two summaries finds nothing if and only if the raw values agree, under keys of the era and outside it |
| SummaryVerdicts.VerdictIffAgree | scripts/validation/diff-cstreamer-dumps.py:514-520 | comparing the summaries of two raw dumps is clean if and only if the dumps agree, defined without hashing |
| SummaryVerdicts.CountersDecide | scripts/validation/diff-cstreamer-dumps.py:514-549 | the same of the reported counters, for the era the tool picks |
| SummaryVerdicts.OracleEraDecides | scripts/validation/diff-cstreamer-dumps.py:514-520 | so they decide agreement under the era that the oracle names, or the other dump where the oracle names none, or Shelley |
| SummaryVerdicts.ReducedVerdict | scripts/validation/reduce-cstreamer-dumps.py:59-79 | the same when either dump, or both, were reduced on disk first, if reduction is safe for them |
| DirectVerdicts.ToldIff | scripts/validation/diff-cstreamer-dumps.py:242-511 | on values of a checkable shape the walk over summaries and the walk over the values agree, at every level of hashing |
| DirectVerdicts.SummariesDecide | scripts/validation/diff-cstreamer-dumps.py:514-549 | on dumps of that shape comparing the summaries is clean if and only if comparing the dumps is |
| DirectVerdicts.LongListsPart | scripts/validation/diff-cstreamer-dumps.py:301-310 | for long lists of scalars the summaries agree if and only if one is the other reordered, the lists if and only if they are equal in order |
| DirectVerdicts.FlatMapsPart | scripts/validation/diff-cstreamer-dumps.py:192-274 | for digested maps the summaries agree if and only if the rendered values do and both or neither are all integers, the maps if and only if they are equal |
| DirectVerdicts.FlatTypeHidden | scripts/validation/diff-cstreamer-dumps.py:192-274 | every amount and its spelling as text are such a pair |
| DirectVerdicts.LargeMapsPart | scripts/validation/diff-cstreamer-dumps.py:276-298 | for one changed entry of a large map the summaries agree if and only if the entry is the same to a hash, the maps if and only if its key is excluded or the walk finds the entry equal |
| DirectVerdicts.BooleanInHash | scripts/validation/diff-cstreamer-dumps.py:165-190 | `true` against `1` is equal to the walk and different to a hash |
| DirectVerdicts.RationalInHash | scripts/validation/diff-cstreamer-dumps.py:394-411 | so is every rational against itself with both terms multiplied |
| DirectVerdicts.PoolOrderInHash | scripts/validation/diff-cstreamer-dumps.py:488-503 | and so are two pools in the two orders |
| DirectVerdicts.HashHidesOutsideEra | scripts/validation/diff-cstreamer-dumps.py:440-487 | outside the era a large map against a small one: the summaries agree although the maps hold a difference |
| Comparisons.WalkCleanIffAlike | scripts/validation/diff-cstreamer-dumps.py:440-511 | under any key the walk records no difference, no absence and no error if and only if the trees agree, where keys outside the era excuse missing parts |
| Comparisons.AlikeIffSameForm | scripts/validation/diff-cstreamer-dumps.py:440-511 | under an applicable key, agreement is equality of normal forms |
| Comparisons.WalkCleanIffSameForm | scripts/validation/diff-cstreamer-dumps.py:440-511 | under an applicable key the walk records no difference and no absence if and only if both trees have the same normal form |
| Comparisons.SelfComparison | scripts/validation/diff-cstreamer-dumps.py:440-511 | under any key a tree compared with itself is clean, and under an applicable one every leaf is counted exactly once |
| Comparisons.PoolListsUpToOrder | scripts/validation/diff-cstreamer-dumps.py:488-511 | pool lists with unique ids agree if and only if each pool has a partner with the same id and form, in any order |
| Comparisons.RationalsCompareByValue | scripts/validation/diff-cstreamer-dumps.py:394-411 | rationals with positive denominators, booleans counting as 1 and 0, agree if and only if their cross products do |
| Comparisons.EpochCleanIffAgree | scripts/validation/diff-cstreamer-dumps.py:514-520 | in any era an epoch compares clean if and only if the dumps agree key by key, each key under its own applicability |
| Comparisons.EpochCleanIffSameForms | scripts/validation/diff-cstreamer-dumps.py:514-520 | if every key belongs to the era, if and only if both dumps have the same fields with the same normal forms |
| Comparisons.SilentOutsideEra | scripts/validation/diff-cstreamer-dumps.py:457-469 | content under a key outside its era, present in one dump only, leaves no observation |
| Comparisons.EraIsDecided | scripts/validation/diff-cstreamer-dumps.py:515-518 | the era is the text the oracle names, otherwise the text of the other dump, otherwise Shelley |
| Comparisons.OneSidedKeyIsFound | scripts/validation/diff-cstreamer-dumps.py:460-520 | a key of that era that only one dump holds is recorded as absent from the other, whatever else the dumps hold |
| Eras.ByronKeys | scripts/validation/diff-cstreamer-dumps.py:88-96 | the five Byron keys apply in Byron only |
| Eras.ShelleyKeys | scripts/validation/diff-cstreamer-dumps.py:104-122 | the fifteen listed keys apply from Shelley to Dijkstra |
| Eras.GatedKeys | scripts/validation/diff-cstreamer-dumps.py:125-143 | first and last era, by name, of governance, instantaneous rewards, the epoch nonce and the era parameters |
| Eras.OtherKeys | scripts/validation/diff-cstreamer-dumps.py:125-144 | every other key applies in every era, known or not |
| PathShapes.CollapsePath | scripts/validation/diff-cstreamer-dumps.py:414-433 | the scanning loop leaves out what is between brackets |
| PathShapes.CollapseSuffix | scripts/validation/diff-cstreamer-dumps.py:414-490 | a suffix without brackets, such as `.<length>`, is kept behind any path |
| Observations.KeyIsShape | scripts/validation/diff-cstreamer-dumps.py:414-433 | the counter key of any position with plain names is its path with indices and pool ids left out, so positions of one shape share a counter |
| Observations.WalkObserved | scripts/validation/diff-cstreamer-dumps.py:440-511 | the walk records an observation if and only if some position it gets to says so: match, the two values in order, the lengths, or the side that lacks it |
| Observations.ComparisonObserved | scripts/validation/diff-cstreamer-dumps.py:514-520 | the same of a whole epoch, over all top-level keys |
| Comparisons.CountersAre | scripts/validation/diff-cstreamer-dumps.py:315-327 | from empty counters, each holds exactly the observations of its kind under each shape, differences and absences in order |
| Observations.DiffsRecorded | scripts/validation/diff-cstreamer-dumps.py:315-520 | a pair of values is kept under a shape if and only if some compared position of that shape holds them, in that order, and they differ |
| Observations.AbsencesRecorded | scripts/validation/diff-cstreamer-dumps.py:315-520 | an absence is kept if and only if exactly the named side lacks a position of the era |
| Comparisons.CleanIffNoFindings | scripts/validation/diff-cstreamer-dumps.py:315-327 | the difference and absence counters and the error flag are unchanged if and only if the observations were clean |
| Comparisons.NoFindingsIffAgree | scripts/validation/diff-cstreamer-dumps.py:514-520 | so the counters of an epoch decide agreement of the compared trees, both ways |
| Comparisons.Result.CompareDumps | scripts/validation/diff-cstreamer-dumps.py:514-520 | one epoch on the counters: it adds exactly the observations; no finding if and only if the trees agree under the era that the oracle, the other dump or the default decides; a finding for every one-sided key of that era |
| Comparisons.Result.WalkTrees | scripts/validation/diff-cstreamer-dumps.py:440-511 | the recursive walk on the counters adds exactly the observations of the reference walk, up to the first error |
| Rationals.ComputeGcd | fuzz/src/lib.rs:845-853 | the loop computes the gcd |
| Rationals.GcdDivides | fuzz/src/lib.rs:845-853 | it divides both numbers |
| Rationals.GcdGreatest | fuzz/src/lib.rs:845-853 | every common divisor divides it |
| Rationals.LowestCoprime | scripts/validation/diff-cstreamer-dumps.py:401-405 | the normalised pair has no common factor |
| Rationals.LowestIffCrossEqual | scripts/validation/diff-cstreamer-dumps.py:401-405 | for positive denominators the normal forms are equal if and only if n1*d2 = n2*d1 |
| Rationals.LowestIffCrossEqualAndSameSign | scripts/validation/diff-cstreamer-dumps.py:401-405 | for any non-zero denominators, if and only if the values are equal and the denominators have the same sign |
| Rationals.ReducedRational | fuzz/src/lib.rs:237-250 | the generated pair is in lowest terms, of equal value, with a non-zero denominator |
| Cbor.PairsThenBreak | fuzz/fuzz_targets/structured_pparam_update.rs:268-281 | n pairs fill the input if and only if the same pairs are closed by a break byte (sections 3.2.1 and 3.2.2 of RFC 8949) |
| Cbor.BreakStartsNoItem | fuzz/fuzz_targets/structured_pparam_update.rs:268-281 | no well-formed item starts with the break byte |
| Cbor.ToIndefiniteMap | fuzz/fuzz_targets/structured_pparam_update.rs:268-281 | the rewrite for all five header widths, refused for any other first byte |
| Cbor.RewritePreservesPairs | fuzz/fuzz_targets/structured_pparam_update.rs:268-281 | a definite map decodes to a pair sequence if and only if its rewrite does and the header announced its length |
| Cbor.EncodeUintRoundTrip | fuzz/fuzz_targets/structured_pparam_update.rs:249-261 | the encoding decodes to the number if and only if it is below 2^32 |
| Cbor.EncodeUintWraps | fuzz/fuzz_targets/structured_pparam_update.rs:249-261 | 2^32 is encoded as 0 |
| Cbor.EncodeUintShortest | fuzz/fuzz_targets/structured_pparam_update.rs:249-261 | no encoding of the same number is shorter |
| Cbor.SingleEntryMap | fuzz/fuzz_targets/structured_pparam_update.rs:242-247 | the built map decodes to its one entry if and only if the key is below 2^32, and its rewrite decodes alike |
| CborItems.ItemReads | fuzz/fuzz_targets/structured_pparam_update.rs:232-281 | the decoder that these rows rely on reads back every data item written with shortest heads (section 4.2.1 of RFC 8949) and leaves what follows |
| CborItems.RewrittenMapDecodes | fuzz/fuzz_targets/structured_pparam_update.rs:268-281 | every map of any items, written with definite length, is rewritten to an encoding of the same map |
| CborItems.IllFormed | fuzz/fuzz_targets/structured_pparam_update.rs:268-281 | reserved heads, misplaced breaks and overlong simple values are refused (sections 3 and 3.3 of RFC 8949) |
| TxNormal.SameNormIffSimilar | fuzz/src/lib.rs:1565-1728 | two transactions normalise alike if and only if they differ only in wire caches and unobservable order; certificates and proposals keep theirs |
| TxNormal.NormIdempotentIff | fuzz/src/lib.rs:1565-1728 | normalising is idempotent if and only if the era is not Dijkstra or no key guard is repeated |
| TxNormal.NormIsSimilar | fuzz/src/lib.rs:1565-1728 | under the same condition the normal form stands for its transaction |
| TxNormal.NormStableAfterTwo | fuzz/src/lib.rs:1565-1728 | a second application always reaches a fixed point |
| TxNormal.RepeatedKeyIsNotStable | fuzz/src/lib.rs:1683-1707 | one key guard written twice is not a fixed point after one application |
| TxNormal.SignerCount | fuzz/src/lib.rs:1683-1696 | the derived signer view holds each padded key hash once per key guard and nothing else |
| TxNormal.GuardsOfSigners | fuzz/src/lib.rs:1671-1695 | the guard view of padded key hashes is those key hashes, in order |
| TxNormal.SignersOfGuards | fuzz/src/lib.rs:1671-1695 | padded signers survive the way through the guard view |
| TxNormal.InputOrderByEra | fuzz/src/lib.rs:1654-1660 | two lists of inputs normalise alike if and only if, from Conway on, one is the other reordered, and before, they are equal |
| TxNormal.RedeemersInTurn | fuzz/src/lib.rs:1642-1744 | redeemers come by purpose from Spend to Guarding and by index, in every era for the transaction, from Conway on for sub-transactions |
| TxNormal.RedeemersTieByPointer | fuzz/src/lib.rs:1734-1744 | two redeemers tie exactly when tag and index agree, so stable sorting decides only between different pointers |
| TxNormal.Transaction.CanonicaliseKey14 | fuzz/src/lib.rs:1661-1707 | the two in-memory views of body key 14 after sorting, projecting and removing repeats |
| TxNormal.Transaction.CanonicaliseSetOrder | fuzz/src/lib.rs:1633-1728 | redeemers and datums sorted in every era, set-typed fields and sub-transactions only from Conway on |
| TxNormal.Transaction.NormaliseForComparison | fuzz/src/lib.rs:1565-1606 | the in-place steps compute the normal form and change nothing else |
| Sorting.SortEqualIffClasses | fuzz/src/lib.rs:1645-1653 | stable sorting forgets exactly the order between keys: two lists sort alike if and only if each key selects the same subsequence |
| Sorting.SortEqualIffSameBag | fuzz/src/lib.rs:1658-1661 | under a total order two lists sort alike if and only if they are permutations of each other |
| Sorting.SortDedupIffSameSet | fuzz/src/lib.rs:1701-1707 | sorting and removing repeats keeps the set of elements and nothing else |
| GridLayout.NeverOverlaps | scripts/monitoring/gen_dashboard.py:34-70 | over every run no two panels share a cell |
| GridLayout.WithinColumnsIff | scripts/monitoring/gen_dashboard.py:40-48 | a panel stays within the 24 columns if and only if it is no wider |
| GridLayout.BreakClearsEverything | scripts/monitoring/gen_dashboard.py:50-54 | after a row break the current line is at or below the bottom of every panel that covers a cell |
| GridLayout.SideBySide | scripts/monitoring/gen_dashboard.py:40-54 | after a break, panels that together fit the 24 columns share one line, side by side |
| GridLayout.NextLine | scripts/monitoring/gen_dashboard.py:40-54 | the first that does not fit starts the line below the tallest of them |
| GridLayout.HeaderLine | scripts/monitoring/gen_dashboard.py:60-63 | a row header is one line high, and the next panel starts on the line below it |
| GridLayout.Layout.PlacePanel | scripts/monitoring/gen_dashboard.py:40-48 | the returned position is the panel added to the grid, at the requested size |
| GridLayout.Layout.RowBreak | scripts/monitoring/gen_dashboard.py:50-54 | moves to a new row unless the current one is empty |
| GridLayout.Layout.AddRow | scripts/monitoring/gen_dashboard.py:60-63 | a full-width row of height one below the current row |
| JsonlSplit.Split | scripts/validation/split-haskell-jsonl.py:71-122 | the buffering loop: all records of the stream, or in strict mode those before the first untagged one, whose buffered run is lost |
| JsonlSplit.SplitHolds | scripts/validation/split-haskell-jsonl.py:109-121 | each file holds the newest record that ends its run, and exists only if there is one |
| JsonlSplit.BufferedHolds | scripts/validation/split-haskell-jsonl.py:109-119 | before the final flush each file holds the newest record followed by another epoch |
| JsonlSplit.DirectHolds | scripts/validation/split-haskell-jsonl.py:75-84 | the simple writer leaves in each file the newest record carrying its tag |
| JsonlSplit.BufferingIsDirectIff | scripts/validation/split-haskell-jsonl.py:71-121 | buffering leaves the files of the simple writer if and only if no epoch's newest record is directly followed by a `null` of the same epoch |
| JsonlSplit.BufferingIsDirectWithoutNulls | scripts/validation/split-haskell-jsonl.py:71-121 | so it does for every stream without `null` records, rollbacks included |
| JsonlSplit.NullLosesEpochZero | scripts/validation/split-haskell-jsonl.py:96-119 | a `null` record after the only record of epoch 0 loses it |
| JsonlSplit.OwnTag | scripts/validation/split-haskell-jsonl.py:95-108 | a tagged record goes to its own epoch |
| JsonlSplit.FirstFallback | scripts/validation/split-haskell-jsonl.py:95-108 | the first untagged record goes to epoch 0 |
| JsonlSplit.FallbackFalls | scripts/validation/split-haskell-jsonl.py:95-108 | each further one goes one epoch lower |
| JsonlSplit.FallbackMeetsNoEpoch | scripts/validation/split-haskell-jsonl.py:95-108 | so fallback tags are never positive and meet no positive tag |

## Left out

- File and terminal work: backups, temporary files and renames, signals, process discovery, the network selector, parsing and printing of JSON text.
- `KNOWN_PARAMS` and network defaults: data tables; the model assumes distinct keys and the schema shape, with scalar defaults already parsed.
- Search mode, text entry and status messages of the configuration editor; `sort_items_by_schema` and the grouping of entries into sections.
- `compute_diff` beyond the object walk, and the display formatting of values.
- Epoch-range bookkeeping, drilling and report printing of the dump comparator; the counters of one epoch leave out its number.
- Non-ASCII case folding and whitespace in relay names; floating-point rounding and non-finite numbers.
- Pool ids that are not strings: the model ends the walk with an error for every such list, where the code only does if the ids cannot be sorted together, and matches lists of integer ids normally.
- Collisions between the three texts that are hashed (flat map, large map, large list) and between a digest and an ordinary string: they are distinct values here.
- `Gen` apart from the rational generator, the duplicate-removing helpers of the generators, and all fuzz targets that only call the node's crates.
- The remaining accessors of the chain fragment (`length`, `is_empty`, `tip_block_no`, formatting).
- ChangeHasOneLine: asks that no name holds a dot or ends in the unknown mark, which is sufficient; SharedKeys gives the positions that can share a key otherwise.
- Panel contents of the dashboard; panel sizes are natural numbers.
- VerdictIffAgree: stated for dumps without ready-made digest records and reserved keys, and with no `:` in the keys and no `;` in the values of digested maps; ReducedVerdict covers dumps that reduction has digested.
- SummariesDecide: the shape it asks for is sufficient; each kind of value it shuts out has a lemma that gives both verdicts on it, except relays, whose spelling is meant to be ignored, and a small map that dropping `stakePercent` turns into a rational or into nothing.
