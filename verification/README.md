# Relational query pipeline

This project models the fail-closed relational query pipeline of the Pure
analyzer as a small query compiler and proves that it keeps meaning from end to
end: surface query, lowering, typed relational IR, bounded normalization,
equivalence key, three-valued comparison, canonical emission, text. Beside it
stand four smaller loops of the repository: the layout formatter, the
Rust-source scan, heading identifiers with link decoding, and the line index.

`dafny verify dfyconfig.toml` checks everything.

## How the model is laid out

- **Meaning.** `Semantics` gives every relational expression an ordered list of
  positional rows for every database; a database interprets class extents,
  member navigation, value equality, sort order and typing, and nothing is
  assumed of them. `SurfaceSemantics` gives surface queries a meaning of their
  own: names are resolved, each lambda binds its own parameters, columns are
  found by name. The results connect the two.
- **IR.** `Relational` holds the IR types and the validators, as the loops the
  crate runs; `Typing` proves the validators sound; `IterativeDrop` is the
  worklist drop.
- **Normalizer and keys.** `Normalization` holds the three guarded rewrites, the
  work and depth budgets and the `Normalizer` class; `Keys`, `Erasure` and
  `KeyEncoding` hold the key, its unique decoding and the `KeyEncoder` class;
  `Renaming` shows that column identities do not matter.
- **Comparison.** `Comparison` holds the three-valued verdict, its soundness,
  its honesty and its exact symmetry.
- **Lowering.** `Lowering` is the specification, step by step;
  `LoweringInvariant`, `LoweringMeaning` and `LoweredForms` prove what it keeps;
  `FailureOrigins` says where a refusal points; `QueryLowering` holds the
  `QueryLowerer` class with its column counter and failure origin.
- **Emission.** `Canonical` maps relations to surface queries, `Emission`
  proves meaning kept, `EmissionForm` the shape of binders and names,
  `Unambiguity` that texts determine queries, and `CanonicalEmitter` holds the
  `Emitter` class that builds the text.
- **Reader.** A recursive-descent reader of canonical text: words by longest
  run, reserved words, unsigned numbers, quoted labels, paths, steps and lambdas.
- **Replay.** `ReplayScalars`, `ReplaySteps` and `ReplayQuery` lower emitted
  queries again and prove what comes back, and exactly when; `ReplayText` does
  so through the reader; `Replay` holds the conditions.
- **Pipeline and RoundTrip.** The end-to-end theorems. `RoundTrip` compares a
  query with its canonical text, read back.
- **Origins and Sites.** When normal forms depend on where a query stands.
- **Layout, SourceScan, Markdown, Lines.** The four smaller loops; `Utf8` is the
  encoding link decoding ends with.

Key encoders and printers take the text that follows as a parameter, so that
splitting an encoding off the front of a longer text is the statement proved.

## What the code does and its documentation does not say

- The comment on `compose_navigation_multiplicity`
  (crates/pure-analyzer-analysis/src/relational.rs:1457-1460) says the result is
  absent only when two finite upper bounds overflow. The code also gives up
  when the lower bounds overflow. The model follows the code
  (`Typing.ComposeExactly`, `Typing.UnboundedCompositionCanBeAbsent`).
- The comment on `emit_canonical_normal_form`
  (crates/pure-analyzer-analysis/src/canonical.rs:97-103) says that whatever
  cannot be represented without changing the semantic normal form is refused.
  The code emits columns named by a property, joins over more than an extent
  and leftover true filters, whose text lowers to something else or to nothing.
  It also prints reserved words bare, because
  crates/pure-analyzer-analysis/src/canonical.rs:664-672 excludes only `true`
  and `false` while the lexer (crates/pure-analyzer-lexer/src/lib.rs:103-125)
  reserves `all`, `let`, `allVersions`, `allVersionsInRange` and `toBytes` too,
  and prints negative literals, which are read as a sign and a number and are
  refused. The model follows the code (`RoundTrip.CanonicalFormIsEquivalentExactly`,
  `ReplayText.ReplayKeepsKeyExactly`).

## Where a tempting statement is false

- Normal forms are not independent of origins: `Pipeline.NormalizationSeesOrigins`
  gives a query, `Origins.NormalizationIgnoresOriginsExactly` the exact condition
  for every valid relation, `Sites.OneQueryTwoSites` what it means for comparison.
- Emission does not keep the name of a column made by `.property`:
  `Emission.TableKeptExactly` says exactly when the relation's table is kept,
  `Emission.TablesKeptExactly` when that of every relation in it is.
- Emitted text need not lower to the same key, or at all:
  `RoundTrip.PropertyStepsDoNotComeBack`, `RoundTrip.ReservedAliasesDoNotComeBack`
  and `Pipeline.EmittedJoinOverStepsIsRefused` give families of queries,
  `RoundTrip.CanonicalFormIsEquivalentExactly` and
  `ReplayText.ReplayKeepsKeyExactly` the exact conditions.
- Comparison of two refused inputs is not always symmetric:
  `Comparison.ComparisonIsSymmetricExactly` says exactly when it is.

## Model

| member | source | states |
|---|---|---|
| Pipeline.EquivalentQueriesAnswerAlike | crates/pure-analyzer-analysis/src/comparison.rs:167-231 | End to end: when two surface queries lower and comparison answers `Equivalent`, evaluating both by name returns the same ordered rows under the same column names and types on every database. |
| RoundTrip.EquivalentQueriesReturnOneTable | crates/pure-analyzer-analysis/src/comparison.rs:167-231 | The whole answer, result kind included: two queries found `Equivalent` return one and the same table, collection of elements, relation rows or joined pairs alike, on every database. |
| Pipeline.CanonicalizationPreservesMeaning | crates/pure-analyzer-analysis/src/canonical.rs:137-159 | End to end, for every surface query that lowers, normalizes and can be emitted: its emitted query returns the same rows and column types under the emitted names, or resolves no names, and the same answer exactly when the emitted names are the query's own. |
| Pipeline.LambdaQueriesKeepTheirAnswer | crates/pure-analyzer-analysis/src/canonical.rs:137-159 | A query without `.property` steps always has the same answer as its emitted query. |
| Pipeline.EqualCanonicalTextsAnswerAlike | crates/pure-analyzer-analysis/src/canonical.rs:105-117 | Two queries with equal canonical texts whose names resolve return the same rows and column types on every database, and the same answer exactly when their columns have the same names. |
| Origins.NormalizationIgnoresOriginsExactly | crates/pure-analyzer-analysis/src/normalizer.rs:526-566 | For every valid relation: blanking all origins commutes with normalization if and only if no true filter or identity project is held back by origins alone, the facts or schema it is compared with agreeing in everything else. |
| Sites.OneQueryTwoSites | crates/pure-analyzer-analysis/src/normalizer.rs:526-566 | One query lowered at two sites: when origins hold nothing back at either, comparison answers `Equivalent` exactly within the budgets; when they do at exactly one, it never does. |
| Sites.QueriesLowerAlike | crates/pure-analyzer-analysis/src/lowering.rs:171-742 | A query lowers at every site or at none, taking the same identities, and to relations that differ in source spans only. |
| Pipeline.NormalizationSeesOrigins | crates/pure-analyzer-analysis/src/normalizer.rs:526-566 | A query for which it matters: the true filter over two stacked distincts is dropped exactly when both distincts stand at one origin. |
| Pipeline.EmittedJoinOverStepsIsRefused | crates/pure-analyzer-analysis/src/lowering.rs:1556-1575 | An emitted join whose right input is not a bare scan is refused by lowering, whatever the model: emit-then-lower is no round trip. |
| Pipeline.LoweredColumnsAreValue | crates/pure-analyzer-analysis/src/lowering.rs:586-603 | Every scalar projection lowered from a query without `.property` steps has a column called `value`, the condition emission needs. |
| RoundTrip.CanonicalFormIsEquivalentExactly | crates/pure-analyzer-analysis/src/canonical.rs:95-117 | The law the emission tests promise (equal equivalence keys after reading emitted text back), on all inputs: comparing a query with its own canonical text, read and lowered afresh, answers `Equivalent` if and only if in its normal form every scalar column is called `value`, every join is over a bare extent, no literal-true filter is left and every label printed reads back. |
| RoundTrip.CanonicalQueryIsEquivalentExactly | crates/pure-analyzer-analysis/src/canonical.rs:95-117 | The same for the canonical query before it is printed: the first three conditions decide. |
| RoundTrip.ReservedAliasesDoNotComeBack | crates/pure-analyzer-analysis/src/canonical.rs:664-672 | For every class and property, a project column with a quoted reserved alias, `let` say, is emitted with the bare word, and comparison with that text is not `Equivalent`; for any other alias it is, exactly when the printed alias reads back. |
| RoundTrip.PropertyStepsDoNotComeBack | crates/pure-analyzer-analysis/src/canonical.rs:304-317 | For every class and property, `path.all().name` is emitted as a map and is equivalent to the text of that map exactly when the property is called `value`. |
| RoundTrip.LowersBackExactly | crates/pure-analyzer-analysis/src/canonical.rs:95-117 | What the emitted query of a normal form lowers to normalizes to that normal form, up to identities and origins, exactly under the same three conditions, and then has its size and nesting. |
| Normalization.NormalDropsOperators | crates/pure-analyzer-analysis/src/normalizer.rs:310-416 | Normalization makes every relation that is not a normal form lose at least one operator. |
| RoundTrip.LoweringSize | crates/pure-analyzer-analysis/src/lowering.rs:171-198 | A lowered relation has one operator for its extent and one for every step, those of join operands included. |
| ReplayText.ReplayKeepsKeyExactly | crates/pure-analyzer-analysis/src/canonical.rs:210-564 | For every valid relation whose classes and members the resolver answers: emitting it, reading the text and lowering the result keeps its equivalence key if and only if it has only scalars, projects and joins lowering makes (no negative literal, no reserved member), `value` columns, joins over extents, labels that read back, and few enough columns for the 32-bit counter. |
| ReplayQuery.SurfaceReplayKeepsKeyExactly | crates/pure-analyzer-analysis/src/lowering.rs:171-742 | The same for the emitted query before it is printed, without the condition on labels. |
| ReplayText.EmittedQueryReads | crates/pure-analyzer-analysis/src/canonical.rs:660-689 | The emitted query of a relation lowering could have made is readable exactly when every alias, selector and sort key printed for it is quoted as a name or is a bare word that is not reserved. |
| ReplayQuery.QueryComesBack | crates/pure-analyzer-analysis/src/lowering.rs:171-742 | A relation with such scalars, `value` columns and joins over extents comes back from its emitted query, its names already read, up to identities and origins, its lambda element bound to the same classes, taking exactly as many identities as it has columns to allocate. |
| ReplayQuery.ReturnedIsSettled | crates/pure-analyzer-analysis/src/lowering.rs:171-742 | Conversely, whatever an emitted query lowers to, if that is the relation again then all those conditions hold. |
| ReplayScalars.ScalarReplays | crates/pure-analyzer-analysis/src/lowering.rs:758-1006 | An emitted scalar that prints no sign and no reserved member lowers, wherever it stands, to the same scalar over the bound columns, valid there and bound to its class. |
| ReplayScalars.ReplayedScalarIsMade | crates/pure-analyzer-analysis/src/lowering.rs:953-983 | Conversely, a scalar that comes back from its emitted form proves no totality, equates single values only, has no negative literal and reads no reserved member: checks emission does not make. |
| ReplayScalars.MergedMembers | crates/pure-analyzer-analysis/src/lowering.rs:1849-1868 | A merged origin holds exactly the model origins merged into it. |
| LoweredForms.LoweredQueryGrounded | crates/pure-analyzer-analysis/src/lowering.rs:171-742 | Every accepted query has only classes and members its resolver answers again, scalars and joins of the kind lowering makes, no identity project and no filter with facts of its own, and has taken exactly as many identities as it has columns. |
| LoweredForms.LoweredValueGrounded | crates/pure-analyzer-analysis/src/lowering.rs:765-818 | Every lowered scalar equates single values, proves no totality, and navigates members the resolver answers under the class of its receiver. |
| Comparison.EquivalentIsSound | crates/pure-analyzer-analysis/src/comparison.rs:167-231 | `Equivalent` means the two original queries denote the same ordered rows under the same column descriptions on every database. |
| Comparison.EquivalentExactly | crates/pure-analyzer-analysis/src/comparison.rs:228-241 | `Equivalent` is answered exactly when both queries fit the work and depth budgets and their normal forms are equal up to column identities and origins. |
| Comparison.RefutationIsHonest | crates/pure-analyzer-analysis/src/comparison.rs:243-357 | `NotEquivalent` is answered exactly when both queries fit the budgets and their original schemas contradict; it names the first disagreement and the two origins there, and never rests on an unknown nullability. |
| Comparison.NormalizedComparisonIsSymmetric | crates/pure-analyzer-analysis/src/comparison.rs:228-357 | Swapping two normalizable inputs gives the identical outcome, difference and origins included. |
| Comparison.ComparisonIsSymmetricExactly | crates/pure-analyzer-analysis/src/comparison.rs:196-226 | Comparison is symmetric if and only if it is not the case that both inputs are refused alike, for one reason, with tied origins that still differ. |
| Comparison.NormalizesExactlyWithin | crates/pure-analyzer-analysis/src/normalizer.rs:235-263 | Normalization answers exactly the queries whose node count is within the budget and whose nesting is at most 32, and then answers their normal form and both keys. |
| Normalization.NormalIsValid | crates/pure-analyzer-analysis/src/normalizer.rs:310-416 | Rebuilding never fails: the normal form of a valid relation is valid, with exactly the same output schema and the same facts up to origin. |
| Normalization.NormalPreservesMeaning | crates/pure-analyzer-analysis/src/normalizer.rs:310-566 | The normal form denotes the same rows on every database, through all three rewrites at any nesting. |
| Normalization.NormalFormsAreFixed | crates/pure-analyzer-analysis/src/normalizer.rs:491-566 | Every result is free of rewrite guards at every node, and a relation free of them is returned unchanged. |
| Normalization.NormalIsNoLarger | crates/pure-analyzer-analysis/src/normalizer.rs:310-416 | A normal form has no more nodes and no deeper nesting than its input, so normalizing it again under the same budget succeeds. |
| Normalization.RunFinishes | crates/pure-analyzer-analysis/src/normalizer.rs:274-308 | A run from depth 0 finishes if and only if relation plus scalar nodes fit the budget and no chain of nested nodes exceeds 32, and then exactly the node count is spent. |
| Normalization.Normalizer.RelationNode | crates/pure-analyzer-analysis/src/normalizer.rs:299-308 | On success returns the normal form having spent what the visit order says; on refusal returns the origin of the first node turned away; the depth counter returns to its entry value either way. |
| Normalization.Normalizer.RelationAtDepth | crates/pure-analyzer-analysis/src/normalizer.rs:310-416 | The same below an entered node: inputs first, then projections or predicate, then the guarded rewrite, with depth unchanged. |
| Normalization.Normalizer.ScalarNode | crates/pure-analyzer-analysis/src/normalizer.rs:425-434 | Scalar nodes are charged and bounded like relation nodes and come back unchanged. |
| Normalization.Normalizer.Projections | crates/pure-analyzer-analysis/src/normalizer.rs:418-423 | Projections are visited in order, each charged, and come back unchanged. |
| Normalization.Rebuild | crates/pure-analyzer-analysis/src/normalizer.rs:453-489 | Rebuilding succeeds exactly on operators the validators accept and otherwise reports the given origin. |
| Erasure.KeyIsComplete | crates/pure-analyzer-analysis/src/normalizer.rs:568-1074 | Complete key: two relations have the same equivalence key if and only if they are equal up to per-scope column identity and origins. |
| Erasure.EqualKeysMeanTheSame | crates/pure-analyzer-analysis/src/normalizer.rs:568-1074 | Relations with equal equivalence keys denote the same rows and column descriptions on every database. |
| Erasure.EraseKeepsMeaning | crates/pure-analyzer-analysis/src/normalizer.rs:1007-1037 | Replacing identities by per-scope positions and dropping origins keeps the rows. |
| Keys.RelationDecodes | crates/pure-analyzer-analysis/src/normalizer.rs:597-764 | Unique decoding: equal encodings of two relations, each with more text after it, have equal erasures and equal remainders. |
| Keys.OperatorDecodes | crates/pure-analyzer-analysis/src/normalizer.rs:607-684 | Operator tags, nested counts and every field after them are decoded uniquely. |
| Keys.ScalarDecodes | crates/pure-analyzer-analysis/src/normalizer.rs:787-858 | Scalar encodings followed by anything are decoded uniquely, down to literals, members and column positions. |
| Keys.MemberDecodes | crates/pure-analyzer-analysis/src/normalizer.rs:925-972 | Members are decoded uniquely: owner, name, target, multiplicity, kind, signature and temporal arity. |
| Keys.FactsDecode | crates/pure-analyzer-analysis/src/normalizer.rs:706-764 | Encoded candidate keys and row semantics are decoded uniquely, up to origins. |
| Erasure.RelationEncodes | crates/pure-analyzer-analysis/src/normalizer.rs:597-684 | Conversely, relations with equal erasures have equal encodings before any remainder. |
| Text.RenderInjective | crates/pure-analyzer-analysis/src/normalizer.rs:1068-1075 | A `length:value` stream spells only one list of fragments, lengths counted in UTF-8 bytes. |
| Text.FragmentSplits | crates/pure-analyzer-analysis/src/normalizer.rs:1068-1075 | One fragment is split off the front of a stream in one way only. |
| KeyEncoding.KeyEncoder.RelationNode | crates/pure-analyzer-analysis/src/normalizer.rs:597-684 | Appends to the output exactly the fragments of the relation, whatever is to follow. |
| KeyEncoding.KeyEncoder.ScalarNode | crates/pure-analyzer-analysis/src/normalizer.rs:787-817 | Appends exactly the fragments of the scalar. |
| KeyEncoding.KeyEncoder.KeysOf | crates/pure-analyzer-analysis/src/normalizer.rs:712-744 | Writes the candidate keys by position, sorted and without repeats, in nested loops over growing lists. |
| KeyEncoding.KeyEncoder.OriginIf | crates/pure-analyzer-analysis/src/normalizer.rs:889-905 | Writes the origin only when provenance is asked for, its model origins in canonical order. |
| KeyEncoding.Encode | crates/pure-analyzer-analysis/src/normalizer.rs:574-595 | A fresh encoder produces exactly the rendered encoding of the relation. |
| KeyEncoding.NormalizeRelationalQuery | crates/pure-analyzer-analysis/src/normalizer.rs:235-263 | The imperative normalizer and encoders together answer exactly what the specification of normalization answers, keys included. |
| Renaming.NormalRenamed | crates/pure-analyzer-analysis/src/normalizer.rs:310-416 | Normalization commutes with any injective renaming of column identities, candidate keys re-canonicalized. |
| Renaming.NormalizationIgnoresAllocation | crates/pure-analyzer-analysis/src/normalizer.rs:248-263 | After such a renaming normalization gives the renamed normal form, the identical equivalence and structural keys, or the identical refusal. |
| Renaming.EncRelationRenamed | crates/pure-analyzer-analysis/src/normalizer.rs:1007-1037 | The encoding of a renamed relation is the encoding of the original, with or without provenance. |
| Renaming.ComparisonIgnoresAllocation | crates/pure-analyzer-analysis/src/comparison.rs:167-231 | Comparison answers the same whatever identities either side was allocated. |
| Orders.CanonicalAgrees | crates/pure-analyzer-analysis/src/relational.rs:1492-1503 | Two lists canonicalize to the same list exactly when they have the same members. |
| Orders.CanonicalFacts | crates/pure-analyzer-analysis/src/relational.rs:389-401 | Sorting and deduplicating gives the strictly ascending listing of the same set. |
| Relational.OperatorErrorMeaning | crates/pure-analyzer-analysis/src/relational.rs:1209-1332 | The validator raises no error exactly on the well-typed operators. |
| Relational.NewSchema | crates/pure-analyzer-analysis/src/relational.rs:360-370 | Succeeds exactly on distinct identities, keeping the columns; otherwise names the first repeated identity. |
| Relational.NewRelation | crates/pure-analyzer-analysis/src/relational.rs:879-902 | Succeeds exactly on valid operators with keys in scope and keeps every field; otherwise returns the validator's own error. |
| Relational.ValidateSort | crates/pure-analyzer-analysis/src/relational.rs:1262-1285 | The loop over a growing set reports the first bad sort key, unknown before repeated, exactly as specified. |
| Relational.ValidateDistinctOn | crates/pure-analyzer-analysis/src/relational.rs:1309-1332 | The loop reports the first bad selection, repeated before unknown, then a schema that is not the selected columns. |
| Relational.ValidateProject | crates/pure-analyzer-analysis/src/relational.rs:1287-1300 | Shape first, then the first projection that is invalid or does not fit its column. |
| Relational.ValidateKeys | crates/pure-analyzer-analysis/src/relational.rs:1474-1490 | No error exactly when every candidate-key column is in the schema; an error names a column that is not. |
| Typing.ComposeExactly | crates/pure-analyzer-analysis/src/relational.rs:1461-1472 | A composed multiplicity is absent exactly when a product of lower bounds or of finite upper bounds leaves 32 bits, and otherwise has the product bounds, zero winning over unbounded. |
| Typing.UnboundedCompositionCanBeAbsent | crates/pure-analyzer-analysis/src/relational.rs:1457-1472 | Two unbounded multiplicities can compose to nothing, through the lower bounds alone. |
| Typing.NavigationCounts | crates/pure-analyzer-analysis/src/relational.rs:1461-1472 | Navigating from a count within the receiver's multiplicity yields a count within the composed one. |
| Typing.ScalarIsSound | crates/pure-analyzer-analysis/src/relational.rs:1334-1386 | On a conforming database a validated scalar has a value on every conforming row, within its declared type, multiplicity and nullability. |
| Typing.PredicateDecides | crates/pure-analyzer-analysis/src/relational.rs:1441-1451 | A validated predicate is true or false on every conforming row. |
| Typing.RelationIsSound | crates/pure-analyzer-analysis/src/relational.rs:1209-1260 | Every row of a constructed expression conforms to its schema, no cell missing, on every conforming database. |
| Typing.ConformingDatabaseExists | crates/pure-analyzer-analysis/src/relational.rs:1209-1260 | Conforming databases exist with any number of rows, so the soundness results are about something. |
| Semantics.RowWidth | crates/pure-analyzer-analysis/src/relational.rs:879-902 | Every row of a valid expression is as wide as its schema. |
| IterativeDrop.Drop | crates/pure-analyzer-analysis/src/relational.rs:946-962 | The worklist terminates, takes every operator below the root out exactly once, and destroys each with only childless placeholder inputs. |
| IterativeDrop.DetachChildren | crates/pure-analyzer-analysis/src/relational.rs:984-1007 | Leaves the operator with placeholders for its inputs and queues the operators taken out, in order. |
| IterativeDrop.FindLeafSource | crates/pure-analyzer-analysis/src/relational.rs:964-982 | Follows first inputs down to the scan at the end. |
| LoweringInvariant.LoweringKeepsInvariant | crates/pure-analyzer-analysis/src/lowering.rs:171-742 | Every accepted query is a valid expression over identities taken from the counter, its bound element the sole column, or all row columns in schema order, or nothing exactly downstream of a join. |
| LoweringInvariant.StepAccepted | crates/pure-analyzer-analysis/src/lowering.rs:250-742 | Each pipeline step keeps that invariant and never lowers the counter. |
| LoweringInvariant.SelectedElementFits | crates/pure-analyzer-analysis/src/lowering.rs:1110-1135 | A selected distinct keeps the kind of bound element and makes it exactly the selected columns. |
| LoweringInvariant.SpecsAllocate | crates/pure-analyzer-analysis/src/lowering.rs:624-653 | The columns of a project take consecutive identities from the counter, in order, under their aliases. |
| LoweringInvariant.JoinSidesAreDisjoint | crates/pure-analyzer-analysis/src/lowering.rs:463-546 | The sides of a join never share a column identity. |
| LoweringInvariant.EmissionBindsTheElement | crates/pure-analyzer-analysis/src/canonical.rs:245-496 | Whenever a lowered query can be emitted, the emitter binds for the next lambda the kind lowering bound. |
| LoweringMeaning.LoweringPreservesMeaning | crates/pure-analyzer-analysis/src/lowering.rs:165-198 | An accepted query, evaluated by name on any database, returns the rows of its lowered expression under that expression's column names and types; every class and member in the expression is the one the model finds again. |
| LoweringMeaning.ScalarLowersToMeaning | crates/pure-analyzer-analysis/src/lowering.rs:744-954 | A lowered scalar that its operator accepts computes, on every row, what the surface expression means with names resolved. |
| LoweringMeaning.NavigationMeaning | crates/pure-analyzer-analysis/src/lowering.rs:895-954 | A lowered property navigation is the navigation the model finds for the receiver's type. |
| LoweringMeaning.RelationColumnMeaning | crates/pure-analyzer-analysis/src/lowering.rs:855-893 | Reading a column of a bound row by name reads the one column of that name. |
| LoweringMeaning.SoleColumnPlace | crates/pure-analyzer-analysis/src/lowering.rs:326-355 | A selector resolves to a column exactly where the name stands for one column of the schema. |
| QueryLowering.QueryLowerer.constructor | crates/pure-analyzer-analysis/src/lowering.rs:134-145 | A new lowerer allocates from identity 0. |
| QueryLowering.QueryLowerer.NextColumn | crates/pure-analyzer-analysis/src/lowering.rs:1062-1069 | Hands out the counter and advances it, or refuses and leaves it when no 32-bit successor exists. |
| QueryLowering.QueryLowerer.LowerExtent | crates/pure-analyzer-analysis/src/lowering.rs:208-248 | The extent step gives the specified state or refusal and advances the counter alike. |
| QueryLowering.QueryLowerer.LowerFilterStep | crates/pure-analyzer-analysis/src/lowering.rs:548-584 | The filter step gives the specified state or refusal. |
| QueryLowering.QueryLowerer.LowerMapStep | crates/pure-analyzer-analysis/src/lowering.rs:586-603 | The map step gives the specified state or refusal and advances the counter alike. |
| QueryLowering.QueryLowerer.ProjectNavigation | crates/pure-analyzer-analysis/src/lowering.rs:677-691 | A `.property` step gives the specified state or refusal and advances the counter alike. |
| QueryLowering.QueryLowerer.ProjectScalar | crates/pure-analyzer-analysis/src/lowering.rs:697-742 | One new scalar column over the input, or the specified refusal. |
| QueryLowering.QueryLowerer.LowerColumns | crates/pure-analyzer-analysis/src/lowering.rs:624-653 | The loop over column specifications gives the specified columns, projections and counter, or the first failure. |
| QueryLowering.QueryLowerer.LowerProjectStep | crates/pure-analyzer-analysis/src/lowering.rs:605-675 | The project step gives the specified state or refusal and advances the counter alike. |
| QueryLowering.QueryLowerer.CheckAliases | crates/pure-analyzer-analysis/src/lowering.rs:1137-1149 | The scan over a growing set accepts exactly lists of distinct aliases. |
| QueryLowering.QueryLowerer.LowerJoinSides | crates/pure-analyzer-analysis/src/lowering.rs:463-546 | The join of two lowered sides gives the specified state or refusal. |
| QueryLowering.QueryLowerer.LowerDistinctStep | crates/pure-analyzer-analysis/src/lowering.rs:373-398 | The bare distinct gives the specified state or refusal. |
| QueryLowering.QueryLowerer.LowerDistinctOnStep | crates/pure-analyzer-analysis/src/lowering.rs:400-461 | The selected distinct gives the specified state or refusal. |
| QueryLowering.QueryLowerer.LowerSortStep | crates/pure-analyzer-analysis/src/lowering.rs:279-324 | The sort step, looping over its keys, gives the specified state or the first failure. |
| QueryLowering.QueryLowerer.LowerOneStep | crates/pure-analyzer-analysis/src/lowering.rs:250-277 | Any step gives the specified state or refusal and leaves the counter and the failure origin where the specification says. |
| QueryLowering.QueryLowerer.LowerPipeline | crates/pure-analyzer-analysis/src/lowering.rs:171-198 | The loop over the steps gives what the recursive specification gives, failures and the origin they are reported at included. |
| QueryLowering.ResolveColumnSelectors | crates/pure-analyzer-analysis/src/column_selectors.rs:234-281 | The loop over selectors resolves each to the one column of its name in order, or stops at the first repeated, missing or ambiguous one and names its span. |
| QueryLowering.LowerM3Query | crates/pure-analyzer-analysis/src/lowering.rs:37-59 | The answer for a parsed query is the specified relation, satisfying the state invariant from identity 0, or the specified reason at the origin last marked, which is that of a node of the query. |
| FailureOrigins.FailurePointsIntoQuery | crates/pure-analyzer-analysis/src/lowering.rs:147-163 | The origin a query is refused at always spans a node of that query, whichever step, lambda, selector or key stopped it. |
| QueryLowering.QueryLowerer.LowerValueNodes | crates/pure-analyzer-analysis/src/lowering.rs:765-818 | The loop over a root and its property nodes gives the specified value or reason, a signed number refused, and leaves the failure origin as specified. |
| QueryLowering.QueryLowerer.NavigateFrom | crates/pure-analyzer-analysis/src/lowering.rs:895-951 | One navigation gives the specified scalar or reason; the failure origin cites the member once it is found. |
| QueryLowering.QueryLowerer.CompareValues | crates/pure-analyzer-analysis/src/lowering.rs:953-1015 | Operands are lowered left to right, and a comparison refused for its operands is marked with both their origins. |
| Lowering.MergeOrigins | crates/pure-analyzer-analysis/src/lowering.rs:1849-1868 | The nested loops collect every model origin once, in first-seen order, exactly as specified. |
| Emission.EmissionPreservesMeaning | crates/pure-analyzer-analysis/src/canonical.rs:210-554 | When every scalar-collection column is called `value`, the emitted query, its names resolved afresh, returns the relation's rows under its column names and types on every database. |
| Emission.EmissionReturnsExactly | crates/pure-analyzer-analysis/src/canonical.rs:210-554 | For every valid relation: the emitted query returns the relation's rows under the emitted names, computed through maps, joins, selections and sorts, or nothing exactly when one of those names does not resolve. |
| Emission.TableKeptExactly | crates/pure-analyzer-analysis/src/canonical.rs:304-317 | The emitted query returns the relation's own table if and only if every printed name resolves and the emitted names are those of the schema. |
| Emission.ValueColumnsKeepNames | crates/pure-analyzer-analysis/src/canonical.rs:304-317 | When every scalar-collection column is called `value`, the emitted names are those of the schema. |
| Emission.TablesKeptExactly | crates/pure-analyzer-analysis/src/canonical.rs:304-317 | All at once: every relation in the tree, emitted where it stands, returns its own table if and only if every scalar-collection column is called `value`. |
| Emission.ScalarMeaning | crates/pure-analyzer-analysis/src/canonical.rs:498-554 | An emitted scalar, read in the scope its references were made for, computes the scalar on every row. |
| Emission.ReferencesForResolve | crates/pure-analyzer-analysis/src/canonical.rs:609-638 | The references made for a binding resolve, by name, to the places and types of the columns they stand for. |
| Emission.MapMeaning | crates/pure-analyzer-analysis/src/canonical.rs:304-317 | `->map` returns the projected rows in a column called `value`, whatever the names its input comes under. |
| Emission.JoinMeaning | crates/pure-analyzer-analysis/src/canonical.rs:344-394 | The emitted join over two one-column inputs returns the relation's pairs, under the two names its inputs come under. |
| Emission.DistinctOnMeaning | crates/pure-analyzer-analysis/src/canonical.rs:414-451 | Selection by printed name picks the relation's columns. |
| Emission.SortMeaning | crates/pure-analyzer-analysis/src/canonical.rs:453-496 | Sorting by printed name is the relation's stable sort. |
| EmissionForm.EmissionIsInForm | crates/pure-analyzer-analysis/src/canonical.rs:210-564 | Bare names of an emitted query are identifiers, all lambda parameters are distinct binders taken from the counter, and every body reads only its own lambda. |
| Unambiguity.SegmentsCoverPath | crates/pure-analyzer-analysis/src/canonical.rs:660-672 | A path whose segments are identifiers is made of identifier characters and separators. |
| EmissionForm.EqualTextsAreEqualQueries | crates/pure-analyzer-analysis/src/canonical.rs:105-117 | Two relations emit equal texts if and only if they emit equal queries. |
| Unambiguity.TextIsUnambiguous | crates/pure-analyzer-analysis/src/canonical.rs:245-553 | Canonical texts of well-formed queries are equal if and only if the queries are. |
| Reader.TextReadsExactly | crates/pure-analyzer-analysis/src/canonical.rs:245-553 | A recursive-descent reader of the canonical spelling, with reserved words, unsigned numbers and doubled quotes, reads the text of a well-formed query back to that query if every name and number in it is readable, and to nothing otherwise. |
| Reader.ExprRead | crates/pure-analyzer-analysis/src/lowering.rs:744-818 | A printed scalar expression is read off the front of any text that cannot continue it, back to itself exactly when it prints no sign and no reserved word, and to nothing otherwise. |
| Reader.LabelIsRead | crates/pure-analyzer-analysis/src/lowering.rs:1227-1241 | A printed label is read off the front of a text, back to itself exactly when it is a bare unreserved word or a quoted name, and to nothing otherwise. |
| Reader.PathRead | crates/pure-analyzer-analysis/src/canonical.rs:660-672 | A printed class path is read back whole, reserved words in it included, from the front of any text that cannot continue it. |
| Unambiguity.ColumnNameSplits | crates/pure-analyzer-analysis/src/canonical.rs:674-680 | A printed column name, bare or quoted, is split off what follows in one way. |
| Surface.PureStringReadsQuoted | crates/pure-analyzer-analysis/src/lowering.rs:1822-1826 | The string reader undoes quoting, doubled quotes included. |
| CanonicalEmitter.EmitNormalForm | crates/pure-analyzer-analysis/src/canonical.rs:105-117 | The text built bottom up is the printed form of the specified query, or the specified refusing origin. |
| CanonicalEmitter.Emitter.Relation | crates/pure-analyzer-analysis/src/canonical.rs:210-215 | Returns text that prints the specified query before any continuation, with its binding; the binder counter ends as specified and depth returns to its entry value even on refusal. |
| CanonicalEmitter.Emitter.ScalarText | crates/pure-analyzer-analysis/src/canonical.rs:498-507 | Returns text that prints the specified expression, or the specified refusing origin; depth is unchanged. |
| CanonicalEmitter.Emitter.NextBinder | crates/pure-analyzer-analysis/src/canonical.rs:556-563 | Hands out a binder numbered by the counter, or refuses when the counter is at the machine limit. |
| CanonicalEmitter.Emitter.SpecTexts | crates/pure-analyzer-analysis/src/canonical.rs:322-336 | The loop over projections prints the specified columns or stops at the first refusal. |
| CanonicalEmitter.Emitter.FilterText | crates/pure-analyzer-analysis/src/canonical.rs:263-283 | The filter text prints the specified step after its input. |
| CanonicalEmitter.Emitter.ProjectText | crates/pure-analyzer-analysis/src/canonical.rs:285-342 | The project or map text prints the specified step after its input, by kind alone. |
| CanonicalEmitter.Emitter.JoinText | crates/pure-analyzer-analysis/src/canonical.rs:344-394 | The join text prints the specified step, two fresh binders and disjoint references. |
| CanonicalEmitter.Emitter.DistinctOnText | crates/pure-analyzer-analysis/src/canonical.rs:414-451 | The selected-distinct text prints the specified step after its input. |
| CanonicalEmitter.Emitter.SortText | crates/pure-analyzer-analysis/src/canonical.rs:453-496 | The sort text prints the specified step after its input. |
| Layout.Format | crates/pure-analyzer-analysis/src/format.rs:48-62 | For any source, islands and tokens, the output is the non-white-space tokens and the islands in source order, only spaces and newlines around them, nothing cut from them but spaces at their ends, and every line comment ends its line; for a lexed source nothing but white space changes. |
| Layout.FormattingKeepsContent | crates/pure-analyzer-analysis/src/format.rs:114-295 | For tokens that tile the source and islands over whole tokens, output and source are equal once white space is dropped. |
| Layout.LayoutFormatter.Token | crates/pure-analyzer-analysis/src/format.rs:114-205 | One token adds exactly its piece, or its island, or nothing, cuts nothing but trailing spaces, and leaves earlier line comments ended. |
| Layout.LayoutFormatter.TrimSpace | crates/pure-analyzer-analysis/src/format.rs:267-271 | Trimming ends with no space at the end of the output, takes only spaces off the ends of gaps and pieces, and never a leading newline of a gap. |
| Layout.LayoutFormatter.Newline | crates/pure-analyzer-analysis/src/format.rs:272-278 | After a piece the output ends with a newline. |
| Layout.LayoutFormatter.WriteToken | crates/pure-analyzer-analysis/src/format.rs:141-199 | Every token kind writes its text once, after the pieces before it, with only blanks before and after it. |
| SourceScan.CodeOnly | xtask/src/diagnostic_producers.rs:143-162 | The result has the source's length and newlines, and keeps a character only where the scan is in code outside every gated region. |
| SourceScan.CodePositions | xtask/src/diagnostic_producers.rs:177-187 | The loop ends, and marks exactly the positions the scan reaches in code mode. |
| SourceScan.MarkCfgTestRegions | xtask/src/diagnostic_producers.rs:410-441 | The search ends and marks exactly the gated regions. |
| SourceScan.Regions | xtask/src/diagnostic_producers.rs:410-441 | Regions are in bounds, in order and disjoint, each opening at a gate in code. |
| SourceScan.GatedItemEndsAtTheTrueBalance | xtask/src/diagnostic_producers.rs:392-407 | A gated item ends where its first brace is first balanced, open all the way to there, or at an earlier semicolon in code, or with the text. |
| SourceScan.StaysOpen | xtask/src/diagnostic_producers.rs:342-365 | Up to its match, the stretch from an opening bracket in code stays open at every position. |
| SourceScan.MatchingBracket | xtask/src/diagnostic_producers.rs:342-365 | The counting loop finds the first close that balances, or nothing when there is none. |
| SourceScan.FindGatedItemEnd | xtask/src/diagnostic_producers.rs:392-407 | The loop finds the specified end of the item. |
| SourceScan.AttributeGatesTest | xtask/src/diagnostic_producers.rs:374-389 | The search over non-overlapping matches misses no occurrence of the word. |
| SourceScan.GateIsCode | xtask/src/diagnostic_producers.rs:410-425 | The six characters of a gate found in code are all in code, its bracket included. |
| SourceScan.Advance | xtask/src/diagnostic_producers.rs:191-274 | Every lexical step moves on and none leaves the text. |
| Markdown.HeadingIds.Reserve | xtask/src/markdown.rs:377-399 | A slug gets the first free identifier from its count on, new to the set; its count moves past it and other counts stay; an empty slug changes nothing. |
| Markdown.FirstFree | xtask/src/markdown.rs:385-396 | The suffix search ends, at the first count whose identifier is free. |
| Markdown.ReserveAll | xtask/src/markdown.rs:377-399 | Over any headings the identifier set has exactly one distinct member per heading with a nonempty slug. |
| Markdown.PercentDecode | xtask/src/markdown.rs:328-350 | The index loop decodes exactly what the recursive reading of the text's bytes decodes, and accepts it exactly when those bytes are UTF-8; the faults are the specified ones. |
| Markdown.DecodesExactly | xtask/src/markdown.rs:328-361 | A text decodes to another if and only if its bytes are those of the other with some of them escaped. |
| Utf8.FromBytesExactly | xtask/src/markdown.rs:350 | Bytes are accepted as UTF-8, and as which text, exactly when they are that text's bytes: no overlong form, no surrogate, nothing past the last scalar value. |
| Markdown.DecodingUndoesEscaping | xtask/src/markdown.rs:328-361 | Decoding undoes every escaping, whichever bytes it escapes and in whichever case. |
| Markdown.DecodedIsAnEscaping | xtask/src/markdown.rs:328-361 | Whatever decodes was some escaping of the bytes it decodes to. |
| Markdown.LexicalJoin | xtask/src/markdown.rs:307-325 | The loop reaches exactly where following the joined components from the repository root leads, or fails where that fails. |
| Markdown.WalksExactlyInside | xtask/src/markdown.rs:307-325 | A joined path resolves if and only if no component is absolute and no prefix leaves more directories than it entered; its depth is the difference. |
| Markdown.DetoursChangeNothing | xtask/src/markdown.rs:307-325 | Entering a directory and leaving it again, or a `.`, changes no destination and no failure. |
| Lines.Locate | crates/libpure/src/source.rs:284-298 | For every text and offset on a character boundary the search returns one plus the newlines before it and one plus the bytes since the last line start, and nothing otherwise. |
| Lines.NewLineIndex | crates/libpure/src/source.rs:274-282 | The loop records the starts of the text's lines. |
| Lines.PositionsGrow | crates/libpure/src/source.rs:284-298 | Positions grow strictly with offsets. |

## Left out

- The lexer, the parser and the green tree: lowering starts from a surface
  query (a class extent and pipeline steps with named lambdas), so refusals
  settled by the shape of syntax nodes are outside, except the one-node rule
  for a join's right operand, reserved words and signed numbers. Redundant
  parentheses around scalars or whole queries are not in the surface query.
- Reader.TextReadsExactly: the reader takes the spelling emission prints, with
  its fixed spacing; comments, other spacing and the parser's nesting limit are
  outside (a canonical form nests far less than that limit). Labels of surface
  queries and relations may be any strings; the reader takes a quoted one only
  when it is a name as the crate's `Name` allows it, which is where the crate's
  lowering refuses the others.
- A property step spelled `.all()` without its call, or `allVersions` and
  `allVersionsInRange`, is taken for an extent by the parser; the model refuses
  all reserved property names with the reason the lowerer has for a missing name.
- The model graph: classes by path and members by class path and name come from
  a resolver given as a parameter. `LoweringMeaning`, `Pipeline`, `LoweredForms`,
  `ReplayQuery`, `ReplayText` and `RoundTrip` assume that it finds a class under
  its own path and a member under its own name
  (crates/pure-analyzer-resolve/src/lib.rs:471-490); the one-step navigation
  built on it (crates/pure-analyzer-resolve/src/local.rs:746-870) is modelled.
- Source spans: a node of the surface query is an address, and a function from
  addresses to spans is a parameter, so that every origin is exact without a
  text; how the parser lays out spans is outside.
- ReplayText.ReplayKeepsKeyExactly: assumes beside this that the resolver finds
  no class called `Boolean`, `Integer` or `String`; so do `ReplayQuery` and
  `RoundTrip`.
- `EvaluateQuery` gives a meaning to selectors over a class extent because
  lowering accepts them; emission refuses them.
- IterativeDrop.Drop: operators are values, so replacing a field in place and
  the recursion of the language's own destructor are represented by what each
  destroyed operator still holds.
- The depth bound is the number 32; how much machine stack it saves is not
  modelled. Bracket depths and indentation counters are unbounded.
- Proven totality of scalars: the field is kept, and no producer of such a fact
  exists to be modelled.
- The slugger's character classes and case mapping: heading identifiers start
  from the slug.
- Markdown.HeadingIds.Reserve: counts are unbounded.
- Markdown.LexicalJoin: starts from path components; how a platform splits a
  path into them is outside.
- Layout.Format: offsets count characters, not bytes. That formatting twice
  changes nothing more depends on the lexer and is not stated.
- SourceScan.CodeOnly: which characters are alphanumeric is a parameter that
  must hold of the letter s.
- Local resolution, column-selector syntax, lint and validation passes, the
  analysis driver, the language server and the command line.
