# Verified model of r2g

r2g loads relational tables into ArangoDB as a graph. This project models its pure and stateful
cores in Dafny and proves what they are for. Each module follows one source file (or one part of it):

- **Table order**: `FkGraph`, `FreedOrder`, `CycleSearch`, `TopoSort` - Kahn's algorithm over the foreign keys, then a
  depth-first search for cycles among what is left.
- **Expression language**: `Lexer`, `Parser` / `ParserMachine`, `ParserFacts`, `BindScan`, `BindRewrite`, `Evaluator` -
  tokenizer, recursive-descent parser, the second scanner that must see the same `@column` references, the rewriting for
  the server, compilation, evaluation. Beside them stands the language itself, written without them: `Spelling` (how
  tokens may be spelled), `Grammar` (which token sequences write which tree), `Semantics` (what a tree means on a row).
  `Reading` and `Compilation` put the parts together, and `Printer` / `PrinterText` are an inverse of reading.
- **Label bit dictionary**: `Bits`, `Decimals`, `LabelMasks`, `LabelDictionary` - labels as bits in 32-bit chunks.
- **Document keys**: `Keys` - percent-encoding over UTF-8 (section 3 of RFC 3629).
- **Names**: `CuratedLabels` with `CuratedExact` (refuse until stable) and `LabelCollisions` (policy `qualify`).
- **Control plane**: `HistoryOutbox` (a crash-safe queue as a state machine), `MappingChanges` with `ChangesListed` (what
  a save changes), `Governance` (ask everything before writing anything).
- **Change data capture**: `CdcConflicts`.
- **Mapping evolution**: `ConfigMigration` with `CleanedNames` (a changed schema), `MappingReload` with `Renaming` (a changed mapping carried
  over in place), `MappingReloadExact` (exactly when that equals loading again), `RelationshipReloads` (what a plan holds
  and in which order), `ConnectedReload` (executing it with the source connected).
- `Names` holds Python's string order and sorting, `Characters` the character functions the expression language asks for.

Code that works step by step is a method or a class proved against a specification function; the main results are
lemmas about those functions.

## What the proofs found

Places where the code does less than its documentation says or a reader would expect, each with a concrete input or the
exact condition that separates the two cases. The model follows the code.

- **Rewriting `@column` for the server** (`src/r2g/expressions.py:717-730`) leaves a reference behind exactly when, outside
  string literals, a reference directly follows another `@` (`@@x`): `BindRewrite.RewriteExact`,
  `BindRewrite.DoubledBindSurvives`. Text that the tokenizer accepts never has that form, so compiled expressions are
  always rewritten completely: `BindRewrite.RewriteCompiledText`.
- **Qualified labels** (`src/r2g/csi.py:275-325`): labels that differed become equal exactly when a group is kept after an
  earlier group was given its label, because candidates are not checked against colliding labels that are decided later:
  `LabelCollisions.NewCollisionExactly`, `LabelCollisions.KeptTooLateExample`. If both fall into one entity its physical
  side loses a field spec: `LabelCollisions.RekeyedLoses`. What can be told from the document alone:
  `LabelCollisions.QualifiedExactly`, `LabelCollisions.DocumentKeepsApart`, `LabelCollisions.OnlyJoinKeysShared`.
- **Curated records** (`src/r2g/curated_labels.py:289-304`): the result is documented not to depend on the order of the
  document (lines 275-276). That holds of renames, annotations and resolutions (`CuratedLabels.OrderIndependent`), but of a
  concept with several entries the record cites the one listed last. The records are the same under every shuffle exactly
  when no concept has two entries that differ in what a record cites: `CuratedLabels.RecordsFixedExactly`,
  `CuratedLabels.RecordFollowsOrder`.
- **Outbox statuses** (`src/r2g/governed.py:255-291`): an entry that is in the history can be filed as undeliverable, when
  its deliverer stops between recording and filing, or the answer is lost, and the resend is refused:
  `HistoryOutbox.RecordedYetUndeliverable`. `HistoryOutbox.ExactNext` says which steps break the agreement of folders and
  history, `HistoryOutbox.UndisturbedRun` that without them it is exact. A file that is gone is answered as `delivered`
  whatever it was filed as: `HistoryOutbox.UndeliverableAnsweredDelivered`, and `HistoryOutbox.AnswerTrueExactly` says when
  the answer is true.
- **Migrating a mapping** (`src/r2g/config_migrate.py:81-90,148-168`): relationships match the schema's foreign keys exactly
  if and only if no foreign key has a column name that the relationship's constructor takes apart at commas or strips
  (`ConfigMigration.AlignedExactly`, `ConfigMigration.CommaMisaligned`); a collection is replaced, settings and all, exactly
  when its key is the name of a table being added (`ConfigMigration.KeptExactly`, `ConfigMigration.KeyedOtherwiseLoses`); a
  second run has nothing to do exactly when neither happened to a live table or key (`ConfigMigration.SettledExactly`). Two
  new relationships can get one name: exactly when the plain name and the name with the columns are both in use
  (`ConfigMigration.NamesDifferExactly`, `ConfigMigration.NamesRunTogether`).
- **What a save lists** (`src/r2g/mapping_changes.py:120-125`): a listed relationship shows no differing field exactly when the
  relationships of its identity before and after have the same first one by text: `MappingChanges.WhatEmptyExactly`,
  `MappingChanges.DoubledShowsNothing`, `MappingChanges.TermShowsNothing`; never while there is at most one on either side:
  `MappingChanges.WhatShown`. A change is recorded under the last class it was checked on (`src/r2g/governed.py:160-166`). For
  a table that is the class it has now; for a relationship it can be a class its table has no longer:
  `MappingChanges.RecordedUnderCurrentClass`, `MappingChanges.RecordedUnderLostClass`.
- **log_and_skip** (`src/r2g/cdc/conflict.py:156-166,206-219`) does not converge under replay (`CdcConflicts.SkippingDiverges`).
  Applying the log again changes the store exactly when some document was absent, is never deleted, and its last replace
  comes before its first insert with another content: `CdcConflicts.ReplaySkippingExactly`.
- **In-place renames** (`src/r2g/mapping_diff.py:132-211`) are executed one after another. For the attributes of a table, in
  place and in place again equals loading again for every row exactly when no name that changes becomes an old name of a
  column, or comes from or to a system attribute: `MappingReloadExact.FieldsExactly`; two attributes that swap names lose a
  value: `MappingReloadExact.SwapLosesValue`. For collections it equals loading again exactly when each name taken over
  belongs to a table renamed earlier: `MappingReloadExact.CollectionsExactly`; when two tables swap collections both renames
  are skipped and the attribute renames run on the other table's documents: `MappingReloadExact.SwapUpdatesOther`.
- **Reloading relationships** (`src/r2g/mapping_diff.py:132-164`, `src/r2g/selective_reload.py:193-231`): a relationship
  is reloaded behind the rename of the end listed first and not planned again behind the other
  (`RelationshipReloads.RenamedFirstExactly`, `RelationshipReloads.ReloadedBetween`). With a source connected its documents
  still end up naming the new collections (`ConnectedReload.LinksAreReloaded`, `ConnectedReload.NoEndMissing`). But the
  reload loads the table the relationship starts from into its new collection, so if that table's own rename comes later
  it is skipped and the old collection stays, documents and all: exactly when the relationship leads to a renamed table
  listed before its own (`ConnectedReload.LeftBehindExactly`, `ConnectedReload.ReferencedFirstLeavesBehind`).
- A number with a digit that has no decimal value, such as a superscript, makes the conversion fail with an error
  that is not an expression error (`src/r2g/expressions.py:152-161`). The model returns it as an error of its own, and
  `Lexer.NumberRefusedExactly` says when; `Lexer.BareDigitRefused` is an input.

## Model
| member | source | states |
|---|---|---|
| `TopoSort.TopologicalSortTables` | src/r2g/topo_sort.py:12-52 | the method returns exactly the specified order and the specified chains, which report every circular reference |
| `TopoSort.BuildDeps` | src/r2g/topo_sort.py:22-26 | the dependency sets are the other tables of the schema that a table's foreign keys name |
| `TopoSort.Reverse` | src/r2g/topo_sort.py:28-34 | reversing the edges one by one gives every table's dependents and its number of references |
| `TopoSort.ImportOrder` | src/r2g/topo_sort.py:36-44 | counting in-degrees down computes the breadth-first order of importable tables |
| `TopoSort.ReleaseDependents` | src/r2g/topo_sort.py:41-44 | the inner loop lowers each dependent's count and queues, in name order, those that reach zero |
| `TopoSort.ReleaseExact` | src/r2g/topo_sort.py:41-44 | counting one table off keeps every count right and frees exactly the tables it was the last to block |
| `TopoSort.ImportSequenceExact` | src/r2g/topo_sort.py:12-52 | the order is a permutation of the tables: first exactly those from which no path reaches a cycle, each after all it references, then the rest by name |
| `FkGraph.KahnExact` | src/r2g/topo_sort.py:36-47 | a table is in the sorted prefix if and only if no foreign-key path from it reaches a cycle |
| `FreedOrder.KahnIsFreedOrder` | src/r2g/topo_sort.py:36-44 | the importable tables come in the one order in which each follows all it references, a table freed earlier comes first, and tables freed together come by name |
| `TopoSort.AcyclicExactly` | src/r2g/topo_sort.py:46-52 | no chain is reported if and only if the references are acyclic, and then every table follows all it references |
| `TopoSort.EveryGroupReported` | src/r2g/topo_sort.py:55-107 | every table on a circular reference shares its strongly connected group with a whole reported chain |
| `CycleSearch.FindCycles` | src/r2g/topo_sort.py:55-78 | the chains that searching the tables in name order closes, one for each set of tables: simple cycles, and every closed walk has two consecutive tables on one of them |
| `CycleSearch.Search.Dfs` | src/r2g/topo_sort.py:81-107 | a search closes exactly the chains and finishes exactly the tables, in order, that the recursive description says; it restores the path, leaves every reference finished or on a reported chain, and ends because scope minus path shrinks |
| `CycleSearch.Search.Report` | src/r2g/topo_sort.py:91-94 | a reference back into the path is reported as a closed chain through it |
| `CycleSearch.ClosingChain` | src/r2g/topo_sort.py:91-94 | the part of the path from the repeated table on, closed, is a simple cycle |
| `CycleSearch.ClosedWalkIntercepted` | src/r2g/topo_sort.py:81-107 | completeness: once all tables are finished every closed walk contains a reported closing reference |
| `CycleSearch.DistinctBySet` | src/r2g/topo_sort.py:71-78 | dropping repeats keeps one chain for every set of tables and no two over one set |
| `Lexer.Tokenize` | src/r2g/expressions.py:72-180 | the main loop returns exactly the token sequence, or the first error, that the single turns define |
| `Lexer.ReadToken` | src/r2g/expressions.py:76-177 | one turn of the loop, branch by branch, in the source's order |
| `Lexer.ReadString` | src/r2g/expressions.py:134-151 | the inner loop finds the closing quote and decodes the escapes |
| `Lexer.ReadNumber` | src/r2g/expressions.py:152-158 | digits with at most one point |
| `Lexer.NumberRefusedExactly` | src/r2g/expressions.py:152-161 | a number fails to convert if and only if one of its digits has no decimal value |
| `Lexer.BareDigitRefused` | src/r2g/expressions.py:152-161 | a text of one such digit is refused by the conversion |
| `Lexer.LexTerminated` | src/r2g/expressions.py:178-180 | a token sequence ends in its only end-of-input token, so the parser's cursor never passes it |
| `Characters.CaseEach` | src/r2g/expressions.py:169-171 | keywords and function names change case character by character |
| `Spelling.StepExactly` | src/r2g/expressions.py:60-177 | one turn gives a token if and only if a spelling of it stands there and no further: the words of a keyword in any letter case, either symbol, either quote, any escapes |
| `Spelling.LexExactly` | src/r2g/expressions.py:72-180 | a text is read as a token sequence, with its columns, if and only if it spells these tokens in order with any spaces between them |
| `ParserMachine.Machine.Level` | src/r2g/expressions.py:212-331 | each method returns what the grammar function says at that level and moves the cursor exactly behind it, within the tokens |
| `ParserMachine.Machine.Ternary` | src/r2g/expressions.py:212-220 | condition, branches and colon, the branches read at the loosest level |
| `ParserMachine.Machine.Fold` | src/r2g/expressions.py:222-282 | the operator loops build left-associated trees |
| `ParserMachine.Machine.Negation` | src/r2g/expressions.py:246-250 | NOT is read between conjunction and equality |
| `ParserMachine.Machine.Unary` | src/r2g/expressions.py:284-291 | minus builds a node, plus is dropped |
| `ParserMachine.Machine.Primary` | src/r2g/expressions.py:293-331 | literals, binds, parentheses and calls |
| `ParserMachine.Machine.Call` | src/r2g/expressions.py:313-328 | a name needs its parenthesis, and is turned to upper case |
| `ParserMachine.Machine.Arguments` | src/r2g/expressions.py:319-325 | the loop over the arguments |
| `ParserMachine.Machine.Expect` | src/r2g/expressions.py:199-203 | the cursor moves only past the expected token |
| `ParserMachine.ParseTokens` | src/r2g/expressions.py:205-210 | a parse succeeds only at the end of input; every level terminates |
| `Grammar.ParseExactly` | src/r2g/expressions.py:205-331 | a token sequence is parsed to a tree if and only if the grammar derives it with that tree: redundant parentheses and plus signs vanish, a call is named by the upper case of the name written |
| `Reading.ReadExactly` | src/r2g/expressions.py:72-331 | a text is read as a tree if and only if it spells tokens that the grammar derives with that tree |
| `Reading.Unambiguous` | src/r2g/expressions.py:205-331 | a text writes at most one tree |
| `ParserFacts.ParseBinds` | src/r2g/expressions.py:205-331 | a parsed tree references exactly the names of the BIND tokens and holds only operators the evaluator knows |
| `Printer.ParsePrinted` | src/r2g/expressions.py:212-331 | tokens printed with parentheses where precedence asks for them parse back to exactly the tree |
| `PrinterText.RenderedSpells` | src/r2g/expressions.py:76-177 | every printed token, strings escaped, is a spelling of it, and the printed text spells all of them |
| `PrinterText.RoundTrip` | src/r2g/expressions.py:72-331 | for every tree of the parser's node kinds, tokenizing and parsing its printed text gives that tree |
| `BindScan.ScanBindParams` | src/r2g/expressions.py:673-702 | the scanning loops return the references of the specification, in order |
| `BindScan.ScanIsBindTokens` | src/r2g/expressions.py:125-180 | from any position the independent scan finds exactly the BIND tokens, with their positions, of a text that tokenizes |
| `BindScan.ScanExactly` | src/r2g/expressions.py:673-702 | in any text a reference is found if and only if an at sign stands before a letter or underscore outside string literals, told character by character |
| `BindScan.NamesLongest` | src/r2g/expressions.py:695-699 | a reference is named by the longest word behind its at sign |
| `BindScan.ExtractBindReferences` | src/r2g/expressions.py:705-714 | each scanned name once, and one used before the first use of another comes before it |
| `Evaluator.TwoReadersAgree` | src/r2g/expressions.py:594-632 | for every text that compiles, the references collected from the tree are the names scanned from the text |
| `Evaluator.CompileExpression` | src/r2g/expressions.py:619-632 | compilation is total: blank text, a token error, a syntax error, an unsupported function, or a tree with its sorted references |
| `Compilation.CompiledExactly` | src/r2g/expressions.py:619-655 | a text compiles if and only if it writes a tree that calls library functions only, and then to that tree and its sorted references |
| `Compilation.UnsupportedExactly` | src/r2g/expressions.py:635-655 | a function is refused if and only if it is the first one called, reading left to right, that the library does not have |
| `Evaluator.ValidatedIsSupported` | src/r2g/expressions.py:635-655 | validation finds no name if and only if every call in the tree is supported |
| `Evaluator.EvalSafe` | src/r2g/expressions.py:523-580 | evaluating a validated tree never reaches an unsupported function, unknown operator or unknown node |
| `Evaluator.EvalReadsOnlyTouched` | src/r2g/expressions.py:523-580 | a result depends only on the columns read on the way, so operands cut short do not matter |
| `Semantics.EvalMeans` | src/r2g/expressions.py:461-580 | evaluation gives a result if and only if the rules of meaning do: null rules, the values that count as false, short circuits, operand order, errors of operands and of library calls |
| `Semantics.Negations` | src/r2g/expressions.py:536-565 | negation moves through conjunction and disjunction, and turns a choice around |
| `Semantics.Groupings` | src/r2g/expressions.py:552-565 | the logical operators and null coalescing may be grouped either way |
| `Evaluator.CompiledIsSafe` | src/r2g/expressions.py:583-632 | a compiled expression depends only on its references, absent columns reading as null, and fails only inside a library call |
| `BindRewrite.RewriteBindParams` | src/r2g/expressions.py:717-730 | the joined pieces are the text with each scanned reference replaced |
| `BindRewrite.RewriteKeepsGaps` | src/r2g/expressions.py:717-730 | source and result are the same gaps woven with two spellings of the same names: nothing outside a reference changes |
| `BindRewrite.RewriteNames` | src/r2g/expressions.py:717-730 | the names quoted in backticks in the result are the scanned names, in order |
| `BindRewrite.RewriteExact` | src/r2g/expressions.py:673-730 | no reference is left behind if and only if none directly follows another at sign outside strings |
| `BindRewrite.RewriteCompiledText` | src/r2g/expressions.py:673-730 | text that tokenizes is rewritten completely |
| `BindRewrite.DoubledBindSurvives` | src/r2g/expressions.py:717-730 | a doubled at sign leaves a reference to the row variable behind |
| `LabelMasks.EncodingUnique` | prototypes/lpg_bitmask/dictionary.py:108-119 | a label set has one chunk list, each chunk below 2^32 |
| `LabelMasks.EncodesOneMore` | prototypes/lpg_bitmask/dictionary.py:115-119 | setting a label's bit by division and remainder encodes one label more |
| `LabelMasks.DecodeEncoded` | prototypes/lpg_bitmask/dictionary.py:121-130 | decoding the chunks of a label set gives that set, under the vocabulary then or any later one |
| `LabelMasks.FilterExact` | prototypes/lpg_bitmask/dictionary.py:142-158 | the compiled filter passes a row if and only if the wanted labels are a subset of the row's, also for rows written under an earlier vocabulary whose later chunk fields are missing |
| `LabelMasks.PassesByChunk` | prototypes/lpg_bitmask/dictionary.py:150-158 | leaving out zero chunks does not change the test, and bind keys of different chunks differ |
| `LabelMasks.TooWideNeverPasses` | prototypes/lpg_bitmask/dictionary.py:142-158 | a number of more than 32 bits never passes the server's test, so masks have to be cut into chunks |
| `LabelDictionary.Dictionary.Add` | prototypes/lpg_bitmask/dictionary.py:62-75 | the next free bit, the old one for a known label, or refusal of a full vocabulary without a change |
| `LabelDictionary.Dictionary.Extend` | prototypes/lpg_bitmask/dictionary.py:77-79 | adds stop at the first refusal |
| `LabelDictionary.ExtendedKeeps` | prototypes/lpg_bitmask/dictionary.py:62-79 | however labels are added, bits are contiguous and distinct and old assignments never move |
| `LabelDictionary.Dictionary.Chunks` | prototypes/lpg_bitmask/dictionary.py:108-119 | the chunks encode exactly the labels, or the first unknown label is refused |
| `LabelDictionary.Dictionary.Mask` | prototypes/lpg_bitmask/dictionary.py:91-106 | a single mask only while one chunk suffices |
| `LabelDictionary.Dictionary.Labels` | prototypes/lpg_bitmask/dictionary.py:121-130 | the bit loops decode in bit order, ignoring bits without a label |
| `LabelDictionary.Dictionary.ChunkFilter` | prototypes/lpg_bitmask/dictionary.py:142-158 | the loop compiles the filter of the chunks that encode the labels |
| `LabelDictionary.Dictionary.MasksContaining` | prototypes/lpg_bitmask/dictionary.py:160-185 | if and only if the vocabulary has one to thirteen labels and the label is known: all masks with its bit, ascending |
| `LabelDictionary.MasksContainingExact` | prototypes/lpg_bitmask/dictionary.py:160-177 | there are exactly 2^(n-1) of them, and the mask of a label set is among them if and only if the set has the label |
| `LabelDictionary.Load` | prototypes/lpg_bitmask/dictionary.py:196-214 | a file is loaded if and only if its chunk width is 32 or not given, its bits are contiguous and there are no more than 32 for each chunk, 256 if it does not say how many |
| `LabelDictionary.SaveAndLoad` | prototypes/lpg_bitmask/dictionary.py:187-214 | loading what was saved gives an equal dictionary |
| `LabelDictionary.VocabularyUnique` | prototypes/lpg_bitmask/dictionary.py:209-213 | contiguous bits determine the vocabulary and its order |
| `Keys.SanitizeKeyComponent` | src/r2g/keys.py:32-46 | the nested loop computes the specified text, or fails at a lone surrogate |
| `Keys.SanitizeTotal` | src/r2g/keys.py:32-46 | it fails if and only if a character is no code point or a surrogate |
| `Keys.SanitizeRoundTrip` | src/r2g/keys.py:11-17 | percent-decoding and a strict UTF-8 decoder give the text back |
| `Keys.SanitizeInjective` | src/r2g/keys.py:11-17 | different texts have different keys |
| `Keys.SanitizedAlphabet` | src/r2g/keys.py:24-46 | every character of a key is one of the listed letters, digits and marks, or a percent sign with two upper-case hexadecimal digits behind it |
| `Keys.LegalUnchanged` | src/r2g/keys.py:24-46 | a text is its own key if and only if all its characters are listed |
| `Keys.LegalAlone` | src/r2g/keys.py:24-28 | a single character is its own key if and only if it is listed |
| `Keys.SanitizedAppend` | src/r2g/keys.py:32-46 | sanitizing distributes over concatenation |
| `Keys.DecodeUtf8` | src/r2g/keys.py:44-45 | the encoded bytes of a code point decode to it and nothing else, whatever follows |
| `CuratedLabels.PlanCuratedLabels` | src/r2g/curated_labels.py:254-433 | the plan, records included, is the one the claims and the stable set of renames determine |
| `CuratedLabels.ClaimAll` | src/r2g/curated_labels.py:282-369 | the claim of a concept depends on the entries naming it: unmatched, join key, curated twice or without identifier, each citing the last of them, or wanted |
| `CuratedLabels.RefuseRound` | src/r2g/curated_labels.py:375-408 | a round refuses exactly the renames whose name another concept of the name space is emitted under |
| `CuratedLabels.RefuseUntilStable` | src/r2g/curated_labels.py:371-414 | the loop ends, because the accepted set shrinks, in a set in which nothing is refused |
| `CuratedLabels.StableKeepsAll` | src/r2g/curated_labels.py:371-414 | nothing is ever refused if and only if no wanted name is held once all renames are made |
| `CuratedLabels.RefusedForCause` | src/r2g/curated_labels.py:395-414 | every refused rename was refused in a round in which its name was held |
| `CuratedLabels.NoNewCollision` | src/r2g/curated_labels.py:371-414 | two concepts of one name space share an emitted name only if neither is renamed and their generated names were equal |
| `CuratedLabels.PlanCreatesNoCollision` | src/r2g/curated_labels.py:212-219 | the same of the names an exporter looks up in the plan; entity names stay distinct |
| `CuratedLabels.RecordsExact` | src/r2g/curated_labels.py:416-433 | one record for each concept named, citing the last entry that names it; applied or unchanged if and only if annotated, and applied if and only if looked up under another name |
| `CuratedExact.DecidedExactly` | src/r2g/curated_labels.py:282-433 | when a concept is unmatched, a join key, curated twice or without identifier, each if and only if; its record has the words, identifier and decider of the last entry naming it, and its annotation those words and the generated name if another is used |
| `CuratedLabels.KeptNames` | src/r2g/curated_labels.py:289-369 | a concept curated twice, a join key and an unmatched entry leave the generated name |
| `CuratedLabels.OrderIndependent` | src/r2g/curated_labels.py:270-276 | renames, annotations and resolutions do not depend on the order of the document |
| `CuratedLabels.RecordsFixedExactly` | src/r2g/curated_labels.py:289-304 | the records are the same under every shuffle of the document if and only if no concept has two entries that differ in label, identifier or decider |
| `CuratedLabels.RecordFollowsOrder` | src/r2g/curated_labels.py:291-295 | of two entries for one concept the record carries the label of the one listed last |
| `CuratedLabels.SwapAllowed` | src/r2g/curated_labels.py:371-373 | two entities can swap names |
| `LabelCollisions.Document.ResolveLabelCollisions` | src/r2g/csi.py:192-401 | with policy `off`, `warn` or `qualify`: records, entities and physical side are exactly those specified |
| `LabelCollisions.ResolveLabels` | src/r2g/csi.py:266-325 | the loop over the colliding labels, in sorted order, with its occupied names |
| `LabelCollisions.TabulateOwners` | src/r2g/csi.py:258-261 | every label's owners in document order |
| `LabelCollisions.Document.Apply` | src/r2g/csi.py:378-399 | entities with renames get new property names, and their physical keys follow |
| `LabelCollisions.QualifiedReads` | src/r2g/csi.py:104-127 | a qualified label is the entity's name and the property's, with only the first letter of each changed in case: `contractRenewalDate` |
| `LabelCollisions.CollidingTwice` | src/r2g/csi.py:263 | a label collides if and only if it occurs at two places |
| `LabelCollisions.NewNamesSafe` | src/r2g/csi.py:275-296 | a new label differs from every other new label, every label held once and every label kept by an earlier group |
| `LabelCollisions.NewCollisionExactly` | src/r2g/csi.py:275-325 | labels that differed become equal if and only if a group is kept after an earlier one was given its label |
| `LabelCollisions.KeptTooLateExample` | src/r2g/csi.py:275-325 | a document of four entities in which that happens |
| `LabelCollisions.SharedAfter` | src/r2g/csi.py:297-325 | places that shared a label share it afterwards if and only if their group was kept |
| `LabelCollisions.AllQualifiedUnique` | src/r2g/csi.py:234-239 | if every group is qualified each label is carried at one place only |
| `LabelCollisions.QualifiedExactly` | src/r2g/csi.py:275-325 | every group but the join keys is qualified if and only if the new names differ from each other, from every label held once and from every join key decided earlier |
| `LabelCollisions.NoneMadeEqual` | src/r2g/csi.py:275-325 | if no new name is a colliding label that sorts later, no group is kept too late and no labels are made equal |
| `LabelCollisions.DocumentKeepsApart` | src/r2g/csi.py:378-399 | and in the resolved document labels that differed still differ |
| `LabelCollisions.OnlyJoinKeysShared` | src/r2g/csi.py:234-239 | if the new names differ and none is a label of the document, two properties of the resolved document share a label if and only if they shared a join key |
| `LabelCollisions.RenamedOccurrences` | src/r2g/csi.py:378-399 | the labels of the resolved document are the renamed labels of the document, place by place |
| `LabelCollisions.KeptUntouched` | src/r2g/csi.py:280-286 | a refused group keeps its label everywhere |
| `LabelCollisions.DocumentFollows` | src/r2g/csi.py:378-399 | unless a group is kept too late, every entity's physical keys match its conceptual names, spec by spec and in order |
| `LabelCollisions.PhysicalSideFollows` | src/r2g/csi.py:378-399 | the same, told from the document alone: if no new name is a colliding label that sorts later |
| `LabelCollisions.RekeyedLoses` | src/r2g/csi.py:395-399 | a physical spec is lost if and only if two properties of the entity get one name |
| `HistoryOutbox.OutboxSafety` | src/r2g/governed.py:226-287 | over all runs with interleaved deliverers and stops between any two steps: a queued entry stays in a folder unchanged, is in the history at most once, is in the history if filed as delivered, a pending file has the token it was sent with, and a finished file has none |
| `HistoryOutbox.TokenKept` | src/r2g/governed.py:243-266 | over all runs every pending file and every copy a deliverer holds has the token its entry was sent with, and the control plane is asked with that token |
| `HistoryOutbox.QueuedIsSent` | src/r2g/governed.py:243-253 | what was sent once is what stays queued, whatever runs after |
| `HistoryOutbox.SafeNext` | src/r2g/governed.py:243-287 | every single step keeps that invariant and forgets nothing |
| `HistoryOutbox.ExactNext` | src/r2g/governed.py:255-287 | under the lock a step breaks the agreement of folders and history if and only if the answer is lost or the deliverer stops between recording and unlinking |
| `HistoryOutbox.UndisturbedRun` | src/r2g/governed.py:255-287 | without such a step an entry is in the history if and only if it is filed as delivered and no longer pending |
| `HistoryOutbox.RecordedYetUndeliverable` | src/r2g/governed.py:274-287 | a run after which a recorded entry is filed as undeliverable |
| `HistoryOutbox.AnswerTrueExactly` | src/r2g/governed.py:255-280 | an entry answered as delivered is filed so and in the history if and only if its file was there or had been filed so |
| `HistoryOutbox.UndeliverableAnsweredDelivered` | src/r2g/governed.py:258-261 | an entry filed as undeliverable and in no history is answered as delivered at the next try |
| `HistoryOutbox.RedeliveryHeals` | src/r2g/governed.py:226-232 | a delivery told that the entry was recorded files it as delivered for good |
| `HistoryOutbox.TriedExactly` | src/r2g/governed.py:255-287 | what a try leaves in the folders and the history for each answer: attempts, status, token and the kept part of the error |
| `HistoryOutbox.DeliveryRuns` | src/r2g/governed.py:255-287 | an uninterrupted delivery is a run of the steps with one outcome for each answer |
| `HistoryOutbox.Outbox.Send` | src/r2g/governed.py:243-253 | the entry is queued with its token before anything else, and then delivered with it unless a background task is to |
| `HistoryOutbox.Outbox.Deliver` | src/r2g/governed.py:255-280 | both folders and the history afterwards, and the status returned, for each answer and for a file that is gone |
| `HistoryOutbox.Outbox.MarkDone` | src/r2g/governed.py:282-287 | filed without the token and one attempt more, then out of the queue |
| `HistoryOutbox.Outbox.DeliverPending` | src/r2g/governed.py:289-298 | each listed file is tried once, in order; folders and history are those after these tries, and each status is counted as often as it was answered |
| `HistoryOutbox.TriesCounted` | src/r2g/governed.py:255-287 | however often the files are tried, the attempts a file records are the requests the control plane was asked for its entry |
| `HistoryOutbox.SendCounted` | src/r2g/governed.py:243-253 | sending keeps that, for every file |
| `MappingChanges.SaveChanges` | src/r2g/mapping_changes.py:86-126 | the three loops list exactly the specified items, relationships by their identity in either serialised form |
| `MappingChanges.NoChangesExactly` | src/r2g/mapping_changes.py:86-126 | nothing is listed if and only if settings, tables and, up to order, relationships are the same |
| `MappingChanges.ChangedTableListed` | src/r2g/mapping_changes.py:96-104 | a changed table is listed with the class it had and the class it gets |
| `MappingChanges.ChangedEdgeListed` | src/r2g/mapping_changes.py:112-126 | a changed relationship is listed with exactly the classes its table starts from, before and after |
| `MappingChanges.ChangedSettingListed` | src/r2g/mapping_changes.py:91-94 | a changed setting is listed under the project-wide rules |
| `MappingChanges.WhatEmptyExactly` | src/r2g/mapping_changes.py:120-125 | a listed relationship shows no differing field if and only if some relationship sorts first of its identity both before and after |
| `MappingChanges.WhatShown` | src/r2g/mapping_changes.py:120-125 | it always shows one while neither side has two relationships of that identity |
| `MappingChanges.DoubledShowsNothing` | src/r2g/mapping_changes.py:112-126 | a relationship given a second time is listed with nothing that differs |
| `MappingChanges.TermShowsNothing` | src/r2g/mapping_changes.py:112-126 | and so is one with a term that gets a second without, if its text sorts first |
| `MappingChanges.RecordedUnderCurrentClass` | src/r2g/governed.py:160-166 | a listed relationship is recorded under a class it has afterwards if and only if it gained a class or still has the last one it had before |
| `MappingChanges.RecordedUnderLostClass` | src/r2g/governed.py:160-166 | two mappings for which it is recorded under a class it has no longer |
| `MappingChanges.TableUnderCurrentClass` | src/r2g/governed.py:160-166 | a changed table that remains is recorded under the class it has now |
| `MappingChanges.UniqueExact` | src/r2g/mapping_changes.py:66-67 | each class once |
| `MappingChanges.GroupsAgree` | src/r2g/mapping_changes.py:106-117 | the groups by identity agree everywhere if and only if the relationships are the same up to order |
| `ChangesListed.EachItemSays` | src/r2g/mapping_changes.py:55-126 | every item is a setting, table or relationship that changed, with exactly its classes before and after and "added", "removed" or the fields that read differently, in name order |
| `ChangesListed.StartsExactly` | src/r2g/mapping_changes.py:77-83 | the classes a relationship starts from: of every table mapped from that source; if there is none, of the table stored under its name; if there is none, project-wide |
| `ChangesListed.WhatExactly` | src/r2g/mapping_changes.py:58-63 | "added" if missing before, "removed" if missing after, else exactly the fields that read differently |
| `ChangesListed.JoinInjective` | src/r2g/mapping_changes.py:70-74 | lists of columns whose names have no comma are told apart |
| `ChangesListed.PairIdentity` | src/r2g/mapping_changes.py:70-74 | a relationship over two columns is identified by both, in order |
| `ChangesListed.IdentityNames` | src/r2g/mapping_changes.py:70-74 | a relationship is identified by its collection, tables and columns, the same in either serialised form |
| `Governance.Govern` | src/r2g/governed.py:179-198 | each class is asked about once, and all of that precedes all recording; permitted if and only if every pair is; otherwise exactly the denied pairs are recorded, in order |
| `Governance.AskItem` | src/r2g/governed.py:188-192 | the inner loop asks only about classes not asked about yet |
| `Governance.RefusedExact` | src/r2g/governed.py:188-195 | the refusals are exactly the denied pairs of a part and a class of it |
| `Governance.PermittedTable` | src/r2g/governed.py:179-198 | a save let through was permitted on the old and the new class of every table that differs |
| `Governance.PermittedEdge` | src/r2g/governed.py:179-198 | and on every class a relationship that differs starts from |
| `Governance.PermittedSetting` | src/r2g/governed.py:179-198 | and project-wide if a setting differs |
| `CdcConflicts.LastDeltaDecides` | src/r2g/cdc/conflict.py:27-31 | under source_wins each document is as the last delta about it says, untouched ones as before |
| `CdcConflicts.RedeliveryConverges` | src/r2g/cdc/conflict.py:111-236 | however often a reader of the log goes back, once it has reached the end the store is as after one clean pass |
| `CdcConflicts.ReplayedSuffix` | src/r2g/cdc/conflict.py:111-236 | applying any suffix of the log again leaves the store as it is |
| `CdcConflicts.PoliciesAgree` | src/r2g/cdc/conflict.py:25-46 | a run under fail raises if and only if source_wins records a conflict; otherwise the three policies end in one store and record nothing |
| `CdcConflicts.RaisedAtFirst` | src/r2g/cdc/conflict.py:168-171 | a run that raises has applied exactly the deltas before the first conflict and recorded that one |
| `CdcConflicts.SkippingDiverges` | src/r2g/cdc/conflict.py:156-166 | a log whose replay under log_and_skip changes the store |
| `CdcConflicts.ReplaySkippingAt` | src/r2g/cdc/conflict.py:156-166 | under log_and_skip a replay changes a document if and only if it was absent, is never deleted, and its last replace precedes its first insert with another content |
| `CdcConflicts.ReplaySkippingExactly` | src/r2g/cdc/conflict.py:111-236 | a replay leaves the store as it is if and only if no document is in that case |
| `CdcConflicts.SuffixSkippingExactly` | src/r2g/cdc/conflict.py:111-236 | the same for replaying a suffix of the log |
| `CdcConflicts.ConflictLog.Record` | src/r2g/cdc/conflict.py:76-80 | the counts stay those of the events |
| `CdcConflicts.ConflictLog.Summary` | src/r2g/cdc/conflict.py:82-93 | the total is the sum of the counts by type |
| `CdcConflicts.ConflictResolver.ResolveInsert` | src/r2g/cdc/conflict.py:111-171 | store, log, result and raising for each policy and either presence of the document |
| `CdcConflicts.ConflictResolver.ResolveReplace` | src/r2g/cdc/conflict.py:173-221 | the same for a replace |
| `CdcConflicts.ConflictResolver.ResolveDelete` | src/r2g/cdc/conflict.py:223-236 | a delete leaves the document absent and records nothing |
| `CdcConflicts.ConflictResolver.ApplyDeltas` | src/r2g/cdc/handler.py:238-245 | a batch ends in the store and log of the specified run, stopping where a conflict is raised |
| `ConfigMigration.MigrateConfig` | src/r2g/config_migrate.py:63-184 | configuration and report are exactly those specified |
| `ConfigMigration.AddCollections` | src/r2g/config_migrate.py:78-90 | a collection for every table without one, in name order |
| `ConfigMigration.AddedAsIs` | src/r2g/config_migrate.py:82-90 | the collection of a table that had none is named after it, with nothing renamed or left out |
| `ConfigMigration.JoinTableExactly` | src/r2g/config.py:178-193 | a table counts as a join table if and only if it has two foreign keys and each column is a key column or one junction tables are known to carry |
| `ConfigMigration.CleanCollections` | src/r2g/config_migrate.py:96-128 | the loop cleans every collection of a live table and reports each name dropped |
| `ConfigMigration.KeepEdges` | src/r2g/config_migrate.py:137-146 | relationships with a foreign key are kept, the others reported |
| `ConfigMigration.AddEdges` | src/r2g/config_migrate.py:148-168 | one relationship for every foreign key that had none, with a suffix if its name is used |
| `ConfigMigration.AlignedExactly` | src/r2g/config_migrate.py:130-168 | the relationships' signatures are the schema's foreign keys if and only if every column name is plain |
| `ConfigMigration.CommaMisaligned` | src/r2g/types.py:242-263 | a foreign key over a column with a comma in its name never gets a relationship that matches it, and is added again by the next migration |
| `ConfigMigration.NormalFieldsExact` | src/r2g/types.py:242-263 | the constructor leaves plain names only, and changes nothing if and only if all were plain |
| `CleanedNames.ListedColumns` | src/r2g/types.py:242-263 | plain column names written as one text with commas are read back as these columns |
| `CleanedNames.StripExactly` | src/r2g/types.py:242-263 | stripping takes all spaces from both ends and nothing else |
| `ConfigMigration.SurvivingInOrder` | src/r2g/config_migrate.py:137-146 | the relationships kept are those with a foreign key, unchanged and in order |
| `ConfigMigration.SurvivorsFirst` | src/r2g/config_migrate.py:146-162 | they come before the new ones |
| `ConfigMigration.NoStaleNames` | src/r2g/config_migrate.py:96-182 | no live collection names a dropped column in its mappings, exclude or include list, and overrides are kept if and only if table and column are there |
| `CleanedNames.CleanedExactly` | src/r2g/config_migrate.py:96-128 | a collection of a live table keeps everything but the columns it names that are gone, lists in their order; an include list that loses all its columns is dropped; other collections are left alone |
| `CleanedNames.OverridesExactly` | src/r2g/config_migrate.py:170-184 | a type override is kept, with its value, if and only if it has no dot, or what stands before the first one is a table and what stands behind it a column of it |
| `ConfigMigration.CleanCollectionExact` | src/r2g/config_migrate.py:101-128 | a collection is unchanged, and nothing reported, if and only if it named live columns only |
| `ConfigMigration.KeptExactly` | src/r2g/config_migrate.py:81-90 | a collection keeps its settings if and only if its key is not the name of a table being added |
| `ConfigMigration.SettledExactly` | src/r2g/config_migrate.py:63-184 | a second migration adds nothing, and then changes nothing at all, if and only if no table lost its collection and every key is plain |
| `ConfigMigration.KeyedByTableLosesNothing` | src/r2g/config_migrate.py:78-90 | with collections keyed by their tables nothing is lost |
| `ConfigMigration.KeyedOtherwiseLoses` | src/r2g/config_migrate.py:78-90 | a collection keyed by the name of a table being added is replaced, and its own table gets a new one from the next migration |
| `ConfigMigration.NameTakenExactly` | src/r2g/config_migrate.py:152-158 | a new relationship gets a name in use if and only if its plain name and its name with the columns are both in use |
| `ConfigMigration.NamesDifferExactly` | src/r2g/config_migrate.py:148-168 | all relationships have different names afterwards if and only if they had before and no new foreign key found both its names in use |
| `ConfigMigration.NamesRunTogether` | src/r2g/config_migrate.py:152-158 | three foreign keys to one table of which the second and third get one name |
| `ConfigMigration.FirstDotExact` | src/r2g/config_migrate.py:170-176 | an override is split at its first dot |
| `Renaming.KeyRenamed` | src/r2g/mapping_diff.py:28-35 | renaming one key moves its value to its new name, and doing so again changes nothing |
| `MappingReload.DiffMappings` | src/r2g/mapping_diff.py:395-420 | the plan of the specification, which the next three rows tell from the two mappings alone |
| `RelationshipReloads.PlannedExactly` | src/r2g/mapping_diff.py:132-211 | each action is planned once: a rename if and only if a table's collection changes, a reload if and only if a relationship of that name, in either mapping, has such a table at one of its ends, an update if and only if a column's attribute changes and neither name is reserved, and the graph if and only if any collection changes |
| `RelationshipReloads.RenamedFirstExactly` | src/r2g/mapping_diff.py:69-75 | a rename stands before another rename or a reload if and only if some table that asks for it is listed with no table before it that asks for the other |
| `RelationshipReloads.PhasesInOrder` | src/r2g/mapping_diff.py:395-420 | renames and reloads, then attribute updates, then the graph |
| `RelationshipReloads.ReloadedBetween` | src/r2g/mapping_diff.py:132-164 | a relationship whose two ends are renamed is reloaded between the renames, once |
| `MappingReload.DetectCollectionRenamed` | src/r2g/mapping_diff.py:132-164 | the first part of the plan, without repeats; `RelationshipReloads.CollectionsExactly` says what is in it |
| `MappingReload.DetectFieldMappingChanges` | src/r2g/mapping_diff.py:167-211 | the second part: one rename for every column whose attribute changes, system attributes excepted |
| `MappingReload.InPlaceIsReload` | src/r2g/selective_reload.py:71-141 | executing the plan on a database loaded under the old mapping, or carried over in part, gives the database loaded under the new one |
| `MappingReload.MigratesOnce` | src/r2g/selective_reload.py:71-141 | from the old mapping's database to the new one's, and a second execution changes nothing |
| `MappingReload.InterruptedIsResumed` | src/r2g/selective_reload.py:71-141 | an execution that stops after any action can be run again from the start |
| `MappingReload.OneRenameMigrates` | src/r2g/mapping_diff.py:132-211 | renaming one table's collection and one of its attributes meets the conditions of the theorem |
| `MappingReload.PlanSplits` | src/r2g/mapping_diff.py:395-420 | the plan renames every collection that changes and then every attribute that changes, and nothing else |
| `MappingReload.Reloader.ExecutePlan` | src/r2g/selective_reload.py:71-96 | actions are executed in order and each is reported as executed, skipped or failed, but for a rename to the same name |
| `MappingReload.Reloader.Dispatch` | src/r2g/selective_reload.py:98-273 | what one action does to the collections with no source connected |
| `MappingReload.EachReported` | src/r2g/selective_reload.py:71-96 | every action is reported once, but for renames to the same name |
| `MappingReload.PlanReported` | src/r2g/mapping_diff.py:132-164 | a plan for two mappings holds no such rename, so each of its actions is reported once |
| `MappingReload.ReportedTruly` | src/r2g/selective_reload.py:114-273 | a rename is reported as executed if and only if it changed the database; an update unless a name is reserved or its collection is missing |
| `MappingReloadExact.FieldsExactly` | src/r2g/mapping_diff.py:167-211 | for the attributes of a table, executing the plan and executing it again gives what loading gives, on every row, if and only if no name that changes becomes an old name of a column and none is a system attribute |
| `MappingReloadExact.FieldPlanColumns` | src/r2g/mapping_diff.py:167-211 | the plan for one table has exactly one rename for each column that changes |
| `MappingReloadExact.MovesOn` | src/r2g/mapping_diff.py:28-35 | a value that takes a name still to be renamed is moved on |
| `MappingReloadExact.MovesAgain` | src/r2g/mapping_diff.py:28-35 | a value that takes a name already renamed is moved by a second execution |
| `MappingReloadExact.SwapLosesValue` | src/r2g/mapping_diff.py:167-211 | the plan for two attributes that swap names, and the value its execution loses |
| `MappingReloadExact.CollectionsExactly` | src/r2g/selective_reload.py:114-141 | for mappings that differ in collection names, executing the plan gives the database loaded again, whatever the collections hold, if and only if each name taken over belongs to a table renamed earlier |
| `MappingReloadExact.PlanRetargets` | src/r2g/selective_reload.py:121-129 | in any case every collection keeps its documents, under its new name unless a rename was skipped |
| `MappingReloadExact.SwapUpdatesOther` | src/r2g/selective_reload.py:114-141 | the plan for two tables that swap collections, and the other table's documents in which its execution renames an attribute |
| `RelationshipReloads.CollectionsExactly` | src/r2g/mapping_diff.py:132-164 | what the renamed collections ask for: their renames, and the reload of the relationships they join |
| `ConnectedReload.SameRenames` | src/r2g/selective_reload.py:114-141 | a rename does the same to the collections whether or not a source is connected |
| `ConnectedReload.LinksAreReloaded` | src/r2g/selective_reload.py:193-231 | with a source connected, executing the plan leaves the documents of every relationship as loading them under the new mapping does, also after an execution that was stopped |
| `ConnectedReload.NoEndMissing` | src/r2g/selective_reload.py:71-231 | and then they are the documents of the source, pointing from and to the collections of the tables they join, which exist |
| `ConnectedReload.LeftBehindExactly` | src/r2g/selective_reload.py:114-231 | the old collection of a renamed table stays if and only if a relationship leads from it to a renamed table listed before it |
| `ConnectedReload.ReferencedFirstLeavesBehind` | src/r2g/selective_reload.py:114-231 | two renamed tables, the one referenced listed first, for which that happens |

## Left out
- Unicode tables: what is a letter, digit, space, and the case of a character, is a parameter (`Characters.CharTable`) that agrees with ASCII and keeps the classes apart.
- Floating point: decimals stay text; arithmetic, comparison and the built-in functions of expressions are parameters of the evaluator, as is the truth of a value.
- Python's limits: recursion depth, and the length of a text `int` accepts.
- Keyword lookup and label derivation in `naming.py`, so the identifier a curated label yields is a parameter, and so is the order of two JSON texts.
- Policy `roles` of the label collisions; renaming entities after a curated plan (`src/r2g/csi.py:405-460`).
- Policy `last_write_wins`: stamps are opaque texts and inserts carry none.
- Documents without a `_key`, and unique constraints other than the key's.
- Error message texts, log lines, file times. `deliver_pending` is given the files it tries, oldest first; the lock is modelled as a condition on runs and otherwise deliveries interleave freely.
- Curated entries are claimed in the order given instead of sorted by name: the claim of a concept depends only on its own entries, whose order a stable sort keeps. Only the generated name of an annotation's alternative labels is kept, and of a record the reason text and the kind are left out.
- Lists inside collision and migration reports (owners, clashes, orphaned collections, cleaned fields) are sets.
- Route classification, keeping versions, load and migration items, and the named graph of `governed.py` and `mapping_changes.py`: easy members.
- Reloading, adding and dropping collections, adding and dropping relationships, and the named graph: with no source connected they are skipped. Reloading relationships from a source is `ConnectedReload`, on values: it has the collections, and the relationship documents by key with the collections they name, and no other content; the source does not change while it runs.
- ConnectedReload.LinksAreReloaded: for mappings with the same relationships, each with a collection of its own; of relationships that share one, the reload empties it and loads only those that start in the first one's table.
- The columns named by syntax errors are those of the model's parser; the grammar says which texts have one.
- The include list becoming empty: the source turns it into no list at all, and so does the model; that every column is then loaded is not discussed.
- Attribute types, coercion and field expressions of loaded documents: a row's values are taken as loaded, and computed attributes are the same under both mappings.
- MappingReload.InPlaceIsReload: requires fresh, distinct and unreserved new names, because renames are executed one at a time; `MappingReloadExact` says what happens without.
- MappingReload.DiffMappings: plans collection and attribute renames only; differing relationships, field lists, type overrides and key separators, and added or removed tables, are not planned for.
- Exactness of carrying over is proved for the attributes of one table and for the collection names by themselves; for both changing together there is the refinement theorem and the swap of two tables.
- Governance.Govern: the gateway always answers, as the control plane's protocol promises (`src/r2g/control_plane.py:135-137`).
