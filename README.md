# Assembly parts inventory — a Dafny model of the inventory engine

The system keeps stock for two kinds of parts. A RAW part is an atomic stock
unit. An ASSEMBLED part is built from a bill of materials (BOM): a list of
constituent part ids, each with a per-unit quantity. This project models the
engine behind its two write use cases:

- **createPart** validates an assembly's BOM against the stored parts. Then
  it runs a cycle check that follows stored assemblies by id but compares
  them by name: it rejects the BOM when a name comes round again. Next it
  generates a readable id from the name and inserts the record with stock 0.
- **addInventory** adds stock. For a RAW part it is a plain increment. For an
  ASSEMBLED part it runs three steps:
  - a check pass over the whole BOM;
  - a deduction pass, one decrement per BOM entry;
  - a credit of the assembly.

The project also models the document schema (field rules, the RAW/ASSEMBLED
shape rule and the JSON view) and the three id formats.

Modules, one per source file:

- `PartTypes` (`part_types.dfy`) holds the part kinds, BOM entries, part
  records, the error kinds and the `Option`/`Result`/`Outcome` wrappers.
- `PartModel` (`part_model.dfy`) holds the schema as predicates
  (`WellFormed`, `ValidRecord`) and the `toJSON` transform.
- `IdGenerator` (`id_generator.dfy`) holds name sanitisation and the three id
  formats. The random suffix and the ObjectId are parameters.
- `PartService` (`part_service.dfy`) models the store and the service.
  - The parts collection is a `map` from `_id` to record. It is the field of
    class `PartService`, whose methods update it in place.
  - Each method is proved against a specification function of the old store,
    for example `AddInventoryOutcome` or `CreateOutcome`.
  - Lemmas prove the behaviour the service promises about those functions.

How the store calls are modelled:

- `save()` validates the document against the schema, then writes it. For a
  new document, the unique index on `_id` is checked before the write.
- The schema used is `ValidRecord`, the corrected one from "Findings": an
  ASSEMBLED part must carry a parts list. As written, Mongoose lets such a
  part through without one. An assembly without a parts list is therefore
  never stored in the model. In the running system, addInventory on one
  would fail while iterating the absent list.
- createPart's catch is modelled in its corrected form, `CatchCreateError`
  from "Findings": only the store's duplicate-key error becomes a conflict.
  Under it, a conflict comes only from a generated `_id` that is already
  taken. The catch as written is `CatchCreateErrorAsWritten`.
- `updateOne` with `$inc` is an unconditional increment. It runs no
  validator, and a missing id changes nothing.
- Store calls happen one after another, in the order the service awaits
  them. Nothing is rolled back.

Three store invariants are used:

- `StoreValid`: every record sits under its own id and satisfies the schema,
  stock aside. It is the class invariant `Valid()`.
- `ConsistentStore`: additionally, every BOM lists distinct existing parts
  other than its owner, and no stock is negative. Both use cases preserve it.
- `IdAcyclic`: the stored parts, each linked to the stored parts its BOM lists,
  form no cycle. Equivalently, some ranking puts every part above its
  constituents. `NoIdCycle` proves that no chain of BOM links returns to its
  start. createPart keeps it on a consistent store, and addInventory on any
  valid store.

Two facts about the code shape the model:

- **Names are not unique.** The schema only indexes `name`, without a unique
  constraint, so two parts may share a name. The store itself never rejects a
  record for its name.
  - `RawCreateIgnoresNames` proves that, for a RAW part, the names already
    stored play no part in whether the create succeeds. Only the generated
    `_id` can collide.
  - For an assembly, stored names do matter. `AssemblyCreateRejectsSharedName`
    proves that listing a stored assembly with the new part's own name makes
    the create fail as circular.
  - `SharedNameLooksCircular` proves that the name-based cycle check then
    rejects an assembly whose BOM lists another assembly with the same name.
  - The name-based check is not what keeps the id graph acyclic. The fresh
    id and the validated BOM do: the new part lists only stored parts, and
    no stored BOM lists an id that was not stored (`CreateKeepsIdAcyclic`).
- **No conditional decrement and no rollback.** The deduction reads the
  stock, then applies an unconditional `$inc` per BOM entry. No decrement is
  guarded by the store and none is undone.
  - `DeductEffect` and `AddInventoryAssembledSuccess` state what that
    deduction does.
  - `RepeatedIdOversells` shows the stock going negative when a BOM lists
    the same id twice. Such a BOM cannot be stored through `createPart`.

## Model

| member | source | states |
|---|---|---|
| PartModel.ValidConstituent | src/models/part.model.ts:7-10 | computes the rule for one BOM entry: a non-empty id and a quantity of at least 1 |
| PartModel.PartsShapeOk | src/models/part.model.ts:38-46 | computes the custom `parts` validator: a RAW part has no list or an empty one, an ASSEMBLED part a non-empty one |
| PartModel.WellFormed | src/models/part.model.ts:12-47 | computes the schema minus the stock minimum: non-empty `_id` and `name`, valid entries, and the shape rule applied even when `parts` is absent |
| PartModel.ValidRecord | src/models/part.model.ts:12-47 | computes the corrected schema: `WellFormed` plus a stock of at least 0 (`min: 0`) |
| PartModel.SchemaAcceptsAsWritten | src/models/part.model.ts:12-47 | computes the schema as Mongoose applies it: the entry rules and the shape validator run only when `parts` is present |
| PartModel.ShapeRuleSeparatesKinds | src/models/part.model.ts:35-47 | a constituent list is acceptable for RAW exactly when it is not acceptable for ASSEMBLED; for RAW, exactly when it is absent or empty |
| PartModel.BomlessAssemblyAccepted | src/models/part.model.ts:35-47 | the schema as written accepts an ASSEMBLED document with no parts list and the corrected schema rejects it; on every other document the two agree |
| PartModel.BomPresentIffAssembled | src/models/part.model.ts:35-47 | a schema-valid part has a non-empty BOM exactly when it is ASSEMBLED, and an ASSEMBLED part always carries a parts list |
| PartModel.ToJson | src/models/part.model.ts:51-57 | the JSON view moves the value of `_id` to `id`, drops `_id`, and keeps every other key and value |
| IdGenerator.ToLower | src/utils/id.generator.ts:15 | `toLowerCase`: same length, and each character is A-Z lowered by 32 or kept |
| IdGenerator.DashNonAlnum | src/utils/id.generator.ts:16 | same length; each lower-case letter or digit is kept and every other character becomes '-' |
| IdGenerator.CollapseDashes | src/utils/id.generator.ts:17 | no two adjacent dashes in the result; no longer than the input; the first and last characters are kept; a string of a-z, 0-9 and '-' stays one |
| IdGenerator.CollapseShortensRun | src/utils/id.generator.ts:17 | a run of two dashes collapses as a single dash does; with `CollapseFixesSingleDashes` every maximal run of '-' leaves exactly one '-' |
| IdGenerator.CollapseFixesSingleDashes | src/utils/id.generator.ts:17 | a string with no double dash is left unchanged |
| IdGenerator.TrimDashes | src/utils/id.generator.ts:18 | on a string without double dashes, the result neither starts nor ends with '-' and still has no double dash; a string of a-z, 0-9 and '-' stays one |
| IdGenerator.TrimRemovesOnlyEdgeDashes | src/utils/id.generator.ts:18 | the input is the result with at most one '-' before it and at most one '-' after it; a leading or trailing '-' is always removed |
| IdGenerator.Sanitize | src/utils/id.generator.ts:15-18 | the sanitised name uses only a-z, 0-9 and '-', has no "--", and does not start or end with '-' |
| IdGenerator.SanitizeKeepsAlnums | src/utils/id.generator.ts:15-18 | sanitising keeps every letter and digit of the lower-cased name, in order |
| IdGenerator.SanitizeIdempotent | src/utils/id.generator.ts:15-18 | sanitising a sanitised name changes nothing |
| IdGenerator.SanitizeEmptyIff | src/utils/id.generator.ts:15-18 | the sanitised name is empty exactly when the name has no ASCII letter or digit |
| IdGenerator.IsRandomSuffix | src/utils/id.generator.ts:4-10 | computes the values `generateRandomString(4)` can return: four characters from a-z and 0-9 |
| IdGenerator.GeneratePartId | src/utils/id.generator.ts:14-22 | the id is the sanitised name, '-', then the 4-character suffix; every character is a-z, 0-9 or '-' |
| IdGenerator.PartIdInjective | src/utils/id.generator.ts:14-22 | two ids are equal exactly when both the sanitised names and the suffixes are equal, so different names can collide |
| IdGenerator.PartIdLeadingDash | src/utils/id.generator.ts:14-22 | an id starts with '-' exactly when the name has no ASCII letter or digit |
| IdGenerator.ShortPrefix | src/utils/id.generator.ts:31-35 | the prefix is the first min(10, length) characters of the sanitised name |
| IdGenerator.IsObjectIdHex | src/utils/id.generator.ts:37 | computes the values `new ObjectId().toString()` can return: 24 lower-case hexadecimal digits |
| IdGenerator.GeneratePartIdWithObjectId | src/utils/id.generator.ts:30-39 | the id is the short prefix, '-', then the 24-digit ObjectId |
| IdGenerator.ShortPrefixMayEndInDash | src/utils/id.generator.ts:30-39 | cutting after trimming can leave a trailing '-': a 12-character name of letters with a space in tenth place (such as "abcdefghi jk") yields an id with "--" at positions 9-10 |
| IdGenerator.DecimalString | src/utils/id.generator.ts:48 | computes `counter.toString()` for an integer: '-' for a negative one, then its decimal digits with no leading zero |
| IdGenerator.PadStart | src/utils/id.generator.ts:48 | `padStart(width, '0')`: length the larger of width and the input's, the input at the end, '0' before it |
| IdGenerator.CounterField | src/utils/id.generator.ts:48 | computes the counter field, the decimal string padded to 3 with '0'; `CounterFieldRoundTrip` states what it means |
| IdGenerator.GenerateSequentialId | src/utils/id.generator.ts:42-49 | the id is the sanitised name, '-', then the padded counter field |
| IdGenerator.CounterFieldRoundTrip | src/utils/id.generator.ts:48 | for a counter ≥ 0 the field is all digits, at least 3 long, exactly 3 below 1000, and reads back as the counter |
| PartService.SaveOutcome | src/services/part.service.ts:114-115 | computes `save()` of a loaded record: a schema violation and no change, or the document written over its id |
| PartService.InsertOutcome | src/services/part.service.ts:38 | computes `save()` of a new document: a schema violation, a duplicate key for a taken `_id`, or the write |
| PartService.IncStock | src/services/part.service.ts:142-146 | `$inc` keeps the set of stored ids |
| PartService.IncStockEffect | src/services/part.service.ts:142-146 | `$inc` adds the delta to the stock of the record under the id, if there is one; every other record, and every other field, is unchanged |
| PartService.ShortfallOf | src/services/part.service.ts:126-136 | computes one entry's check: NotFound when the part is absent, insufficient when its stock is below quantity × q, else nothing |
| PartService.FirstShortfall | src/services/part.service.ts:125-137 | computes the check loop: the failure of the first failing entry in BOM order, or none; the next two lemmas characterise it |
| PartService.Deduct | src/services/part.service.ts:140-147 | computes the deduction loop: one `$inc` of −quantity × q per entry, in BOM order; `DeductEffect` gives its total effect |
| PartService.AssembledOutcome | src/services/part.service.ts:120-152 | computes addAssembledPartInventory: a shortfall fails with the store unchanged; otherwise the deduction, then `save()` of the loaded record with its stock plus q |
| PartService.AddInventoryOutcome | src/services/part.service.ts:63-80 | computes addInventory: NotFound for an absent id; for RAW, `save()` with the stock plus q; for ASSEMBLED, `AssembledOutcome` |
| PartService.FirstShortfallNoneIff | src/services/part.service.ts:125-137 | the check pass succeeds exactly when every BOM entry's part exists and holds quantity × q units |
| PartService.FirstShortfallIsFirst | src/services/part.service.ts:125-137 | a failing check pass reports the first failing entry in BOM order: NotFound if it is absent, otherwise insufficient inventory |
| PartService.DeductEffect | src/services/part.service.ts:140-147 | the deduction pass keeps the ids and lowers each part's stock by the total the BOM takes from it; nothing else changes |
| PartService.RequiredOfDistinct | src/services/part.service.ts:140-147 | with distinct BOM ids, the total taken from a listed part is that entry's quantity × q |
| PartService.RequiredOfAbsent | src/services/part.service.ts:140-147 | a BOM takes nothing from a part it does not list |
| PartService.AddInventoryMissingPart | src/services/part.service.ts:66-70 | an absent id gives NotFound for that id, and the store is unchanged |
| PartService.AddInventoryRaw | src/services/part.service.ts:110-116 | a RAW part's stock rises by q and no other record changes; it fails only when the new stock would be negative, and then nothing changes |
| PartService.AddInventoryShortfall | src/services/part.service.ts:124-137 | when any entry is missing or short, the failure names the first such entry and the store is unchanged; no write comes before the check pass ends |
| PartService.AddInventoryAssembledSuccess | src/services/part.service.ts:120-152 | a successful build raises the assembly by q from the stock read at the start, and lowers every other part by what the BOM takes from it |
| PartService.AddInventoryAssembledExact | src/services/part.service.ts:120-152 | with a sound BOM, each constituent drops by exactly quantity × q, the assembly rises by q, and unlisted parts are untouched |
| PartService.DeductCovered | src/services/part.service.ts:125-147 | after a passed check with distinct ids, the deduction changes stock only and leaves no stock negative |
| PartService.AssembledPreservesConsistency | src/services/part.service.ts:120-152 | a passed check in a consistent store leads to a successful build and a consistent store |
| PartService.AddInventoryPreservesConsistency | src/services/part.service.ts:63-80 | addInventory keeps a consistent store consistent; a failure there leaves the store unchanged and is never a schema violation |
| PartService.RepeatedIdOversells | src/services/part.service.ts:125-147 | a BOM listing the same part twice passes the check against one stock read, and drives that part's stock to -1 |
| PartService.MissingIds | src/services/part.service.ts:159-160 | an id is in the missing list exactly when it is listed and not stored |
| PartService.MissingIdsConcat | src/services/part.service.ts:159-160 | the filter distributes over concatenation: input order and repeats are kept |
| PartService.MissingIdsSingle | src/services/part.service.ts:159-160 | one id is kept exactly when the store lacks it |
| PartService.ValidateConstituentParts | src/services/part.service.ts:154-163 | computes the batched lookup: a failure carrying the missing ids when fewer distinct ids are found than listed, else a pass; `ValidatePassIff` characterises it |
| PartService.ValidatePassIff | src/services/part.service.ts:154-163 | BOM validation passes exactly when every listed id exists and no id is listed twice |
| PartService.ValidateFailureReport | src/services/part.service.ts:158-162 | a failure lists exactly the absent ids; the list is empty only when all ids exist, and then some id is repeated |
| PartService.CircularCheck | src/services/part.service.ts:165-182 | the check fails only with the circular-dependency error, and always fails when the name is already on the path |
| PartService.CheckChildren | src/services/part.service.ts:176-181 | the loop over a BOM fails only with the circular-dependency error |
| PartService.FailureHasWalk | src/services/part.service.ts:165-182 | a failing check has a walk through stored assemblies that reaches a name already on its path |
| PartService.WalkIsDetected | src/services/part.service.ts:165-182 | any such walk, in any branch of the BOM, makes the check fail |
| PartService.CircularCheckIff | src/services/part.service.ts:165-182 | the check fails exactly when the name was already visited or some walk from the BOM revisits a name; RAW parts and missing ids end a walk |
| PartService.SharedNameLooksCircular | src/services/part.service.ts:170-179 | a BOM listing a stored assembly that has the candidate's own name is rejected as circular, whatever that assembly's BOM holds |
| PartService.CatchCreateError | src/services/part.service.ts:50-54 | the corrected catch: the result is a conflict exactly when the error was the store's duplicate key (or already a conflict); any other error passes through |
| PartService.Contains | src/services/part.service.ts:51 | computes `message.includes(pat)`: `pat` is a prefix of the text or of one of its suffixes |
| PartService.Join | src/services/part.service.ts:161 | computes `join(', ')` of the missing ids: the items in order with the separator between neighbours, "" for none |
| PartService.ErrorMessage | src/services/part.service.ts:52-171 | computes the message each error carries: the texts the service passes at lines 52, 69, 129, 161 and 171, only the id for insufficient inventory, and the leading words of the store's errors |
| PartService.CatchCreateErrorAsWritten | src/services/part.service.ts:50-54 | computes the catch as written: an error whose message contains "duplicate key" becomes a conflict, any other is rethrown |
| PartService.CatchesAgreeOnDuplicateKey | src/services/part.service.ts:50-53 | the catch as written and the corrected catch both turn the store's duplicate-key error into a conflict |
| PartService.MissingIdReportedAsConflict | src/services/part.service.ts:50-53 | as written, a missing BOM id "duplicate key" is reported as a conflict; the corrected catch reports it as not found |
| PartService.CreateChecks | src/services/part.service.ts:24-27 | computes the checks before saving: for an ASSEMBLED part with a parts list, validation, then the cycle check from an empty path; otherwise a pass |
| PartService.NewRecord | src/services/part.service.ts:29-36 | computes the record built: the generated id, the given name, kind and parts, stock 0 |
| PartService.CreateOutcome | src/services/part.service.ts:18-61 | computes createPart: the checks, then the insert of `NewRecord`; errors go through the corrected catch; `CreateSuccess` and `CreateFailures` characterise it |
| PartService.CreateSuccess | src/services/part.service.ts:18-49 | a successful create inserts one record under a fresh id: the generated id, the given name, kind and parts, stock 0, schema-valid; an assembly's ids all existed, none twice, and no cycle was found |
| PartService.CreateFailures | src/services/part.service.ts:18-61 | the result is a conflict exactly when the checks and the schema pass and the generated id is taken; under the corrected catch, validation and cycle failures come out as raised; `AfterCreate` keeps the store on any error, so by `CreatePart`'s contract a failed create changes nothing |
| PartService.RawCreateIgnoresNames | src/services/part.service.ts:29-38 | a RAW part with a name is created exactly when its generated id is not stored, whatever names are stored |
| PartService.AssemblyCreateRejectsSharedName | src/services/part.service.ts:24-27 | for an assembly, stored names decide the outcome: listing a stored assembly with the new part's own name makes the create fail as circular |
| PartService.CreatePreservesConsistency | src/services/part.service.ts:18-61 | createPart keeps a consistent store consistent |
| PartService.RankFallsAlongChain | src/services/part.service.ts:165-182 | the meaning of the acyclicity that the cycle check at these lines is meant to protect: along every chain of stored BOM links, a ranking of the store falls strictly |
| PartService.NoIdCycle | src/services/part.service.ts:165-182 | what the cycle check at these lines is meant to prevent, as the invariant states it: in an id-acyclic store no chain of stored BOM links leads from a part back to itself |
| PartService.InsertKeepsIdAcyclic | src/services/part.service.ts:29-38 | inserting a part under a fresh id, with a BOM of stored parts, keeps the store id-acyclic when every stored BOM lists stored parts only |
| PartService.CreateKeepsIdAcyclic | src/services/part.service.ts:18-61 | createPart keeps a consistent store id-acyclic, through the fresh id and the validated BOM rather than the name-based check |
| PartService.StockOnlyChangeKeepsIdAcyclic | src/services/part.service.ts:142-151 | a change of stock values alone keeps the store id-acyclic |
| PartService.AddInventoryKeepsIdAcyclic | src/services/part.service.ts:63-80 | addInventory keeps any valid store id-acyclic, whether it succeeds or fails |
| PartService.PartService.constructor | src/services/part.service.ts:15-17 | the service starts on a given valid store |
| PartService.PartService.Save | src/services/part.service.ts:114-115 | `save()` writes the document if the schema accepts it and fails with a schema violation otherwise; the store stays valid |
| PartService.PartService.Insert | src/services/part.service.ts:38 | saving a new document also fails on a taken `_id`; the store stays valid |
| PartService.PartService.UpdateStock | src/services/part.service.ts:142-146 | `$inc` changes only the stock of the named record, if it exists; the store stays valid |
| PartService.PartService.RunCreateChecks | src/services/part.service.ts:24-27 | for an assembly with a parts list: validation, then the cycle check with an empty path |
| PartService.PartService.CreatePart | src/services/part.service.ts:18-61 | result and new store are those of `CreateOutcome`, with the corrected catch (so `CreatePreservesConsistency` applies to it); the store stays valid |
| PartService.PartService.AddInventory | src/services/part.service.ts:63-80 | result and new store are those of `AddInventoryOutcome`; the store stays valid, and stays consistent if it was |
| PartService.PartService.AddRawPartInventory | src/services/part.service.ts:110-116 | saves the loaded record with its stock raised by the quantity |
| PartService.PartService.AddAssembledPartInventory | src/services/part.service.ts:120-152 | the check loop, the deduction loop and the credit give the result and store of `AssembledOutcome` |
| PartService.PartService.CheckConstituents | src/services/part.service.ts:125-137 | the check loop returns exactly the first shortfall of the BOM against the current store, or none |
| PartService.PartService.DeductConstituents | src/services/part.service.ts:140-147 | the deduction loop leaves the store equal to `Deduct` of the old store; the store stays valid |
| PartService.PartService.CheckCircularDependency | src/services/part.service.ts:165-182 | the recursive method returns exactly `CircularCheck` on the current store, giving each child its own copy of the path |

## Left out

- HTTP routing, controllers, the error middleware, Swagger and database
  connection set-up are not modelled. They are outside the engine.
- Request validation is not modelled as code. Its outcome is the
  precondition of `CreatePart` (a trimmed, non-empty name) and of
  `AddInventory` (a quantity of at least 1).
- Quantities and counters are integers in the model. The request layer
  accepts any number of at least 1, so fractional quantities are not
  modelled.
- Stock and BOM quantities are JavaScript numbers (doubles), stored as such
  by MongoDB. They are exact only up to 2^53. The model's unbounded integers
  do not capture the rounding of sums and products above that.
- PartService.CreateOutcome: uses the corrected catch `CatchCreateError`
  from "Findings", not the message-based catch as written. As written, any
  error whose message contains "duplicate key" becomes a conflict, for
  example a BOM that lists the absent id "duplicate key". So `CreatePart`,
  `CreateSuccess` and `CreateFailures` describe the corrected service;
  `MissingIdReportedAsConflict` shows where the code differs.
- `getPartById` and `getAllParts` are not modelled. They are read-only
  projections of a stored record. `PartModel.ToJson` models the same id
  renaming.
- Concurrency is not modelled. Store calls are atomic steps run one after
  another. The race between the check pass and the deduction pass, under
  concurrent callers, is therefore outside the model.
- `generateRandomString`, `generateMongoId` and the ObjectId inside
  `generatePartIdWithObjectId` are randomness. The model takes the suffix
  and the ObjectId as parameters. `IsRandomSuffix` and `IsObjectIdHex`
  describe their possible values.
- IdGenerator.Sanitize: lower-casing is ASCII only, and every non-ASCII
  character becomes '-'. JavaScript's `toLowerCase` maps some non-ASCII
  letters to ASCII: U+212A KELVIN SIGN becomes 'k', and U+0130 becomes 'i'
  followed by U+0307. So the name "\u212A" sanitises to "k" in the running
  system and to "" in the model. `SanitizeEmptyIff` and `PartIdLeadingDash`
  describe the running system only for ASCII names.
- IdGenerator.CounterFieldRoundTrip is stated for counters of at least 0.
  The exponent notation JavaScript uses for numbers of 10^21 or more, and
  non-integer counters, are not modelled.
- Timestamps (`createdAt`, `updatedAt`) and the `console.log` calls are not
  modelled.
- PartService.ErrorMessage is only partly modelled. The error classes'
  own message formats (`src/errors/app.error.ts`) are not part of this
  model. Only the messages that reach createPart's catch matter to it.
- Mongoose's full validation error texts and MongoDB's full duplicate-key
  text are not modelled. Their leading words are kept.

## Findings

| source | as written | input that shows it | evidently intended | confidence | as-written member | corrected member |
|---|---|---|---|---|---|---|
| src/services/part.service.ts:50-53 | any error whose message contains "duplicate key" becomes a ConflictError | createPart of an ASSEMBLED part whose BOM lists the absent id "duplicate key": validation raises NotFound "Constituent parts not found: duplicate key", and the catch turns it into a conflict | only the store's duplicate-key error becomes a conflict; NotFound passes through | not executed | PartService.MissingIdReportedAsConflict | PartService.CatchCreateError |
| src/models/part.model.ts:35-47 | the `parts` validator is skipped when `parts` is undefined, so an ASSEMBLED part may be stored without constituents | createPart with type ASSEMBLED and no `parts`: no BOM checks run, and the document passes the schema | an ASSEMBLED part must have a non-empty parts list, as the validator's message says | not executed | PartModel.BomlessAssemblyAccepted | PartModel.BomPresentIffAssembled |
