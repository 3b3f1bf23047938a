# smallui record store, in Dafny

smallui is a small browser-side CRUD layer. It keeps an in-memory list of data
objects ("dobj"). Each one is a string-keyed object that carries an `_id` and a
`_type`, and HTML forms create and edit them. This project models the data
layer of that system and proves properties of it:

- `Filtering` (`filtering.dfy`): order-preserving selection, the idiom behind
  `getData`, `getDataById`, `deleteById` and the `filter` half of the reference
  queries.
- `Decimal` (`decimal.dfy`): the decimal rendering `${n}` that `getId` uses,
  with its inverse. The inverse is what proves that ids never repeat.
- `SmallUi` (`smallui.dfy`): records and the store operations of `smallui.js`.
  The globals `data`, `id_counter` and `model` are the fields of the class
  `Store`. `getData` and `updateData` take the store as a parameter, as in the
  source. So does `insertData`, which is a `Store` method because it draws ids
  from the store's counter.
- `SuiDynFn` (`sui_dyn_fn.dfy`): `getUserRefs` and `getResourceRefs`. They take
  the store as a parameter instead of reading the global.

Modelling decisions:

- A record is a `map<string, string>`. The JSON deep copies in `updateData` and
  `insertData` only give value semantics, which Dafny's value types already have.
- Ids are normalised to strings. JavaScript's loose `==` on `_id` becomes
  equality of `Option<string>`. A missing key reads as `None` (`undefined`), and
  `undefined == undefined` holds. So a patch without `_id` merges into the
  records that also lack `_id`, as in the source. The in-repository test merges
  a patch whose `_id` is the number `2` into the record whose `_id` is `"2"`. In
  the model that patch's `_id` is the string `"2"`, so the expected result holds
  `"_id": "2"` where the source's expected JSON holds `"_id": 2`.
- `trigger_on_data_mutation` only re-renders views. It is modelled as the ghost
  counter `Store.notifications`. `upsertData` and `deleteById` each raise it by
  exactly one.
- `getModelFromForm` reads the document through `getDOFromFormById`. That
  reading is the parameter `extracted`. It is `None` when the document has no
  such form: the source then stores `undefined`, and the form counts as cached
  from then on.
- Source quirk: a form reading without an `_id` field defaults `_id` to `-1`
  (smallui.js:246). The insert sentinel is `"0"` (smallui.js:179). So such a
  record is stored under `"-1"` with no fresh id, and a second such form is
  merged into it. `FormDefaultIdIsNotCreation` states this behaviour. It is
  modelled as the source behaves and not corrected.
- Source quirk: ids are not unique in general. A record inserted with an
  explicit `_id` does not advance the counter, so a later creation can be
  stamped with the same id. `VerbatimIdCollidesWithFreshId` exhibits this, and
  `UpsertKeepsIdsUnique` states the proviso under which uniqueness is kept.

## Model

| member | source | states |
|---|---|---|
| `Filtering.Filter` | smallui.js:109-116 | the records a predicate selects are never more than the records in the store |
| `Filtering.FilterMembership` | smallui.js:109-116 | a record is selected exactly when it is in the store and satisfies the predicate |
| `Filtering.FilterMembers` | smallui.js:109-116 | the same membership equivalence for every record at once |
| `Filtering.FilterIndices` | smallui.js:109-116 | the selection is the store's elements at strictly increasing positions, which are exactly the positions whose record satisfies the predicate: original order is kept and nothing is dropped or added |
| `Filtering.FilterAppend` | smallui.js:111-113 | selecting from two lists laid end to end is selecting from each in turn, so the loop's order is the store's order |
| `Filtering.FilterSnoc` | smallui.js:112 | visiting one more record appends it to the result exactly when the predicate holds |
| `Filtering.FilterPrefixStep` | smallui.js:112 | the same step, stated for position k of the store |
| `Filtering.FilterEmpty` | smallui.js:194-195 | the selection is empty exactly when no record satisfies the predicate |
| `Filtering.FilterAllKept` | smallui.js:214-218 | when every record satisfies the predicate the selection is the whole store |
| `Filtering.FilterIdempotent` | smallui.js:214-218 | selecting twice by one predicate equals selecting once |
| `Filtering.FilterComplementLength` | smallui.js:214-218 | the records a predicate selects plus those its negation selects are as many as the store holds |
| `Filtering.FilterIndicesStep` | smallui.js:111-113 | one step of FilterIndices: the positions of a prefix extended by the last record's position if it is selected |
| `Decimal.NatToString` | smallui.js:100 | `${n}` is a non-empty string of decimal digits with no leading zero (unless n is 0) |
| `Decimal.ParseNatToString` | smallui.js:100 | reading back the decimal string of n gives n |
| `Decimal.NatToStringInjective` | smallui.js:97-101 | two counter values give the same id string exactly when they are equal |
| `SmallUi.GetData` | smallui.js:109-116 | the pushing loop returns exactly the order-preserving selection of the store by `findFun` |
| `SmallUi.GetDataById` | smallui.js:124-126 | a record is found exactly when it is in the store and its `_id` is the given id; at most as many as the store holds |
| `SmallUi.UniqueIdsFindAtMostOne` | smallui.js:124-126 | in a store without duplicate ids a lookup by id finds at most one record |
| `SmallUi.UpdateData` | smallui.js:137-148 | the copy-and-assign loop, key by key, returns the store with the patch merged into every record whose `_id` matches |
| `SmallUi.UpdatedFrame` | smallui.js:137-148 | the merge keeps the store length and leaves every record with another `_id` unchanged |
| `SmallUi.UpdatedMerge` | smallui.js:139-145 | in a matching record every patch key takes the patch's value, every other key keeps its value, and no other key appears |
| `SmallUi.UpdatedKeepsIds` | smallui.js:140-143 | the merge never changes any record's `_id` |
| `SmallUi.UpdatedIdOnlyIsIdentity` | smallui.js:139-145 | a patch holding only `_id` (or nothing) leaves the store unchanged |
| `SmallUi.UpdatedIdempotent` | smallui.js:137-148 | merging the same patch twice equals merging it once |
| `SmallUi.TestUpdateData` | smallui.js:150-164 | the two successive merges of the in-repository test give exactly the expected store (with the id normalised to "2") |
| `SmallUi.InsertedAppendsOne` | smallui.js:173-185 | insert appends exactly one record after the unchanged old store; the record keeps all keys and all non-id values; a sentinel `_id` becomes the next counter value in decimal, any other record is appended as given |
| `SmallUi.StampedIdIsFresh` | smallui.js:179-181 | the id a creation receives differs from every id issued before and is not the sentinel |
| `SmallUi.UpsertedShape` | smallui.js:191-203 | upsert grows the store by one exactly when no record has the `_id`, and is then insertData; otherwise it keeps the length and is updateData |
| `SmallUi.UpsertKeepsIdsUnique` | smallui.js:191-203 | a store without duplicate ids keeps none after an upsert, provided a creation's fresh id is not already in use |
| `SmallUi.VerbatimIdCollidesWithFreshId` | smallui.js:173-203 | inserting `{_id:"1"}` into an empty store with counter 0 and then upserting a creation leaves two records with `_id` "1": ids are not unique in general |
| `SmallUi.DeletedContents` | smallui.js:212-219 | after delete no record has the id, every record with another id remains, and the number removed is the number a lookup by that id finds |
| `SmallUi.DeletedIdempotent` | smallui.js:212-219 | deleting by the same id twice equals deleting once |
| `SmallUi.DeleteUndoesInsert` | smallui.js:191-219 | upserting a record with a new non-sentinel id and then deleting that id restores the store |
| `SmallUi.WithFormDefaults` | smallui.js:245-247 | a form reading keeps every field the form has, supplies `_id` "-1" when the form has no `_id` and `_type` "notype" when it has no `_type`, and adds no other key |
| `SmallUi.FormDefaultIdIsNotCreation` | smallui.js:246 | a form record defaulted to `_id` "-1" is inserted without a fresh id, and a second such record is merged into it instead of being inserted |
| `SmallUi.CachedWriteOnce` | smallui.js:225-231 | caching adds the form's entry only when it is absent, never overwrites a present entry, and a second call with any reading changes nothing |
| `SmallUi.Store.constructor` | smallui.js:18-22 | the store starts empty, with counter 0, an empty form cache and no notifications |
| `SmallUi.Store.GetId` | smallui.js:97-101 | the counter rises by exactly one, the id is exactly the decimal string `${n}` of the new counter and parses back to it (so ids strictly increase), and it was never issued before |
| `SmallUi.Store.InsertData` | smallui.js:173-185 | returns the old store with the possibly stamped record appended; the counter advances only for a creation |
| `SmallUi.Store.UpsertData` | smallui.js:191-206 | the store becomes the insert-or-merge result, the counter advances only when a creation is inserted, and one notification is raised |
| `SmallUi.Store.DeleteById` | smallui.js:212-221 | the store becomes the order-preserving selection of records whose `_id` is not the given id, and one notification is raised |
| `SmallUi.Store.GetModelFromForm` | smallui.js:225-231 | the form cache becomes the write-once cached map |
| `SuiDynFn.RefsOfTypeSelect` | sui_dyn_fn.js:8-9 | the references are one `[_id, name]` pair per record of the type, at strictly increasing store positions, with every record of that type and no other |
| `SuiDynFn.RefsOfTypeMembers` | sui_dyn_fn.js:8-9 | a pair is among the references exactly when some record of the type produces it |
| `SuiDynFn.RefsOfTypeAppend` | sui_dyn_fn.js:8-9 | the references of two stores laid end to end are those of each, in order |
| `SuiDynFn.RefsOfTypeIgnoresOthers` | sui_dyn_fn.js:8-9 | a record of another type, wherever it stands, contributes nothing |
| `SuiDynFn.GetUserRefs` | sui_dyn_fn.js:8 | at most as many pairs as records; a pair occurs exactly when a user record has that `[_id, name]` |
| `SuiDynFn.GetResourceRefs` | sui_dyn_fn.js:9 | at most as many pairs as records; a pair occurs exactly when a resource record has that `[_id, name]` |
| `SuiDynFn.TestDataFields` | testdata.js:1-10 | the type, id and name of each of the nine sample records |
| `SuiDynFn.TestDataUserRefs` | sui_dyn_fn.js:8 | on the sample store the users are listed as users 1 and 3, in that order |
| `SuiDynFn.TestDataResourceRefs` | sui_dyn_fn.js:9 | on the sample store the resources are listed as resources 2, 4 and 8, in that order |

## Left out

- DOM work is not modelled: `loadForm` with `setRadioValue`, the FormData reading in `getDOFromFormById`, `resetForm`, `submitForm`, `loadFormWithObjById`, `showDefaultForm`, `hideElem`/`showElem`, `hideAllForms`, `initView`, `hideObjectView`, `viewObject`, `showListing`, `showTypes`, `sui_init`, `populateSelect` and the `initfn` table. These are browser-API plumbing. Only the defaulting of `_id` and `_type` in `getDOFromFormById` is modelled (`WithFormDefaults`).
- The form-to-record round trip is not modelled, because it needs the DOM.
- `trigger_on_data_mutation` only re-renders views. It is the ghost counter `notifications`.
- Console logging is not modelled. This includes the message `insertData` logs for a record without `_id`; the record is appended all the same, and so it is in the model.
- Mixed string and number ids are not modelled: all ids are strings, so loose `==` is string equality. The numeric `_id: 2` of the in-repository test is the string "2" here.
- The form default `_id` is the number -1 in the source and the string "-1" here.
- Object key order is not modelled, since records are maps. The source's test compares JSON text, whose key order the model does not have.
- Store.InsertData: in the source the caller's `newObject` is itself given the fresh `_id` (a mutation visible to the caller, which `upsertData` does not use afterwards). The model stamps a copy, so this aliasing is not captured.
- Store.GetModelFromForm: the source reads the form only when no entry is cached. The model receives the reading as a parameter whether or not it is used.
- Store.GetId: the counter is an unbounded natural number. JavaScript numbers lose integer precision above 2^53, which is not modelled.
- `testdata.js` is only a constant (`TEST_DATA`). `loadTestdata` assigns globals, and `dumpData` calls `alert`; neither is modelled.
- Store.GetModelFromForm, Updated: JavaScript objects inherit keys from their prototype and treat `__proto__` specially, and neither is modelled. In the source, `formId in model` also finds inherited names such as "toString" (so such a form would never be cached), and merging a patch key `__proto__` creates no own key. In the model, records and the form cache are plain maps holding only their own keys.
