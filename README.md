# Urgent board core, modelled in Dafny

The urgent board is a UI5 component that shows a table of urgently needed
materials. This project models the logic behind the table, not the screens.

- **Catalog** (`webapp/model/models.js`). The field catalog of the view model: labels (`Catalog.Label`), initial values, `required` predicates, and the `canSearch`, `canSort` and `initialSortPosition` flags. Also the initial view-model state.
- **Formatters** (`webapp/model/formatters.js`). The visibility, text and icon formatters bound in the views.
- **Sort engine** (`webapp/Component.js`). The `/sort/fields` array (`SortEngine.SortSettings`):
  - pressing ascending, descending or remove on a field reorders the array in place, so that active fields form a prefix;
  - moving an active field up or down;
  - the `canMoveUp`/`canMoveDown` flags;
  - the active-field count and the table sorters.
- **Filters** (`webapp/Component.js`). The search filter of `onSearch`, the preset filter of `_filterTableByProps`, the search field list, and the `allowCreate`/`allowUpdate` coercion.
- **Create form** (`webapp/Component.js`). The `/fields` table (`CreateForm.Form`): reset, value collection, validation before create, and the error flag of the item popover.
- **Batch scan** (`webapp/Component.js`). It turns a batch result into an error message and an error flag.
- **E-mail text** (`webapp/Component.js`). The body written for an item, the de-duplicated recipient list and the five-item cap.

JavaScript's loose values are modelled explicitly (`Values.Value`). Truthiness, `===`, `Number(...)` and `${...}` interpolation are written out as functions, so every branch of the source on `undefined`, `null`, `""`, `0` or `false` is a branch of the model. The code that works in place stays imperative:

- the sort array is a Dafny `array`, with the sink loop and the flag loop written out;
- the field table and the batch scan are loops.

Each method is proved against a function on sequences or maps, and the properties are proved about those functions.

## Model

| member | source | states |
|---|---|---|
| Values.ToNumber | webapp/model/formatters.js:56 | `Number(s)` on a digit string is the decimal value of the digits; any other non-empty string is NaN |
| Values.DigitsValueOfNatText | webapp/model/formatters.js:58 | printing a natural number and reading it back gives the same number |
| Values.NatTextOfDigitsValue | webapp/model/formatters.js:58 | a digit string without leading zeros is the printed form of its value |
| Values.PositiveWhenLeadingNonZero | webapp/model/formatters.js:57 | a digit string that starts with a non-zero digit is a non-zero number |
| Catalog.Position | webapp/model/models.js:25-108 | every field has a place in the catalog's declaration order |
| Catalog.FieldOrderIsComplete | webapp/model/models.js:25-108 | the declaration order lists every field exactly once |
| Catalog.PositionOfIndex | webapp/model/models.js:25-108 | each index of the declaration order is the position of the field at that index |
| Catalog.MaterialOrDescription | webapp/model/models.js:29-37 | material is required exactly when description is falsy and vice versa; a record with neither needs both |
| Catalog.OtherRequiredFields | webapp/model/models.js:44-95 | order id is required iff the type is not `""`, quantity iff not unlimited, uom always, nothing else is required |
| Catalog.SortableFieldsAreCanSort | webapp/model/models.js:31-107 | the sortable fields are exactly the nine `canSort` entries in declaration order; supplier is not sortable |
| Catalog.SearchableFieldsAreCanSearch | webapp/model/models.js:30-106 | the searchable fields are exactly the five `canSearch` entries in declaration order |
| Catalog.InitialSortPositions | webapp/model/models.js:32 | only material declares an initial sort position, and it is 0 |
| Formatters.NavToGRButtonVisible | webapp/model/formatters.js:6-10 | visible iff has-error is exactly `false`, nav-allowed is exactly `true` and complete is not exactly `true` |
| Formatters.InputQuantityEnabled | webapp/model/formatters.js:12-14 | truthy iff not unlimited and update is allowed; the result is `false` or the update flag itself |
| Formatters.CreateButtonVisible | webapp/model/formatters.js:16-19 | visible iff the flag is exactly `true` and the selected count is exactly 0 |
| Formatters.UserFilterOrSortOptionVisible | webapp/model/formatters.js:21-24 | same rule as the create button, applied to the search flag |
| Formatters.CombinedQuantityText | webapp/model/formatters.js:25-33 | with no positive issued quantity the text is the required quantity, or ∞ when unlimited |
| Formatters.IssuedTestIsNumeric | webapp/model/formatters.js:26 | the truthiness test before `Number(issued) > 0` never changes the outcome |
| Formatters.CombinedQuantityOfDigits | webapp/model/formatters.js:25-33 | for digit strings: "issued / required-or-∞" when issued > 0, otherwise required-or-∞ |
| Formatters.Substr | webapp/model/formatters.js:44 | `substr(0, n)` is the prefix of length min(n, length) |
| Formatters.NotesDisplay | webapp/model/formatters.js:40-47 | notes up to 40 characters are shown whole; longer notes show their first 40 characters and "..." |
| Formatters.DeliverToAndNotesCases | webapp/model/formatters.js:34-50 | empty inputs give ""; " / " appears only when both parts are present; the length is bounded |
| Formatters.ConcatOne | webapp/model/formatters.js:49 | `join("")` of one part and at most one more is their concatenation |
| Formatters.ConcatThree | webapp/model/formatters.js:49 | `join("")` of three parts and at most one more is their concatenation |
| Formatters.OrderText | webapp/model/formatters.js:51-63 | "" without an object key; the key alone unless the line is a non-zero number; otherwise "key/number" |
| Values.LeadingZerosIgnored | webapp/model/formatters.js:56 | leading zeros do not change the value of a digit string |
| Values.ZerosValue | webapp/model/formatters.js:57 | a line made only of zeros is the number 0, so it is dropped |
| Formatters.OrderTextOfPaddedLine | webapp/model/formatters.js:51-63 | a zero-padded line n shows as "key/n", or just "key" when n is 0 |
| Formatters.TypeIcons | webapp/model/formatters.js:65-84 | P, S and D map to three distinct icons and every other value to the question mark |
| Formatters.ModifyActiveSortColumnVisible | webapp/model/formatters.js:85-93 | visible iff the count is non-zero |
| Formatters.ModifyActiveSortFieldButtonVisible | webapp/model/formatters.js:94-102 | visible iff either direction flag is set |
| Formatters.ValidateUpdateQuantity | webapp/model/formatters.js:104-117 | an unlimited item is never in error |
| Formatters.UpdateQuantityOfDigits | webapp/model/formatters.js:111-114 | for digit strings the state is Error iff issued + update > order quantity |
| Formatters.NonNumericNeverErrors | webapp/model/formatters.js:111-114 | a NaN operand makes the comparison false, so the state stays None |
| Formatters.ImHereIconColor | webapp/model/formatters.js:123-127 | green iff the flag is truthy, otherwise the near-invisible grey |
| SortEngine.FirstInactive | webapp/Component.js:818 | `findIndex` of the first inactive field: -1 iff every field is active, otherwise the first inactive index |
| SortEngine.IndexOfPath | webapp/Component.js:801 | `findIndex` by path: the first index holding the path, or -1 iff none does |
| SortEngine.Sorters | webapp/Component.js:881-888 | one sorter per active field |
| SortEngine.SortersOfPrefix | webapp/Component.js:881-888 | with an active prefix, sorter i is field i's path with `descending = sortDescending` |
| SortEngine.Swap | webapp/Component.js:875-879 | the two elements trade places and nothing else changes |
| SortEngine.SinkStep | webapp/Component.js:835-837 | one more pass of the loop is one more adjacent swap |
| SortEngine.SinkCarries | webapp/Component.js:835-837 | the loop leaves the field it started with at its end and permutes the fields |
| SortEngine.SinkMoves | webapp/Component.js:835-837 | the swap loop carries the element at `from` to `to` and shifts the fields in between up by one |
| SortEngine.SinkKeepsOthersInOrder | webapp/Component.js:835-837 | the fields other than the moved one keep their relative order |
| SortEngine.SinkPermutes | webapp/Component.js:835-837 | the swap loop permutes the fields |
| SortEngine.SinkKeepsPathsDistinct | webapp/Component.js:835-837 | the swap loop keeps the paths distinct |
| SortEngine.NoGap | webapp/Component.js:815-852 | the active fields form a prefix (index i active iff i < count) exactly when no active field follows an inactive one |
| SortEngine.ActivePrefixCount | webapp/Component.js:818-819 | with an active prefix, the first inactive index is the count (-1 when all are active) |
| SortEngine.CountOfPrefix | webapp/Component.js:863-871 | fields active exactly below n form a prefix of count n |
| SortEngine.CountPositive | webapp/Component.js:863-871 | the count is positive iff some field is active |
| SortEngine.NoneActive | webapp/Component.js:863-871 | with no active field the count is 0 |
| SortEngine.MoveFlags | webapp/Component.js:202-221 | canMoveUp iff active and index > 0; canMoveDown iff active and the next field exists and is active; nothing else changes |
| SortEngine.MoveFlagsKeepSort | webapp/Component.js:854-855 | setting the move flags changes no path, activity, count or sorter |
| SortEngine.SameSortKeys | webapp/Component.js:863-888 | count and sorters depend only on paths and direction flags |
| SortEngine.SwapPermutes | webapp/Component.js:875-879 | a swap permutes the paths |
| SortEngine.SwapKeepsPathsDistinct | webapp/Component.js:875-879 | a swap keeps the paths distinct |
| SortEngine.MoveFlagsKeepPathsDistinct | webapp/Component.js:202-221 | setting the move flags keeps the paths distinct |
| SortEngine.PressActivates | webapp/Component.js:828-832 | activating swaps the field into the first inactive index and writes its flags there |
| SortEngine.ActivateAppends | webapp/Component.js:828-849 | activating a field swaps it to the first inactive index; the prefix grows by one and earlier fields stay put |
| SortEngine.DeactivateSinks | webapp/Component.js:833-851 | with an inactive field present, deactivating sinks the field to the last active index, keeps the others in order and shrinks the prefix by one |
| SortEngine.RemovalSinksToBoundary | webapp/Component.js:833-837 | the deactivation loop ends at `nIndexLastActive` |
| SortEngine.DeactivateBeforeBoundary | webapp/Component.js:833-851 | with exactly the first n fields active and n below the length, removal leaves the field cleared at n - 1, the others in order, and a prefix of n - 1 |
| SortEngine.ClearedAfterSink | webapp/Component.js:833-851 | after sinking and clearing, the others keep their order and the active fields are a prefix of count n - 1 |
| SortEngine.SinkActivity | webapp/Component.js:833-851 | after sinking and clearing, exactly the first n - 1 fields are active |
| SortEngine.DeactivateWhenAllActive | webapp/Component.js:818-837 | with every field active the loop does not run: the field is cleared in place, which keeps the prefix only when it was last |
| SortEngine.InPlaceDirectionChange | webapp/Component.js:828-852 | changing the direction of an active field (or clearing an inactive one) does not reorder the fields |
| SortEngine.PressInPlace | webapp/Component.js:828-838 | without a change of activity only the selected entry changes |
| SortEngine.SameActivity | webapp/Component.js:863-871 | replacing a field by one with the same path and activity keeps paths, prefix and count |
| SortEngine.CountLocal | webapp/Component.js:863-871 | replacing a field by one with the same activity keeps the count |
| SortEngine.ReorderedPermutes | webapp/Component.js:827-837 | the reordering leaves the selected field at its destination and permutes the paths |
| SortEngine.PressSetsDirection | webapp/Component.js:840-852 | after ASC exactly sortAscending holds, after DESC exactly sortDescending, after "" neither; the fields are permuted |
| SortEngine.PressKeepsPathsDistinct | webapp/Component.js:828-852 | pressing a direction keeps the paths distinct |
| SortEngine.MoveIsBoundedSwap | webapp/Component.js:801-806 | a move swaps with the neighbour iff the target index is in range, and otherwise changes nothing; always a permutation |
| SortEngine.AllowedMoveKeepsPrefix | webapp/Component.js:796-812 | a move offered by the flags stays inside the active prefix and swaps the two sorters |
| SortEngine.SwapWithinPrefix | webapp/Component.js:875-888 | swapping two active fields keeps the prefix and count and swaps their sorters |
| SortEngine.SwapSorters | webapp/Component.js:881-888 | when a swap of two active fields keeps the prefix, their two sorters trade places |
| SortEngine.SortDialogVisibility | webapp/model/formatters.js:85-102 | the field button shows iff the field is active; the column shows iff some field is active |
| SortEngine.RemovingFirstOfAllActiveBreaksPrefix | webapp/Component.js:818-837 | with all nine sortable fields active, removing any but the last leaves an inactive field before active ones; the corrected press keeps the prefix |
| SortEngine.SinkingToEndKeepsPrefix | webapp/Component.js:815-852 | the corrected press, which sinks to the last index when all fields are active, always keeps the active prefix |
| SortEngine.SortSettings.constructor | webapp/Component.js:179-199 | the nine sortable fields in the given order, inactive with both move flags off; count 0 and no sorters |
| Catalog.SortableOrderListsSortable | webapp/Component.js:181-183 | nine sortable fields without repeats are exactly the `canSort` entries, so the constructor's input lists each sortable field once |
| SortEngine.SortSettings.SwapArrayElements | webapp/Component.js:875-879 | the array becomes `Swap` of the old contents |
| SortEngine.SortSettings.SetSortFieldCanMove | webapp/Component.js:202-221 | the array gets the move flags of `WithMoveFlags` |
| SortEngine.SortSettings.UpdateSortActiveFieldCount | webapp/Component.js:863-873 | the stored count is the number of active fields |
| SortEngine.SortSettings.UpdateTableSort | webapp/Component.js:881-894 | the stored sorters are those of the active fields in array order |
| SortEngine.SortSettings.PressSortDirection | webapp/Component.js:815-861 | the array becomes the pressed arrangement with fresh move flags; count and sorters are recomputed; paths stay distinct |
| SortEngine.SortSettings.Reorder | webapp/Component.js:816-837 | the array becomes the reordered arrangement and the result is the index the selected field ends at |
| SortEngine.SortSettings.SinkField | webapp/Component.js:833-837 | the array becomes the sink of its old contents; the result is the last active index, or the start when the loop does not run |
| SortEngine.SortSettings.PressSortMovePosition | webapp/Component.js:796-813 | in range: the neighbours swap and flags, sorters are refreshed; out of range: nothing changes |
| Filters.FieldFilters | webapp/Component.js:552-558 | every filter is a `Contains` condition on the search value |
| Filters.FieldFiltersTargets | webapp/Component.js:552-558 | a path gets a condition iff some selected search field has it |
| Filters.FieldFiltersAppend | webapp/Component.js:552-558 | conditions follow the order of the search fields |
| Filters.FieldFiltersCount | webapp/Component.js:552-561 | one condition per selected search field |
| Filters.OnSearch | webapp/Component.js:545-577 | empty value: no filter; otherwise exactly one OR group of the field conditions, with a warning iff no field is selected |
| Filters.InitSearchFields | webapp/Component.js:164-173 | one selected search field per searchable catalog field, in catalog order |
| Filters.InitialSearch | webapp/Component.js:545-577 | searching right after start-up gives one OR group on material, description, order id, contact and supplier |
| Filters.InitialSearchFieldsAreSearchable | webapp/Component.js:164-173 | after start-up a path is searched iff the catalog flags it `canSearch` |
| Filters.EqualityFilters | webapp/Component.js:120-134 | one `EQ` condition per value, in order |
| Filters.FilterTableByProps | webapp/Component.js:112-144 | search is switched off; one OR group: the material conditions, then the description conditions |
| Filters.AllowSetting | webapp/Component.js:88-100 | on only for the boolean `true` or the string "true" |
| Batch.HandleBatchResponseAndReturnErrorFlag | webapp/Component.js:746-774 | returns true iff the final message is non-empty, and shows exactly that message |
| Batch.LastWriterWins | webapp/Component.js:749-762 | the last failed response that names a message or cannot be read decides the message |
| Batch.NoWriterNoMessage | webapp/Component.js:749-762 | without such a response the message stays empty |
| Batch.SuccessfulBatch | webapp/Component.js:748-765 | an all-"200" batch raises no error; missing responses raise the fixed missing-data message |
| Batch.EmptyMessageClearsEarlierError | webapp/Component.js:755-756 | a later failure with an empty message text clears an earlier error |
| CreateForm.FieldValues | webapp/Component.js:389-397 | one value per field of the table, that field's value |
| CreateForm.ResetTable | webapp/Component.js:379-387 | the reset table has an entry for every catalog field |
| CreateForm.ResetTableAt | webapp/Component.js:379-387 | each entry of the reset table holds the catalog's initial value, no value state and no text |
| CreateForm.Form.constructor | webapp/model/models.js:110-118 | no value or value state yet, empty message, popover without error |
| CreateForm.Form.ResetFields | webapp/Component.js:379-387 | every entry back to its initial value, no value state, no text |
| CreateForm.Form.GetFieldValues | webapp/Component.js:389-397 | the values of the table |
| CreateForm.Form.ValidateField | webapp/Component.js:409-438 | one field: in error with its "is required" text iff required and falsy, otherwise cleared |
| CreateForm.Form.ValidateFieldsBeforeCreate | webapp/Component.js:402-442 | the table becomes the validated table, the result says whether every field passed, the message is reset and then set by failing `noValueState` fields |
| CreateForm.Form.ResetErrorFlagItemOverflowPopover | webapp/Component.js:647-656 | the flag is set iff some entry is in the error state |
| CreateForm.Partial | webapp/Component.js:408-439 | the table part way through the loop still has every field |
| CreateForm.PartialStart | webapp/Component.js:408 | before the loop the table is untouched |
| CreateForm.PartialStep | webapp/Component.js:408-439 | each pass checks the next field of the declaration order, whose entry is still untouched |
| CreateForm.PartialEnd | webapp/Component.js:408-439 | after the loop every field is checked |
| CreateForm.MessageStep | webapp/Component.js:430-434 | each pass sets the message only for a failing `noValueState` field |
| CreateForm.ValidUpToAll | webapp/Component.js:404-431 | the running flag after all fields is "every field passed" |
| CreateForm.ErrorFlagAfterValidation | webapp/Component.js:647-656 | after validation the popover error flag is raised iff some field failed |
| CreateForm.ValidRecord | webapp/model/models.js:29-78 | a record passes iff it has a material or description, an order id unless the type is "", a quantity unless unlimited, and a unit of measure |
| CreateForm.NeitherMaterialNorDescription | webapp/model/models.js:29-37 | a record with neither material nor description fails validation, and both entries end in error with their own "is required" text |
| CreateForm.MessageStaysEmpty | webapp/model/models.js:41-46 | validation never writes the dialog message: the only `noValueState` field is never required |
| CreateForm.ResetFormIsInvalid | webapp/model/models.js:26-40 | a freshly reset form fails validation |
| Email.Cleaned | webapp/Component.js:331-340 | the copy has the same properties as the item |
| Email.CleanedText | webapp/Component.js:331-340 | a truthy property prints as itself, a falsy one as "", a missing one as "undefined" |
| Email.BaseLines | webapp/Component.js:342-355 | eight lines before the order details |
| Email.Insert | webapp/Component.js:357-365 | `splice(i, 0, x)` puts x at i and shifts the rest |
| Email.EmailLines | webapp/Component.js:329-371 | material line first; order line at 1 iff the type is truthy; item-id line at 2 iff the line is also truthy; the other seven lines last |
| Email.JoinSnoc | webapp/Component.js:370 | joining one more part appends the separator and the part |
| Email.JoinOpens | webapp/Component.js:370 | a join of two or more parts is the first part, the separator, then the join of the rest |
| Email.ItemIdDropsLeadingZeros | webapp/Component.js:362 | a line of zeros followed by the digits of n prints as "Item id: n" ("0010" as "Item id: 10") |
| Email.FirstOccurrencesElements | webapp/Component.js:283-290 | the reference recipient list contains exactly the addresses of the selection |
| Email.FirstOccurrencesSnoc | webapp/Component.js:285-290 | one more address joins the first occurrences exactly when it has not been seen |
| Email.PushedExtends | webapp/Component.js:285-290 | one step of the reduce turns the first occurrences of what it has seen into those of one more address |
| Email.FirstOccurrencesDistinct | webapp/Component.js:283-290 | no recipient appears twice |
| Email.AddUniqueFrom | webapp/Component.js:285-290 | the reduce, started from the first occurrences of a seen prefix, ends at the first occurrences of the whole list |
| Email.UniqueRecipients | webapp/Component.js:283-290 | the reduce gives each address once, all of them, in order of first occurrence |
| Email.JoinValues | webapp/Component.js:291 | `join` of nothing is "", of one address is that address |
| Email.Contacts | webapp/Component.js:284 | the contact of each selected item, in order |
| Email.Bodies | webapp/Component.js:296-297 | the body of each selected item, in order |
| Email.Recipients | webapp/Component.js:283-291 | the recipient line is the first occurrences of the contacts joined with "; " |
| Email.SelectedItemsEmail | webapp/Component.js:263-304 | more than five items only warn; otherwise the fixed subject, the de-duplicated recipients, and the bodies framed by separators |
| Email.TwoItemDraft | webapp/Component.js:294-299 | the draft body of two item bodies x and y is separator, x, separator, y, separator |
| Email.SharedContactOnce | webapp/Component.js:283-291 | the same contact twice gives that contact as the single recipient |

## Left out

- View and framework plumbing (`_byId`, dialogs, popovers, `MessageBox`, `MessageToast`, `refresh`, the toggles, `createContent`, control lookup) is left out: it only renders. The warnings and error boxes appear as results (`SearchOutcome.warnedNothingSelected`, the `shown` message of the batch scan, `SelectionOutcome.TooMany`).
- The remote OData calls (`createItem`, `onItemFieldChange`, the delete paths) and the busy flag are left out: they call a library that is not modelled. Their batch results are given to the batch scan as data.
- `JSON.parse` and the error parsing of the batch bodies are left out: the body comes in already parsed (`Batch.Body`), either unreadable or with an optional error message.
- The initial ordering of `_initSortFields` is left out: its comparator subtracts `undefined` positions, so the order depends on the engine. `SortEngine.SortSettings.constructor` takes the order as an input: the nine sortable fields, each once, in any order.
- SortEngine.SortSettings.PressSortDirection and SortEngine.SortSettings.PressSortMovePosition take the selected field by its index. The source finds it by path (`findIndex` on `path`). With distinct paths, which `Valid()` keeps, both give the same index (`SortEngine.IndexOfPath`).
- Values.ToNumber: models `Number(...)` only on integers. Strings of ASCII digits parse; every other non-empty string is NaN. Signs, decimals, exponents and surrounding blanks are left out: they need floating point. Numbers are exact integers here, while JavaScript numbers are doubles: a digit string above 2^53 may be rounded, and a number from 10^21 on prints in exponent form. `Values.NumberText` and `Values.NatText` print every value in full for the same reason. The lemmas that read or print numbers are therefore stated only up to `Values.MaxSafeInteger` (2^53 - 1).
- Formatters.OrderTextOfPaddedLine: holds only for lines up to `Values.MaxSafeInteger`; a longer line would be rounded by `Number`.
- Formatters.UpdateQuantityOfDigits: holds only when the order quantity and the sum issued + update are at most `Values.MaxSafeInteger`; above that the double sum rounds.
- Email.ItemIdDropsLeadingZeros: holds only for item ids up to `Values.MaxSafeInteger`, for the same reason.
- Formatters.Substr: counts characters (code points), while JavaScript's `substr` and `length` count UTF-16 code units. The two agree on text in the Basic Multilingual Plane. A character outside it, such as an emoji, counts once here and twice in JavaScript, and JavaScript may cut it in half.
- Formatters.NotesDisplay: the 40-character limit counts code points, not UTF-16 code units, for the reason given for `Formatters.Substr`. Notes with characters outside the Basic Multilingual Plane may be cut at a different place, or not cut at all, compared with the source.
- Dates print as their plain value: the text of a JavaScript `Date` object is left out.
- CreateForm.Form.constructor: before the first reset the source's entries have no `value` or `valueState` at all. The model reads them as `undefined` and None.
- `sendItemEmail` (the single-item e-mail subject) and `sap.m.URLHelper.triggerEmail` are left out: only the text of the selection e-mail is modelled, and the mail client is not.
- `createDeviceModel` and the `Device` model are left out: they are framework objects.
- `referenceTypes` in the view model is left out: it only feeds a drop-down list.
- Sort-preference encoding and date-range filtering are left out: they do not occur in these files.

## Findings

| source | as written | input that shows it | evidently intended | confidence | as-written member | corrected member |
|---|---|---|---|---|---|---|
| webapp/Component.js:818-837 | When every sort field is active, `nIndexFirstInactive` is -1 and `nIndexLastActive` is -2. The sink loop does not run, so a removed field stays where it is. | All nine sortable fields active (in catalog order, say); remove any of them but the last, e.g. material in the first place. Material is cleared where it stands, so the inactive material now precedes eight active fields. | Sink the removed field to the last index, so the active fields stay a prefix and the move flags and sorters stay consistent. | not executed | SortEngine.RemovingFirstOfAllActiveBreaksPrefix | SortEngine.SinkingToEndKeepsPrefix |
