# Inventory document references (stockmaster)

A Dafny model of the document-reference generator of the stockmaster
warehouse inventory tracker. Every inventory operation (a receipt, a
delivery, an internal transfer or a stock adjustment) is given a document
number when it is first saved. The number has the form
`{warehouse code}/{operation code}/{year}/{sequence}`, for example
`WH1/IN/2025/0001`.

The model follows `InventoryOperation` in `core/models.py`:

- `Reference.OperationCode` maps the operation type to IN, OUT, MOVE or ADJ, and any other type to UNK.
- `Reference.WarehouseForReference` picks the warehouse that names the document:
  - a receipt uses its destination;
  - a delivery and an internal transfer use their source;
  - any other type uses its source, or else its destination.
- `Reference.ReferenceFor` is the reference a save assigns. It is built from:
  - the numbering scope: operations of the same type and creation year and, when a warehouse was resolved, with a source or destination location in that warehouse;
  - the highest-id operation in that scope;
  - the integer that ends its reference, or that operation's id when the reference does not end in an integer;
  - that number plus one, left-padded with zeros to at least four characters.
- `Operations.InventoryOperation.Save` does the same computation in place. It assigns the reference only while the reference is empty, then writes the object to an `Operations.OperationTable`:
  - an object without a primary key is inserted under the next auto-increment key and stamped with the current year;
  - an object with a primary key overwrites its stored row.

Python's `str(int)`, `int(str)`, `str.zfill` and `str.split("/")[-1]` are
modelled in module `Text`. The other tables the operations refer to are
plain datatypes in module `Records`: warehouses, locations, products,
operation lines, stock levels (starting at quantity 0) and stock-ledger entries.

The current time is a parameter: `Save` takes the current year. The
operations table is a sequence of records held by a class, and the
database's auto-increment counter is a field of that class.

Details of the numbering:

- The fallback when the last reference does not end in an integer is that row's id. It is not a count of rows.
- The sequence is padded to at least four digits. It is never cut to four.
- Numbers are not unique within a warehouse (see Findings).
- `qs.last()` on the unordered scope is Django's "order by primary key, take the last" (core/models.py:224). It is therefore the same row as `qs.order_by("-id").first()` (core/models.py:220), and both are modelled by `Reference.Latest`.

## Model

| member | source | states |
|---|---|---|
| `Text.NatToString` | core/models.py:227 | `str(n)` of a non-negative number is a non-empty run of digits whose decimal value is n; the only spelling that starts with '0' is "0" itself |
| `Text.IntToString` | core/models.py:227 | `str(n)`: digits denoting n when n >= 0, with no leading zero except for "0"; a '-' followed by digits denoting -n, the first of them not '0', when n < 0 |
| `Text.ZFill` | core/models.py:227 | `zfill(width)` never truncates: a string already `width` long is returned unchanged; a shorter one is padded to exactly `width` with '0's placed after a leading sign |
| `Text.ParseInt` | core/models.py:222 | `int(s)` succeeds exactly on a run of ASCII digits or a '+' or '-' followed by one; the value is the digits' decimal value, negated after '-' |
| `Text.LastSegment` | core/models.py:222 | `s.split("/")[-1]` contains no '/' and is no longer than s |
| `Text.LastSegmentIsTail` | core/models.py:222 | `s.split("/")[-1]` is the suffix of s after its last '/': all of s when s holds no '/', and preceded by a '/' otherwise |
| `Text.LeadingZeros` | core/models.py:222 | `int()` ignores leading zeros: zeros in front of a digit string keep it a digit string of the same value |
| `Text.PaddedNumberRoundTrip` | core/models.py:222-227 | parsing `str(n).zfill(4)` gives back n, for every integer n, negative ones included |
| `Text.PaddedNumberHasNoSlash` | core/models.py:227 | a padded number contains no '/', so it is the whole last segment of a reference |
| `Text.LastSegmentAfterSlash` | core/models.py:222 | the last '/'-segment of `p + "/" + t` is t whenever t has no '/' |
| `Reference.OperationCode` | core/models.py:173-179 | RECEIPT→IN, DELIVERY→OUT, INTERNAL→MOVE, ADJUST→ADJ; the code is UNK exactly when the type is none of the four |
| `Reference.WarehouseForReference` | core/models.py:184-194 | the result is the warehouse of the source or of the destination. A receipt takes the destination's warehouse, or None without a destination. Every other type takes the source's warehouse when there is a source. A delivery or transfer without a source gets None. Any other type gets None exactly when both locations are absent |
| `Reference.Scope` | core/models.py:207-216 | an operation is in scope exactly when it is stored, has the same type and creation year, and (when a warehouse was resolved) has its source or its destination in that warehouse |
| `Reference.Latest` | core/models.py:219-220 | None exactly for an empty scope; otherwise an operation of the scope whose id is at least every other id in it |
| `Reference.FormatReferenceRoundTrip` | core/models.py:222-229 | the last '/'-segment of `{wh}/{op}/{year}/{pad4(n)}` is `pad4(n)`, and it parses back to n |
| `Reference.ReferenceStartsWithCode` | core/models.py:229 | a formatted reference begins with its warehouse code followed by '/' |
| `Reference.ReferenceNumber` | core/models.py:218-229 | the reference a save generates ends in the number that follows the last number of its scope |
| `Reference.EmptyScopeStartsAtOne` | core/models.py:218-219 | when no stored operation is in scope, the generated number is 1 |
| `Reference.FirstReferenceEndsInOne` | core/models.py:218-229 | when no stored operation is in scope, the reference is `{wh}/{op}/{year}/0001` |
| `Reference.LastNumberOfHighest` | core/models.py:219-224 | the last number of a scope is the integer ending its highest-id operation's reference, or that operation's id when the reference does not end in an integer |
| `Reference.NumberFollowsLatest` | core/models.py:219-226 | for the highest-id operation in scope, the generated number is one more than the integer ending its reference. When that reference does not end in an integer, it is one more than that operation's id |
| `Reference.UnresolvedWarehouseIsWH` | core/models.py:204 | when no warehouse resolves, the reference starts with the literal `WH/` |
| `Reference.SavedOperationInOwnScope` | core/models.py:184-216 | an operation lies in the scope of its own type, year and resolved warehouse |
| `Reference.ConsecutiveSavesAdvance` | core/models.py:207-229 | two saves in a row with the same type, year and resolved warehouse: the second number is exactly one more than the first, given the first save received the highest id |
| `Operations.LastNumberIn` | core/models.py:218-224 | 0 for an empty scope; for any operation with a strictly highest id in the scope, the integer ending its reference, or its id when that does not parse; among operations sharing the highest id, the earliest is read |
| `Operations.GenerateReference` | core/models.py:201-229 | the step-by-step computation in `save` (op code, warehouse code, scope query, last number with its fallback, padded next number) yields exactly `ReferenceFor` |
| `Operations.OperationTable.Insert` | core/models.py:231 | an insert appends the row under the next auto-increment key; keys stay positive and distinct |
| `Operations.OperationTable.Update` | core/models.py:231 | an update overwrites the stored row with the same key and touches no other row |
| `Operations.InventoryOperation.constructor` | core/models.py:121-165 | a new operation has no primary key, no creation time, and status DRAFT |
| `Operations.InventoryOperation.Save` | core/models.py:199-231 | a non-empty reference is kept. An empty one becomes `ReferenceFor` of the table as it was before the save, so a second save keeps it. Type, status and locations are unchanged. The object is inserted (new key, creation year = current year, and the auto-increment counter advances to that key) or its row is overwritten (counter unchanged). Afterwards it is stored and can be saved again |
| `Findings.DuplicateReferenceExample` | core/models.py:207-222 | three internal transfers, each saved as written, followed by a fourth out of the same warehouse: the fourth is given `W/MOVE/2025/0002`, which the second already holds |
| `Findings.HighestIssued` | core/models.py:218-222 | the corrected numbering reads the highest number already issued under a reference prefix: it bounds every stored reference's number under that prefix, and when positive it is the number of one of them |
| `Findings.CorrectedReferenceFor` | core/models.py:207-229 | the corrected reference carries the same warehouse code, operation code and year, and its number exceeds every number already issued under that prefix; so no stored operation holds it, and its number is >= 1 |

## Findings

| source | as written | input that shows it | evidently intended | confidence | as-written member | corrected member |
|---|---|---|---|---|---|---|
| core/models.py:212-222 | the scope of warehouse W takes in operations whose destination lies in W even though they were numbered under another warehouse's code; the next number follows the highest-id one of them | Warehouses W and X. Internal transfers out of W get `W/MOVE/2025/0001` and `W/MOVE/2025/0002`. A transfer from X into W gets `X/MOVE/2025/0001`. A further transfer out of W is given `W/MOVE/2025/0002` a second time, so the unique reference column rejects the save | a new number exceeds every number already issued under the same warehouse code, operation code and year | high (not executed) | `Findings.DuplicateReferenceExample` | `Findings.CorrectedReferenceFor` |

`Operations.InventoryOperation.Save` keeps the numbering as written,
because it models the source. The corrected numbering and its uniqueness
proof stand beside it in module `Findings`.

## Left out

- Text.ParseInt: Python's `int()` also accepts surrounding whitespace, underscores between digits and non-ASCII digits; the model accepts only an optional sign followed by ASCII digits.
- Operations.InventoryOperation.Save: saving an object whose primary key was set by hand and is not in the table (Django then inserts under that key) is not modelled; the requires clause asks for a stored key.
- Operations.OperationTable.Insert: the unique index on `reference` (core/models.py:123) is not enforced; the database rejects a duplicate reference with an error, while the model stores the row. `max_length=50` (core/models.py:122) is not modelled either; `save()` does not check it, and only backends that check column length enforce it.
- `created_at` (auto_now_add) is kept as its year only, and `timezone.now()` is the `year` parameter; the small window in which the two calls to the clock straddle a new year is not modelled.
- The fields that do not take part in numbering (partner, scheduled date, creator, notes) and the display methods (`__str__`) are not modelled.
- Category, unit of measure and partner records carry no logic and are not declared; product, operation line, stock level and stock-ledger entry are plain datatypes with no operations, because nothing in `core/models.py` changes stock. The uniqueness of a stock level per product and location (`unique_together`, core/models.py:256-257) is not modelled.
- Stock validation and stock changes (availability checks, quantity deltas, ledger entries) are not modelled: `core/views.py` defines only `home` and `dashboard`, and the validate views that `core/urls.py:20,27,32,37` routes to are not defined in it.
- The keyword arguments `save` passes on to the framework (forced insert or update, a field subset, another database) are not modelled; every save writes all fields.
- Operations.InventoryOperation.Save: one `year` stands for both the year of `timezone.now()` (core/models.py:205) and the year that `created_at__year` compares in the scope query (core/models.py:209). With time-zone support on, the first is the UTC year, while the second is taken in the configured time zone. Operations created near New Year can therefore carry one year in their reference and fall outside the next save's scope, so numbering can restart at 0001. The project settings are not part of this model, and this difference is not modelled.
- Concurrent saves: the source takes no lock, and two simultaneous saves in one scope can read the same last number; the model is sequential.
- Forms, admin configuration, URL routing, views and the users app are presentation, routing and authentication code outside the reference generator.
