# ToDoFuncApi in Dafny

A model of the core of a small Azure Functions to-do API. It covers:

- the `Item` and `ItemTableEntity` classes;
- the `Mapper` that converts between them;
- the three HTTP handlers `Create` (POST `/todo`), `Put` (PUT `/todo/{id}`) and `Get` (GET `/todo`).

The handlers run against an in-memory table of rows keyed by (partition key, row key).

Files:

- `wrappers.dfy`: `Option`. It stands for a .NET reference that may be null.
- `guids.dfy`: the "n" rendering of a GUID (32 lower-case hex digits, no hyphens) that a new item takes as its id. It also has the inverse parse, so distinct GUIDs give distinct ids.
- `models.dfy`: `Item` and `ItemTableEntity` as classes with settable fields. `ItemValue` and `Row` are their value snapshots: what a response carries and what the table stores.
- `mapper.dfy`: `ToTableEntity` and `ToItem` as pure functions on snapshots, with both round-trip laws. Two methods build fresh objects the way the C# object initialisers do.
- `table_store.dfy`: the table. Insert fails on a taken key. Replace needs an ETag, treats `"*"` as "any version", and fails with NotFound on a missing key. Query enumerates every row once, in an order the store chooses.
- `todo_api.dfy`: the handlers and .NET's `string.IsNullOrWhiteSpace`. It also has lemmas on what a full scan lists after an insert or a replace.

A store failure is not caught by a handler. The model returns it as `Failed(error)`, the request's uncaught exception. In particular `Put` on a missing row ends in `Failed(NotFound)`, not in a 404 response, and there is no Delete handler. This follows the code (`ToDoFuncApi/ToDoApi.cs:54-57`).

## Model

| member | source | states |
|---|---|---|
| Guids.FormatN | ToDoFuncApi/Models/Item.cs:15 | a GUID's "n" rendering is exactly 32 characters, each a lower-case hex digit |
| Guids.FormatHex | ToDoFuncApi/Models/Item.cs:15 | an n-digit rendering has length n and only lower-case hex digits |
| Guids.ParseFormatHex | ToDoFuncApi/Models/Item.cs:15 | parsing the rendering of a value gives back that value |
| Guids.FormatParseHex | ToDoFuncApi/Models/Item.cs:15 | rendering the parse of a lower-case hex string gives back that string |
| Guids.FormatNInjective | ToDoFuncApi/Models/Item.cs:15 | two GUIDs with the same "n" id are the same GUID |
| Guids.FormatNOnto | ToDoFuncApi/Models/Item.cs:15 | every 32-digit lower-case hex string is the id of some GUID |
| Models.Item.constructor | ToDoFuncApi/Models/Item.cs:13-16 | a new item has the "n" rendering of its GUID as id, null text and Completed false |
| Models.Item.SetId | ToDoFuncApi/Models/Item.cs:9 | setting Id leaves Text and Completed unchanged |
| Models.Item.SetText | ToDoFuncApi/Models/Item.cs:10 | setting Text leaves Id and Completed unchanged |
| Models.Item.SetCompleted | ToDoFuncApi/Models/Item.cs:11 | setting Completed leaves Id and Text unchanged |
| Models.ItemTableEntity.constructor | ToDoFuncApi/Models/ItemTableEntity.cs:8-11 | a new entity has null text, Completed false and no ETag |
| Models.ItemTableEntity.SetPartitionKey | ToDoFuncApi/Models/ItemTableEntity.cs:8 | setting PartitionKey changes nothing else |
| Models.ItemTableEntity.SetRowKey | ToDoFuncApi/Models/ItemTableEntity.cs:8 | setting RowKey changes nothing else |
| Models.ItemTableEntity.SetETag | ToDoFuncApi/Models/ItemTableEntity.cs:8 | setting ETag changes nothing else |
| Models.ItemTableEntity.SetText | ToDoFuncApi/Models/ItemTableEntity.cs:10 | setting Text changes nothing else |
| Models.ItemTableEntity.SetCompleted | ToDoFuncApi/Models/ItemTableEntity.cs:11 | setting Completed changes nothing else |
| Mapper.ToTableEntity | ToDoFuncApi/Mapper.cs:10-19 | the row is in partition "Todo", has no ETag, and maps back to exactly the item (id, text, completed) |
| Mapper.ToItem | ToDoFuncApi/Mapper.cs:21-29 | id is the row key, text and completion copied; only the partition key and ETag are dropped, so the row is recoverable from the item and those two |
| Mapper.ReverseRoundTrip | ToDoFuncApi/Mapper.cs:21-29 | a row of partition "Todo" is rebuilt from its item in every field but the ETag |
| Mapper.ToItemSeparatesKeys | ToDoFuncApi/Mapper.cs:25 | rows of one partition with different keys give items with different ids |
| Mapper.ToTableEntityObject | ToDoFuncApi/Mapper.cs:10-19 | builds a fresh entity whose value is ToTableEntity of the item; the item is not modified |
| Mapper.ToItemObject | ToDoFuncApi/Mapper.cs:21-29 | builds a fresh item equal to ToItem of the entity, whatever GUID its constructor drew |
| TableStore.Table.Insert | ToDoFuncApi/ToDoApi.cs:33 | a taken key gives Conflict and no change; otherwise exactly that one row is added, under a new ETag |
| TableStore.Table.Replace | ToDoFuncApi/ToDoApi.cs:53-55 | no ETag, a missing key or a version mismatch each fail and leave the table unchanged; otherwise exactly that one row is overwritten |
| TableStore.Table.Query | ToDoFuncApi/ToDoApi.cs:69-70 | the scan lists every stored row exactly once and nothing else |
| ToDoApi.IsNullOrWhiteSpace | ToDoFuncApi/ToDoApi.cs:29 | true exactly for null or for text made only of .NET white-space characters (the empty text included) |
| ToDoApi.ToItems | ToDoFuncApi/ToDoApi.cs:72 | one item per row, in the rows' order, each ToItem of its row |
| ToDoApi.Create | ToDoFuncApi/ToDoApi.cs:19-36 | BadRequest exactly when the body is absent or its text is null or white space, and then no change; otherwise adds the one row ("Todo", new id) with that text and Completed false and answers with that item, or reports Conflict if the key is taken; a table holding only partition "Todo" still does afterwards |
| ToDoApi.Put | ToDoFuncApi/ToDoApi.cs:39-58 | BadRequest exactly when the body is absent or its id differs from the path id, and then no change; otherwise overwrites row ("Todo", id) with the body's text and completion and answers NoContent; a missing row fails with NotFound and never a version conflict; a table holding only partition "Todo" still does afterwards |
| ToDoApi.Get | ToDoFuncApi/ToDoApi.cs:62-75 | answers Ok with ToItems of a scan that lists every stored row exactly once, so one item per row in scan order; hence every item is a stored row's image and every row's image is present; in a single-partition table the ids are distinct; the table is not modified |
| ToDoApi.ScanImage | ToDoFuncApi/ToDoApi.cs:70-72 | mapping a full scan gives one item per row, nothing outside the table's listing, every listed item, and distinct ids in a single-partition table |
| ToDoApi.ListingAfterInsert | ToDoFuncApi/ToDoApi.cs:31-33 | after a create, a scan lists the old items plus the new one |
| ToDoApi.ListingAfterReplace | ToDoFuncApi/ToDoApi.cs:52-55 | after a put, a scan lists the new item in place of the old one; every other item is unchanged |
| ToDoApi.ListingIds | ToDoFuncApi/ToDoApi.cs:72 | in a single-partition table the listed ids are exactly the row keys |

## Left out

- The HTTP trigger, reading the request stream and JSON decoding are not modelled. A decoded body is an argument: `Option<CreateItemDTO>` for Create, a possibly-null `Item` for Put. `CreateItemDTO` and `TodoItems` are defined outside the modelled files. The first is taken as a record holding a text, the second as a list of items.
- GUID generation is random and not modelled. The GUID is a parameter, so its uniqueness is not proved. A collision is handled: Create then reports the store's Conflict.
- The store chooses ETags. Each write's new ETag is the parameter `newETag`.
- The Azure table client's internals are not modelled: the output-binding collector, `TableOperation.Replace`, `ExecuteAsync` and `ExecuteQuerySegmentedAsync`. The table is an in-memory map. A thrown store exception becomes `Response.Failed`.
- Query segmentation is simplified. The code reads only the first segment of the query, with a null continuation token. The model's scan returns every row. Its order is left to the store.
- Logging, async execution and concurrency between requests are not modelled. Each handler runs to completion alone.
- Null Id, PartitionKey and RowKey are not modelled. A null Id would fail Put's comparison with the path id, which gives BadRequest anyway. A default-constructed entity's null keys are the empty string here. The core sets both keys before an entity reaches the store.
- Strings are sequences of Unicode scalar values, not UTF-16 code units. All .NET white-space characters are in the Basic Multilingual Plane, so `IsNullOrWhiteSpace` is unaffected.
