/**
 * The three HTTP handlers: Create (POST /todo), Put (PUT /todo/{id}) and
 * Get (GET /todo), each run against the table. A decoded request body is
 * an argument (None, or null, when it did not decode); a store failure is
 * not caught by a handler and ends the request as Failed.
 */
module ToDoApi {
  import opened Wrappers
  import opened Guids
  import opened Models
  import opened Mapper
  import opened TableStore

  /** The body of a create request: only the text. */
  datatype CreateItemDTO = CreateItemDTO(text: Option<string>)

  datatype Response =
    | OkItem(item: ItemValue)          // 200 with one item
    | OkItems(items: seq<ItemValue>)   // 200 with { Items = ... }
    | BadRequest                       // 400
    | NoContent                        // 204
    | Failed(error: StoreError)        // the store's exception escaped the handler

  /** .NET's char.IsWhiteSpace: the space, line and paragraph separators, and U+0009 to U+000D and U+0085. */
  predicate IsWhiteSpace(c: char) {
    || '\t' <= c <= '\r'
    || c == ' ' || c == '\U{85}' || c == '\U{A0}' || c == '\U{1680}'
    || '\U{2000}' <= c <= '\U{200A}'
    || c == '\U{2028}' || c == '\U{2029}' || c == '\U{202F}' || c == '\U{205F}' || c == '\U{3000}'
  }

  function AllWhiteSpace(s: string): (r: bool)
    ensures r <==> forall i :: 0 <= i < |s| ==> IsWhiteSpace(s[i])
  {
    if s == [] then true else IsWhiteSpace(s[0]) && AllWhiteSpace(s[1..])
  }

  /** string.IsNullOrWhiteSpace: null, empty, or only white space. */
  function IsNullOrWhiteSpace(s: Option<string>): (r: bool)
    ensures r <==> (s.None? || forall i :: 0 <= i < |s.value| ==> IsWhiteSpace(s.value[i]))
  {
    match s
    case None => true
    case Some(t) => AllWhiteSpace(t)
  }

  /** Select(ToItem).ToList(): one item per row, in the rows' order. */
  function ToItems(rows: seq<Row>): (items: seq<ItemValue>)
    ensures |items| == |rows|
    ensures forall i :: 0 <= i < |rows| ==> items[i] == ToItem(rows[i])
  {
    if rows == [] then [] else [ToItem(rows[0])] + ToItems(rows[1..])
  }

  /** The items a complete scan of the table yields, as a set. */
  ghost function Listing(rows: map<Key, Row>): set<ItemValue> {
    set k | k in rows :: ToItem(rows[k])
  }

  /** Create: validate the text, build a new item and insert its row. */
  method Create(table: Table, body: Option<CreateItemDTO>, guid: Guid, newETag: string)
    returns (resp: Response)
    requires table.Valid()
    modifies table
    ensures table.Valid()
    ensures resp == BadRequest <==> body.None? || IsNullOrWhiteSpace(body.value.text)
    ensures resp == BadRequest ==> table.rows == old(table.rows)
    ensures resp != BadRequest ==>
      var key := (TodoPartition, FormatN(guid));
      if key in old(table.rows) then
        resp == Failed(Conflict) && table.rows == old(table.rows)
      else
        && resp == OkItem(ItemValue(FormatN(guid), body.value.text, false))
        && table.rows == old(table.rows)[key := Row(TodoPartition, FormatN(guid), Some(newETag), body.value.text, false)]
    ensures resp.OkItem? ==> IsGuidN(resp.item.id) && KeyOf(ToTableEntity(resp.item)) in table.rows
    ensures InPartition(old(table.rows), TodoPartition) ==> InPartition(table.rows, TodoPartition)
  {
    if body.None? || IsNullOrWhiteSpace(body.value.text) {
      return BadRequest;
    }
    var item := new Item(guid);
    item.SetText(body.value.text);
    var entity := ToTableEntityObject(item);
    var error := table.Insert(entity, newETag);
    if error.Some? {
      return Failed(error.value);
    }
    resp := OkItem(item.Value());
  }

  /**
   * Put: the body's id must equal the path's id; the row is then replaced
   * with ETag "*", so no version check can refuse it. A missing row makes
   * the replace fail, and that failure is what the request ends with.
   */
  method Put(table: Table, body: Item?, id: string, newETag: string) returns (resp: Response)
    requires table.Valid()
    modifies table
    ensures table.Valid()
    ensures resp == BadRequest <==> body == null || body.id != id
    ensures resp == BadRequest ==> table.rows == old(table.rows)
    ensures resp != BadRequest ==>
      var key := (TodoPartition, id);
      if key !in old(table.rows) then
        resp == Failed(NotFound) && table.rows == old(table.rows)
      else
        && resp == NoContent
        && table.rows == old(table.rows)[key := Row(TodoPartition, id, Some(newETag), body.text, body.completed)]
    ensures InPartition(old(table.rows), TodoPartition) ==> InPartition(table.rows, TodoPartition)
  {
    if body == null || body.id != id {
      return BadRequest;
    }
    var entity := ToTableEntityObject(body);
    entity.SetETag(Some(Wildcard));
    var error := table.Replace(entity, newETag);
    if error.Some? {
      return Failed(error.value);
    }
    resp := NoContent;
  }

  /** Get: every row of the table, each mapped to its item; the table is only read. */
  method Get(table: Table) returns (resp: Response)
    requires table.Valid()
    ensures resp.OkItems?
    ensures exists rs :: IsListing(rs, table.rows) && resp.items == ToItems(rs)
    ensures |resp.items| == |table.rows|
    ensures forall i :: 0 <= i < |resp.items| ==> resp.items[i] in Listing(table.rows)
    ensures forall x :: x in Listing(table.rows) ==> x in resp.items
    ensures InPartition(table.rows, TodoPartition) ==>
      forall i, j :: 0 <= i < j < |resp.items| ==> resp.items[i].id != resp.items[j].id
  {
    var rows := table.Query();
    ScanImage(rows, table.rows);
    resp := OkItems(ToItems(rows));
  }

  /**
   * The items of a scan are the listed items, each once per row: the
   * same count, nothing outside the listing, every listed item present,
   * and distinct ids when the table holds one partition.
   */
  lemma ScanImage(rs: seq<Row>, rows: map<Key, Row>)
    requires IsListing(rs, rows)
    ensures |ToItems(rs)| == |rows|
    ensures forall i :: 0 <= i < |rs| ==> ToItems(rs)[i] in Listing(rows)
    ensures forall x :: x in Listing(rows) ==> x in ToItems(rs)
    ensures InPartition(rows, TodoPartition) ==>
      forall i, j :: 0 <= i < j < |rs| ==> ToItems(rs)[i].id != ToItems(rs)[j].id
  {
    var items := ToItems(rs);
    forall i | 0 <= i < |rs| ensures items[i] in Listing(rows) {
      assert items[i] == ToItem(rows[KeyOf(rs[i])]);
    }
    forall x | x in Listing(rows) ensures x in items {
      var k :| k in rows && x == ToItem(rows[k]);
      var i :| 0 <= i < |rs| && rs[i] == rows[k];
      assert items[i] == x;
    }
  }

  /** After an insert of a new key, a scan lists one more item: the new row's. */
  lemma ListingAfterInsert(rows: map<Key, Row>, row: Row)
    requires KeyOf(row) !in rows
    ensures Listing(rows[KeyOf(row) := row]) == Listing(rows) + {ToItem(row)}
  {
    var rows' := rows[KeyOf(row) := row];
    forall x | x in Listing(rows) ensures x in Listing(rows') {
      var k :| k in rows && x == ToItem(rows[k]);
      assert rows'[k] == rows[k];
    }
    assert ToItem(rows'[KeyOf(row)]) in Listing(rows');
  }

  /**
   * After a replace of an existing row of a single-partition table, a scan
   * lists the new item in place of the old one and nothing else changes.
   */
  lemma ListingAfterReplace(rows: map<Key, Row>, pk: string, row: Row)
    requires WellKeyed(rows) && InPartition(rows, pk)
    requires KeyOf(row) in rows
    ensures Listing(rows[KeyOf(row) := row]) == Listing(rows) - {ToItem(rows[KeyOf(row)])} + {ToItem(row)}
  {
    var key := KeyOf(row);
    var rows' := rows[key := row];
    var gone := ToItem(rows[key]);
    forall x | x in Listing(rows') ensures x in Listing(rows) - {gone} + {ToItem(row)} {
      var k :| k in rows' && x == ToItem(rows'[k]);
      if k != key {
        ToItemSeparatesKeys(rows[k], rows[key]);
      }
    }
    forall x | x in Listing(rows) - {gone} ensures x in Listing(rows') {
      var k :| k in rows && x == ToItem(rows[k]);
      assert k != key;
      assert rows'[k] == rows[k];
    }
    assert ToItem(rows'[key]) in Listing(rows');
  }

  /** In a single-partition table, the listed ids are exactly the row keys. */
  lemma ListingIds(rows: map<Key, Row>, pk: string)
    requires WellKeyed(rows) && InPartition(rows, pk)
    ensures IdsOf(Listing(rows)) == RowKeysOf(rows)
  {
    forall id | id in RowKeysOf(rows) ensures id in IdsOf(Listing(rows)) {
      var k :| k in rows && k.1 == id;
      assert ToItem(rows[k]) in Listing(rows);
    }
  }

  ghost function IdsOf(items: set<ItemValue>): set<string> {
    set x | x in items :: x.id
  }

  ghost function RowKeysOf(rows: map<Key, Row>): set<string> {
    set k | k in rows :: k.1
  }
}
