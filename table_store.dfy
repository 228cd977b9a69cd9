/**
 * An in-memory stand-in for the storage table: rows keyed by
 * (partition key, row key). Insert, unconditional or ETag-checked replace,
 * and a scan of every row. The store assigns each written row a new ETag;
 * which one is the caller-supplied parameter newETag.
 */
module TableStore {
  import opened Wrappers
  import opened Models

  type Key = (string, string)

  /** The ETag that matches any stored version. */
  const Wildcard: string := "*"

  /** Failures the store reports; a handler does not catch them. */
  datatype StoreError =
    | Conflict            // insert: a row with this key already exists
    | NotFound            // replace: no row with this key
    | PreconditionFailed  // replace: the ETag matches neither "*" nor the stored version
    | MissingETag         // replace: the entity carries no ETag at all

  function KeyOf(row: Row): Key {
    (row.partitionKey, row.rowKey)
  }

  /** Every row is stored under its own key. */
  ghost predicate WellKeyed(rows: map<Key, Row>) {
    forall k :: k in rows ==> KeyOf(rows[k]) == k
  }

  /** Every row belongs to the partition pk. */
  ghost predicate InPartition(rows: map<Key, Row>, pk: string) {
    forall k :: k in rows ==> k.0 == pk
  }

  /** rs enumerates the rows of the map: each stored row exactly once, in some order. */
  ghost predicate IsListing(rs: seq<Row>, rows: map<Key, Row>) {
    && |rs| == |rows|
    && (forall i :: 0 <= i < |rs| ==> KeyOf(rs[i]) in rows && rows[KeyOf(rs[i])] == rs[i])
    && (forall k :: k in rows ==> rows[k] in rs)
    && (forall i, j :: 0 <= i < j < |rs| ==> KeyOf(rs[i]) != KeyOf(rs[j]))
  }

  /** Whether a replace carrying this ETag may overwrite the stored row. */
  predicate VersionMatches(sent: Option<string>, stored: Row) {
    sent == Some(Wildcard) || sent == stored.eTag
  }

  class Table {
    var rows: map<Key, Row>

    ghost predicate Valid()
      reads this
    {
      WellKeyed(rows)
    }

    constructor ()
      ensures Valid() && rows == map[]
    {
      rows := map[];
    }

    /** Adds the entity's row under a new ETag; fails if its key is taken. */
    method Insert(entity: ItemTableEntity, newETag: string) returns (error: Option<StoreError>)
      requires Valid()
      modifies this
      ensures Valid()
      ensures KeyOf(entity.Value()) in old(rows) ==> error == Some(Conflict) && rows == old(rows)
      ensures KeyOf(entity.Value()) !in old(rows) ==>
        && error == None
        && rows == old(rows)[KeyOf(entity.Value()) := entity.Value().(eTag := Some(newETag))]
    {
      var row := entity.Value();
      var key := KeyOf(row);
      if key in rows {
        return Some(Conflict);
      }
      rows := rows[key := row.(eTag := Some(newETag))];
      error := None;
    }

    /**
     * Overwrites the row with the entity's key. The entity must carry an
     * ETag; "*" skips the version check, any other value must equal the
     * stored one.
     */
    method Replace(entity: ItemTableEntity, newETag: string) returns (error: Option<StoreError>)
      requires Valid()
      modifies this
      ensures Valid()
      ensures var row, key := entity.Value(), KeyOf(entity.Value());
        if row.eTag == None || row.eTag == Some("") then
          error == Some(MissingETag) && rows == old(rows)
        else if key !in old(rows) then
          error == Some(NotFound) && rows == old(rows)
        else if !VersionMatches(row.eTag, old(rows)[key]) then
          error == Some(PreconditionFailed) && rows == old(rows)
        else
          error == None && rows == old(rows)[key := row.(eTag := Some(newETag))]
    {
      var row := entity.Value();
      var key := KeyOf(row);
      if row.eTag == None || row.eTag == Some("") {
        return Some(MissingETag);
      }
      if key !in rows {
        return Some(NotFound);
      }
      if !VersionMatches(row.eTag, rows[key]) {
        return Some(PreconditionFailed);
      }
      rows := rows[key := row.(eTag := Some(newETag))];
      error := None;
    }

    /** A scan of the whole table: every row once, in an order the store chooses. */
    method Query() returns (result: seq<Row>)
      requires Valid()
      ensures IsListing(result, rows)
    {
      var remaining := rows.Keys;
      result := [];
      while remaining != {}
        invariant remaining <= rows.Keys
        invariant |result| + |remaining| == |rows|
        invariant forall i :: 0 <= i < |result| ==>
          KeyOf(result[i]) in rows && KeyOf(result[i]) !in remaining && rows[KeyOf(result[i])] == result[i]
        invariant forall k :: k in rows && k !in remaining ==> rows[k] in result
        invariant forall i, j :: 0 <= i < j < |result| ==> KeyOf(result[i]) != KeyOf(result[j])
        decreases |remaining|
      {
        var k :| k in remaining;
        result := result + [rows[k]];
        remaining := remaining - {k};
      }
    }
  }
}
