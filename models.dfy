/**
 * The two entities: the domain item handed to and from clients, and the row
 * stored in the table. Both are mutable objects with settable properties; the
 * value types alongside are their snapshots, which is what the table stores
 * and what a response carries.
 */
module Models {
  import opened Wrappers
  import opened Guids

  /** A snapshot of an Item: what its JSON form carries. A null Text is None. */
  datatype ItemValue = ItemValue(id: string, text: Option<string>, completed: bool)

  /** A snapshot of an ItemTableEntity: its key, its version marker and its attributes. */
  datatype Row = Row(partitionKey: string, rowKey: string, eTag: Option<string>,
                     text: Option<string>, completed: bool)

  /** A to-do item. */
  class Item {
    var id: string
    var text: Option<string>
    var completed: bool

    /** A new item gets a fresh GUID in "n" format as its id; the GUID is supplied by the caller. */
    constructor (guid: Guid)
      ensures id == FormatN(guid) && IsGuidN(id)
      ensures text == None && !completed
    {
      id := FormatN(guid);
      text := None;
      completed := false;
    }

    function Value(): ItemValue
      reads this
    {
      ItemValue(id, text, completed)
    }

    method SetId(newId: string)
      modifies this
      ensures id == newId && text == old(text) && completed == old(completed)
    {
      id := newId;
    }

    method SetText(newText: Option<string>)
      modifies this
      ensures text == newText && id == old(id) && completed == old(completed)
    {
      text := newText;
    }

    method SetCompleted(newCompleted: bool)
      modifies this
      ensures completed == newCompleted && id == old(id) && text == old(text)
    {
      completed := newCompleted;
    }
  }

  /**
   * A storage row. Its own attributes are Text and Completed; PartitionKey,
   * RowKey and ETag come from the table entity base class. The keys of a
   * default-constructed entity (null in .NET) are the empty string here.
   */
  class ItemTableEntity {
    var partitionKey: string
    var rowKey: string
    var eTag: Option<string>
    var text: Option<string>
    var completed: bool

    constructor ()
      ensures partitionKey == "" && rowKey == "" && eTag == None
      ensures text == None && !completed
    {
      partitionKey, rowKey, eTag := "", "", None;
      text, completed := None, false;
    }

    function Value(): Row
      reads this
    {
      Row(partitionKey, rowKey, eTag, text, completed)
    }

    method SetPartitionKey(key: string)
      modifies this
      ensures Value() == old(Value()).(partitionKey := key)
    {
      partitionKey := key;
    }

    method SetRowKey(key: string)
      modifies this
      ensures Value() == old(Value()).(rowKey := key)
    {
      rowKey := key;
    }

    method SetETag(tag: Option<string>)
      modifies this
      ensures Value() == old(Value()).(eTag := tag)
    {
      eTag := tag;
    }

    method SetText(newText: Option<string>)
      modifies this
      ensures Value() == old(Value()).(text := newText)
    {
      text := newText;
    }

    method SetCompleted(newCompleted: bool)
      modifies this
      ensures Value() == old(Value()).(completed := newCompleted)
    {
      completed := newCompleted;
    }
  }
}
