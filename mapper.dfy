/**
 * Conversion between an item and its storage row. Every item lives in the
 * one partition "Todo" and is keyed in it by its id.
 */
module Mapper {
  import opened Wrappers
  import opened Guids
  import opened Models

  const TodoPartition: string := "Todo"

  /** The row for an item: partition "Todo", row key the id, attributes copied, no ETag yet. */
  function ToTableEntity(item: ItemValue): (row: Row)
    ensures row.partitionKey == TodoPartition && row.eTag == None
    ensures ToItem(row) == item
  {
    Row(TodoPartition, item.id, None, item.text, item.completed)
  }

  /** The item for a row: id the row key, attributes copied; partition and ETag are dropped. */
  function ToItem(row: Row): (item: ItemValue)
    ensures Row(row.partitionKey, item.id, row.eTag, item.text, item.completed) == row
  {
    ItemValue(row.rowKey, row.text, row.completed)
  }

  /** A row of the "Todo" partition is rebuilt from its item, all but its ETag. */
  lemma ReverseRoundTrip(row: Row)
    requires row.partitionKey == TodoPartition
    ensures ToTableEntity(ToItem(row)) == row.(eTag := None)
  {
  }

  /** Rows of one partition with different row keys give items with different ids. */
  lemma ToItemSeparatesKeys(r1: Row, r2: Row)
    requires r1.partitionKey == r2.partitionKey
    requires (r1.partitionKey, r1.rowKey) != (r2.partitionKey, r2.rowKey)
    ensures ToItem(r1).id != ToItem(r2).id
  {
  }

  /** Builds a new entity from an item, as the object initialiser does; the item is not changed. */
  method ToTableEntityObject(item: Item) returns (entity: ItemTableEntity)
    ensures fresh(entity)
    ensures entity.Value() == ToTableEntity(item.Value())
  {
    entity := new ItemTableEntity();
    entity.SetCompleted(item.completed);
    entity.SetText(item.text);
    entity.SetPartitionKey(TodoPartition);
    entity.SetRowKey(item.id);
  }

  /**
   * Builds a new item from an entity. The constructor draws a GUID (here the
   * parameter guid), but the initialiser overwrites the id, so the result
   * does not depend on it.
   */
  method ToItemObject(entity: ItemTableEntity, guid: Guid) returns (item: Item)
    ensures fresh(item)
    ensures item.Value() == ToItem(entity.Value())
  {
    item := new Item(guid);
    item.SetId(entity.rowKey);
    item.SetText(entity.text);
    item.SetCompleted(entity.completed);
  }
}
