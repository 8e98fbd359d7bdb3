/**
 * ToDoListRepository: the todolist table as a map from title to row, the
 * row encoding of an item, and the table operations. The title is the
 * table's key, so at most one row is stored per title. Beside the rows the
 * model keeps, as ghost state, the items they encode.
 */
module Repository {
  import opened Errors
  import opened ItemStatus
  import opened DateParser
  import opened ListItems

  /** One row of the todolist table: five text columns. */
  datatype Row = Row(title: string, description: string, timestamp: string, dueDate: string, status: string)

  type Table = map<string, Row>

  /** The dueDate column's value for an item without a due date. */
  const NONE: string := "None"

  /**
   * addItemToStatementParams: the title and description as they are, both
   * date-times printed with toString, "None" for a missing due date and the
   * status by its enum name. A missing timestamp is dereferenced and fails.
   */
  function Encode(item: ItemValue): (r: Result<Row>)
    ensures r.Err? <==> item.timestamp.None?
    ensures r.Err? ==> r.error == NullTimestamp
    ensures r.Ok? ==> r.value.title == item.title && r.value.description == item.description
    ensures r.Ok? ==> (r.value.dueDate == NONE <==> item.dueDate.None?)
    ensures r.Ok? ==> ValueOf(r.value.status) == Ok(item.status)
    ensures r.Ok? ==> r.value.timestamp == Format(item.timestamp.value)
    ensures r.Ok? && item.dueDate.Some? ==> r.value.dueDate == Format(item.dueDate.value)
  {
    match item.timestamp
    case None => Err(NullTimestamp)
    case Some(timestamp) =>
      ValueOfName(item.status);
      Ok(Row(item.title, item.description, Format(timestamp),
             if item.dueDate.None? then NONE else Format(item.dueDate.value),
             Name(item.status)))
  }

  /** The dueDate column after T is replaced: "None" or a date-time to parse. */
  function DecodeDueDate(text: string): (r: Result<Option<DateTime>>)
    ensures r.Ok? && r.value.None? <==> text == NONE
  {
    if text == NONE then Ok(None)
    else
      var d :- Parse(text);
      Ok(Some(d))
  }

  /**
   * The row-to-item mapping of getItemByTitle: both date columns have T
   * replaced by a space and are parsed, "None" is a missing due date and
   * the status column is read with valueOf.
   */
  function Decode(row: Row): (r: Result<ItemValue>)
    ensures r.Ok? ==> r.value.title == row.title && r.value.description == row.description
    ensures r.Ok? ==> r.value.timestamp.Some?
    ensures r.Ok? ==> (r.value.dueDate.None? <==> ReplaceT(row.dueDate) == NONE)
    ensures r.Ok? ==> Name(r.value.status) == row.status
  {
    var timestamp :- Parse(ReplaceT(row.timestamp));
    var dueDate :- DecodeDueDate(ReplaceT(row.dueDate));
    var status :- ValueOf(row.status);
    Ok(ItemValue(row.title, row.description, Some(timestamp), dueDate, status))
  }

  /** Decoding an encoded item gives the item back. */
  lemma DecodeEncode(item: ItemValue)
    requires item.timestamp.Some?
    ensures Encode(item).Ok? && Decode(Encode(item).value) == Ok(item)
  {
    var row := Encode(item).value;
    ParseReplaceTFormat(item.timestamp.value);
    ReplaceTFixes(NONE);
    if item.dueDate.Some? {
      ParseReplaceTFormat(item.dueDate.value);
      ReplaceTRender(item.dueDate.value);
      assert ReplaceT(row.dueDate) != NONE;
    }
    ValueOfName(item.status);
  }

  /** The items the table holds, by title. */
  type Store = map<string, ItemValue>

  /** Every stored item is filed under its own title and has a timestamp. */
  predicate Keyed(store: Store) {
    forall t {:trigger store[t]} :: t in store ==> store[t].title == t && store[t].timestamp.Some?
  }

  /** An item with a timestamp, filed under its title, is a keyed store on its own. */
  lemma KeyedSingle(item: ItemValue)
    requires item.timestamp.Some?
    ensures Keyed(map[item.title := item])
  {
  }

  /** The rows are exactly the encodings of the stored items. */
  predicate Represents(table: Table, store: Store) {
    table.Keys == store.Keys
    && forall t {:trigger Encode(store[t])} :: t in store ==> Encode(store[t]) == Ok(table[t])
  }

  /**
   * The items after addListItem: the item is filed under its title unless
   * that key is already taken (the insert fails and the failure is only
   * logged) or the item has no timestamp (writing it fails).
   */
  function Added(store: Store, item: ItemValue): (r: Store)
    ensures Keyed(store) ==> Keyed(r)
    ensures item.timestamp.Some? ==> item.title in r
    ensures forall t :: t in store ==> t in r && r[t] == store[t]
    ensures forall t :: t in r && t !in store ==> t == item.title && r[t] == item
  {
    if item.timestamp.None? || item.title in store then store else store[item.title := item]
  }

  /** getItemByTitle on the stored items: the item, or the not-found error. */
  function Lookup(store: Store, title: string): (r: Result<ItemValue>)
    ensures r.Err? <==> title !in store
    ensures r.Err? ==> r.error == ListItemNotFound(NotFoundMessage(title))
    ensures r.Ok? ==> r.value == store[title]
    ensures Keyed(store) && r.Ok? ==> r.value.title == title
  {
    if title in store then Ok(store[title]) else Err(ListItemNotFound(NotFoundMessage(title)))
  }

  /** Looking up a newly added item by its title gives it back. */
  lemma LookupAdded(store: Store, item: ItemValue)
    requires item.timestamp.Some? && item.title !in store
    ensures Lookup(Added(store, item), item.title) == Ok(item)
  {
  }

  /** A row of a represented table decodes to the item it was written from. */
  lemma DecodeStored(table: Table, store: Store, title: string)
    requires Keyed(store) && Represents(table, store) && title in store
    ensures title in table && Decode(table[title]) == Ok(store[title])
  {
    DecodeEncode(store[title]);
  }

  /** No title occurs twice. */
  predicate Distinct(titles: seq<string>) {
    forall i, j :: 0 <= i < j < |titles| ==> titles[i] != titles[j]
  }

  /** A listing without repeats that covers the keys has one entry per key. */
  lemma {:induction false} DistinctSize(titles: seq<string>, keys: set<string>)
    requires Distinct(titles) && forall t :: t in keys <==> t in titles
    ensures |titles| == |keys|
  {
    if titles != [] {
      var last := titles[|titles| - 1];
      var front := titles[..|titles| - 1];
      assert titles == front + [last];
      assert forall t :: t in keys - {last} <==> t in front by {
        forall t ensures t in keys - {last} <==> t in front {
          if t in front {
            var i :| 0 <= i < |front| && front[i] == t;
            assert titles[i] == t;
          }
        }
      }
      DistinctSize(front, keys - {last});
    }
  }

  /**
   * What getAllListItems promises about one listing: every stored item
   * appears exactly once, under its own title, and there are as many items
   * as stored titles.
   */
  lemma ListingComplete(store: Store, items: seq<ItemValue>, titles: seq<string>)
    requires Keyed(store)
    requires Distinct(titles) && forall t :: t in store <==> t in titles
    requires |items| == |titles| && forall i :: 0 <= i < |items| ==> items[i] == store[titles[i]]
    ensures |items| == |store|
    ensures forall i :: 0 <= i < |items| ==> Lookup(store, items[i].title) == Ok(items[i])
    ensures forall i, j :: 0 <= i < j < |items| ==> items[i].title != items[j].title
    ensures forall t :: t in store ==> exists i :: 0 <= i < |items| && items[i] == store[t]
  {
    DistinctSize(titles, store.Keys);
    forall t | t in store
      ensures exists i :: 0 <= i < |items| && items[i] == store[t]
    {
      var i :| 0 <= i < |titles| && titles[i] == t;
      assert items[i] == store[t];
    }
  }

  class ToDoListRepository {
    var table: Table
    ghost var contents: Store

    ghost predicate Valid()
      reads this
    {
      Keyed(contents) && Represents(table, contents)
    }

    /** The repository over the items the database already holds. */
    constructor (rows: Table, ghost items: Store)
      requires Keyed(items) && Represents(rows, items)
      ensures Valid() && table == rows && contents == items
    {
      table := rows;
      contents := items;
    }

    /** addListItem: insert the item's row; a taken title leaves the table as it was. */
    method AddListItem(item: ListItem) returns (r: Outcome)
      requires Valid()
      modifies this
      ensures Valid()
      ensures r == (if item.timestamp.None? then Fail(NullTimestamp) else Pass)
      ensures contents == Added(old(contents), item.Value())
      ensures table == if item.timestamp.None? || item.title in old(table) then old(table)
                       else old(table)[item.title := Encode(item.Value()).value]
    {
      var row := Encode(item.Value());
      if row.Err? {
        return Fail(row.error);
      }
      if item.title !in table {
        table := table[item.title := row.value];
        contents := contents[item.title := item.Value()];
      }
      return Pass;
    }

    /** removeListItem: delete the row with that title, or report it missing. */
    method RemoveListItem(title: string) returns (r: Outcome)
      requires Valid()
      modifies this
      ensures Valid()
      ensures r == (if title in old(contents) then Pass else Fail(ListItemNotFound(NotFoundMessage(title))))
      ensures contents == old(contents) - {title} && table == old(table) - {title}
    {
      if title !in table {
        return Fail(ListItemNotFound(NotFoundMessage(title)));
      }
      table := table - {title};
      contents := contents - {title};
      return Pass;
    }

    /** removeAllItems: delete every row. */
    method RemoveAllItems()
      modifies this
      ensures Valid() && table == map[] && contents == map[]
    {
      table := map[];
      contents := map[];
    }

    /** getItemByTitle: a new item built from the row with that title. */
    method GetItemByTitle(title: string) returns (r: Result<ListItem>)
      requires Valid()
      ensures r.Err? <==> title !in contents
      ensures r.Err? ==> r.error == ListItemNotFound(NotFoundMessage(title))
      ensures r.Ok? ==> fresh(r.value) && Lookup(contents, title) == Ok(r.value.Value())
    {
      if title !in table {
        return Err(ListItemNotFound(NotFoundMessage(title)));
      }
      DecodeStored(table, contents, title);
      var v := Decode(table[title]).value;
      var item := new ListItem(v.title, v.description, v.timestamp, v.dueDate, v.status);
      return Ok(item);
    }

    /** doesListItemExist: whether a row has that title. */
    method DoesListItemExist(title: string) returns (b: bool)
      requires Valid()
      ensures b <==> title in contents
    {
      b := title in table;
    }

    /**
     * getAllListItems: one item per stored title, each built from its row,
     * in the order the database returns them; titles is that order.
     */
    method GetAllListItems() returns (items: seq<ItemValue>, ghost titles: seq<string>)
      requires Valid()
      ensures Distinct(titles) && forall t :: t in contents <==> t in titles
      ensures |items| == |titles|
      ensures forall i :: 0 <= i < |items| ==> items[i] == contents[titles[i]]
      ensures |items| == |contents|
      ensures forall i :: 0 <= i < |items| ==> Lookup(contents, items[i].title) == Ok(items[i])
      ensures forall t :: t in contents ==> exists i :: 0 <= i < |items| && items[i] == contents[t]
    {
      var remaining := table.Keys;
      items, titles := [], [];
      while remaining != {}
        invariant remaining <= contents.Keys
        invariant Distinct(titles)
        invariant forall t :: t in titles ==> t in contents && t !in remaining
        invariant forall t :: t in contents ==> t in remaining || t in titles
        invariant |items| == |titles|
        invariant forall i :: 0 <= i < |items| ==> items[i] == contents[titles[i]]
        decreases |remaining|
      {
        var title :| title in remaining;
        var item := GetItemByTitle(title);
        items, titles := items + [item.value.Value()], titles + [title];
        remaining := remaining - {title};
      }
      ListingComplete(contents, items, titles);
    }
  }
}
