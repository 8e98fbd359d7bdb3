/**
 * The to-do list of the earlier in-memory revision: a hash map from title
 * to item objects. The map hands out the stored objects themselves, so a
 * caller that edits an item edits the stored one. Each console dialogue is
 * specified by a function of the remaining input and the stored values.
 */
module LegacyStore {
  import opened Errors
  import opened ItemStatus
  import opened DateParser
  import opened Input
  import opened ToDoLists
  import opened LegacyItems

  /** The values of the stored items, by key. */
  type Items = map<string, LegacyValue>

  /** What a dialogue leaves behind: its outcome, the input left, and the stored values. */
  datatype Change = Change(outcome: Outcome, lines: seq<string>, items: Items)

  /** addDueDate on a legacy item: one line is read, and only the due date may change. */
  function LegacyDueDate(lines: seq<string>, item: LegacyValue): (r: Read<LegacyValue>)
    ensures r.result.Ok? <==> |lines| > 0
    ensures r.result.Err? ==> r == Read(Err(EndOfInput), lines)
    ensures r.result.Ok? ==> r.rest == lines[1..] && r.result.value == item.(dueDate := DueDateFrom(lines[0], item.dueDate))
  {
    var next := NextLine(lines);
    match next.result
    case Err(e) => Read(Err(e), next.rest)
    case Ok(text) => Read(Ok(item.(dueDate := DueDateFrom(text, item.dueDate))), next.rest)
  }

  /**
   * The rest of createListItem once a fresh title t was read: a description
   * and a due date, and the new item filed under t.
   */
  function CreateTitled(t: string, lines: seq<string>, items: Items, now: DateTime): (r: Change)
    ensures r.outcome.Pass? <==> |lines| >= 2
    ensures r.outcome.Fail? ==> r == Change(Fail(EndOfInput), [], items)
    ensures r.outcome.Pass? ==> r.lines == lines[2..]
    ensures r.outcome.Pass? ==>
              r.items == items[t := LegacyValue(Some(t), Some(lines[0]), Some(now), DueDateFrom(lines[1], None), None)]
  {
    var text := NextLine(lines);
    match text.result
    case Err(e) => Change(Fail(e), text.rest, items)
    case Ok(description) =>
      var item := LegacyValue(Some(t), Some(description), Some(now), None, None);
      var dated := LegacyDueDate(text.rest, item);
      match dated.result
      case Err(e) => Change(Fail(e), dated.rest, items)
      case Ok(v) =>
        assert text.rest[1..] == lines[2..];
        Change(Pass, dated.rest, items[t := v])
  }

  /**
   * createListItem: read a title (refused when it is a key already, before
   * anything else is read; an empty title is accepted), a description and
   * a due date, and file the new item under its title.
   */
  function Create(lines: seq<string>, items: Items, now: DateTime): (r: Change)
    ensures r.outcome.Pass? <==> |lines| >= 3 && lines[0] !in items
    ensures r.outcome.Fail? ==> r.items == items
    ensures |lines| == 0 || (lines[0] !in items && |lines| < 3) ==> r == Change(Fail(EndOfInput), [], items)
    ensures |lines| > 0 && lines[0] in items ==>
              r.outcome == Fail(ListItemAlreadyExists(AlreadyExistsMessage(lines[0]))) && r.lines == lines[1..]
    ensures r.outcome.Pass? ==> r.lines == lines[3..]
    ensures r.outcome.Pass? ==>
              r.items == items[lines[0] := LegacyValue(Some(lines[0]), Some(lines[1]), Some(now), DueDateFrom(lines[2], None), None)]
  {
    var title := NextLine(lines);
    match title.result
    case Err(e) => Change(Fail(e), title.rest, items)
    case Ok(t) =>
      if t in items then Change(Fail(ListItemAlreadyExists(AlreadyExistsMessage(t))), title.rest, items)
      else
        assert |title.rest| >= 2 ==> title.rest[2..] == lines[3..];
        CreateTitled(t, title.rest, items, now)
  }

  /** removeListItem: read a title and remove its entry, or report it missing. */
  function Remove(lines: seq<string>, items: Items): (r: Change)
    ensures |lines| == 0 ==> r == Change(Fail(EndOfInput), lines, items)
    ensures |lines| > 0 && lines[0] !in items ==>
              r == Change(Fail(ListItemNotFound(NotFoundMessage(lines[0]))), lines[1..], items)
    ensures |lines| > 0 && lines[0] in items ==> r == Change(Pass, lines[1..], items - {lines[0]})
  {
    var title := NextLine(lines);
    match title.result
    case Err(e) => Change(Fail(e), title.rest, items)
    case Ok(t) =>
      if t !in items then Change(Fail(ListItemNotFound(NotFoundMessage(t))), title.rest, items)
      else Change(Pass, title.rest, items - {t})
  }

  /** getListItem on the stored values: the value, or the not-found error. */
  function Find(items: Items, name: string): (r: Result<LegacyValue>)
    ensures r.Ok? <==> name in items
    ensures r.Ok? ==> r.value == items[name]
    ensures r.Err? ==> r.error == ListItemNotFound(NotFoundMessage(name))
  {
    if name in items then Ok(items[name]) else Err(ListItemNotFound(NotFoundMessage(name)))
  }

  /** A created item is found under the title typed, created now, with a null status. */
  lemma CreatedFound(title: string, description: string, due: string, rest: seq<string>, items: Items, now: DateTime)
    requires title !in items
    ensures var r := Create([title, description, due] + rest, items, now);
      r.outcome == Pass && r.lines == rest
      && Find(r.items, title) == Ok(LegacyValue(Some(title), Some(description), Some(now), DueDateFrom(due, None), None))
  {
    assert ([title, description, due] + rest)[3..] == rest;
  }

  /** Removing an item right after creating it leaves the entries as they were. */
  lemma CreateThenRemove(title: string, description: string, due: string, rest: seq<string>, items: Items, now: DateTime)
    requires title !in items
    ensures var created := Create([title, description, due] + rest, items, now);
      Remove([title] + rest, created.items) == Change(Pass, rest, items)
  {
    var lines := [title, description, due] + rest;
    assert lines[3..] == rest;
    assert ([title] + rest)[1..] == rest;
    var created := Create(lines, items, now);
    assert created.items - {title} == items;
  }

  /** A second removal of the same title reports it missing. */
  lemma RemoveTwice(title: string, rest: seq<string>, items: Items)
    requires title in items
    ensures var first := Remove([title] + [title] + rest, items);
      first.outcome == Pass
      && Remove(first.lines, first.items) == Change(Fail(ListItemNotFound(NotFoundMessage(title))), rest, items - {title})
  {
    assert ([title] + [title] + rest)[1..] == [title] + rest;
    assert ([title] + rest)[1..] == rest;
  }

  /** The values of the objects a map of items holds, by key. */
  function StoredValues(m: map<string, LegacyListItem>): (c: Items)
    reads m.Values
    ensures c.Keys == m.Keys
  {
    map t | t in m :: m[t].Value()
  }

  /** Filing an object under a key adds its value under that key. */
  lemma ValuesInsert(m: map<string, LegacyListItem>, t: string, x: LegacyListItem)
    ensures StoredValues(m[t := x]) == StoredValues(m)[t := x.Value()]
  {
  }

  class LegacyToDoList {
    /** The items by key: the objects themselves, not copies. */
    var items: map<string, LegacyListItem>

    /** The values of the stored objects, by key. */
    function Contents(): Items
      reads this, items.Values
    {
      StoredValues(items)
    }

    constructor ()
      ensures items == map[] && Contents() == map[]
    {
      items := map[];
    }

    /** listItemExists */
    method ListItemExists(title: string) returns (b: bool)
      ensures b <==> title in Contents()
    {
      b := title in items;
    }

    /** addDueDate: read a line and set the due date it gives, if any. */
    method AddDueDate(reader: InputReader, item: LegacyListItem) returns (r: Outcome)
      modifies reader, item
      ensures var spec := LegacyDueDate(old(reader.lines), old(item.Value()));
        reader.lines == spec.rest
        && (spec.result.Ok? ==> r == Pass && item.Value() == spec.result.value)
        && (spec.result.Err? ==> r == Fail(spec.result.error) && item.Value() == old(item.Value()))
    {
      var dueDate := reader.GetNextText("\nEnter the due date using format [yyyy-MM-dd HH:mm][Leave blank if none]");
      if dueDate.Err? {
        return Fail(dueDate.error);
      }
      if |dueDate.value| == 0 {
        return Pass;
      }
      var dateTime := Parse(dueDate.value);
      if dateTime.Ok? {
        item.SetDueDate(Some(dateTime.value));
      }
      return Pass;
    }

    /**
     * createListItem: the new item object is filed under its title. The
     * object is allocated once title and description are read; as the clock
     * is a parameter, this is the same as allocating it first.
     */
    method CreateListItem(reader: InputReader, now: DateTime) returns (r: Outcome)
      modifies this, reader
      ensures r == Create(old(reader.lines), old(Contents()), now).outcome
      ensures reader.lines == Create(old(reader.lines), old(Contents()), now).lines
      ensures r.Fail? ==> items == old(items)
      ensures r.Pass? ==> (|old(reader.lines)| > 0 &&
        var t := old(reader.lines)[0];
        t in items && fresh(items[t]) && items == old(items)[t := items[t]] &&
        items[t].Value() == Create(old(reader.lines), old(Contents()), now).items[t])
    {
      var title := reader.GetNextText("\nEnter the ToDo-List title");
      if title.Err? {
        return Fail(title.error);
      }
      var stored := ListItemExists(title.value);
      if stored {
        return Fail(ListItemAlreadyExists(AlreadyExistsMessage(title.value)));
      }
      var text := reader.GetNextText("\nEnter the ToDo-List description");
      if text.Err? {
        return Fail(text.error);
      }
      var listItem := new LegacyListItem.Default(now);
      listItem.SetTitle(Some(title.value));
      listItem.SetText(Some(text.value));
      r := AddDueDate(reader, listItem);
      if r.Fail? {
        return;
      }
      AddToDoListItem(listItem);
    }

    /**
     * addToDoListItem: file the object under its title. No object changes,
     * so the values under every other key stay as they were, even when the
     * object is stored under another key too.
     */
    method AddToDoListItem(item: LegacyListItem)
      requires item.title.Some?
      modifies this
      ensures items == old(items)[item.title.value := item]
      ensures Contents() == old(Contents())[item.title.value := item.Value()]
    {
      ValuesInsert(items, item.title.value, item);
      items := items[item.title.value := item];
    }

    /** removeListItem: read a title and remove its entry, or report it missing. */
    method RemoveListItem(reader: InputReader) returns (r: Outcome)
      modifies this, reader
      ensures Change(r, reader.lines, Contents()) == Remove(old(reader.lines), old(Contents()))
      ensures r.Fail? ==> items == old(items)
      ensures r.Pass? ==> |old(reader.lines)| > 0 && items == old(items) - {old(reader.lines)[0]}
    {
      var title := reader.GetNextText("\nEnter the ToDo-List title");
      if title.Err? {
        return Fail(title.error);
      }
      if title.value !in items {
        return Fail(ListItemNotFound(NotFoundMessage(title.value)));
      }
      items := items - {title.value};
      return Pass;
    }

    /** clearAllListItems */
    method ClearAllListItems()
      modifies this
      ensures items == map[] && Contents() == map[]
    {
      items := map[];
    }

    /** getListItem: the stored object itself, or the not-found error. */
    method GetListItem(name: string) returns (r: Result<LegacyListItem>)
      ensures r.Ok? <==> name in items
      ensures r.Ok? ==> r.value == items[name] && Find(Contents(), name) == Ok(r.value.Value())
      ensures r.Err? ==> r.error == ListItemNotFound(NotFoundMessage(name))
    {
      if name !in items {
        return Err(ListItemNotFound(NotFoundMessage(name)));
      }
      return Ok(items[name]);
    }
  }
}
