/**
 * ToDoList: the title rules and the console dialogues for creating,
 * removing, finding and editing items, on top of the repository.
 * Each dialogue is specified by a function of the remaining input and the
 * stored items, and the class's methods are proved to follow it.
 */
module ToDoLists {
  import opened Errors
  import opened ItemStatus
  import opened DateParser
  import opened ListItems
  import opened Repository
  import opened Input

  /** What an operation leaves behind: its outcome, the input left and the stored items. */
  datatype Step = Step(outcome: Outcome, lines: seq<string>, store: Store)

  /** requestItemTitle: the next line, refused when it is empty (and only then). */
  function RequestTitle(lines: seq<string>): (r: Read<string>)
    ensures r.result.Ok? <==> |lines| > 0 && lines[0] != ""
    ensures r.result.Ok? ==> r.result.value == lines[0]
    ensures |lines| > 0 && lines[0] == "" ==> r.result == Err(InvalidItemTitle(InvalidTitleMessage("")))
    ensures |lines| == 0 ==> r == Read(Err(EndOfInput), lines)
    ensures |lines| > 0 ==> r.rest == lines[1..]
  {
    var next := NextLine(lines);
    match next.result
    case Err(e) => Read(Err(e), next.rest)
    case Ok(title) =>
      if |title| == 0 then Read(Err(InvalidItemTitle(InvalidTitleMessage(title))), next.rest)
      else Read(Ok(title), next.rest)
  }

  /**
   * The due date addDueDate leaves on an item: a blank line keeps the one
   * it had, a date in the pattern replaces it, and any other text is
   * reported and keeps the one it had.
   */
  function DueDateFrom(text: string, dueDate: Option<DateTime>): (d: Option<DateTime>)
  {
    if |text| == 0 then dueDate
    else
      match Parse(text)
      case Ok(date) => Some(date)
      case Err(_) => dueDate
  }

  /** addDueDate on the remaining input: one line is read, and only the due date may change. */
  function ReadDueDate(lines: seq<string>, item: ItemValue): (r: Read<ItemValue>)
    ensures r.result.Ok? <==> |lines| > 0
    ensures r.result.Err? ==> r == Read(Err(EndOfInput), lines)
    ensures r.result.Ok? ==> r.rest == lines[1..] && r.result.value == item.(dueDate := r.result.value.dueDate)
  {
    var next := NextLine(lines);
    match next.result
    case Err(e) => Read(Err(e), next.rest)
    case Ok(text) => Read(Ok(item.(dueDate := DueDateFrom(text, item.dueDate))), next.rest)
  }

  /** A blank due-date line leaves the item as it was. */
  lemma DueDateBlank(item: ItemValue, rest: seq<string>)
    ensures ReadDueDate([""] + rest, item) == Read(Ok(item), rest)
  {
    assert ([""] + rest)[1..] == rest;
  }

  /** A date typed in the pattern becomes the due date. */
  lemma DueDateTyped(item: ItemValue, d: DateTime, rest: seq<string>)
    ensures ReadDueDate([Render(d, ' ')] + rest, item) == Read(Ok(item.(dueDate := Some(d))), rest)
  {
    ParseRender(d);
    assert ([Render(d, ' ')] + rest)[1..] == rest;
  }

  /** A line that is not a date in the pattern leaves the item as it was. */
  lemma DueDateRejected(item: ItemValue, text: string, rest: seq<string>)
    requires Parse(text).Err?
    ensures ReadDueDate([text] + rest, item) == Read(Ok(item), rest)
  {
    assert ([text] + rest)[1..] == rest;
  }

  /**
   * createListItem: a new PENDING item created now, with the title read
   * first (refused when empty or already stored, before anything else is
   * read), then the description, then the due date.
   */
  function NewItem(lines: seq<string>, store: Store, now: DateTime): (r: Read<ItemValue>)
    ensures r.result.Ok? <==> |lines| >= 3 && lines[0] != "" && lines[0] !in store
    ensures r.result.Ok? ==> r.rest == lines[3..]
    ensures r.result.Ok? ==> r.result.value == ItemValue(lines[0], lines[1], Some(now), DueDateFrom(lines[2], None), PENDING)
    ensures |lines| > 0 && lines[0] != "" && lines[0] in store ==>
              r == Read(Err(ListItemAlreadyExists(AlreadyExistsMessage(lines[0]))), lines[1..])
    ensures |r.rest| <= |lines|
  {
    var title := RequestTitle(lines);
    match title.result
    case Err(e) => Read(Err(e), title.rest)
    case Ok(t) =>
      if t in store then Read(Err(ListItemAlreadyExists(AlreadyExistsMessage(t))), title.rest)
      else
        var description := NextLine(title.rest);
        match description.result
        case Err(e) => Read(Err(e), description.rest)
        case Ok(text) => ReadDueDate(description.rest, ItemValue(t, text, Some(now), None, PENDING))
  }

  /** createListItem reads the first lines of the input and leaves the others. */
  lemma NewItemSuffix(lines: seq<string>, store: Store, now: DateTime)
    ensures Suffix(NewItem(lines, store, now).rest, lines)
  {
  }

  /**
   * addToDoListItem: create the item and store it. Every refusal is
   * reported and stores nothing; only running out of input escapes.
   */
  function AddItemStep(lines: seq<string>, store: Store, now: DateTime): (r: Step)
    ensures var created := NewItem(lines, store, now);
      && r.lines == created.rest
      && (r.outcome.Fail? <==> created.result == Err(EndOfInput))
      && (r.outcome.Fail? ==> r.outcome.error == EndOfInput)
      && (created.result.Err? ==> r.store == store)
      && (created.result.Ok? ==> lines[0] !in store && r.store == store[lines[0] := created.result.value])
  {
    var created := NewItem(lines, store, now);
    match created.result
    case Err(e) => Step(if e == EndOfInput then Fail(e) else Pass, created.rest, store)
    case Ok(item) => Step(Pass, created.rest, Added(store, item))
  }

  /** A stored title stops the creation after the title line: nothing else is read or stored. */
  lemma DuplicateStopsCreation(title: string, rest: seq<string>, store: Store, now: DateTime)
    requires title != "" && title in store
    ensures AddItemStep([title] + rest, store, now) == Step(Pass, rest, store)
  {
    assert ([title] + rest)[1..] == rest;
  }

  /** An empty title stops the creation after the title line. */
  lemma EmptyTitleStopsCreation(rest: seq<string>, store: Store, now: DateTime)
    ensures AddItemStep([""] + rest, store, now) == Step(Pass, rest, store)
  {
    assert ([""] + rest)[1..] == rest;
  }

  /** After a successful creation the item is found under the title typed. */
  lemma CreatedItemFound(title: string, description: string, due: string, rest: seq<string>, store: Store, now: DateTime)
    requires title != "" && title !in store
    ensures var r := AddItemStep([title, description, due] + rest, store, now);
      r.outcome == Pass && r.lines == rest
      && Lookup(r.store, title) == Ok(ItemValue(title, description, Some(now), DueDateFrom(due, None), PENDING))
  {
    assert ([title, description, due] + rest)[3..] == rest;
  }

  /**
   * removeListItem(reader): remove the item with the title read. An empty
   * title and a title not stored are reported and remove nothing.
   */
  function RemoveItemStep(lines: seq<string>, store: Store): (r: Step)
    ensures r.outcome.Fail? <==> |lines| == 0
    ensures r.outcome.Fail? ==> r == Step(Fail(EndOfInput), lines, store)
    ensures |lines| > 0 ==> r.lines == lines[1..]
    ensures |lines| > 0 && lines[0] != "" ==> r.store == store - {lines[0]}
    ensures |lines| > 0 && (lines[0] == "" || lines[0] !in store) ==> r.store == store
  {
    var title := RequestTitle(lines);
    match title.result
    case Err(e) => Step(if e == EndOfInput then Fail(e) else Pass, title.rest, store)
    case Ok(t) =>
      // a missing title is reported by the repository and caught here
      Step(Pass, title.rest, if t in store then store - {t} else store)
  }

  /** After a removal the title is no longer found. */
  lemma RemovedItemNotFound(title: string, rest: seq<string>, store: Store)
    requires title != ""
    ensures var r := RemoveItemStep([title] + rest, store);
      FindItem(title, r.store) == Err(ListItemNotFound(NotFoundMessage(title)))
  {
  }

  /** getListItem: an empty name is refused, any other is looked up. */
  function FindItem(name: string, store: Store): (r: Result<ItemValue>)
    ensures name == "" ==> r == Err(InvalidItemTitle(InvalidTitleMessage(name)))
    ensures name != "" ==> r == Lookup(store, name)
    ensures r.Ok? <==> name != "" && name in store
  {
    if |name| == 0 then Err(InvalidItemTitle(InvalidTitleMessage(name))) else Lookup(store, name)
  }

  /**
   * updateTitle: the title read replaces the item's title when it is
   * non-empty and not stored; otherwise the refusal is reported and the
   * item is unchanged.
   */
  function RetitleItem(lines: seq<string>, store: Store, item: ItemValue): (r: Read<ItemValue>)
    ensures |lines| == 0 ==> r.result == Err(EndOfInput) && r.rest == lines
    ensures |lines| > 0 ==> r.rest == lines[1..]
    ensures |lines| > 0 && lines[0] != "" && lines[0] !in store ==> r.result == Ok(item.(title := lines[0]))
    ensures |lines| > 0 && (lines[0] == "" || lines[0] in store) ==> r.result == Ok(item)
  {
    // Running out of input is not among the errors updateTitle catches.
    if |lines| == 0 then Read(Err(EndOfInput), lines)
    else
      var title := RequestTitle(lines);
      match title.result
      case Err(_) => Read(Ok(item), title.rest)
      case Ok(t) =>
        if t in store then Read(Ok(item), title.rest)
        else Read(Ok(item.(title := t)), title.rest)
  }

  class ToDoList {
    const repository: ToDoListRepository

    ghost predicate Valid()
      reads this, repository
    {
      repository.Valid()
    }

    constructor (repository: ToDoListRepository)
      requires repository.Valid()
      ensures this.repository == repository && Valid()
    {
      this.repository := repository;
    }

    /** requestItemTitle */
    method RequestItemTitle(reader: InputReader) returns (r: Result<string>)
      modifies reader
      ensures Read(r, reader.lines) == RequestTitle(old(reader.lines))
    {
      r := reader.GetNextText("\nEnter the list item title");
      if r.Ok? && |r.value| == 0 {
        r := Err(InvalidItemTitle(InvalidTitleMessage(r.value)));
      }
    }

    /** listItemExists */
    method ListItemExists(title: string) returns (b: bool)
      requires Valid()
      ensures b <==> title in repository.contents
    {
      b := repository.DoesListItemExist(title);
    }

    /** addDueDate: read a line and set the due date it gives, if any. */
    method AddDueDate(reader: InputReader, item: ListItem) returns (r: Outcome)
      modifies reader, item
      ensures var spec := ReadDueDate(old(reader.lines), old(item.Value()));
        reader.lines == spec.rest
        && (spec.result.Ok? ==> r == Pass && item.Value() == spec.result.value)
        && (spec.result.Err? ==> r == Fail(spec.result.error) && item.Value() == old(item.Value()))
    {
      var dueDate := reader.GetNextText("\nEnter the due date using format [yyyy-MM-dd HH:mm][Leave blank if none]");
      if dueDate.Err? {
        return Fail(dueDate.error);
      }
      if |dueDate.value| != 0 {
        var dateTime := Parse(dueDate.value);
        if dateTime.Ok? {
          item.SetDueDate(Some(dateTime.value));
        }
      }
      return Pass;
    }

    /** createListItem: the new item, not yet stored. */
    method CreateListItem(reader: InputReader, now: DateTime) returns (r: Result<ListItem>)
      requires Valid()
      modifies reader
      ensures var spec := NewItem(old(reader.lines), repository.contents, now);
        reader.lines == spec.rest
        && (r.Ok? <==> spec.result.Ok?)
        && (r.Ok? ==> fresh(r.value) && r.value.Value() == spec.result.value)
        && (r.Err? ==> r.error == spec.result.error)
    {
      var listItem := new ListItem.Default(now);
      var title := RequestItemTitle(reader);
      if title.Err? {
        return Err(title.error);
      }
      var stored := ListItemExists(title.value);
      if stored {
        return Err(ListItemAlreadyExists(AlreadyExistsMessage(title.value)));
      }
      var text := reader.GetNextText("\nEnter the list item description");
      if text.Err? {
        return Err(text.error);
      }
      listItem.SetTitle(title.value);
      listItem.SetDescription(text.value);
      var due := AddDueDate(reader, listItem);
      if due.Fail? {
        return Err(due.error);
      }
      return Ok(listItem);
    }

    /** addToDoListItem */
    method AddToDoListItem(reader: InputReader, now: DateTime) returns (r: Outcome)
      requires Valid()
      modifies reader, repository
      ensures Valid()
      ensures Step(r, reader.lines, repository.contents)
              == AddItemStep(old(reader.lines), old(repository.contents), now)
    {
      var item := CreateListItem(reader, now);
      if item.Err? {
        return if item.error == EndOfInput then Fail(item.error) else Pass;
      }
      r := repository.AddListItem(item.value);
    }

    /** removeListItem(reader) */
    method RemoveListItem(reader: InputReader) returns (r: Outcome)
      requires Valid()
      modifies reader, repository
      ensures Valid()
      ensures Step(r, reader.lines, repository.contents)
              == RemoveItemStep(old(reader.lines), old(repository.contents))
    {
      var title := RequestItemTitle(reader);
      if title.Err? {
        return if title.error == EndOfInput then Fail(title.error) else Pass;
      }
      var removed := repository.RemoveListItem(title.value);
      // ListItemNotFoundException is reported and swallowed
      return Pass;
    }

    /** removeListItem(item): remove the row under the item's current title, if any. */
    method RemoveItem(item: ListItem)
      requires Valid()
      modifies repository
      ensures Valid()
      ensures repository.contents == old(repository.contents) - {item.title}
    {
      var removed := repository.RemoveListItem(item.title);
    }

    /** updateListItem: store the item again. */
    method UpdateListItem(item: ListItem) returns (r: Outcome)
      requires Valid()
      modifies repository
      ensures Valid()
      ensures r == (if item.timestamp.None? then Fail(NullTimestamp) else Pass)
      ensures repository.contents == Added(old(repository.contents), item.Value())
    {
      r := repository.AddListItem(item);
    }

    /** clearAllListItems */
    method ClearAllListItems()
      requires Valid()
      modifies repository
      ensures Valid() && repository.contents == map[]
    {
      repository.RemoveAllItems();
    }

    /** getListItem */
    method GetListItem(name: string) returns (r: Result<ListItem>)
      requires Valid()
      ensures var spec := FindItem(name, repository.contents);
        (r.Ok? <==> spec.Ok?)
        && (r.Ok? ==> fresh(r.value) && r.value.Value() == spec.value)
        && (r.Err? ==> r.error == spec.error)
    {
      if |name| == 0 {
        return Err(InvalidItemTitle(InvalidTitleMessage(name)));
      }
      r := repository.GetItemByTitle(name);
    }

    /** printAllListItems: the items shown, one per stored title. */
    method PrintAllListItems() returns (items: seq<ItemValue>, ghost titles: seq<string>)
      requires Valid()
      ensures Distinct(titles) && forall t :: t in repository.contents <==> t in titles
      ensures |items| == |titles|
      ensures forall i :: 0 <= i < |items| ==> items[i] == repository.contents[titles[i]]
      ensures |items| == |repository.contents|
      ensures forall i :: 0 <= i < |items| ==> Lookup(repository.contents, items[i].title) == Ok(items[i])
      ensures forall t :: t in repository.contents ==> exists i :: 0 <= i < |items| && items[i] == repository.contents[t]
    {
      items, titles := repository.GetAllListItems();
    }

    /** updateTitle */
    method UpdateTitle(item: ListItem, reader: InputReader) returns (r: Outcome)
      requires Valid()
      modifies item, reader
      ensures var spec := RetitleItem(old(reader.lines), repository.contents, old(item.Value()));
        reader.lines == spec.rest
        && (spec.result.Ok? ==> r == Pass && item.Value() == spec.result.value)
        && (spec.result.Err? ==> r == Fail(spec.result.error) && item.Value() == old(item.Value()))
    {
      var title := RequestItemTitle(reader);
      if title.Err? {
        return if title.error == EndOfInput then Fail(title.error) else Pass;
      }
      var stored := ListItemExists(title.value);
      if stored {
        // ListItemAlreadyExistsException is reported and swallowed
        return Pass;
      }
      item.SetTitle(title.value);
      return Pass;
    }
  }
}
