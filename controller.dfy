/**
 * ToDoController: the main menu loop, which runs until option 6, and the
 * item editor, which runs until option 5 and stores the item again after
 * every edit. The loops are specified by recursive functions of the
 * remaining input and the stored items; the class's methods are proved to
 * follow them.
 */
module Controller {
  import opened Errors
  import opened ItemStatus
  import opened DateParser
  import opened ListItems
  import opened Repository
  import opened Input
  import opened Menus
  import opened ToDoLists

  /** Where an editor step leaves things: outcome, the item as edited, input left, stored items. */
  datatype Edit = Edit(outcome: Outcome, item: ItemValue, lines: seq<string>, store: Store)

  /**
   * updateItemStatus: the option read picks getStatus(option - 1) when it
   * is 1, 2 or 3; any other accepted option leaves the item as it was.
   */
  function StatusEdit(lines: seq<string>, item: ItemValue): (r: Read<ItemValue>)
    ensures var option := ReadOption(lines);
      && r.rest == option.rest
      && (option.result.Err? ==> r.result == Err(option.result.error))
      && (option.result.Ok? ==> r.result == Ok(
            if 1 <= option.result.value <= 3 then item.(status := Values[option.result.value - 1]) else item))
  {
    var option := ReadOption(lines);
    match option.result
    case Err(e) => Read(Err(e), option.rest)
    case Ok(o) =>
      if o < 4 && o > 0 then
        match GetStatus(o - 1)
        case Ok(status) => Read(Ok(item.(status := status)), option.rest)
        // InvalidItemStatusException is reported and swallowed
        case Err(_) => Read(Ok(item), option.rest)
      else Read(Ok(item), option.rest)
  }

  /**
   * selectFromEditorMenu: option 1 sets the title to the line read, as it
   * is (no check for empty or stored titles), 2 the description, 3 the due
   * date as addDueDate reads it, 4 the status; any other option edits
   * nothing and reads nothing.
   */
  function EditorEdit(option: int, lines: seq<string>, item: ItemValue): (r: Read<ItemValue>)
    ensures Suffix(r.rest, lines)
    ensures option == 1 && |lines| > 0 ==> r == Read(Ok(item.(title := lines[0])), lines[1..])
    ensures option == 2 && |lines| > 0 ==> r == Read(Ok(item.(description := lines[0])), lines[1..])
    ensures option == 3 ==> r == ReadDueDate(lines, item)
    ensures option == 4 ==> r == StatusEdit(lines, item)
    ensures !(1 <= option <= 4) ==> r == Read(Ok(item), lines)
    ensures r.result.Ok? ==> r.result.value.timestamp == item.timestamp
  {
    if option == 1 then
      var line := NextLine(lines);
      match line.result
      case Err(e) => Read(Err(e), line.rest)
      case Ok(title) => Read(Ok(item.(title := title)), line.rest)
    else if option == 2 then
      var line := NextLine(lines);
      match line.result
      case Err(e) => Read(Err(e), line.rest)
      case Ok(description) => Read(Ok(item.(description := description)), line.rest)
    else if option == 3 then ReadDueDate(lines, item)
    else if option == 4 then StatusEdit(lines, item)
    else Read(Ok(item), lines)
  }

  /**
   * updateItem: remove the item under its current title, apply the edit,
   * and store the edited item again.
   */
  function UpdateItemStep(item: ItemValue, option: int, lines: seq<string>, store: Store): (r: Edit)
    ensures var edited := EditorEdit(option, lines, item);
      && r.lines == edited.rest
      && (edited.result.Err? ==> r == Edit(Fail(edited.result.error), item, edited.rest, store - {item.title}))
      && (edited.result.Ok? ==> r.item == edited.result.value
                                 && r.outcome == (if item.timestamp.None? then Fail(NullTimestamp) else Pass))
    // the item is gone from under its old title
    ensures r.item.title != item.title ==> item.title !in r.store
    // the edited item is stored under its title, unless another item holds it
    ensures r.outcome.Pass? && r.item.title !in store - {item.title} ==>
              r.store == (store - {item.title})[r.item.title := r.item]
    // a title held by another item loses the edited item
    ensures r.outcome.Pass? && r.item.title in store - {item.title} ==> r.store == store - {item.title}
  {
    // removeListItem(item) reports and swallows a missing title
    var removed := store - {item.title};
    var edited := EditorEdit(option, lines, item);
    match edited.result
    case Err(e) => Edit(Fail(e), item, edited.rest, removed)
    case Ok(v) => Edit(if v.timestamp.None? then Fail(NullTimestamp) else Pass, v, edited.rest, Added(removed, v))
  }

  /** The line read just before rest, when some line was read. */
  function LastRead(lines: seq<string>, rest: seq<string>): string
    requires |rest| < |lines|
  {
    lines[|lines| - |rest| - 1]
  }

  /** Reading on from mid leaves the same last line read, counted from the start. */
  lemma ReadOn(lines: seq<string>, mid: seq<string>, rest: seq<string>)
    requires Suffix(mid, lines) && Suffix(rest, mid) && |rest| < |mid|
    ensures Suffix(rest, lines) && LastRead(lines, rest) == LastRead(mid, rest)
  {
    SuffixTransitive(rest, mid, lines);
  }

  /**
   * The item editor loop of updateToDoList: read an option, apply it with
   * updateItem, and stop after option 5 (which still removes and stores
   * the item again).
   */
  function EditorLoop(item: ItemValue, lines: seq<string>, store: Store): (r: Edit)
    decreases |lines|
  {
    var option := ReadOption(lines);
    match option.result
    case Err(e) => Edit(Fail(e), item, option.rest, store)
    case Ok(o) =>
      var step := UpdateItemStep(item, o, option.rest, store);
      if step.outcome.Fail? || o == 5 then step
      else EditorLoop(step.item, step.lines, step.store)
  }

  /**
   * The editor loop reads the first lines of its input, and when it ends
   * normally the last line it read was option 5.
   */
  lemma {:induction false} EditorLoopStops(item: ItemValue, lines: seq<string>, store: Store)
    decreases |lines|, 1
    ensures var r := EditorLoop(item, lines, store);
      Suffix(r.lines, lines)
      && (r.outcome.Pass? ==> |r.lines| < |lines| && OptionOf(LastRead(lines, r.lines)) == Ok(5))
  {
    var option := ReadOption(lines);
    if option.result.Ok? {
      EditorOptionStops(item, lines, store);
    } else if |lines| == 0 {
      assert EditorLoop(item, lines, store) == Edit(Fail(EndOfInput), item, lines, store);
      assert lines[0..] == lines;
    } else {
      assert EditorLoop(item, lines, store) == Edit(Fail(option.result.error), item, lines[1..], store);
    }
  }

  /** EditorLoopStops once an option has been read. */
  lemma {:induction false} EditorOptionStops(item: ItemValue, lines: seq<string>, store: Store)
    requires ReadOption(lines).result.Ok?
    decreases |lines|, 0
    ensures var r := EditorLoop(item, lines, store);
      Suffix(r.lines, lines)
      && (r.outcome.Pass? ==> |r.lines| < |lines| && OptionOf(LastRead(lines, r.lines)) == Ok(5))
  {
    var option := ReadOption(lines);
    var o := option.result.value;
    var step := UpdateItemStep(item, o, option.rest, store);
    SuffixTransitive(step.lines, option.rest, lines);
    if step.outcome.Fail? {
      assert EditorLoop(item, lines, store) == step;
    } else if o == 5 {
      assert EditorLoop(item, lines, store) == step;
      assert step.lines == option.rest;
    } else {
      assert EditorLoop(item, lines, store) == EditorLoop(step.item, step.lines, step.store);
      EditorLoopStops(step.item, step.lines, step.store);
      var r := EditorLoop(step.item, step.lines, step.store);
      if r.outcome.Pass? {
        ReadOn(lines, step.lines, r.lines);
      } else {
        SuffixTransitive(r.lines, step.lines, lines);
      }
    }
  }

  /**
   * updateToDoList: read a title; an empty one is an uncaught
   * InvalidItemTitleException, one not stored is reported and nothing
   * else happens, and a stored one is opened in the item editor.
   */
  function UpdateListStep(lines: seq<string>, store: Store): (r: Step)
    ensures Suffix(r.lines, lines)
  {
    var name := NextLine(lines);
    match name.result
    case Err(e) => Step(Fail(e), name.rest, store)
    case Ok(n) =>
      match FindItem(n, store)
      case Err(e) =>
        // only ListItemNotFoundException is caught
        Step(if e.ListItemNotFound? then Pass else Fail(e), name.rest, store)
      case Ok(item) =>
        var edit := EditorLoop(item, name.rest, store);
        EditorLoopStops(item, name.rest, store);
        SuffixTransitive(edit.lines, name.rest, lines);
        Step(edit.outcome, edit.lines, edit.store)
  }

  /** selectMenu: 1 view, 2 add, 3 remove, 4 clear, 5 update; 6 does nothing. */
  function MenuStep(option: int, lines: seq<string>, store: Store, now: DateTime): (r: Step)
    ensures Suffix(r.lines, lines)
    ensures option == 1 || option == 6 ==> r == Step(Pass, lines, store)
    ensures option == 2 ==> r == AddItemStep(lines, store, now)
    ensures option == 3 ==> r == RemoveItemStep(lines, store)
    ensures option == 4 ==> r == Step(Pass, lines, map[])
    ensures option == 5 ==> r == UpdateListStep(lines, store)
  {
    // printAllListItems only reads the store
    if option == 1 then Step(Pass, lines, store)
    else if option == 2 then
      NewItemSuffix(lines, store, now);
      AddItemStep(lines, store, now)
    else if option == 3 then RemoveItemStep(lines, store)
    else if option == 4 then Step(Pass, lines, map[])
    else if option == 5 then UpdateListStep(lines, store)
    else Step(Pass, lines, store)
  }

  /**
   * The session start runs: read an option from the main menu, act on it,
   * and stop after option 6. Any exception that reaches this loop ends the
   * session with it.
   */
  function Session(lines: seq<string>, store: Store, now: DateTime): (r: Step)
    decreases |lines|
  {
    var option := ReadOption(lines);
    match option.result
    case Err(e) => Step(Fail(e), option.rest, store)
    case Ok(o) =>
      var step := MenuStep(o, option.rest, store, now);
      if step.outcome.Fail? || o == 6 then step
      else Session(step.lines, step.store, now)
  }

  /**
   * A session reads the first lines of its input, and when it ends
   * normally the last line it read was option 6.
   */
  lemma {:induction false} SessionStops(lines: seq<string>, store: Store, now: DateTime)
    decreases |lines|, 1
    ensures var r := Session(lines, store, now);
      Suffix(r.lines, lines)
      && (r.outcome.Pass? ==> |r.lines| < |lines| && OptionOf(LastRead(lines, r.lines)) == Ok(6))
  {
    var option := ReadOption(lines);
    if option.result.Ok? {
      MenuOptionStops(lines, store, now);
    } else if |lines| == 0 {
      assert Session(lines, store, now) == Step(Fail(EndOfInput), lines, store);
      assert lines[0..] == lines;
    } else {
      assert Session(lines, store, now) == Step(Fail(option.result.error), lines[1..], store);
    }
  }

  /** SessionStops once an option has been read. */
  lemma {:induction false} MenuOptionStops(lines: seq<string>, store: Store, now: DateTime)
    requires ReadOption(lines).result.Ok?
    decreases |lines|, 0
    ensures var r := Session(lines, store, now);
      Suffix(r.lines, lines)
      && (r.outcome.Pass? ==> |r.lines| < |lines| && OptionOf(LastRead(lines, r.lines)) == Ok(6))
  {
    var option := ReadOption(lines);
    var o := option.result.value;
    var step := MenuStep(o, option.rest, store, now);
    SuffixTransitive(step.lines, option.rest, lines);
    if step.outcome.Fail? {
      assert Session(lines, store, now) == step;
    } else if o == 6 {
      assert Session(lines, store, now) == step;
      assert step.lines == option.rest;
    } else {
      assert Session(lines, store, now) == Session(step.lines, step.store, now);
      SessionStops(step.lines, step.store, now);
      var r := Session(step.lines, step.store, now);
      if r.outcome.Pass? {
        ReadOn(lines, step.lines, r.lines);
      } else {
        SuffixTransitive(r.lines, step.lines, lines);
      }
    }
  }

  /** A title that is not stored is reported, and nothing else is read or changed. */
  lemma UpdateAbsentItem(name: string, rest: seq<string>, store: Store)
    requires name != "" && name !in store
    ensures UpdateListStep([name] + rest, store) == Step(Pass, rest, store)
  {
    assert ([name] + rest)[1..] == rest;
  }

  /** An empty title escapes from updateToDoList, and nothing is changed. */
  lemma UpdateEmptyTitle(rest: seq<string>, store: Store)
    ensures UpdateListStep([""] + rest, store) == Step(Fail(InvalidItemTitle(InvalidTitleMessage(""))), rest, store)
  {
    assert ([""] + rest)[1..] == rest;
  }

  /** Giving a stored item a title nobody holds files it under the new title only. */
  lemma RenameMovesItem(item: ItemValue, title: string, rest: seq<string>, store: Store)
    requires Keyed(store) && item.title in store && store[item.title] == item
    requires title !in store
    ensures UpdateItemStep(item, 1, [title] + rest, store)
            == Edit(Pass, item.(title := title), rest, (store - {item.title})[title := item.(title := title)])
  {
    assert ([title] + rest)[1..] == rest;
  }

  /**
   * Giving a stored item the title of another stored item loses the edited
   * item: the insert is refused and the old row is already gone.
   */
  lemma RenameCollisionLosesItem(item: ItemValue, title: string, rest: seq<string>, store: Store)
    requires Keyed(store) && item.title in store && store[item.title] == item
    requires title in store && title != item.title
    ensures var r := UpdateItemStep(item, 1, [title] + rest, store);
      r.outcome == Pass && r.lines == rest
      && item.title !in r.store && r.store == store - {item.title}
  {
    assert ([title] + rest)[1..] == rest;
  }

  /** Returning to the main menu stores the item again as it was. */
  lemma ReturnKeepsStore(item: ItemValue, rest: seq<string>, store: Store)
    requires Keyed(store) && item.title in store && store[item.title] == item
    ensures UpdateItemStep(item, 5, rest, store) == Edit(Pass, item, rest, store)
  {
    assert (store - {item.title})[item.title := item] == store;
  }

  /** In the status editor, options 1, 2 and 3 select PENDING, PROGRESS and COMPLETED. */
  lemma StatusOptions(item: ItemValue, rest: seq<string>)
    ensures StatusEdit(["1"] + rest, item) == Read(Ok(item.(status := PENDING)), rest)
    ensures StatusEdit(["2"] + rest, item) == Read(Ok(item.(status := PROGRESS)), rest)
    ensures StatusEdit(["3"] + rest, item) == Read(Ok(item.(status := COMPLETED)), rest)
    ensures StatusEdit(["4"] + rest, item) == Read(Ok(item), rest)
  {
    OptionDigits();
    assert (["1"] + rest)[1..] == rest && (["2"] + rest)[1..] == rest;
    assert (["3"] + rest)[1..] == rest && (["4"] + rest)[1..] == rest;
  }

  /** Option 4 then option 6 ends the session with nothing stored. */
  lemma ClearSession(store: Store, now: DateTime)
    ensures Session(["4", "6"], store, now) == Step(Pass, [], map[])
  {
    OptionDigits();
    assert ["4", "6"][1..] == ["6"] && ["6"][1..] == [];
  }

  /** Option 5 ends the editor with the item stored as it was. */
  lemma EditorReturn(item: ItemValue, line: string, rest: seq<string>, store: Store)
    requires OptionOf(line) == Ok(5)
    requires Keyed(store) && item.title in store && store[item.title] == item
    ensures EditorLoop(item, [line] + rest, store) == Edit(Pass, item, rest, store)
  {
    assert ([line] + rest)[1..] == rest;
    ReturnKeepsStore(item, rest, store);
  }

  /** A main menu option other than 6 that completes: the session goes on from where it left off. */
  lemma SessionOneStep(line: string, o: int, rest: seq<string>, store: Store, now: DateTime)
    requires OptionOf(line) == Ok(o) && o != 6 && MenuStep(o, rest, store, now).outcome.Pass?
    ensures var step := MenuStep(o, rest, store, now);
      Session([line] + rest, store, now) == Session(step.lines, step.store, now)
  {
    assert ([line] + rest)[1..] == rest;
  }

  /** Option 6 ends the session with nothing changed. */
  lemma SessionQuit(line: string, rest: seq<string>, store: Store, now: DateTime)
    requires OptionOf(line) == Ok(6)
    ensures Session([line] + rest, store, now) == Step(Pass, rest, store)
  {
    assert ([line] + rest)[1..] == rest;
  }

  /**
   * One editor option other than 5 that completes: the item is removed
   * under its old title, the edited item is inserted, and the editor reads
   * on with it.
   */
  lemma EditorOneStep(item: ItemValue, line: string, o: int, rest: seq<string>, store: Store,
                      v: ItemValue, after: seq<string>)
    requires item.timestamp.Some? && OptionOf(line) == Ok(o) && o != 5
    requires EditorEdit(o, rest, item) == Read(Ok(v), after)
    ensures EditorLoop(item, [line] + rest, store) == EditorLoop(v, after, Added(store - {item.title}, v))
  {
    assert ([line] + rest)[1..] == rest;
  }

  /** When the edited item was the only one stored, it is afterwards the only one stored. */
  lemma OnlyItemReplaced(item: ItemValue, v: ItemValue)
    requires v.timestamp.Some?
    ensures Added(map[item.title := item] - {item.title}, v) == map[v.title := v]
  {
    assert map[item.title := item] - {item.title} == map[];
  }

  /** Editing the due date to "2021-01-01 05:15". */
  lemma DueDateEditExample(item: ItemValue, rest: seq<string>)
    ensures EditorEdit(3, ["2021-01-01 05:15"] + rest, item)
            == Read(Ok(item.(dueDate := Some(Fields(2021, 1, 1, 5, 15)))), rest)
  {
    RenderEarlyExample();
    DueDateTyped(item, Fields(2021, 1, 1, 5, 15), rest);
  }

  /**
   * A session that adds an item: option 2, its title, description and due
   * date, then option 6. The item is stored under its title, created now.
   */
  lemma AddScenario(store: Store, now: DateTime)
    requires "New Title" !in store
    ensures var r := Session(["2", "New Title", "New Description", "2021-04-01 14:25", "6"], store, now);
      r.outcome == Pass && r.lines == []
      && FindItem("New Title", r.store)
         == Ok(ItemValue("New Title", "New Description", Some(now), DueDateFrom("2021-04-01 14:25", None), PENDING))
  {
    var rest := ["New Title", "New Description", "2021-04-01 14:25"] + ["6"];
    assert ["2", "New Title", "New Description", "2021-04-01 14:25", "6"] == ["2"] + rest;
    OptionDigits();
    CreatedItemFound("New Title", "New Description", "2021-04-01 14:25", ["6"], store, now);
    SessionOneStep("2", 2, rest, store, now);
    var step := MenuStep(2, rest, store, now);
    assert ["6"] == ["6"] + [];
    SessionQuit("6", [], step.store, now);
  }

  /** A session that removes a stored item: option 3, its title, then option 6. */
  lemma RemoveScenario(store: Store, now: DateTime)
    ensures var r := Session(["3", "Example list item", "6"], store, now);
      r == Step(Pass, [], store - {"Example list item"})
  {
    OptionDigits();
    assert ["3", "Example list item", "6"] == ["3"] + (["Example list item"] + ["6"]);
    assert (["Example list item"] + ["6"])[1..] == ["6"];
    SessionOneStep("3", 3, ["Example list item"] + ["6"], store, now);
    assert ["6"] == ["6"] + [];
    SessionQuit("6", [], store - {"Example list item"}, now);
  }

  /** The end of the editor run of the update scenario: status option 3, then option 5. */
  lemma StatusScenario(x: ItemValue, rest: seq<string>)
    requires x.timestamp.Some?
    ensures var done := x.(status := COMPLETED);
      EditorLoop(x, ["4", "3", "5"] + rest, map[x.title := x]) == Edit(Pass, done, rest, map[x.title := done])
  {
    var done := x.(status := COMPLETED);
    OptionDigits();
    assert ["4", "3", "5"] + rest == ["4"] + (["3"] + (["5"] + rest));
    StatusOptions(x, ["5"] + rest);
    EditorOneStep(x, "4", 4, ["3"] + (["5"] + rest), map[x.title := x], done, ["5"] + rest);
    OnlyItemReplaced(x, done);
    KeyedSingle(done);
    EditorReturn(done, "5", rest, map[done.title := done]);
  }

  /** The editor run of the update scenario from the due date on. */
  lemma DueDateScenario(x: ItemValue, rest: seq<string>)
    requires x.timestamp.Some?
    ensures var done := x.(dueDate := Some(Fields(2021, 1, 1, 5, 15)), status := COMPLETED);
      EditorLoop(x, ["3", "2021-01-01 05:15", "4", "3", "5"] + rest, map[x.title := x])
      == Edit(Pass, done, rest, map[x.title := done])
  {
    OptionDigits();
    var after := ["4", "3", "5"] + rest;
    assert ["3", "2021-01-01 05:15", "4", "3", "5"] + rest == ["3"] + (["2021-01-01 05:15"] + after);
    DueDateEditExample(x, after);
    var dated := x.(dueDate := Some(Fields(2021, 1, 1, 5, 15)));
    EditorOneStep(x, "3", 3, ["2021-01-01 05:15"] + after, map[x.title := x], dated, after);
    OnlyItemReplaced(x, dated);
    StatusScenario(dated, rest);
  }

  /** The editor run of the update scenario from the description on. */
  lemma DescriptionScenario(x: ItemValue, rest: seq<string>)
    requires x.timestamp.Some?
    ensures var done := x.(description := "New description", dueDate := Some(Fields(2021, 1, 1, 5, 15)),
                           status := COMPLETED);
      EditorLoop(x, ["2", "New description", "3", "2021-01-01 05:15", "4", "3", "5"] + rest, map[x.title := x])
      == Edit(Pass, done, rest, map[x.title := done])
  {
    OptionDigits();
    var after := ["3", "2021-01-01 05:15", "4", "3", "5"] + rest;
    assert ["2", "New description", "3", "2021-01-01 05:15", "4", "3", "5"] + rest
           == ["2"] + (["New description"] + after);
    assert (["New description"] + after)[1..] == after;
    var described := x.(description := "New description");
    EditorOneStep(x, "2", 2, ["New description"] + after, map[x.title := x], described, after);
    OnlyItemReplaced(x, described);
    DueDateScenario(described, rest);
  }

  /**
   * The item editor run of the update scenario: a new title, a new
   * description, a due date, status option 3, then option 5.
   */
  lemma EditorScenario(x: ItemValue, rest: seq<string>)
    requires x.title == "Example list item" && x.timestamp.Some?
    ensures var done := x.(title := "New title", description := "New description",
                           dueDate := Some(Fields(2021, 1, 1, 5, 15)), status := COMPLETED);
      EditorLoop(x, ["1", "New title", "2", "New description", "3", "2021-01-01 05:15", "4", "3", "5"] + rest,
                 map["Example list item" := x])
      == Edit(Pass, done, rest, map["New title" := done])
  {
    OptionDigits();
    var after := ["2", "New description", "3", "2021-01-01 05:15", "4", "3", "5"] + rest;
    assert ["1", "New title", "2", "New description", "3", "2021-01-01 05:15", "4", "3", "5"] + rest
           == ["1"] + (["New title"] + after);
    assert (["New title"] + after)[1..] == after;
    var titled := x.(title := "New title");
    EditorOneStep(x, "1", 1, ["New title"] + after, map[x.title := x], titled, after);
    OnlyItemReplaced(x, titled);
    DescriptionScenario(titled, rest);
  }

  /** updateToDoList in the update scenario: the title, then the editor run above. */
  lemma UpdateListScenario(x: ItemValue, rest: seq<string>)
    requires x.title == "Example list item" && x.timestamp.Some?
    ensures var done := x.(title := "New title", description := "New description",
                           dueDate := Some(Fields(2021, 1, 1, 5, 15)), status := COMPLETED);
      UpdateListStep(["Example list item", "1", "New title", "2", "New description",
                      "3", "2021-01-01 05:15", "4", "3", "5"] + rest, map["Example list item" := x])
      == Step(Pass, rest, map["New title" := done])
  {
    var editing := ["1", "New title", "2", "New description", "3", "2021-01-01 05:15", "4", "3", "5"] + rest;
    assert ["Example list item", "1", "New title", "2", "New description",
            "3", "2021-01-01 05:15", "4", "3", "5"] + rest == ["Example list item"] + editing;
    assert (["Example list item"] + editing)[1..] == editing;
    EditorScenario(x, rest);
  }

  /**
   * A session that edits a stored item: option 5 and its title, the editor
   * run above, then option 6. The item is found under its new title with
   * every edit applied, and its due date prints as "2021-01-01T05:15".
   */
  lemma UpdateScenario(x: ItemValue, now: DateTime)
    requires x.title == "Example list item" && x.timestamp.Some?
    ensures var done := x.(title := "New title", description := "New description",
                           dueDate := Some(Fields(2021, 1, 1, 5, 15)), status := COMPLETED);
      var r := Session(["5", "Example list item", "1", "New title", "2", "New description",
                        "3", "2021-01-01 05:15", "4", "3", "5", "6"], map["Example list item" := x], now);
      r == Step(Pass, [], map["New title" := done])
      && FindItem("New title", r.store) == Ok(done)
      && Format(FindItem("New title", r.store).value.dueDate.value) == "2021-01-01T05:15"
  {
    var updating := ["Example list item", "1", "New title", "2", "New description",
                     "3", "2021-01-01 05:15", "4", "3", "5"] + ["6"];
    assert ["5", "Example list item", "1", "New title", "2", "New description",
            "3", "2021-01-01 05:15", "4", "3", "5", "6"] == ["5"] + updating;
    OptionDigits();
    UpdateListScenario(x, ["6"]);
    var done := x.(title := "New title", description := "New description",
                   dueDate := Some(Fields(2021, 1, 1, 5, 15)), status := COMPLETED);
    SessionOneStep("5", 5, updating, map["Example list item" := x], now);
    assert ["6"] == ["6"] + [];
    SessionQuit("6", [], map["New title" := done], now);
    FormatEarlyExample();
  }

  class ToDoController {
    const reader: InputReader
    const toDoList: ToDoList

    ghost predicate Valid()
      reads this, toDoList, toDoList.repository
    {
      toDoList.Valid()
    }

    /** The controller over a console and a list; start is called separately. */
    constructor (reader: InputReader, toDoList: ToDoList)
      requires toDoList.Valid()
      ensures this.reader == reader && this.toDoList == toDoList && Valid()
    {
      this.reader := reader;
      this.toDoList := toDoList;
    }

    /** printMenuReturnInput */
    method PrintMenuReturnInput(menu: string) returns (r: Result<int>)
      modifies reader
      ensures Read(r, reader.lines) == ReadOption(old(reader.lines))
    {
      r := RequestUserOption(menu, reader);
    }

    /** updateItemStatus */
    method UpdateItemStatus(item: ListItem) returns (r: Outcome)
      modifies reader, item
      ensures var spec := StatusEdit(old(reader.lines), old(item.Value()));
        reader.lines == spec.rest
        && (spec.result.Ok? ==> r == Pass && item.Value() == spec.result.value)
        && (spec.result.Err? ==> r == Fail(spec.result.error) && item.Value() == old(item.Value()))
    {
      var option := PrintMenuReturnInput(STATUS_EDITOR_MENU);
      if option.Err? {
        return Fail(option.error);
      }
      if option.value < 4 && option.value > 0 {
        var status := GetStatus(option.value - 1);
        if status.Ok? {
          var applied := item.SetStatus(Some(status.value));
        }
      }
      return Pass;
    }

    /** selectFromEditorMenu */
    method SelectFromEditorMenu(item: ListItem, option: int) returns (r: Outcome)
      modifies reader, item
      ensures var spec := EditorEdit(option, old(reader.lines), old(item.Value()));
        reader.lines == spec.rest
        && (spec.result.Ok? ==> r == Pass && item.Value() == spec.result.value)
        && (spec.result.Err? ==> r == Fail(spec.result.error) && item.Value() == old(item.Value()))
    {
      if option == 1 {
        var title := reader.GetNextText("\nEnter a new list item title");
        if title.Err? {
          return Fail(title.error);
        }
        item.SetTitle(title.value);
      } else if option == 2 {
        var description := reader.GetNextText("\nEnter a new description");
        if description.Err? {
          return Fail(description.error);
        }
        item.SetDescription(description.value);
      } else if option == 3 {
        r := toDoList.AddDueDate(reader, item);
        return;
      } else if option == 4 {
        r := UpdateItemStatus(item);
        return;
      }
      return Pass;
    }

    /** updateItem */
    method UpdateItem(item: ListItem, option: int) returns (r: Outcome)
      requires Valid()
      modifies reader, item, toDoList.repository
      ensures Valid()
      ensures Edit(r, item.Value(), reader.lines, toDoList.repository.contents)
              == UpdateItemStep(old(item.Value()), option, old(reader.lines), old(toDoList.repository.contents))
    {
      toDoList.RemoveItem(item);
      r := SelectFromEditorMenu(item, option);
      if r.Fail? {
        return;
      }
      r := toDoList.UpdateListItem(item);
    }

    /** updateToDoList */
    method UpdateToDoList() returns (r: Outcome)
      requires Valid()
      modifies reader, toDoList.repository
      ensures Valid()
      ensures Step(r, reader.lines, toDoList.repository.contents)
              == UpdateListStep(old(reader.lines), old(toDoList.repository.contents))
    {
      var name := reader.GetNextText("\nEnter the list item title");
      if name.Err? {
        return Fail(name.error);
      }
      var found := toDoList.GetListItem(name.value);
      if found.Err? {
        return if found.error.ListItemNotFound? then Pass else Fail(found.error);
      }
      var item := found.value;
      ghost var goal := EditorLoop(item.Value(), reader.lines, toDoList.repository.contents);
      while true
        invariant Valid()
        invariant fresh(item)
        invariant EditorLoop(item.Value(), reader.lines, toDoList.repository.contents) == goal
        decreases |reader.lines|
      {
        var option := PrintMenuReturnInput(ITEM_EDITOR_MENU);
        if option.Err? {
          return Fail(option.error);
        }
        r := UpdateItem(item, option.value);
        if r.Fail? || option.value == 5 {
          return;
        }
      }
    }

    /** selectMenu */
    method SelectMenu(option: int, now: DateTime) returns (r: Outcome)
      requires Valid()
      modifies reader, toDoList.repository
      ensures Valid()
      ensures Step(r, reader.lines, toDoList.repository.contents)
              == MenuStep(option, old(reader.lines), old(toDoList.repository.contents), now)
    {
      if option == 1 {
        var items, titles := toDoList.PrintAllListItems();
        r := Pass;
      } else if option == 2 {
        r := toDoList.AddToDoListItem(reader, now);
      } else if option == 3 {
        r := toDoList.RemoveListItem(reader);
      } else if option == 4 {
        toDoList.ClearAllListItems();
        r := Pass;
      } else if option == 5 {
        r := UpdateToDoList();
      } else {
        r := Pass;
      }
    }

    /**
     * start: show the banner, then run the main menu until option 6 or
     * until an exception escapes. The clock reads `now` throughout.
     */
    method Start(now: DateTime) returns (r: Outcome)
      requires Valid()
      modifies reader, toDoList.repository
      ensures Valid()
      ensures Step(r, reader.lines, toDoList.repository.contents)
              == Session(old(reader.lines), old(toDoList.repository.contents), now)
    {
      ghost var goal := Session(reader.lines, toDoList.repository.contents, now);
      while true
        invariant Valid()
        invariant Session(reader.lines, toDoList.repository.contents, now) == goal
        decreases |reader.lines|
      {
        var option := PrintMenuReturnInput(MAIN_MENU);
        if option.Err? {
          return Fail(option.error);
        }
        r := SelectMenu(option.value, now);
        if r.Fail? || option.value == 6 {
          return;
        }
      }
    }
  }
}
