# To-do list: item store, date parser and menu state machine

A model of the console to-do list application in its two revisions:

- The canonical revision keeps items in a database table, through `ToDoListRepository`.
  `ToDoList` guards titles on top of that table. `ToDoController` runs the main menu until
  option 6 and the item editor until option 5.
- The earlier in-memory revision keeps items in a hash map from title to item object.

The model is written in Dafny, one module per source class:

| module | models |
|---|---|
| `Errors` | the exceptions thrown, as `Result`/`Outcome` values |
| `Decimal` | decimal digit strings, used by the date parser and `Integer.parseInt` |
| `ItemStatus` | the `ItemStatus` enum and `getStatus` |
| `DateParser` | `parseStringToLocalDateTime` for the one pattern it is called with, `yyyy-MM-dd HH:mm`, and `LocalDateTime.toString` for minute-precision values |
| `ListItems` | the canonical `ListItem` class |
| `Repository` | `ToDoListRepository`: the table as a map from title to row, and the row codec |
| `Input` | `InputReader`: the console as the sequence of lines still to be typed |
| `Menus` | `MenuController`: the menu texts, `Integer.parseInt`, and `requestUserOption` |
| `ToDoLists` | the canonical `ToDoList` class |
| `Controller` | `ToDoController` |
| `LegacyItems` | the in-memory revision's `ListItem` |
| `LegacyStore` | the in-memory revision's `ToDoList` |

Each class whose fields change is a Dafny `class` with the same fields and methods.

- Each console dialogue is also a function of the remaining input lines and the stored items.
  The class's method is proved to follow that function: `AddItemStep`, `RemoveItemStep`,
  `UpdateListStep` and `EditorLoop`, `Session`, `Create`, `Remove`.
- The two `do … while` loops of the controller are `while` loops. Their invariant is that the
  rest of the loop computes the same result as the specifying function from the current state.
- The database table is a `map<string, Row>` keyed by title. The repository keeps, as ghost
  state, the items the rows encode. Its `Valid()` says each row is filed under its own title
  and decodes to that item.
- An exception the code catches is reported and swallowed; the model then returns `Pass` with
  the state as the catch leaves it.
- An exception nothing catches ends the session with `Fail(e)`. These are the unchecked
  title and option exceptions, a null timestamp written to the table, and the end of input.
- The clock is a parameter `now`, already truncated to the minute. The console is the list of
  lines the user will type. Printing is not modelled.

An invalid menu option is not prompted for again. `requestUserOption` throws
`InvalidOptionException` (MenuController.java:68-74), and nothing in `ToDoController` catches
it (ToDoController.java:37-40), so the session ends with that error. The doc comment of
`requestUserOption` promises -1 for a non-number; the model follows the code, which throws.

## Model

| member | source | states |
|---|---|---|
| ItemStatus.Ordinal | src/main/java/types/ItemStatus.java:5-8 | the ordinal of a status is its position in declaration order |
| ItemStatus.GetStatus | src/main/java/types/ItemStatus.java:17-24 | getStatus succeeds exactly for indexes 0..2, returning the status of that ordinal; otherwise it fails with "Invalid item status" |
| ItemStatus.GetStatusConstants | src/main/java/types/ItemStatus.java:5-20 | getStatus(0), (1), (2) are PENDING, PROGRESS, COMPLETED |
| ItemStatus.GetStatusOrdinal | src/main/java/types/ItemStatus.java:17-20 | getStatus(s.ordinal()) == s for every status |
| ItemStatus.StatusClosed | src/main/java/types/ItemStatus.java:5-8 | every status is one of exactly three distinct constants |
| ItemStatus.ValueOf | src/main/java/dao/ToDoListRepository.java:115 | valueOf succeeds only on a constant's name, returning that constant, and otherwise fails naming the text |
| ItemStatus.ValueOfName | src/main/java/dao/ToDoListRepository.java:115 | valueOf(s.toString()) == s for every status |
| Decimal.DigitChar | src/main/java/util/DateParser.java:23 | the digit character for a value below 10 reads back as that value |
| Decimal.Padded | src/main/java/util/DateParser.java:23 | a zero-padded numeral has exactly the requested width and only digits |
| Decimal.Numeral | src/main/java/controller/MenuController.java:67 | a numeral is non-empty, all digits, without a leading zero |
| Decimal.ValuePadded | src/main/java/util/DateParser.java:23 | reading a zero-padded numeral gives back the number |
| Decimal.PaddedValue | src/main/java/util/DateParser.java:23 | a digit string is the zero-padded numeral of its value at its own width |
| Decimal.ValueNumeral | src/main/java/controller/MenuController.java:67 | reading a numeral gives back the number |
| DateParser.DaysInMonth | src/main/java/util/DateParser.java:20-27 | a month has 28 to 31 days, by the Gregorian leap-year rule |
| DateParser.Parse | src/main/java/util/DateParser.java:20-27 | a successful parse matched the pattern shape; every failure is InvalidDateTimeFormatException with the message "'<date>' is an invalid format. yyyy-MM-dd HH:mm" |
| DateParser.ParseAccepts | src/main/java/util/DateParser.java:23-25 | parsing succeeds exactly when the text has the pattern's shape, year >= 1, month 1..12, day 1..31, minute <= 59, and hour <= 23 or 24:00 |
| DateParser.ResolveAccepts | src/main/java/util/DateParser.java:23 | the field resolver accepts exactly the field ranges of ParseAccepts |
| DateParser.DatePart | src/main/java/dao/ToDoListRepository.java:207 | the date half of toString is ten characters with no T |
| DateParser.TimePart | src/main/java/dao/ToDoListRepository.java:207 | the time half of toString is five characters with no T |
| DateParser.Render | src/main/java/dao/ToDoListRepository.java:207 | a minute-precision date-time prints as 16 characters |
| DateParser.RenderSlices | src/main/java/dao/ToDoListRepository.java:207 | the printed form is the padded year, month, day, hour and minute at fixed offsets, with the separators between them |
| DateParser.ReplaceT | src/main/java/dao/ToDoListRepository.java:106-108 | replace("T", " ") keeps the length, turns every T into a space, and changes no other character |
| DateParser.ReplaceTFixes | src/main/java/dao/ToDoListRepository.java:106 | text without a T is unchanged by replace("T", " ") |
| DateParser.ReplaceTConcat | src/main/java/dao/ToDoListRepository.java:106 | replace("T", " ") works piecewise over a concatenation |
| DateParser.ReplaceTRender | src/main/java/dao/ToDoListRepository.java:106-108 | toString with T replaced by a space is the space-separated printed form |
| DateParser.ParseRender | src/main/java/dao/ToDoListRepository.java:106-109 | parsing the space-separated printed form of d gives back d |
| DateParser.ParseReplaceTFormat | src/main/java/dao/ToDoListRepository.java:106-109 | the round trip the table relies on: parse(toString(d) with T replaced) == d |
| DateParser.ParseFormatFails | src/main/java/model/ListItem.java:56 | parsing toString(d) itself, with its T, always fails |
| DateParser.ParseCanonical | src/main/java/util/DateParser.java:23 | an accepted text that needed no day clamping or 24:00 rollover is the printed form of its result |
| DateParser.RenderExample | src/test/java/util/DateParserTest.java:24-26 | 2025-05-05 15:45 prints as "2025-05-05 15:45" |
| DateParser.FormatExample | src/test/java/util/DateParserTest.java:24-26 | 2025-05-05 15:45 prints with toString as "2025-05-05T15:45" |
| DateParser.ParseExample | src/test/java/util/DateParserTest.java:24-26 | "2025-05-05 15:45" parses to a value whose toString is "2025-05-05T15:45" |
| DateParser.RenderEarlyExample | src/test/java/controller/ToDoControllerTest.java:89-105 | 2021-01-01 05:15 prints as "2021-01-01 05:15" |
| DateParser.FormatEarlyExample | src/test/java/controller/ToDoControllerTest.java:89-105 | 2021-01-01 05:15 prints with toString as "2021-01-01T05:15" |
| DateParser.ParseEarlyExample | src/test/java/controller/ToDoControllerTest.java:89-105 | "2021-01-01 05:15" parses to a value whose toString is "2021-01-01T05:15" |
| DateParser.ParseRejectsDayFirst | src/test/java/util/DateParserTest.java:31-32 | "01-05-2021 01:25" fails with the invalid-format error naming that text |
| DateParser.ParseClampsDay | src/main/java/util/DateParser.java:23 | "2023-02-30 10:00" is accepted and its day clamped to 28 |
| DateParser.ParseEndOfDay | src/main/java/util/DateParser.java:23 | "2024-12-31 24:00" is accepted as midnight of the next day, 2025-01-01 00:00 |
| ListItems.DueDateSegment | src/main/java/model/ListItem.java:88 | the due-date segment of toString is present iff a due date is set, and then ends with the date printed with a space for the T |
| ListItems.ConstructorTimestamp | src/main/java/model/ListItem.java:56-59 | the (title, description, status) constructor's timestamp computation, as written, always yields null |
| ListItems.CorrectedConstructorTimestamp | src/main/java/model/ListItem.java:56 | with the T replaced before parsing, the same computation yields the clock's value |
| ListItems.ListItem.Default | src/main/java/model/ListItem.java:39-42 | the default constructor: created now, PENDING, no due date, empty title and description |
| ListItems.ListItem.WithStatus | src/main/java/model/ListItem.java:52-61 | stores the given title, description and status, no due date and, as written, a null timestamp |
| ListItems.ListItem.WithStatusCorrected | src/main/java/model/ListItem.java:52-61 | as WithStatus, with the timestamp set to now |
| ListItems.ListItem.constructor | src/main/java/model/ListItem.java:17-33 | the all-args constructor stores all five fields unchanged |
| ListItems.ListItem.SetTitle | src/main/java/model/ListItem.java:16-21 | setTitle changes the title and no other field |
| ListItems.ListItem.SetDescription | src/main/java/model/ListItem.java:16-24 | setDescription changes the description and no other field |
| ListItems.ListItem.SetDueDate | src/main/java/model/ListItem.java:16-30 | setDueDate changes the due date and no other field |
| ListItems.ListItem.SetStatus | src/main/java/model/ListItem.java:69-75 | null is refused with "ItemStatus cannot be null" and nothing changes; any status replaces the current one, and nothing else changes |
| Repository.Encode | src/main/java/dao/ToDoListRepository.java:203-218 | a row keeps title and description, writes the timestamp as its toString, the due date as its toString or "None" exactly when it is missing, and the status by its name; a null timestamp fails |
| Repository.DecodeDueDate | src/main/java/dao/ToDoListRepository.java:106-109 | the due-date column decodes to no due date exactly when it is "None" |
| Repository.Decode | src/main/java/dao/ToDoListRepository.java:105-116 | a decoded item keeps the row's title and description, has a timestamp, has no due date iff the column is "None", and has the status the column names |
| Repository.DecodeEncode | src/main/java/dao/ToDoListRepository.java:105-218 | decoding the row written for an item with a timestamp gives back the same five fields |
| Repository.Added | src/main/java/dao/ToDoListRepository.java:39-53 | an insert keeps every stored item, adds at most the new item under its own title, and adds it when its timestamp is set |
| Repository.Lookup | src/main/java/dao/ToDoListRepository.java:100-126 | a lookup fails with "Item '<t>' cannot be found" iff no row has title t; otherwise it returns the item stored under t, whose title is t |
| Repository.LookupAdded | src/main/java/dao/ToDoListRepository.java:39-126 | an item inserted under a new title is then found under it |
| Repository.DecodeStored | src/main/java/dao/ToDoListRepository.java:105-116 | every stored row decodes to the item it holds |
| Repository.DistinctSize | src/main/java/dao/ToDoListRepository.java:156-161 | a list of distinct titles naming exactly the stored titles has as many entries as the table |
| Repository.ListingComplete | src/main/java/dao/ToDoListRepository.java:152-168 | the listing holds one item per stored title, each found under its own title, none twice, none missing |
| Repository.ToDoListRepository.constructor | src/main/java/dao/ToDoListRepository.java:30-32 | the repository starts over a table that represents the given items |
| Repository.ToDoListRepository.AddListItem | src/main/java/dao/ToDoListRepository.java:39-53 | the row is inserted when its title is new; a taken title leaves the table as it was; a null timestamp fails and inserts nothing |
| Repository.ToDoListRepository.RemoveListItem | src/main/java/dao/ToDoListRepository.java:61-75 | the row is deleted, every other row kept, and ListItemNotFoundException is thrown iff there was none |
| Repository.ToDoListRepository.RemoveAllItems | src/main/java/dao/ToDoListRepository.java:81-91 | afterwards the table is empty |
| Repository.ToDoListRepository.GetItemByTitle | src/main/java/dao/ToDoListRepository.java:100-126 | a new item decoded from the row with that title, or "Item '<t>' cannot be found" iff there is none |
| Repository.ToDoListRepository.DoesListItemExist | src/main/java/dao/ToDoListRepository.java:134-145 | true iff a row has that title |
| Repository.ToDoListRepository.GetAllListItems | src/main/java/dao/ToDoListRepository.java:152-168 | the loop collects as many items as there are rows, each found by its own title, and every stored item is among them |
| Input.NextLine | src/main/java/util/InputReader.java:19-22 | the next line is the first line left and consumes it; with no line left the read fails and consumes nothing |
| Input.InputReader.constructor | src/main/java/util/InputReader.java:9-11 | the reader starts with the lines the user will type |
| Input.InputReader.GetNextText | src/main/java/util/InputReader.java:19-22 | getNextText returns and consumes the next line as NextLine says |
| Menus.InRange | src/main/java/controller/MenuController.java:67 | a value is kept exactly when it fits a 32-bit int |
| Menus.ParseInt | src/main/java/controller/MenuController.java:67 | Integer.parseInt returns only 32-bit values; an unsigned or minus-signed digit string gives its value, or fails when that value does not fit in 32 bits |
| Menus.IntText | src/main/java/controller/MenuController.java:67 | the decimal text of an int is non-empty |
| Menus.ParseIntText | src/main/java/controller/MenuController.java:67 | Integer.parseInt reads back the decimal text of every 32-bit int |
| Menus.ParseIntRejects | src/main/java/controller/MenuController.java:67-74 | a character that is not a digit, and not a leading sign, makes Integer.parseInt fail |
| Menus.ParseIntPadded | src/main/java/controller/MenuController.java:67 | leading zeros and a leading plus or minus sign are accepted, with the value they denote |
| Menus.OverflowIsNotANumber | src/main/java/controller/MenuController.java:67-74 | a number above 2147483647 fails to parse, so as an option it is "Option must be a number." |
| Menus.OptionOf | src/main/java/controller/MenuController.java:66-75 | an option is accepted iff the line parses as an int n with 1 <= n <= 6; a non-number fails with "Option must be a number.", another number with "Invalid option." |
| Menus.OptionOfText | src/main/java/controller/MenuController.java:66-75 | the text of each of 1..6 is accepted as that option |
| Menus.OptionDigits | src/main/java/controller/MenuController.java:66-75 | "1" to "6" are the options 1 to 6 |
| Menus.ReadOption | src/main/java/controller/MenuController.java:64-76 | one line is read and turned into an option; with no line left the read fails |
| Menus.RequestUserOption | src/main/java/controller/MenuController.java:64-76 | requestUserOption reads one line and returns what ReadOption says, whichever menu was shown |
| ToDoLists.RequestTitle | src/main/java/model/ToDoList.java:204-212 | a title is accepted iff the line read is non-empty (blank titles pass); the empty line fails with InvalidItemTitleException |
| ToDoLists.ReadDueDate | src/main/java/model/ToDoList.java:135-145 | addDueDate reads one line and changes at most the due date |
| ToDoLists.DueDateBlank | src/main/java/model/ToDoList.java:137 | an empty line leaves the item unchanged |
| ToDoLists.DueDateTyped | src/main/java/model/ToDoList.java:139-140 | the printed form of d sets the due date to d |
| ToDoLists.DueDateRejected | src/main/java/model/ToDoList.java:141-142 | text that does not parse is reported and leaves the item unchanged |
| ToDoLists.NewItem | src/main/java/model/ToDoList.java:35-51 | creation succeeds iff three lines are left and the title is non-empty and not stored; the item has that title and description, was created now, is PENDING, and has the due date addDueDate gives; a stored title fails before any further line is read |
| ToDoLists.AddItemStep | src/main/java/model/ToDoList.java:58-67 | the item is stored under its title when creation succeeds; a refused title stores nothing; only running out of input escapes |
| ToDoLists.DuplicateStopsCreation | src/main/java/model/ToDoList.java:35-67 | a stored title consumes one line and changes nothing |
| ToDoLists.EmptyTitleStopsCreation | src/main/java/model/ToDoList.java:204-209 | an empty title consumes one line and changes nothing |
| ToDoLists.CreatedItemFound | src/main/java/model/ToDoList.java:35-67 | a created item is then found under its title with the values typed |
| ToDoLists.RemoveItemStep | src/main/java/model/ToDoList.java:74-82 | one line is read; a non-empty title is no longer stored afterwards; an empty or absent title changes nothing |
| ToDoLists.RemovedItemNotFound | src/main/java/model/ToDoList.java:74-126 | after removing a title, looking it up fails with "Item '<t>' cannot be found" |
| ToDoLists.FindItem | src/main/java/model/ToDoList.java:121-126 | the empty name fails with InvalidItemTitleException; any other name is the repository lookup |
| ToDoLists.RetitleItem | src/main/java/model/ToDoList.java:173-185 | updateTitle changes the title iff the line read is non-empty and not stored; otherwise the item is unchanged |
| ToDoLists.ToDoList.constructor | src/main/java/model/ToDoList.java:21-23 | the list works over the given repository |
| ToDoLists.ToDoList.RequestItemTitle | src/main/java/model/ToDoList.java:204-212 | requestItemTitle does what RequestTitle says |
| ToDoLists.ToDoList.ListItemExists | src/main/java/model/ToDoList.java:193-195 | true iff the title is stored |
| ToDoLists.ToDoList.AddDueDate | src/main/java/model/ToDoList.java:135-145 | the item's new value is what ReadDueDate says |
| ToDoLists.ToDoList.CreateListItem | src/main/java/model/ToDoList.java:35-51 | a new item with the value NewItem gives, or NewItem's error; nothing is stored |
| ToDoLists.ToDoList.AddToDoListItem | src/main/java/model/ToDoList.java:58-67 | input left and stored items are as AddItemStep says |
| ToDoLists.ToDoList.RemoveListItem | src/main/java/model/ToDoList.java:74-82 | input left and stored items are as RemoveItemStep says |
| ToDoLists.ToDoList.RemoveItem | src/main/java/model/ToDoList.java:89-95 | the item's title is no longer stored, and every other item is kept |
| ToDoLists.ToDoList.UpdateListItem | src/main/java/model/ToDoList.java:102-104 | the item is inserted as the repository's insert says |
| ToDoLists.ToDoList.ClearAllListItems | src/main/java/model/ToDoList.java:109-112 | afterwards nothing is stored |
| ToDoLists.ToDoList.GetListItem | src/main/java/model/ToDoList.java:121-126 | a new item with the value FindItem gives, or FindItem's error |
| ToDoLists.ToDoList.PrintAllListItems | src/main/java/model/ToDoList.java:163-165 | the items printed are as many as the rows, each found by its own title, and include every stored item |
| ToDoLists.ToDoList.UpdateTitle | src/main/java/model/ToDoList.java:173-185 | the item's new value is what RetitleItem says |
| Controller.StatusEdit | src/main/java/controller/ToDoController.java:96-109 | options 1..3 set the status to getStatus(option - 1); any other accepted option leaves the item unchanged |
| Controller.StatusOptions | src/main/java/controller/ToDoController.java:101-104 | "1", "2", "3" select PENDING, PROGRESS, COMPLETED; "4" changes nothing |
| Controller.EditorEdit | src/main/java/controller/ToDoController.java:132-145 | option 1 sets the title to the raw line with no check, 2 the description, 3 the due date as addDueDate reads it, 4 the status; others read and change nothing; the timestamp never changes |
| Controller.UpdateItemStep | src/main/java/controller/ToDoController.java:84-89 | the item is removed under its old title, edited, and stored under its new title unless another item holds that title; it is never left under its old title after a rename |
| Controller.EditorLoopStops | src/main/java/controller/ToDoController.java:67-72 | the editor loop reads a prefix of the input, and when it ends normally the last line read was option 5 |
| Controller.EditorOptionStops | src/main/java/controller/ToDoController.java:67-72 | the same, once an option has been read |
| Controller.UpdateListStep | src/main/java/controller/ToDoController.java:60-76 | updateToDoList reads only a prefix of the input |
| Controller.UpdateAbsentItem | src/main/java/controller/ToDoController.java:66-75 | a title that is not stored is reported; the editor is not entered and nothing changes |
| Controller.UpdateEmptyTitle | src/main/java/controller/ToDoController.java:66 | an empty title escapes updateToDoList as InvalidItemTitleException, and nothing changes |
| Controller.RenameMovesItem | src/main/java/controller/ToDoController.java:84-134 | a rename to a free title files the item under the new title only |
| Controller.RenameCollisionLosesItem | src/main/java/controller/ToDoController.java:84-134 | a rename to another item's title leaves the edited item stored under neither title |
| Controller.ReturnKeepsStore | src/main/java/controller/ToDoController.java:84-145 | option 5 still removes and re-stores the item, which leaves the store as it was |
| Controller.EditorReturn | src/main/java/controller/ToDoController.java:67-72 | option 5 ends the editor with the store unchanged |
| Controller.EditorOneStep | src/main/java/controller/ToDoController.java:67-72 | an editor option other than 5, on any store: the item is removed under its old title, the edited item inserted, and the editor reads on with it |
| Controller.DueDateEditExample | src/main/java/controller/ToDoController.java:136-138 | editing the due date to "2021-01-01 05:15" sets it to that date-time |
| Controller.MenuStep | src/main/java/controller/ToDoController.java:116-124 | 1 only views, 2 adds, 3 removes, 4 clears, 5 updates, and 6 does nothing |
| Controller.SessionStops | src/main/java/controller/ToDoController.java:37-40 | a session reads a prefix of the input, and when it ends normally the last line read was option 6 |
| Controller.MenuOptionStops | src/main/java/controller/ToDoController.java:37-40 | the same, once an option has been read |
| Controller.SessionOneStep | src/main/java/controller/ToDoController.java:37-40 | after an option other than 6 that completes, the session goes on from the new state |
| Controller.SessionQuit | src/main/java/controller/ToDoController.java:37-40 | option 6 ends the session and changes nothing |
| Controller.ClearSession | src/test/java/controller/ToDoControllerTest.java:61-74 | options 4 then 6 end the session with nothing stored |
| Controller.AddScenario | src/test/java/controller/ToDoControllerTest.java:28-38 | the scripted add session stores "New Title" with the typed description and due date, created now, PENDING |
| Controller.RemoveScenario | src/test/java/controller/ToDoControllerTest.java:43-55 | the scripted remove session leaves "Example list item" unstored, everything else kept |
| Controller.StatusScenario | src/test/java/controller/ToDoControllerTest.java:89-105 | status option 3 then option 5 leave the item COMPLETED |
| Controller.DueDateScenario | src/test/java/controller/ToDoControllerTest.java:89-105 | the scripted edits from the due date on |
| Controller.DescriptionScenario | src/test/java/controller/ToDoControllerTest.java:89-105 | the scripted edits from the description on |
| Controller.EditorScenario | src/test/java/controller/ToDoControllerTest.java:89-105 | the scripted editor run files the item under "New title" only, with every edit applied |
| Controller.UpdateListScenario | src/test/java/controller/ToDoControllerTest.java:89-105 | updateToDoList on the scripted input gives the edited item under "New title" only |
| Controller.UpdateScenario | src/test/java/controller/ToDoControllerTest.java:80-106 | the scripted update session ends with "New title", the new description, due date "2021-01-01T05:15" and COMPLETED |
| Controller.ToDoController.constructor | src/main/java/controller/ToDoController.java:20-24 | the controller works on the given console and list |
| Controller.ToDoController.PrintMenuReturnInput | src/main/java/controller/ToDoController.java:153-155 | reads one option as ReadOption says |
| Controller.ToDoController.UpdateItemStatus | src/main/java/controller/ToDoController.java:96-109 | the item's new value and the input left are what StatusEdit says |
| Controller.ToDoController.SelectFromEditorMenu | src/main/java/controller/ToDoController.java:132-145 | the item's new value and the input left are what EditorEdit says |
| Controller.ToDoController.UpdateItem | src/main/java/controller/ToDoController.java:84-89 | item, input left and store are what UpdateItemStep says |
| Controller.ToDoController.UpdateToDoList | src/main/java/controller/ToDoController.java:60-76 | the do-while loop ends as UpdateListStep and EditorLoop say |
| Controller.ToDoController.SelectMenu | src/main/java/controller/ToDoController.java:116-124 | input left and store are what MenuStep says |
| Controller.ToDoController.Start | src/main/java/controller/ToDoController.java:33-41 | the main loop ends as Session says |
| LegacyItems.DueDateField | src/model/ListItem.java:89 | the due-date segment of toString is present iff a due date is set, and then is the date printed with a space |
| LegacyItems.LegacyListItem.Default | src/model/ListItem.java:20-22 | only the timestamp is set; title, text, due date and status stay null |
| LegacyItems.LegacyListItem.WithStatus | src/model/ListItem.java:32-37 | stores the given title, text and status, created now |
| LegacyItems.LegacyListItem.SetTitle | src/model/ListItem.java:43-45 | changes the title and no other field |
| LegacyItems.LegacyListItem.SetText | src/model/ListItem.java:51-53 | changes the text and no other field |
| LegacyItems.LegacyListItem.SetTimestamp | src/model/ListItem.java:59-61 | changes the timestamp and no other field |
| LegacyItems.LegacyListItem.SetDueDate | src/model/ListItem.java:67-69 | changes the due date and no other field |
| LegacyItems.LegacyListItem.GetDueDate | src/model/ListItem.java:63-65 | returns exactly the stored due date |
| LegacyItems.LegacyListItem.SetStatus | src/model/ListItem.java:75-81 | null is refused with "Invalid status provided" and nothing changes; any status replaces the current one |
| LegacyStore.LegacyDueDate | src/model/ToDoList.java:69-78 | one line is read and only the due date may change: blank or unparsable text keeps it |
| LegacyStore.CreateTitled | src/model/ToDoList.java:30-36 | after a fresh title, a description and a due date are read and the item is filed under the title |
| LegacyStore.Create | src/model/ToDoList.java:22-37 | creation succeeds iff three lines are left and the title is not a key; a taken title fails with ListItemAlreadyExists before any further line is read and changes nothing; success files the item under key == its title, other keys untouched |
| LegacyStore.Remove | src/model/ToDoList.java:43-50 | an absent title fails with "Item '<t>' cannot be found" and changes nothing; a present one is removed, every other entry kept |
| LegacyStore.Find | src/model/ToDoList.java:56-62 | the value stored under the name iff it is a key, else "Item '<t>' cannot be found" |
| LegacyStore.CreatedFound | src/model/ToDoList.java:22-62 | a created item is found under its title with a null status |
| LegacyStore.CreateThenRemove | src/model/ToDoList.java:22-50 | removing right after creating leaves the entries as they were |
| LegacyStore.RemoveTwice | src/model/ToDoList.java:43-50 | a second removal of the same title fails as not found |
| LegacyStore.StoredValues | src/model/ToDoList.java:16 | the stored values have exactly the map's keys |
| LegacyStore.ValuesInsert | src/model/ToDoList.java:39-41 | filing an object under a key adds its value under that key and keeps the rest |
| LegacyStore.LegacyToDoList.constructor | src/model/ToDoList.java:18-20 | the map starts empty |
| LegacyStore.LegacyToDoList.ListItemExists | src/model/ToDoList.java:84-86 | true iff the title is a key |
| LegacyStore.LegacyToDoList.AddDueDate | src/model/ToDoList.java:69-78 | the item's new value and the input left are what LegacyDueDate says |
| LegacyStore.LegacyToDoList.CreateListItem | src/model/ToDoList.java:22-37 | outcome and input left are what Create says; a failure leaves the map as it was; success files a new object under the title, whose value is what Create says, and changes no other entry |
| LegacyStore.LegacyToDoList.AddToDoListItem | src/model/ToDoList.java:39-41 | the object is filed under its title, and the values under other keys are kept |
| LegacyStore.LegacyToDoList.RemoveListItem | src/model/ToDoList.java:43-50 | outcome, input left and values are what Remove says; a failure leaves the map as it was |
| LegacyStore.LegacyToDoList.ClearAllListItems | src/model/ToDoList.java:52-54 | afterwards the map is empty |
| LegacyStore.LegacyToDoList.GetListItem | src/model/ToDoList.java:56-62 | the stored object itself, whose value is what Find says, or the not-found error |

## Left out

- Database access is not modelled: the JDBC connection, SQL text, result-set cursors and `DBConnector`. The table is a map keyed by title. The schema is not part of this model, so an INSERT on a title already stored is taken to be refused, and that refusal is swallowed.
- The `executeStatement` quirk is not modelled: it skips setting the parameters when the first parameter is empty.
- Swallowed SQL errors are not modelled, and neither is the null that `getItemByTitle` returns after one.
- Reading a row whose text does not parse is not modelled. Rows enter the model only through `addListItem`, so every row decodes.
- Console output is not modelled: prompts, menus printed, `printStackTrace`, and `printItem`. Input is the list of lines the user will type. End of input (`Scanner.nextLine` failing) ends the session with `EndOfInput`.
- The clock is the parameter `now`. It is a minute-precision date-time, so the truncation to minutes is assumed.
- A legacy timestamp finer than a minute is not modelled.
- The `toString` layout and `WordUtils.wrap` are not modelled. Only whether the due-date segment is present, and the date it prints, are modelled.
- DateParser.Parse does not model the general pattern language of `DateTimeFormatter`, only the pattern `yyyy-MM-dd HH:mm`.
- DateParser.Parse does not accept a `+`-signed year.
- DateParser.Parse treats 9999-12-31 24:00 as an error, where Java returns the year 10000.
- Menus.ParseInt does not accept non-ASCII Unicode digits, which `Integer.parseInt` does.
- ListItems.ListItem.Default and ListItems.ListItem.WithStatus: a title or description that Java leaves null is the empty string in the canonical item.
- Controller.ToDoController.Start gives every item created in one session the same `now`. Java reads `LocalDateTime.now()` at each `new ListItem()`, so items created later get later timestamps.
- ListItems.ListItem.constructor: the canonical item's status is never null. The Java all-args and (title, description, status) constructors accept a null status, which the model cannot represent.
- `ToDoController`'s constructor calls `start()`. The model's constructor does not; `Start` runs separately.
- The legacy `getAllListItems` and `printAllListItems` are not modelled; they hand out or print the map.
- The legacy `LegacyToDoList.CreateListItem` allocates the object after reading the title and description, where Java allocates it first. The clock is a parameter, so the result is the same.
- LegacyStore.LegacyToDoList.CreateListItem states the new map entry by entry, not as `Contents() == Create(...).items`. The map holds objects that callers may also edit, so its values are stated per key.
- Duplicate source revisions are modelled once, through the canonical files. These are the other copies of `ItemStatus`, `DateParser` and `InputReader`.
- Broken or superseded revisions are not modelled: the older controllers and menus, `src/main/model/ToDoList.java`, `src/main/dao/ToDoListRepository.java`, `src/main/database/DBConnector.java` and `Main`.

## Findings

| source | as written | input that shows it | evidently intended | confidence | as-written member | corrected member |
|---|---|---|---|---|---|---|
| src/main/java/model/ListItem.java:56 | the (title, description, status) constructor parses `LocalDateTime.now().truncatedTo(MINUTES).toString()`, which contains a `T`, with the pattern `yyyy-MM-dd HH:mm`; the parse always fails, the exception is only printed, and the timestamp stays null | any clock value, for example 2025-05-05 15:45, which prints as "2025-05-05T15:45" | the item is stamped with the current minute, as the table's reader does by replacing the `T` with a space first | not executed | ListItems.ConstructorTimestamp, ListItems.ListItem.WithStatus | ListItems.CorrectedConstructorTimestamp, ListItems.ListItem.WithStatusCorrected |
