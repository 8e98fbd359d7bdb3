/**
 * A to-do list item: title, description, creation timestamp, optional due
 * date and status, as mutable fields behind setters.
 */
module ListItems {
  import opened Errors
  import opened ItemStatus
  import opened DateParser

  /** The five fields of an item at one moment. */
  datatype ItemValue = ItemValue(
    title: string,
    description: string,
    timestamp: Option<DateTime>,
    dueDate: Option<DateTime>,
    status: Status)

  const NULL_STATUS: string := "ItemStatus cannot be null"

  /**
   * The due-date segment of toString: present exactly when a due date is
   * set, and then ending in the date printed with a space for the T.
   */
  function DueDateSegment(dueDate: Option<DateTime>): (s: string)
    ensures s != "" <==> dueDate.Some?
    ensures dueDate.Some? ==> |s| >= 16 && s[|s| - 16..] == Render(dueDate.value, ' ')
  {
    match dueDate
    case None => ""
    case Some(d) =>
      ReplaceTRender(d);
      "]\nDue date: [" + ReplaceT(Format(d))
  }

  /**
   * The timestamp the (title, description, status) constructor computes:
   * the clock's value printed with toString and parsed back with the
   * space-separated pattern. The parse always fails, the failure is only
   * logged, and the field stays null.
   */
  function ConstructorTimestamp(now: DateTime): (t: Option<DateTime>)
    ensures t.None?
  {
    ParseFormatFails(now);
    match Parse(Format(now))
    case Ok(d) => Some(d)
    case Err(_) => None
  }

  /**
   * The timestamp that constructor evidently means to compute: the printed
   * clock value with its T replaced by a space, parsed back.
   */
  function CorrectedConstructorTimestamp(now: DateTime): (t: Option<DateTime>)
    ensures t == Some(now)
  {
    ParseReplaceTFormat(now);
    match Parse(ReplaceT(Format(now)))
    case Ok(d) => Some(d)
    case Err(_) => None
  }

  class ListItem {
    var title: string
    var description: string
    var timestamp: Option<DateTime>
    var dueDate: Option<DateTime>
    var status: Status

    function Value(): ItemValue
      reads this
    {
      ItemValue(title, description, timestamp, dueDate, status)
    }

    /** new ListItem(): created now (to the minute), PENDING, no due date. */
    constructor Default(now: DateTime)
      ensures Value() == ItemValue("", "", Some(now), None, PENDING)
    {
      title := "";
      description := "";
      timestamp := Some(now);
      dueDate := None;
      status := PENDING;
    }

    /** new ListItem(title, description, status), as written: no timestamp. */
    constructor WithStatus(title: string, description: string, status: Status, now: DateTime)
      ensures Value() == ItemValue(title, description, None, None, status)
    {
      this.title := title;
      this.description := description;
      this.timestamp := ConstructorTimestamp(now);
      this.dueDate := None;
      this.status := status;
    }

    /** The same constructor with the timestamp it evidently means to set. */
    constructor WithStatusCorrected(title: string, description: string, status: Status, now: DateTime)
      ensures Value() == ItemValue(title, description, Some(now), None, status)
    {
      this.title := title;
      this.description := description;
      this.timestamp := CorrectedConstructorTimestamp(now);
      this.dueDate := None;
      this.status := status;
    }

    /** The all-arguments constructor stores its five arguments unchanged. */
    constructor (title: string, description: string, timestamp: Option<DateTime>,
                 dueDate: Option<DateTime>, status: Status)
      ensures Value() == ItemValue(title, description, timestamp, dueDate, status)
    {
      this.title := title;
      this.description := description;
      this.timestamp := timestamp;
      this.dueDate := dueDate;
      this.status := status;
    }

    method SetTitle(title: string)
      modifies this
      ensures Value() == old(Value()).(title := title)
    {
      this.title := title;
    }

    method SetDescription(description: string)
      modifies this
      ensures Value() == old(Value()).(description := description)
    {
      this.description := description;
    }

    method SetDueDate(dueDate: Option<DateTime>)
      modifies this
      ensures Value() == old(Value()).(dueDate := dueDate)
    {
      this.dueDate := dueDate;
    }

    /**
     * setStatus: a null status is refused and nothing changes; any other
     * status replaces the current one, whatever it was.
     */
    method SetStatus(status: Option<Status>) returns (r: Outcome)
      modifies this
      ensures status.None? ==> r == Fail(InvalidItemStatus(NULL_STATUS)) && Value() == old(Value())
      ensures status.Some? ==> r == Pass && Value() == old(Value()).(status := status.value)
    {
      if status.None? {
        return Fail(InvalidItemStatus(NULL_STATUS));
      }
      this.status := status.value;
      return Pass;
    }
  }
}
