/**
 * The list item of the earlier in-memory revision: title, text, timestamp,
 * due date and status, each of which may be null, behind plain setters.
 */
module LegacyItems {
  import opened Errors
  import opened ItemStatus
  import opened DateParser

  /** The five fields of a legacy item at one moment; None is null. */
  datatype LegacyValue = LegacyValue(
    title: Option<string>,
    text: Option<string>,
    timestamp: Option<DateTime>,
    dueDate: Option<DateTime>,
    status: Option<Status>)

  const INVALID_STATUS_PROVIDED: string := "Invalid status provided"

  /**
   * The due-date segment of toString: present exactly when a due date is
   * set, and then the date printed with a space in place of the T.
   */
  function DueDateField(dueDate: Option<DateTime>): (s: string)
    ensures s != "" <==> dueDate.Some?
    ensures dueDate.Some? ==> s == ", dueDate=" + Render(dueDate.value, ' ')
  {
    match dueDate
    case None => ""
    case Some(d) =>
      ReplaceTRender(d);
      ", dueDate=" + ReplaceT(Format(d))
  }

  class LegacyListItem {
    var title: Option<string>
    var text: Option<string>
    var timestamp: Option<DateTime>
    var dueDate: Option<DateTime>
    var status: Option<Status>

    function Value(): LegacyValue
      reads this
    {
      LegacyValue(title, text, timestamp, dueDate, status)
    }

    /** new ListItem(): only the timestamp is set; the status stays null. */
    constructor Default(now: DateTime)
      ensures Value() == LegacyValue(None, None, Some(now), None, None)
    {
      title := None;
      text := None;
      timestamp := Some(now);
      dueDate := None;
      status := None;
    }

    /** new ListItem(title, text, status): those three as given, created now. */
    constructor WithStatus(title: Option<string>, text: Option<string>, status: Option<Status>, now: DateTime)
      ensures Value() == LegacyValue(title, text, Some(now), None, status)
    {
      this.title := title;
      this.text := text;
      this.timestamp := Some(now);
      this.dueDate := None;
      this.status := status;
    }

    method SetTitle(title: Option<string>)
      modifies this
      ensures Value() == old(Value()).(title := title)
    {
      this.title := title;
    }

    method SetText(text: Option<string>)
      modifies this
      ensures Value() == old(Value()).(text := text)
    {
      this.text := text;
    }

    method SetTimestamp(timestamp: Option<DateTime>)
      modifies this
      ensures Value() == old(Value()).(timestamp := timestamp)
    {
      this.timestamp := timestamp;
    }

    method SetDueDate(dueDate: Option<DateTime>)
      modifies this
      ensures Value() == old(Value()).(dueDate := dueDate)
    {
      this.dueDate := dueDate;
    }

    /** getDueDate: the stored due date, absent when none is stored. */
    function GetDueDate(): (d: Option<DateTime>)
      reads this
      ensures d == Value().dueDate
    {
      if dueDate.Some? then dueDate else None
    }

    /** setStatus: null is refused and nothing changes; any other status replaces the current one. */
    method SetStatus(status: Option<Status>) returns (r: Outcome)
      modifies this
      ensures status.None? ==> r == Fail(InvalidItemStatus(INVALID_STATUS_PROVIDED)) && Value() == old(Value())
      ensures status.Some? ==> r == Pass && Value() == old(Value()).(status := status)
    {
      if status.None? {
        return Fail(InvalidItemStatus(INVALID_STATUS_PROVIDED));
      }
      this.status := status;
      return Pass;
    }
  }
}
