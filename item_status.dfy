/**
 * The status of a to-do item: a closed enumeration of three constants in
 * declaration order, looked up by index or by name.
 */
module ItemStatus {
  import opened Errors

  datatype Status = PENDING | PROGRESS | COMPLETED

  /** values(): the constants in declaration order. */
  const Values: seq<Status> := [PENDING, PROGRESS, COMPLETED]

  const INVALID_STATUS: string := "Invalid item status"

  /** ordinal(): the position of a constant in declaration order. */
  function Ordinal(s: Status): (i: nat)
    ensures i < |Values| && Values[i] == s
  {
    match s
    case PENDING => 0
    case PROGRESS => 1
    case COMPLETED => 2
  }

  /** name() / toString(): the constant's identifier. */
  function Name(s: Status): string {
    match s
    case PENDING => "PENDING"
    case PROGRESS => "PROGRESS"
    case COMPLETED => "COMPLETED"
  }

  /**
   * getStatus(index): the constant at that index of values(); an index
   * outside the array is reported as an invalid item status.
   */
  function GetStatus(index: int): (r: Result<Status>)
    ensures r.Ok? <==> 0 <= index <= 2
    ensures r.Ok? ==> Ordinal(r.value) == index
    ensures r.Err? ==> r.error == InvalidItemStatus(INVALID_STATUS)
  {
    if 0 <= index < |Values| then Ok(Values[index]) else Err(InvalidItemStatus(INVALID_STATUS))
  }

  /** valueOf(name): the constant with that identifier, or failure. */
  function ValueOf(name: string): (r: Result<Status>)
    ensures r.Ok? ==> Name(r.value) == name
    ensures r.Err? ==> r.error == UnknownStatusName(name)
  {
    if name == "PENDING" then Ok(PENDING)
    else if name == "PROGRESS" then Ok(PROGRESS)
    else if name == "COMPLETED" then Ok(COMPLETED)
    else Err(UnknownStatusName(name))
  }

  lemma GetStatusConstants()
    ensures GetStatus(0) == Ok(PENDING)
    ensures GetStatus(1) == Ok(PROGRESS)
    ensures GetStatus(2) == Ok(COMPLETED)
  {
  }

  /** Looking a status up by its own ordinal gives it back. */
  lemma GetStatusOrdinal(s: Status)
    ensures GetStatus(Ordinal(s)) == Ok(s)
  {
  }

  /** Every status is one of the three constants, and no two coincide. */
  lemma StatusClosed(s: Status)
    ensures s in Values
    ensures |Values| == 3 && Values[0] != Values[1] && Values[1] != Values[2] && Values[0] != Values[2]
  {
  }

  /** Names are distinct, so a status is stored and read back by name. */
  lemma ValueOfName(s: Status)
    ensures ValueOf(Name(s)) == Ok(s)
  {
  }
}
