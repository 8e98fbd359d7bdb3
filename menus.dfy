/**
 * MenuController: the fixed menu texts and the reading of a menu option,
 * an int32 between 1 and 6 typed on one line.
 */
module Menus {
  import opened Errors
  import opened Decimal
  import opened Input

  /** The welcome banner printed once when the application starts. */
  const TITLE: string := "\nWelcome to the TO-DO List application\nTo get started, enter one of the following options\n\n"

  const MAIN_MENU: string :=
    "\n1. View your to-do list\n2. Add to your to-do list\n3. Remove from your to-do list\n4. Clear to-do list\n5. Update to-do list"

  const ITEM_EDITOR_MENU: string :=
    "\n1. Edit title\n2. Edit description\n3. Edit due date\n4. Edit status\n5. Return to main menu"

  const STATUS_EDITOR_MENU: string :=
    "\n1. PENDING\n2. PROGRESS\n3. COMPLETE\n4. Return to item editor"

  const INVALID_OPTION: string := "Invalid option."
  const NOT_A_NUMBER: string := "Option must be a number."

  const INT_MIN: int := -0x8000_0000
  const INT_MAX: int := 0x7fff_ffff

  predicate IsSign(c: char) { c == '-' || c == '+' }

  function InRange(n: int): (r: Option<int>)
    ensures r.Some? <==> INT_MIN <= n <= INT_MAX
    ensures r.Some? ==> r.value == n
  {
    if INT_MIN <= n <= INT_MAX then Some(n) else None
  }

  /**
   * Integer.parseInt in base 10: an optional sign, at least one digit, and
   * a value that fits in 32 bits; anything else is a NumberFormatException.
   */
  function ParseInt(s: string): (r: Option<int>)
    ensures r.Some? ==> INT_MIN <= r.value <= INT_MAX
    ensures |s| > 0 && AllDigits(s) ==> r == (if Value(s) <= INT_MAX then Some(Value(s)) else None)
    ensures |s| > 1 && s[0] == '-' && AllDigits(s[1..]) ==>
              r == (if Value(s[1..]) <= -INT_MIN then Some(-(Value(s[1..]) as int)) else None)
  {
    if |s| == 0 then None
    else if IsSign(s[0]) then
      var digits := s[1..];
      if |digits| == 0 || !AllDigits(digits) then None
      else
        var magnitude: int := Value(digits);
        InRange(if s[0] == '-' then -magnitude else magnitude)
    else if AllDigits(s) then InRange(Value(s))
    else None
  }

  /** Integer.toString: the shortest decimal form, with a minus sign when negative. */
  function IntText(n: int): (s: string)
    ensures |s| > 0
  {
    if n < 0 then "-" + Numeral(-n) else Numeral(n)
  }

  /** Every int32 is read back from its printed form. */
  lemma ParseIntText(n: int)
    requires INT_MIN <= n <= INT_MAX
    ensures ParseInt(IntText(n)) == Some(n)
  {
    if n < 0 {
      ValueNumeral(-n);
      assert IntText(n)[1..] == Numeral(-n);
    } else {
      ValueNumeral(n);
    }
  }

  /**
   * A character that is not a digit, and not a sign in front, makes the
   * text a non-number.
   */
  lemma ParseIntRejects(s: string, i: int)
    requires 0 <= i < |s| && !IsDigit(s[i]) && !(i == 0 && IsSign(s[0]))
    ensures ParseInt(s) == None
  {
    if IsSign(s[0]) {
      assert s[1..][i - 1] == s[i];
    }
  }

  /** Leading zeros and a plus sign do not change the number read. */
  lemma ParseIntPadded(n: nat, width: nat)
    requires n <= INT_MAX && n < Pow10(width) && width > 0
    ensures ParseInt(Padded(n, width)) == Some(n)
    ensures ParseInt("+" + Padded(n, width)) == Some(n)
    ensures ParseInt("-" + Padded(n, width)) == Some(-(n as int))
  {
    ValuePadded(n, width);
    assert ("+" + Padded(n, width))[1..] == Padded(n, width);
    assert ("-" + Padded(n, width))[1..] == Padded(n, width);
  }

  /**
   * A number too large for an int is a NumberFormatException, so as an
   * option it is "Option must be a number.", not "Invalid option.".
   */
  lemma OverflowIsNotANumber(n: nat)
    requires n > INT_MAX
    ensures ParseInt(Numeral(n)) == None
    ensures OptionOf(Numeral(n)) == Err(InvalidOption(NOT_A_NUMBER))
  {
    ValueNumeral(n);
  }

  /**
   * The option typed on one line: a number in 1..6, "Invalid option." for
   * any other number and "Option must be a number." for a non-number.
   */
  function OptionOf(line: string): (r: Result<int>)
    ensures r.Ok? <==> ParseInt(line).Some? && 1 <= ParseInt(line).value <= 6
    ensures r.Ok? ==> r.value == ParseInt(line).value
    ensures ParseInt(line).None? ==> r == Err(InvalidOption(NOT_A_NUMBER))
    ensures ParseInt(line).Some? && r.Err? ==> r == Err(InvalidOption(INVALID_OPTION))
  {
    match ParseInt(line)
    case None => Err(InvalidOption(NOT_A_NUMBER))
    case Some(option) =>
      if option <= 0 || option >= 7 then Err(InvalidOption(INVALID_OPTION)) else Ok(option)
  }

  /** The options are read back from their printed form. */
  lemma OptionOfText(n: int)
    requires 1 <= n <= 6
    ensures OptionOf(IntText(n)) == Ok(n)
  {
    ParseIntText(n);
  }

  /** The options typed as single digits. */
  lemma OptionDigits()
    ensures OptionOf("1") == Ok(1) && OptionOf("2") == Ok(2) && OptionOf("3") == Ok(3)
    ensures OptionOf("4") == Ok(4) && OptionOf("5") == Ok(5) && OptionOf("6") == Ok(6)
  {
    assert "1"[..0] == "" && "2"[..0] == "" && "3"[..0] == "";
    assert "4"[..0] == "" && "5"[..0] == "" && "6"[..0] == "";
  }

  /** requestUserOption on the remaining input. */
  function ReadOption(lines: seq<string>): (r: Read<int>)
    ensures |lines| == 0 ==> r == Read(Err(EndOfInput), lines)
    ensures |lines| > 0 ==> r == Read(OptionOf(lines[0]), lines[1..])
  {
    var next := NextLine(lines);
    match next.result
    case Err(e) => Read(Err(e), next.rest)
    case Ok(line) => Read(OptionOf(line), next.rest)
  }

  /**
   * requestUserOption: show the menu, read a line and return the option.
   * The menu shown has no bearing on the options accepted.
   */
  method RequestUserOption(menu: string, reader: InputReader) returns (r: Result<int>)
    modifies reader
    ensures Read(r, reader.lines) == ReadOption(old(reader.lines))
  {
    var line := reader.GetNextText("\nEnter an option:");
    if line.Err? {
      return Err(line.error);
    }
    r := OptionOf(line.value);
  }
}
