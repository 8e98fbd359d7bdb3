/**
 * The console as the application sees it: the lines the user will type,
 * read one at a time.
 */
module Input {
  import opened Errors

  /** What a read produced, and the input left after it. */
  datatype Read<+T> = Read(result: Result<T>, rest: seq<string>)

  /** rest is what is left of lines after some of its first lines were read. */
  predicate Suffix(rest: seq<string>, lines: seq<string>) {
    |rest| <= |lines| && rest == lines[|lines| - |rest|..]
  }

  lemma SuffixTransitive(a: seq<string>, b: seq<string>, c: seq<string>)
    requires Suffix(a, b) && Suffix(b, c)
    ensures Suffix(a, c)
  {
    assert c[|c| - |b|..][|b| - |a|..] == c[|c| - |a|..];
  }

  /**
   * nextLine on the remaining input: the first line, or failure when the
   * input is exhausted (nothing is consumed then).
   */
  function NextLine(lines: seq<string>): (r: Read<string>)
    ensures r.result.Ok? <==> |lines| > 0
    ensures r.result.Ok? ==> lines == [r.result.value] + r.rest
    ensures r.result.Err? ==> r.result.error == EndOfInput && r.rest == lines
    ensures Suffix(r.rest, lines)
  {
    if |lines| == 0 then Read(Err(EndOfInput), lines)
    else
      assert lines == [lines[0]] + lines[1..];
      Read(Ok(lines[0]), lines[1..])
  }

  class InputReader {
    /** The lines not read yet. */
    var lines: seq<string>

    constructor (lines: seq<string>)
      ensures this.lines == lines
    {
      this.lines := lines;
    }

    /** getNextText: show the prompt and read the next line. */
    method GetNextText(message: string) returns (r: Result<string>)
      modifies this
      ensures Read(r, lines) == NextLine(old(lines))
    {
      if |lines| == 0 {
        return Err(EndOfInput);
      }
      r := Ok(lines[0]);
      lines := lines[1..];
    }
  }
}
