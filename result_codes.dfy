/** The result codes and the reporter that prints them (`response()`). */
module ResultCodes {

  const OK := 0
  const CONNECT := 1
  const NO_CARRIER := 3
  const ERROR := 4
  const NO_DIALTONE := 6
  const BUSY := 7

  datatype Option<T> = None | Some(value: T)

  /** The word table; entries 2 and 5 are reserved and empty. */
  const Words: seq<string> :=
    ["OK", "CONNECT", "", "NO CARRIER", "ERROR", "", "NO DIALTONE", "BUSY"]

  /** The code actually reported for `r`: codes outside 0..7 are reported as ERROR. */
  function Reported(r: int): (c: int)
    ensures 0 <= c <= 7
    ensures 0 <= r <= 7 ==> c == r
    ensures !(0 <= r <= 7) ==> c == ERROR
  {
    if 0 <= r <= 7 then r else ERROR
  }

  /** What `response(r)` prints for the given `quiet` and `verbose` flags.
      Note the sense of `verbose`: zero selects the word, anything else the number. */
  function Response(r: int, quiet: int, verbose: int): (out: string)
    ensures quiet > 0 <==> out == ""
    ensures quiet <= 0 ==> |out| >= 2 && out[|out| - 2..] == "\r\n"
    decreases if 0 <= r <= 7 then 0 else 1
  {
    if quiet > 0 then ""
    else if r < 0 || r > 7 then Response(ERROR, quiet, verbose)
    else if verbose == 0 then Words[r] + "\r\n"
    else [('0' as int + r) as char] + "\r\n"
  }

  /** Reads a reported word back as its code. */
  function WordCode(w: string): Option<int> {
    if w == "OK" then Some(OK)
    else if w == "CONNECT" then Some(CONNECT)
    else if w == "NO CARRIER" then Some(NO_CARRIER)
    else if w == "ERROR" then Some(ERROR)
    else if w == "NO DIALTONE" then Some(NO_DIALTONE)
    else if w == "BUSY" then Some(BUSY)
    else None
  }

  /** What a terminal reading the reporter's output understands: a word or a
      single decimal digit, terminated by CR LF. */
  function ParseResponse(text: string, verbose: int): Option<int> {
    if |text| < 2 || text[|text| - 2..] != "\r\n" then None
    else
      var body := text[..|text| - 2];
      if verbose != 0 then
        if |body| == 1 && '0' <= body[0] <= '9' then Some(body[0] as int - '0' as int) else None
      else WordCode(body)
  }

  /** Every code the reporter prints can be read back, except the two reserved
      codes in word mode, whose word is empty. */
  lemma ResponseRoundTrip(r: int, quiet: int, verbose: int)
    requires quiet <= 0
    requires verbose != 0 || (Reported(r) != 2 && Reported(r) != 5)
    ensures ParseResponse(Response(r, quiet, verbose), verbose) == Some(Reported(r))
  {
    var c := Reported(r);
    var out := Response(r, quiet, verbose);
    assert out == Response(c, quiet, verbose);
    if verbose == 0 {
      assert out == Words[c] + "\r\n";
      assert out[..|out| - 2] == Words[c];
    } else {
      assert out == [('0' as int + c) as char] + "\r\n";
    }
  }

  /** In word mode the reserved codes 2 and 5 print the same empty line. */
  lemma ReservedCodesPrintEmptyLine(quiet: int)
    requires quiet <= 0
    ensures Response(2, quiet, 0) == Response(5, quiet, 0) == "\r\n"
  {
  }

  /** A code outside 0..7 prints exactly what ERROR prints. */
  lemma OutOfRangeIsError(r: int, quiet: int, verbose: int)
    requires r < 0 || r > 7
    ensures Response(r, quiet, verbose) == Response(ERROR, quiet, verbose)
  {
  }

  /** In numeric mode every report is one digit followed by CR LF. */
  lemma NumericReportIsOneDigit(r: int, quiet: int, verbose: int)
    requires quiet <= 0 && verbose != 0
    ensures |Response(r, quiet, verbose)| == 3
    ensures '0' <= Response(r, quiet, verbose)[0] <= '7'
  {
    var c := Reported(r);
    assert Response(r, quiet, verbose) == Response(c, quiet, verbose);
    assert Response(c, quiet, verbose) == [('0' as int + c) as char] + "\r\n";
  }
}
