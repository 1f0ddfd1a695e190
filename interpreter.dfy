/** The AT command-line interpreter of `command()`: reading a raw line,
    checking the `AT` prefix, and the one-character-at-a-time scan of the
    commands that follow it. */
module Interpreter {
  import opened Bytes
  import ResultCodes

  /** The three modem registers, plain integers as in the source. */
  datatype Flags = Flags(echo: int, verbose: int, quiet: int)

  /** Which register the digits of the line accumulate into (`reg`). */
  datatype Register = None | Echo | Verbose | Quiet

  /** How the scan of a line ends. */
  datatype Action =
    | Exit                  // X: hang up and leave the command loop
    | Dial(arg: seq<Byte>)  // D: dial the rest of the line
    | Hangup                // H: hang up
    | Online                // O: go back to the relay
    | NextLine(result: int) // end of the line or an unknown character: report `result`

  /** The scan in progress: the selected register, the registers, and how
      many times the help text was printed. */
  datatype Scan = Scan(reg: Register, flags: Flags, helps: nat)

  /** What executing one line leaves behind. */
  datatype LineResult = LineResult(flags: Flags, helps: nat, action: Action)

  function Get(f: Flags, reg: Register): int
    requires reg != None
  {
    match reg
    case Echo => f.echo
    case Verbose => f.verbose
    case Quiet => f.quiet
  }

  /** The registers with the selected one replaced by `v`. */
  function Set(f: Flags, reg: Register, v: int): (g: Flags)
    requires reg != None
    ensures Get(g, reg) == v
    ensures forall other: Register | other != None && other != reg :: Get(g, other) == Get(f, other)
  {
    match reg
    case Echo => f.(echo := v)
    case Verbose => f.(verbose := v)
    case Quiet => f.(quiet := v)
  }

  /** The register a selector letter names: E, V or Q in either case. */
  function Selects(c: Byte): Register {
    if Upper(c) == 'E' then Echo
    else if Upper(c) == 'V' then Verbose
    else if Upper(c) == 'Q' then Quiet
    else None
  }

  /** The characters after which the scan goes on: digits, selectors, `?`
      and a space. Every other character, NUL included, ends the scan. */
  predicate Continues(c: Byte) {
    IsDigit(c) || Selects(c) != None || c == '?' || c == ' '
  }

  predicate AllContinue(s: seq<Byte>) {
    forall i | 0 <= i < |s| :: Continues(s[i])
  }

  /** The effect of one character that lets the scan go on. */
  function Effect(s: Scan, c: Byte): Scan {
    if IsDigit(c) then
      if s.reg == None then s
      else s.(flags := Set(s.flags, s.reg, Get(s.flags, s.reg) * 10 + DigitValue(c)))
    else if Selects(c) != None then
      Scan(Selects(c), Set(s.flags, Selects(c), 0), s.helps)
    else if c == '?' then
      s.(helps := s.helps + 1)
    else
      s
  }

  /** The effect of a run of characters, left to right. */
  function Fold(s: Scan, cs: seq<Byte>): Scan
    decreases |cs|
  {
    if cs == [] then s else Effect(Fold(s, cs[..|cs| - 1]), cs[|cs| - 1])
  }

  lemma FoldOneMore(s: Scan, cs: seq<Byte>, c: Byte)
    ensures Fold(s, cs + [c]) == Effect(Fold(s, cs), c)
  {
    assert (cs + [c])[..|cs|] == cs;
  }

  /** The index of the first character at or after `i` that is not white
      space; the terminating NUL is not white space. */
  function SkipSpace(line: seq<Byte>, i: nat): (k: nat)
    ensures i <= k && !IsSpace(At(line, k))
    ensures forall j | i <= j < k :: j < |line| && IsSpace(line[j])
    decreases |line| - i
  {
    if i < |line| && IsSpace(line[i]) then SkipSpace(line, i + 1) else i
  }

  /** `SkipSpace` stops at the first character that is not white space. */
  lemma {:induction false} SkipSpaceStopsAt(line: seq<Byte>, i: nat, n: nat)
    requires i <= n <= |line| && !IsSpace(At(line, n))
    requires forall j | i <= j < n :: IsSpace(line[j])
    ensures SkipSpace(line, i) == n
    decreases n - i
  {
    if i < n {
      SkipSpaceStopsAt(line, i + 1, n);
    }
  }

  /** The index of the first character at or after `i` that ends the scan. */
  function FirstStop(line: seq<Byte>, i: nat): (j: nat)
    ensures i <= j && !Continues(At(line, j))
    ensures forall m | i <= m < j :: m < |line| && Continues(line[m])
    ensures i <= |line| ==> j <= |line|
    decreases |line| - i
  {
    if Continues(At(line, i)) then FirstStop(line, i + 1) else i
  }

  /** `FirstStop` stops at the first character that ends the scan. */
  lemma {:induction false} FirstStopAt(line: seq<Byte>, i: nat, n: nat)
    requires i <= n && !Continues(At(line, n))
    requires forall m | i <= m < n :: Continues(At(line, m))
    ensures FirstStop(line, i) == n
    decreases n - i
  {
    if i < n {
      FirstStopAt(line, i + 1, n);
    }
  }

  /** The scan ends at the first character that does not let it go on. */
  lemma CommandsStopAt(body: seq<Byte>, f: Flags, m: nat)
    requires m <= |body| && !Continues(At(body, m))
    requires forall q | 0 <= q < m :: Continues(At(body, q))
    ensures var sc := Fold(Scan(None, f, 0), body[..m]);
      Commands(body, f) == LineResult(sc.flags, sc.helps, StopAction(body, m))
  {
    FirstStopAt(body, 0, m);
  }

  /** The action of the character that ends the scan. */
  function StopAction(line: seq<Byte>, j: nat): Action {
    var c := At(line, j);
    if Upper(c) == 'X' then Exit
    else if Upper(c) == 'D' then Dial(CStr(line[j + 1..]))
    else if Upper(c) == 'H' then Hangup
    else if Upper(c) == 'O' then Online
    else if c == NUL then NextLine(ResultCodes.OK)
    else NextLine(ResultCodes.ERROR)
  }

  /** The action of a stop does not depend on where the buffer is cut. */
  lemma StopActionShift(line: seq<Byte>, k: nat, m: nat)
    requires k <= |line|
    ensures StopAction(line, k + m) == StopAction(line[k..], m)
  {
    assert At(line, k + m) == At(line[k..], m);
    if k + m < |line| {
      assert line[k + m + 1..] == line[k..][m + 1..];
    }
  }

  /** Executes the commands that follow `AT`, starting with no register
      selected and result OK. */
  function Commands(body: seq<Byte>, f: Flags): LineResult {
    var j := FirstStop(body, 0);
    var sc := Fold(Scan(None, f, 0), body[..j]);
    LineResult(sc.flags, sc.helps, StopAction(body, j))
  }

  /** Executes one command line. */
  function Interpret(line: seq<Byte>, f: Flags): LineResult {
    var k := SkipSpace(line, 0);
    if Upper(At(line, k)) == 'A' && Upper(At(line, k + 1)) == 'T' then
      Commands(line[k + 2..], f)
    else
      LineResult(f, 0, NextLine(ResultCodes.ERROR))
  }

  predicate AllSpace(s: seq<Byte>) {
    forall i | 0 <= i < |s| :: IsSpace(s[i])
  }

  /** The line starts, after white space, with A then T in either case. */
  ghost predicate HasAtPrefix(line: seq<Byte>) {
    exists n: nat :: n + 1 < |line| && AllSpace(line[..n]) && Upper(line[n]) == 'A' && Upper(line[n + 1]) == 'T'
  }

  predicate AllDigits(ds: seq<Byte>) {
    forall i | 0 <= i < |ds| :: IsDigit(ds[i])
  }

  /** The decimal value of a run of digits. */
  function Decimal(ds: seq<Byte>): nat
    requires AllDigits(ds)
    decreases |ds|
  {
    if ds == [] then 0 else Decimal(ds[..|ds| - 1]) * 10 + DigitValue(ds[|ds| - 1])
  }

  // ---------------------------------------------------------------------
  // The AT prefix

  lemma AtPrefixFound(line: seq<Byte>)
    ensures var k := SkipSpace(line, 0);
      Upper(At(line, k)) == 'A' && Upper(At(line, k + 1)) == 'T' ==> HasAtPrefix(line)
  {
    var k := SkipSpace(line, 0);
    if Upper(At(line, k)) == 'A' && Upper(At(line, k + 1)) == 'T' {
      assert AllSpace(line[..k]);
      assert k + 1 < |line| && Upper(line[k]) == 'A' && Upper(line[k + 1]) == 'T';
    }
  }

  /** A line that does not start, after white space, with A then T is an
      error and changes no register. */
  lemma NoAtPrefixIsError(line: seq<Byte>, f: Flags)
    requires !HasAtPrefix(line)
    ensures Interpret(line, f) == LineResult(f, 0, NextLine(ResultCodes.ERROR))
  {
    AtPrefixFound(line);
  }

  /** A line that does start with white space then A, T executes exactly
      the characters after the T. */
  lemma AtPrefixRunsCommands(ws: seq<Byte>, a: Byte, t: Byte, body: seq<Byte>, f: Flags)
    requires AllSpace(ws) && Upper(a) == 'A' && Upper(t) == 'T'
    ensures Interpret(ws + [a, t] + body, f) == Commands(body, f)
  {
    var line := ws + [a, t] + body;
    assert forall j | 0 <= j < |ws| :: line[j] == ws[j];
    assert At(line, |ws|) == a;
    SkipSpaceStopsAt(line, 0, |ws|);
    assert At(line, |ws| + 1) == t;
    assert line[|ws| + 2..] == body;
  }

  // ---------------------------------------------------------------------
  // Registers

  lemma {:induction false} FoldAppend(s: Scan, a: seq<Byte>, b: seq<Byte>)
    ensures Fold(s, a + b) == Fold(Fold(s, a), b)
    decreases |b|
  {
    if b == [] {
      assert a + b == a;
    } else {
      assert (a + b)[..|a + b| - 1] == a + b[..|b| - 1];
      FoldAppend(s, a, b[..|b| - 1]);
    }
  }

  /** A selector zeroes its register, and the digits after it make the
      register their decimal value: `E12` leaves echo at 12, `E` at 0. */
  lemma {:induction false} SelectorThenDigits(s: Scan, sel: Byte, ds: seq<Byte>)
    requires Selects(sel) != None && AllDigits(ds)
    ensures Fold(s, [sel] + ds) == Scan(Selects(sel), Set(s.flags, Selects(sel), Decimal(ds)), s.helps)
    decreases |ds|
  {
    if ds == [] {
      assert [sel] + ds == [sel];
      assert [sel][..0] == [];
    } else {
      var init := ds[..|ds| - 1];
      assert ([sel] + ds)[..|ds|] == [sel] + init;
      SelectorThenDigits(s, sel, init);
    }
  }

  /** Digits with no register selected change nothing. */
  lemma {:induction false} DigitsWithoutRegister(s: Scan, ds: seq<Byte>)
    requires s.reg == None && AllDigits(ds)
    ensures Fold(s, ds) == s
    decreases |ds|
  {
    if ds != [] {
      DigitsWithoutRegister(s, ds[..|ds| - 1]);
    }
  }

  /** Digits never stop the scan. */
  lemma FirstStopAfterDigits(ds: seq<Byte>, rest: seq<Byte>)
    requires AllDigits(ds)
    ensures FirstStop(ds + rest, 0) == |ds| + FirstStop(rest, 0)
  {
    var line := ds + rest;
    var j := FirstStop(rest, 0);
    forall q | 0 <= q < |ds| + j
      ensures Continues(At(line, q))
    {
      if q < |ds| {
        assert At(line, q) == ds[q];
      } else {
        assert At(line, q) == At(rest, q - |ds|);
      }
    }
    assert At(line, |ds| + j) == At(rest, j);
    FirstStopAt(line, 0, |ds| + j);
  }

  /** The register is cleared at the start of every line, so digits before
      the first selector are ignored. */
  lemma LeadingDigitsIgnored(ds: seq<Byte>, rest: seq<Byte>, f: Flags)
    requires AllDigits(ds)
    ensures Commands(ds + rest, f) == Commands(rest, f)
  {
    var line := ds + rest;
    var j := FirstStop(rest, 0);
    FirstStopAfterDigits(ds, rest);
    assert line[..|ds| + j] == ds + rest[..j];
    FoldAppend(Scan(None, f, 0), ds, rest[..j]);
    DigitsWithoutRegister(Scan(None, f, 0), ds);
    StopActionShift(line, |ds|, j);
    assert line[|ds|..] == rest;
  }

  // ---------------------------------------------------------------------
  // Where the scan stops

  lemma StopsAfter(pre: seq<Byte>, c: Byte, rest: seq<Byte>)
    requires AllContinue(pre) && !Continues(c)
    ensures FirstStop(pre + [c] + rest, 0) == |pre|
    ensures (pre + [c] + rest)[..|pre|] == pre
  {
    var line := pre + [c] + rest;
    assert forall m | 0 <= m < |pre| :: At(line, m) == pre[m];
    assert At(line, |pre|) == c;
    FirstStopAt(line, 0, |pre|);
  }

  /** An unrecognised character makes the line an ERROR: what came before it
      stays applied, nothing after it is looked at. */
  lemma UnrecognisedCharacterIsError(pre: seq<Byte>, c: Byte, rest: seq<Byte>, f: Flags)
    requires AllContinue(pre) && !Continues(c) && c != NUL
    requires Upper(c) != 'X' && Upper(c) != 'D' && Upper(c) != 'H' && Upper(c) != 'O'
    ensures var sc := Fold(Scan(None, f, 0), pre);
      Commands(pre + [c] + rest, f) == LineResult(sc.flags, sc.helps, NextLine(ResultCodes.ERROR))
  {
    StopsAfter(pre, c, rest);
  }

  /** X, H and O end the line; the characters after them are not scanned. */
  lemma EndingCommand(pre: seq<Byte>, c: Byte, rest: seq<Byte>, f: Flags)
    requires AllContinue(pre)
    requires Upper(c) == 'X' || Upper(c) == 'H' || Upper(c) == 'O'
    ensures var sc := Fold(Scan(None, f, 0), pre);
      Commands(pre + [c] + rest, f)
        == LineResult(sc.flags, sc.helps, if Upper(c) == 'X' then Exit else if Upper(c) == 'H' then Hangup else Online)
  {
    StopsAfter(pre, c, rest);
  }

  /** D ends the scan, and the rest of the line is the dial argument. */
  lemma DialTakesRestOfLine(pre: seq<Byte>, d: Byte, arg: seq<Byte>, f: Flags)
    requires AllContinue(pre) && Upper(d) == 'D'
    ensures var sc := Fold(Scan(None, f, 0), pre);
      Commands(pre + [d] + arg, f) == LineResult(sc.flags, sc.helps, Dial(CStr(arg)))
  {
    StopsAfter(pre, d, arg);
    assert (pre + [d] + arg)[|pre| + 1..] == arg;
  }

  /** A line made only of characters that let the scan go on is OK. */
  lemma PlainLineIsOk(pre: seq<Byte>, f: Flags)
    requires AllContinue(pre)
    ensures var sc := Fold(Scan(None, f, 0), pre);
      Commands(pre, f) == LineResult(sc.flags, sc.helps, NextLine(ResultCodes.OK))
  {
    FirstStopAt(pre, 0, |pre|);
    assert pre[..|pre|] == pre;
  }

  // ---------------------------------------------------------------------
  // Examples

  /** `ATE12` sets echo to 12 and reports OK. */
  lemma EchoTwelve(f: Flags)
    ensures Interpret(['A', 'T', 'E', '1', '2'], f) == LineResult(f.(echo := 12), 0, NextLine(ResultCodes.OK))
  {
    var body: seq<Byte> := ['E', '1', '2'];
    AtPrefixRunsCommands([], 'A', 'T', body, f);
    assert [] + ['A', 'T'] + body == ['A', 'T', 'E', '1', '2'];
    PlainLineIsOk(body, f);
    var ds: seq<Byte> := ['1', '2'];
    assert body == ['E'] + ds;
    SelectorThenDigits(Scan(None, f, 0), 'E', ds);
    assert ds[..1] == ['1'];
    assert Decimal(ds) == 12;
  }

  /** `ATE` alone zeroes echo. */
  lemma EchoAloneIsZero(f: Flags)
    ensures Interpret(['a', 't', 'e'], f) == LineResult(f.(echo := 0), 0, NextLine(ResultCodes.OK))
  {
    var body: seq<Byte> := ['e'];
    AtPrefixRunsCommands([], 'a', 't', body, f);
    assert [] + ['a', 't'] + body == ['a', 't', 'e'];
    PlainLineIsOk(body, f);
    SelectorThenDigits(Scan(None, f, 0), 'e', []);
    assert body == ['e'] + [];
  }

  /** ` AT$`: ERROR, with the registers as they were. */
  lemma UnknownLetterExample(f: Flags)
    ensures Interpret([' ', 'A', 'T', '$'], f) == LineResult(f, 0, NextLine(ResultCodes.ERROR))
  {
    AtPrefixRunsCommands([' '], 'A', 'T', ['$'], f);
    assert [' '] + ['A', 'T'] + ['$'] == [' ', 'A', 'T', '$'];
    UnrecognisedCharacterIsError([], '$', [], f);
    assert [] + ['$'] + [] == ['$'];
  }

  // ---------------------------------------------------------------------
  // The dial argument

  /** `dial()` drops one leading tone or pulse selector, T or P in either case. */
  function StripDialPrefix(s: seq<Byte>): (r: seq<Byte>)
    ensures |s| - 1 <= |r| <= |s| && r == s[|s| - |r|..]
    ensures |r| < |s| <==> (|s| > 0 && (Upper(s[0]) == 'T' || Upper(s[0]) == 'P'))
  {
    if |s| > 0 && Upper(s[0]) == 'T' then s[1..]
    else if |s| > 0 && Upper(s[0]) == 'P' then s[1..]
    else s
  }

  /** `ATDT555` dials `T555`, from which `dial()` runs `555`. */
  lemma ToneDialExample(f: Flags)
    ensures Interpret(['A', 'T', 'D', 'T', '5', '5', '5'], f).action == Dial(['T', '5', '5', '5'])
  {
    var arg: seq<Byte> := ['T', '5', '5', '5'];
    var line: seq<Byte> := ['A', 'T', 'D', 'T', '5', '5', '5'];
    AtPrefixRunsCommands([], 'A', 'T', ['D'] + arg, f);
    assert [] + ['A', 'T'] + (['D'] + arg) == line;
    DialTakesRestOfLine([], 'D', arg, f);
    assert [] + ['D'] + arg == ['D'] + arg;
    CStrWhole(arg);
  }

  lemma ToneSelectorStripped()
    ensures StripDialPrefix(['t', '5', '5', '5']) == ['5', '5', '5']
    ensures StripDialPrefix(['5', '5', '5']) == ['5', '5', '5']
  {
  }

  // ---------------------------------------------------------------------
  // Reading a raw line

  /** The buffer holds 256 characters, so a line has at most 255. */
  const LineMax := 255

  datatype RawResult = RawResult(line: seq<Byte>, rest: seq<Byte>, complete: bool)

  function ReadBound(input: seq<Byte>): nat {
    if |input| < LineMax then |input| else LineMax
  }

  /** The length of the line at the front of `input`: up to the first CR,
      at most 255 characters, at most what is available. */
  function LineLength(input: seq<Byte>, i: nat): (n: nat)
    requires i <= ReadBound(input)
    ensures i <= n <= ReadBound(input)
    ensures forall m | i <= m < n :: input[m] != CR
    ensures n < ReadBound(input) ==> input[n] == CR
    decreases ReadBound(input) - i
  {
    if i == ReadBound(input) || input[i] == CR then i else LineLength(input, i + 1)
  }

  /** `LineLength` stops at the first CR, or at the bound. */
  lemma {:induction false} LineLengthIs(input: seq<Byte>, i: nat, n: nat)
    requires i <= n <= ReadBound(input)
    requires forall m | i <= m < n :: input[m] != CR
    requires n < ReadBound(input) ==> input[n] == CR
    ensures LineLength(input, i) == n
    decreases n - i
  {
    if i < n {
      LineLengthIs(input, i + 1, n);
    }
  }

  /** What the raw line reader (used when echo is non-zero) takes from the
      terminal: the characters before the first CR, which is consumed, or
      the first 255 characters when no CR comes sooner. When the input runs
      out first, the read is incomplete. The source does not stop there: it
      ignores what `read` returns, so at end of input its loop stores the
      previous character again, or ends the line if that was a CR. */
  function RawLine(input: seq<Byte>): (r: RawResult)
    ensures |r.line| <= LineMax && |r.line| <= |input| && CR !in r.line && r.line == input[..|r.line|]
    ensures r.complete ==>
      (|r.line| < |input| && input[|r.line|] == CR && r.rest == input[|r.line| + 1..])
      || (|r.line| == LineMax && r.rest == input[LineMax..])
    ensures !r.complete ==> r.line == input && |input| < LineMax && r.rest == []
  {
    var n := LineLength(input, 0);
    if n < ReadBound(input) then RawResult(input[..n], input[n + 1..], true)
    else if n == LineMax then RawResult(input[..n], input[n..], true)
    else RawResult(input, [], false)
  }

  /** The reader's counted loop. */
  method ReadRawLine(input: seq<Byte>) returns (line: seq<Byte>, rest: seq<Byte>, complete: bool)
    ensures RawResult(line, rest, complete) == RawLine(input)
  {
    line := [];
    var i := 0;
    var n := 0;
    while n < LineMax
      invariant n == i == |line| <= LineMax && i <= |input|
      invariant line == input[..i] && LineLength(input, 0) == LineLength(input, i)
    {
      if i == |input| {
        return line, [], false;
      }
      var c := input[i];
      i := i + 1;
      if c == CR {
        return line, input[i..], true;
      }
      line := line + [c];
      n := n + 1;
    }
    rest := input[i..];
    complete := true;
  }

  /** A line shorter than the buffer and ended by CR reads back whole, with
      the CR consumed. */
  lemma RawLineRoundTrip(l: seq<Byte>, more: seq<Byte>)
    requires |l| < LineMax && CR !in l
    ensures RawLine(l + [CR] + more) == RawResult(l, more, true)
  {
    var input := l + [CR] + more;
    assert forall m | 0 <= m < |l| :: input[m] == l[m] && l[m] != CR;
    LineLengthIs(input, 0, |l|);
    assert input[..|l|] == l;
    assert input[|l| + 1..] == more;
  }

  /** A line of 255 characters fills the buffer: the read stops there, and
      a CR that follows is left for the next read, which gives an empty line. */
  lemma FullLineLeavesCr(l: seq<Byte>, more: seq<Byte>)
    requires |l| == LineMax && CR !in l
    ensures RawLine(l + [CR] + more) == RawResult(l, [CR] + more, true)
    ensures RawLine([CR] + more) == RawResult([], more, true)
  {
    var input := l + [CR] + more;
    assert forall m | 0 <= m < |l| :: input[m] == l[m] && l[m] != CR;
    LineLengthIs(input, 0, LineMax);
    LineLengthIs([CR] + more, 0, 0);
    assert input[..LineMax] == l;
    assert input[LineMax..] == [CR] + more;
    assert ([CR] + more)[1..] == more;
  }
}
