/** The modem's process-wide state and the operations that change it:
    `hangup()`, `dial()`, `copy()` and the execution of one command line
    by `command()`. Each method of the `Modem` class is proved equal to a
    function on `Machine`, a value holding the same state; the properties
    are proved about those functions. */
module Modem {
  import opened Bytes
  import ResultCodes
  import Relay
  import Interpreter

  /** The operating-system calls whose order matters, kept as a log. */
  datatype OsCall =
    | Close(fd: int)              // close(dev)
    | Kill(pid: int, signal: int) // kill(pid, 9)
    | System(command: seq<Byte>)  // system(s), run in the child of forkpty

  const KILL := 9

  /** What forkpty leaves in this process: the pid it returns (negative on
      failure, zero in the child, the child's pid in the parent) and the
      value it leaves in `dev` (the pseudo-terminal in the parent). */
  datatype Fork = Fork(pid: int, dev: int)

  /** The state `command()` and its callees read and write: the registers,
      the line descriptor, the child's pid, what was printed on the
      terminal, what was written to the line, the calls made, and the page
      `help()` prints. The page is part of the state, rather than the
      constant `HelpText` named wherever it is printed, so that the long text
      literal stays out of the proofs of the methods that print it. */
  datatype Machine = Machine(
    flags: Interpreter.Flags, dev: int, pid: int,
    screen: string, sent: seq<Byte>, calls: seq<OsCall>, help: string)

  /** The globals as the program starts: all registers zero, no line, no child. */
  function Initial(): Machine {
    Machine(Interpreter.Flags(0, 0, 0), -1, -1, [], [], [], HelpText)
  }

  /** The text `help()` prints. */
  const HelpText: string :=
    "AT\r\n" + "\r\n" + "  ? help\r\n" + "  X exit\r\n" + "\r\n" + "  O to call\r\n"
    + "  H hook\r\n" + "  D dial\r\n" + "\r\n" + "  E echo\r\n" + "  V verbose\r\n" + "  Q quiet\r\n"

  /** The help page printed `n` times. */
  function Helps(page: string, n: nat): string {
    if n == 0 then "" else Helps(page, n - 1) + page
  }

  // ---------------------------------------------------------------------
  // The operations, on values

  function HangupCalls(dev: int, pid: int): seq<OsCall> {
    (if dev >= 0 then [Close(dev)] else []) + (if pid >= 0 then [Kill(pid, KILL)] else [])
  }

  /** `hangup()`. */
  function HungUp(m: Machine): Machine {
    m.(dev := -1, pid := if m.pid >= 0 then -1 else m.pid, calls := m.calls + HangupCalls(m.dev, m.pid))
  }

  /** `response(r)`, printing on the terminal. */
  function Reported(m: Machine, r: int): Machine {
    m.(screen := m.screen + ResultCodes.Response(r, m.flags.quiet, m.flags.verbose))
  }

  /** How `copy()` ends: at once for want of a line, or with a session. */
  datatype CopyEnd = NoLine | Ended(session: Relay.Session)

  function CopyResult(m: Machine, start: int, es: seq<Relay.Event>): CopyEnd {
    if m.dev < 0 then NoLine else Ended(Relay.RepairedRun(Relay.Start(start), es))
  }

  /** `copy()`: the session's output goes to the terminal and the line, and
      a line that fails is closed. The session runs with the flush of a
      broken `+` run repaired (`Relay.RepairedStep`). */
  function Copied(m: Machine, start: int, es: seq<Relay.Event>): Machine {
    if m.dev < 0 then m
    else
      var s := Relay.RepairedRun(Relay.Start(start), es);
      var m1 := m.(screen := m.screen + s.toTerm, sent := m.sent + s.toLine);
      if s.status == Relay.LineClosed then m1.(dev := -1, calls := m1.calls + [Close(m.dev)]) else m1
  }

  /** How `dial()` ends in this process: the child runs the command and
      exits; the parent relays. */
  datatype DialEnd = ChildExited | ParentCopied(copy: CopyEnd)

  /** The state right after forkpty. */
  function Forked(m: Machine, fork: Fork): Machine {
    HungUp(m).(pid := fork.pid, dev := if fork.pid < 0 then -1 else fork.dev)
  }

  /** `dial(s)`. */
  function Dialled(m: Machine, s: seq<Byte>, fork: Fork, start: int, es: seq<Relay.Event>): Machine {
    var f := Forked(m, fork);
    if fork.pid == 0 then
      f.(pid := -1, calls := f.calls + [System(Interpreter.StripDialPrefix(s))])
    else
      var c := if f.dev >= 0 then Reported(f, ResultCodes.CONNECT) else f;
      Copied(c, start, es)
  }

  function DialResult(m: Machine, s: seq<Byte>, fork: Fork, start: int, es: seq<Relay.Event>): DialEnd {
    var f := Forked(m, fork);
    if fork.pid == 0 then ChildExited else ParentCopied(CopyResult(f, start, es))
  }

  /** What the command loop does after a line. */
  datatype Next =
    | Leave             // X: `command()` returns
    | Report(code: int) // the loop prints this result and reads the next line
    | ChildGone         // this process was the child of a dial and has exited
    | StillRelaying     // the relay session was still running when the events ended

  /** After a relay session control comes back through `setjmp` with OK. */
  function AfterCopy(e: CopyEnd): Next {
    match e
    case NoLine => Report(ResultCodes.OK)
    case Ended(s) =>
      if s.status == Relay.Running then StillRelaying else Report(ResultCodes.OK)
  }

  /** The state after executing one command line. The help texts of the
      line's `?` are printed before its ending command runs. */
  function AfterLine(m: Machine, line: seq<Byte>, fork: Fork, start: int, es: seq<Relay.Event>): Machine {
    var res := Interpreter.Interpret(line, m.flags);
    var m1 := m.(flags := res.flags, screen := m.screen + Helps(m.help, res.helps));
    match res.action
    case Exit => HungUp(m1)
    case Dial(arg) => Dialled(m1, arg, fork, start, es)
    case Hangup => HungUp(m1)
    case Online => Copied(m1, start, es)
    case NextLine(_) => m1
  }

  function NextAfterLine(m: Machine, line: seq<Byte>, fork: Fork, start: int, es: seq<Relay.Event>): Next {
    var res := Interpreter.Interpret(line, m.flags);
    var m1 := m.(flags := res.flags, screen := m.screen + Helps(m.help, res.helps));
    match res.action
    case Exit => Leave
    case Dial(arg) =>
      if fork.pid == 0 then ChildGone else AfterCopy(CopyResult(Forked(m1, fork), start, es))
    case Hangup => Report(ResultCodes.OK)
    case Online => AfterCopy(CopyResult(m1, start, es))
    case NextLine(r) => Report(r)
  }

  // ---------------------------------------------------------------------
  // Properties

  /** Hanging up leaves no line and no child, and a second hang-up does
      nothing at all. */
  lemma HangupIdempotent(m: Machine)
    ensures HungUp(m).dev == -1 && HungUp(m).pid < 0
    ensures HungUp(HungUp(m)) == HungUp(m)
  {
    assert HungUp(m).calls + [] == HungUp(m).calls;
  }

  /** Hang-up closes the line exactly when one is open and kills the child
      exactly when one is tracked, closing before killing. */
  lemma HangupReleases(m: Machine)
    ensures var added := HungUp(m).calls[|m.calls|..];
      (Close(m.dev) in added <==> m.dev >= 0)
      && (Kill(m.pid, KILL) in added <==> m.pid >= 0)
      && (m.dev >= 0 && m.pid >= 0 ==> added == [Close(m.dev), Kill(m.pid, KILL)])
    ensures HungUp(m).flags == m.flags && HungUp(m).screen == m.screen && HungUp(m).sent == m.sent
  {
    assert HungUp(m).calls[|m.calls|..] == HangupCalls(m.dev, m.pid);
  }

  /** With no line, `copy()` returns at once and changes nothing. */
  lemma CopyWithoutLine(m: Machine, start: int, es: seq<Relay.Event>)
    requires m.dev < 0
    ensures Copied(m, start, es) == m && CopyResult(m, start, es) == NoLine
  {
  }

  /** A relay session forwards what it is given: the line receives what the
      terminal typed, short of a pending '+' run, and the terminal receives
      what the line sent; once the session stops nothing more is forwarded. */
  lemma CopyForwards(m: Machine, start: int, es: seq<Relay.Event>)
    requires m.dev >= 0
    ensures var n := Copied(m, start, es);
      |m.sent| <= |n.sent| && n.sent[..|m.sent|] == m.sent
      && |m.screen| <= |n.screen| && n.screen[..|m.screen|] == m.screen
      && Relay.IsPrefix(n.sent[|m.sent|..], Relay.TermInput(es))
      && n.screen[|m.screen|..] == Relay.RepairedRun(Relay.Start(start), es).toTerm
      && Relay.IsPrefix(Relay.RepairedRun(Relay.Start(start), es).toTerm, Relay.LineInput(es))
    ensures var s := Relay.RepairedRun(Relay.Start(start), es);
      s.status == Relay.Running ==>
        Copied(m, start, es).sent + Relay.Pluses(s.det.pcnt) == m.sent + Relay.TermInput(es)
        && Copied(m, start, es).screen == m.screen + Relay.LineInput(es)
  {
    var s := Relay.RepairedRun(Relay.Start(start), es);
    var n := Copied(m, start, es);
    Relay.RepairedRelayConserves(start, es);
    assert n.sent == m.sent + s.toLine && n.screen == m.screen + s.toTerm;
    assert n.sent[|m.sent|..] == s.toLine;
    assert n.screen[|m.screen|..] == s.toTerm;
    assert Relay.IsPrefix(s.toLine, Relay.TermInput(es)) by {
      assert (s.toLine + Relay.Pluses(s.det.pcnt))[..|s.toLine|] == s.toLine;
    }
    assert n.sent + Relay.Pluses(s.det.pcnt) == m.sent + (s.toLine + Relay.Pluses(s.det.pcnt));
  }

  /** A line that fails is closed, and the session is over; after an
      escape the line stays open, so `O` can resume it. */
  lemma CopyEndsWithLine(m: Machine, start: int, es: seq<Relay.Event>)
    requires m.dev >= 0
    ensures var s := Relay.RepairedRun(Relay.Start(start), es);
      s.status == Relay.LineClosed ==>
        Copied(m, start, es).dev == -1 && Copied(m, start, es).calls == m.calls + [Close(m.dev)]
    ensures var s := Relay.RepairedRun(Relay.Start(start), es);
      s.status != Relay.LineClosed ==>
        Copied(m, start, es).dev == m.dev && Copied(m, start, es).calls == m.calls
  {
  }

  /** Dialling hangs up the previous call first: its calls start with the
      old line's close and the old child's kill, and every later call
      concerns the new connection. */
  lemma DialHangsUpFirst(m: Machine, s: seq<Byte>, fork: Fork, start: int, es: seq<Relay.Event>)
    ensures var n := Dialled(m, s, fork, start, es);
      |m.calls + HangupCalls(m.dev, m.pid)| <= |n.calls|
      && n.calls[..|m.calls + HangupCalls(m.dev, m.pid)|] == m.calls + HangupCalls(m.dev, m.pid)
    ensures var n := Dialled(m, s, fork, start, es);
      forall i | |m.calls + HangupCalls(m.dev, m.pid)| <= i < |n.calls| ::
        n.calls[i] == Close(fork.dev) || n.calls[i] == System(Interpreter.StripDialPrefix(s))
  {
    var h := m.calls + HangupCalls(m.dev, m.pid);
    var n := Dialled(m, s, fork, start, es);
    assert Forked(m, fork).calls == h;
    assert n.calls == h || n.calls == h + [Close(fork.dev)] || n.calls == h + [System(Interpreter.StripDialPrefix(s))];
  }

  /** In the child of a dial, the stripped argument is run as a command and
      the process ends; nothing is printed. */
  lemma ChildRunsCommand(m: Machine, s: seq<Byte>, fork: Fork, start: int, es: seq<Relay.Event>)
    requires fork.pid == 0
    ensures DialResult(m, s, fork, start, es) == ChildExited
    ensures var n := Dialled(m, s, fork, start, es);
      n.calls[|n.calls| - 1] == System(Interpreter.StripDialPrefix(s)) && n.screen == m.screen
  {
  }

  /** A dial that connects prints CONNECT and then relays over the new line. */
  lemma DialConnects(m: Machine, s: seq<Byte>, fork: Fork, start: int, es: seq<Relay.Event>)
    requires fork.pid > 0 && fork.dev >= 0
    ensures var out := m.screen + ResultCodes.Response(ResultCodes.CONNECT, m.flags.quiet, m.flags.verbose);
      var n := Dialled(m, s, fork, start, es);
      |out| <= |n.screen| && n.screen[..|out|] == out
    ensures DialResult(m, s, fork, start, es) == ParentCopied(Ended(Relay.RepairedRun(Relay.Start(start), es)))
  {
    var out := m.screen + ResultCodes.Response(ResultCodes.CONNECT, m.flags.quiet, m.flags.verbose);
    var f := Forked(m, fork);
    assert f.dev == fork.dev && f.flags == m.flags && f.screen == m.screen;
    var c := Reported(f, ResultCodes.CONNECT);
    assert c.screen == out && c.dev >= 0;
    var n := Dialled(m, s, fork, start, es);
    assert n == Copied(c, start, es);
    assert n.screen == out + Relay.RepairedRun(Relay.Start(start), es).toTerm;
    assert n.screen[..|out|] == out;
  }

  /** A dial whose forkpty fails only hangs up: nothing is printed, nothing
      is relayed, and the command loop goes on to report OK. */
  lemma FailedDialIsSilent(m: Machine, s: seq<Byte>, fork: Fork, start: int, es: seq<Relay.Event>)
    requires fork.pid < 0
    ensures Dialled(m, s, fork, start, es) == HungUp(m).(pid := fork.pid)
    ensures DialResult(m, s, fork, start, es) == ParentCopied(NoLine)
    ensures AfterCopy(DialResult(m, s, fork, start, es).copy) == Report(ResultCodes.OK)
  {
  }

  /** A line without the AT prefix changes nothing and reports ERROR. */
  lemma BadLineChangesNothing(m: Machine, line: seq<Byte>, fork: Fork, start: int, es: seq<Relay.Event>)
    requires !Interpreter.HasAtPrefix(line)
    ensures AfterLine(m, line, fork, start, es) == m
    ensures NextAfterLine(m, line, fork, start, es) == Report(ResultCodes.ERROR)
  {
    Interpreter.NoAtPrefixIsError(line, m.flags);
    assert m.screen + Helps(m.help, 0) == m.screen;
  }

  /** `ATO` with no call active reports OK and changes no more than the
      registers the line set. */
  lemma ResumeWithoutLine(m: Machine, line: seq<Byte>, fork: Fork, start: int, es: seq<Relay.Event>)
    requires m.dev < 0 && Interpreter.Interpret(line, m.flags).action == Interpreter.Online
    ensures var res := Interpreter.Interpret(line, m.flags);
      AfterLine(m, line, fork, start, es) == m.(flags := res.flags, screen := m.screen + Helps(m.help, res.helps))
    ensures NextAfterLine(m, line, fork, start, es) == Report(ResultCodes.OK)
  {
  }

  /** After D, H or O control comes back through `setjmp`, so the result
      printed next is always OK. */
  lemma ControlCommandsReportOk(m: Machine, line: seq<Byte>, fork: Fork, start: int, es: seq<Relay.Event>)
    requires Interpreter.Interpret(line, m.flags).action.Dial?
          || Interpreter.Interpret(line, m.flags).action == Interpreter.Hangup
          || Interpreter.Interpret(line, m.flags).action == Interpreter.Online
    requires NextAfterLine(m, line, fork, start, es).Report?
    ensures NextAfterLine(m, line, fork, start, es) == Report(ResultCodes.OK)
  {
  }

  /** Leaving by X always hangs up. */
  lemma ExitHangsUp(m: Machine, line: seq<Byte>, fork: Fork, start: int, es: seq<Relay.Event>)
    requires Interpreter.Interpret(line, m.flags).action == Interpreter.Exit
    ensures NextAfterLine(m, line, fork, start, es) == Leave
    ensures AfterLine(m, line, fork, start, es).dev == -1 && AfterLine(m, line, fork, start, es).pid < 0
  {
  }

  // ---------------------------------------------------------------------
  // The state, in place

  class Modem {
    var echo: int
    var verbose: int
    var quiet: int
    var dev: int
    var pid: int
    var screen: string
    var sent: seq<Byte>
    ghost var calls: seq<OsCall>
    /** The page `help()` prints, held as state for the reason given at `Machine`. */
    const help: string

    function Flags(): Interpreter.Flags
      reads this
    {
      Interpreter.Flags(echo, verbose, quiet)
    }

    ghost function State(): Machine
      reads this
    {
      Machine(Flags(), dev, pid, screen, sent, calls, help)
    }

    constructor()
      ensures State() == Initial()
    {
      echo, verbose, quiet := 0, 0, 0;
      dev, pid := -1, -1;
      screen, sent := [], [];
      calls := [];
      help := HelpText;
    }

    /** `response(r)`. */
    method Respond(r: int)
      modifies this`screen
      ensures State() == Reported(old(State()), r)
    {
      screen := screen + ResultCodes.Response(r, quiet, verbose);
    }

    /** `hangup()`. */
    method Hangup()
      modifies this`dev, this`pid, this`calls
      ensures State() == HungUp(old(State()))
    {
      if dev >= 0 {
        calls := calls + [Close(dev)];
      }
      dev := -1;
      if pid >= 0 {
        calls := calls + [Kill(pid, KILL)];
        pid := -1;
      }
      assert calls == old(calls) + HangupCalls(old(dev), old(pid));
    }

    /** `copy()`: one pass of the loop per event, until the session stops or
        the events run out. */
    method Copy(start: int, events: seq<Relay.Event>) returns (end: CopyEnd)
      modifies this`dev, this`screen, this`sent, this`calls
      ensures end == CopyResult(old(State()), start, events)
      ensures State() == Copied(old(State()), start, events)
    {
      if dev < 0 {
        return NoLine;
      }
      ghost var m := old(State());
      var d := Relay.Detector(0, false, start);
      var toLine: seq<Byte> := [];
      var toTerm: seq<Byte> := [];
      ghost var s0 := Relay.Start(start);
      var i := 0;
      while i < |events|
        invariant 0 <= i <= |events|
        invariant Relay.RepairedRun(s0, events[..i]) == Relay.Session(Relay.Running, d, toLine, toTerm)
        invariant screen == old(screen) + toTerm && sent == old(sent) + toLine
        invariant dev == old(dev) && calls == old(calls)
      {
        var e := events[i];
        assert events[..i + 1] == events[..i] + [e];
        Relay.RepairedRunOneMore(s0, events[..i], e);
        var status, d2, line, term := Pass(e, d, toLine, toTerm);
        toLine, toTerm := toLine + line, toTerm + term;
        if status != Relay.Running {
          Relay.RepairedStopsForGood(s0, events, i + 1);
          var fin := Relay.Session(status, d2, toLine, toTerm);
          assert Relay.RepairedRun(s0, events) == fin;
          return Ended(fin);
        }
        d := d2;
        i := i + 1;
      }
      assert events[..i] == events;
      return Ended(Relay.Session(Relay.Running, d, toLine, toTerm));
    }

    /** One pass of `copy()`'s loop, for event `e` and the escape detector
        `d` of a running session that has so far sent `toLine` and `toTerm`:
        how the session stands after it, its new detector, and what the pass
        wrote to the line and to the terminal. */
    method Pass(e: Relay.Event, d: Relay.Detector, ghost toLine: seq<Byte>, ghost toTerm: seq<Byte>)
      returns (status: Relay.Status, d2: Relay.Detector, line: seq<Byte>, term: seq<Byte>)
      modifies this`dev, this`screen, this`sent, this`calls
      ensures Relay.RepairedStep(Relay.Session(Relay.Running, d, toLine, toTerm), e)
           == Relay.Session(status, d2, toLine + line, toTerm + term)
      ensures screen == old(screen) + term && sent == old(sent) + line
      ensures status == Relay.LineClosed ==> dev == -1 && calls == old(calls) + [Close(old(dev))]
      ensures status != Relay.LineClosed ==> dev == old(dev) && calls == old(calls)
    {
      var gap, pcnt, last := d.gap, d.pcnt, d.last;
      line, term := [], [];
      var now := e.sec;
      if now - last >= 1 {
        gap := true;
        if pcnt == 3 {
          return Relay.Escaped, Relay.Detector(pcnt, gap, last), line, term;
        }
        last := now;
      }
      match e {
        case TermByte(_, c) =>
          last := now;
          if c == PLUS && pcnt == 0 && gap {
            pcnt := pcnt + 1;
          } else if c == PLUS && pcnt != 0 {
            gap := false;
            pcnt := pcnt + 1;
          } else if c != PLUS {
            gap := false;
            if pcnt != 0 {
              Flush(pcnt);
              line := line + Relay.Pluses(pcnt);
              pcnt := 0;
            }
          }
          if pcnt == 0 {
            sent := sent + [c];
            line := line + [c];
          }
        case TermNone(_) =>
          last := now;
        case LineByte(_, c) =>
          screen := screen + [c];
          term := term + [c];
        case LineRetry(_) =>
        case Tick(_) =>
        case LineDown(_) =>
          calls := calls + [Close(dev)];
          dev := -1;
          return Relay.LineClosed, Relay.Detector(pcnt, gap, last), line, term;
      }
      return Relay.Running, Relay.Detector(pcnt, gap, last), line, term;
    }

    /** The flush of `n` held-back '+' bytes to the line, as evidently
        intended: the source's loop never decrements its counter. */
    method Flush(n: nat)
      modifies this`sent
      ensures sent == old(sent) + Relay.Pluses(n)
    {
      var k: nat := n;
      while k != 0
        invariant k <= n
        invariant sent == old(sent) + Relay.Pluses(n - k)
      {
        Relay.PlusesOneMore(n - k);
        sent := sent + [PLUS];
        k := k - 1;
      }
    }

    /** `dial(s)`, for the given outcome of forkpty. */
    method Dial(s: seq<Byte>, fork: Fork, start: int, events: seq<Relay.Event>) returns (end: DialEnd)
      modifies this`dev, this`pid, this`calls, this`screen, this`sent
      ensures end == DialResult(old(State()), s, fork, start, events)
      ensures State() == Dialled(old(State()), s, fork, start, events)
    {
      ghost var m := old(State());
      Hangup();
      var command := Interpreter.StripDialPrefix(s);
      pid := fork.pid;
      dev := fork.dev;
      if pid < 0 {
        dev := -1;
      }
      ghost var f := Forked(m, fork);
      assert State() == f;
      if pid == 0 {
        calls := calls + [System(command)];
        pid := -1;
        return ChildExited;
      }
      ghost var r := if f.dev >= 0 then Reported(f, ResultCodes.CONNECT) else f;
      if dev >= 0 {
        Respond(ResultCodes.CONNECT);
      }
      assert State() == r;
      var c := Copy(start, events);
      assert c == CopyResult(f, start, events) by {
        assert r.dev == f.dev;
      }
      return ParentCopied(c);
    }

    /** `*reg = v`. */
    method Store(reg: Interpreter.Register, v: int)
      requires reg != Interpreter.None
      modifies this`echo, this`verbose, this`quiet
      ensures Flags() == Interpreter.Set(old(Flags()), reg, v)
    {
      match reg
      case Echo => echo := v;
      case Verbose => verbose := v;
      case Quiet => quiet := v;
    }

    /** The scan of one line in `command()`: the AT prefix, then one
        character at a time until one ends the line. */
    method ExecuteLine(line: seq<Byte>) returns (action: Interpreter.Action)
      modifies this`echo, this`verbose, this`quiet, this`screen
      ensures var res := Interpreter.Interpret(line, old(Flags()));
        Flags() == res.flags && action == res.action && screen == old(screen) + Helps(help, res.helps)
    {
      var buf := line;
      var p := 0;
      while p < |buf| && buf[p] != NUL && IsSpace(buf[p])
        invariant p <= |buf| && forall j | 0 <= j < p :: IsSpace(buf[j])
      {
        p := p + 1;
      }
      Interpreter.SkipSpaceStopsAt(line, 0, p);
      if Upper(At(buf, p)) != 'A' {
        return Interpreter.NextLine(ResultCodes.ERROR);
      }
      p := p + 1;
      if Upper(At(buf, p)) != 'T' {
        return Interpreter.NextLine(ResultCodes.ERROR);
      }
      action := ScanCommands(buf, p);
    }

    /** The do-while loop of `command()`, from the T of the prefix on. */
    method ScanCommands(line: seq<Byte>, t: nat) returns (action: Interpreter.Action)
      requires t < |line|
      modifies this`echo, this`verbose, this`quiet, this`screen
      ensures var res := Interpreter.Commands(line[t + 1..], old(Flags()));
        Flags() == res.flags && action == res.action && screen == old(screen) + Helps(help, res.helps)
    {
      var p := t;
      var reg := Interpreter.None;
      ghost var f0 := old(Flags());
      ghost var body := line[t + 1..];
      ghost var m := 0;
      ghost var helps: nat := 0;
      while true
        invariant p == t + m && m <= |body|
        invariant forall q | 0 <= q < m :: Interpreter.Continues(At(body, q))
        invariant Interpreter.Fold(Interpreter.Scan(Interpreter.None, f0, 0), body[..m])
               == Interpreter.Scan(reg, Flags(), helps)
        invariant screen == old(screen) + Helps(help, helps)
        decreases |body| - m
      {
        p := p + 1;
        assert At(line, p) == At(body, m);
        ghost var before := Interpreter.Scan(reg, Flags(), helps);
        var done;
        reg, done, action := Switch(line, p, reg, helps);
        if done {
          Interpreter.StopActionShift(line, t + 1, m);
          Interpreter.CommandsStopAt(body, f0, m);
          return;
        }
        if At(line, p) == '?' {
          helps := helps + 1;
        }
        ghost var s0 := Interpreter.Scan(Interpreter.None, f0, 0);
        assert body[..m + 1] == body[..m] + [At(body, m)];
        Interpreter.FoldOneMore(s0, body[..m], At(body, m));
        assert Interpreter.Fold(s0, body[..m + 1]) == Interpreter.Effect(before, At(body, m));
        assert Interpreter.Effect(before, At(body, m)) == Interpreter.Scan(reg, Flags(), helps);
        m := m + 1;
      }
    }

    /** One pass of the `switch` in that loop, on the character at `p`. The
        characters that end the line report their action; for an unknown
        character the source writes a NUL over it so that the loop test
        fails, and here it reports NextLine(ERROR) instead. */
    method Switch(buf: seq<Byte>, p: nat, reg: Interpreter.Register, ghost helps: nat)
      returns (reg2: Interpreter.Register, done: bool, action: Interpreter.Action)
      modifies this`echo, this`verbose, this`quiet, this`screen
      ensures var c := At(buf, p);
        done <==> !Interpreter.Continues(c)
      ensures var c := At(buf, p);
        done ==> action == Interpreter.StopAction(buf, p) && Flags() == old(Flags()) && screen == old(screen)
      ensures var c := At(buf, p);
        !done ==>
          Interpreter.Scan(reg2, Flags(), if c == '?' then helps + 1 else helps)
            == Interpreter.Effect(Interpreter.Scan(reg, old(Flags()), helps), c)
          && screen == old(screen) + (if c == '?' then help else "")
    {
      var c := At(buf, p);
      reg2, done, action := reg, false, Interpreter.NextLine(ResultCodes.OK);
      match c {
        case 'x' | 'X' =>
          done, action := true, Interpreter.Exit;
        case '?' =>
          screen := screen + help;
        case 'd' | 'D' =>
          done, action := true, Interpreter.Dial(CStr(buf[p + 1..]));
        case 'h' | 'H' =>
          done, action := true, Interpreter.Hangup;
        case 'o' | 'O' =>
          done, action := true, Interpreter.Online;
        case '0' | '1' | '2' | '3' | '4' | '5' | '6' | '7' | '8' | '9' =>
          if reg != Interpreter.None {
            Store(reg, Interpreter.Get(Flags(), reg) * 10 + (c as int - '0' as int));
          }
        case 'e' | 'E' =>
          reg2 := Interpreter.Echo;
          Store(reg2, 0);
        case 'v' | 'V' =>
          reg2 := Interpreter.Verbose;
          Store(reg2, 0);
        case 'q' | 'Q' =>
          reg2 := Interpreter.Quiet;
          Store(reg2, 0);
        case ' ' =>
        case '\0' =>
          done := true;
        case _ =>
          done, action := true, Interpreter.NextLine(ResultCodes.ERROR);
      }
    }

    /** One command line: the scan, then its ending command. */
    method CommandLine(line: seq<Byte>, fork: Fork, start: int, events: seq<Relay.Event>) returns (next: Next)
      modifies this
      ensures State() == AfterLine(old(State()), line, fork, start, events)
      ensures next == NextAfterLine(old(State()), line, fork, start, events)
    {
      var action := ExecuteLine(line);
      match action
      case Exit =>
        Hangup();
        return Leave;
      case Dial(arg) =>
        var d := Dial(arg, fork, start, events);
        if d == ChildExited {
          return ChildGone;
        }
        return AfterCopy(d.copy);
      case Hangup =>
        Hangup();
        return Report(ResultCodes.OK);
      case Online =>
        var e := Copy(start, events);
        return AfterCopy(e);
      case NextLine(code) =>
        return Report(code);
    }
  }
}
