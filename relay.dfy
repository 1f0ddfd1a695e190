/** The escape detector and byte forwarding of the relay loop (`copy()`),
    as a step function over what each pass of the loop observes. */
module Relay {
  import opened Bytes

  /** What one pass of the `for (;;)` loop observes: the whole seconds of
      the clock read after `select`, and which side had something to read.
      A `TermByte` at a pass where the gate returns to command mode is never
      read by the loop: it stays queued for the command line that follows,
      although `TermInput` still counts it as typed during the session. */
  datatype Event =
    | Tick(sec: int)               // nothing readable: the 10 ms wait ran out
    | TermByte(sec: int, c: Byte)  // the terminal side delivered byte c
    | TermNone(sec: int)           // the terminal side was readable but read gave no byte
    | LineByte(sec: int, c: Byte)  // the line side delivered byte c
    | LineRetry(sec: int)          // the line read gave no byte, or failed transiently
    | LineDown(sec: int)           // the line read failed for good

  /** pcnt: pending '+' count; gap: a whole-second silence was seen; last:
      the seconds of the last activity. */
  datatype Detector = Detector(pcnt: nat, gap: bool, last: int)

  datatype Status =
    | Running     // still relaying
    | Escaped     // silence, "+++", silence: back to command mode
    | LineClosed  // the line failed: it was closed, back to command mode
    | Diverged    // the flush loop that never decrements pcnt was entered

  /** A relay session: its status, the detector, and everything written so
      far to the line side and to the terminal side. */
  datatype Session = Session(status: Status, det: Detector, toLine: seq<Byte>, toTerm: seq<Byte>)

  /** The state on entry to the loop, with `last` read from the clock. */
  function Start(now: int): Session {
    Session(Running, Detector(0, false, now), [], [])
  }

  /** The once-a-second gate: only the seconds are compared. */
  predicate GateOpen(d: Detector, now: int) {
    now - d.last >= 1
  }

  function Gate(d: Detector, now: int): Detector {
    if GateOpen(d, now) then Detector(d.pcnt, true, now) else d
  }

  /** One byte read from the terminal side, after the gate. */
  function TermStep(s: Session, now: int, c: Byte): Session {
    var d := s.det;
    if c == PLUS && d.pcnt == 0 && d.gap then
      s.(det := Detector(1, d.gap, now))
    else if c == PLUS && d.pcnt != 0 then
      s.(det := Detector(d.pcnt + 1, false, now))
    else if c != PLUS && d.pcnt != 0 then
      s.(status := Diverged, det := Detector(d.pcnt, false, now))
    else if c != PLUS then
      s.(det := Detector(0, false, now), toLine := s.toLine + [c])
    else
      s.(det := Detector(0, d.gap, now), toLine := s.toLine + [c])
  }

  /** One pass of the relay loop. A session that has stopped stays as it is. */
  function Step(s: Session, e: Event): Session {
    if s.status != Running then s
    else if GateOpen(s.det, e.sec) && s.det.pcnt == 3 then
      s.(status := Escaped, det := s.det.(gap := true))
    else
      var g := s.(det := Gate(s.det, e.sec));
      match e
      case Tick(_) => g
      case TermByte(now, c) => TermStep(g, now, c)
      case TermNone(now) => g.(det := g.det.(last := now))
      case LineByte(_, c) => g.(toTerm := g.toTerm + [c])
      case LineRetry(_) => g
      case LineDown(_) => g.(status := LineClosed)
  }

  /** Runs the passes of the loop over the events, in order. */
  function RunWith(pass: (Session, Event) -> Session, s: Session, es: seq<Event>): Session
    decreases |es|
  {
    if es == [] then s else pass(RunWith(pass, s, es[..|es| - 1]), es[|es| - 1])
  }

  /** A relay session over the events, as the loop is written. */
  function Run(s: Session, es: seq<Event>): Session {
    RunWith(Step, s, es)
  }

  function TermOf(e: Event): seq<Byte> {
    if e.TermByte? then [e.c] else []
  }

  function LineOf(e: Event): seq<Byte> {
    if e.LineByte? then [e.c] else []
  }

  /** The bytes the terminal side delivered during `es`, in order. */
  function TermInput(es: seq<Event>): seq<Byte>
    decreases |es|
  {
    if es == [] then [] else TermInput(es[..|es| - 1]) + TermOf(es[|es| - 1])
  }

  /** The bytes the line side delivered during `es`, in order. */
  function LineInput(es: seq<Event>): seq<Byte>
    decreases |es|
  {
    if es == [] then [] else LineInput(es[..|es| - 1]) + LineOf(es[|es| - 1])
  }

  function Pluses(n: nat): (p: seq<Byte>)
    ensures |p| == n && forall i | 0 <= i < n :: p[i] == PLUS
  {
    seq(n, _ => PLUS)
  }

  predicate IsPrefix(a: seq<Byte>, b: seq<Byte>) {
    |a| <= |b| && b[..|a|] == a
  }

  /** The relay's books balance: while running, what went to the line plus
      the pending '+' run is exactly what the terminal sent, and what went to
      the terminal is exactly what the line sent; once stopped, both are
      prefixes of what was sent. */
  ghost predicate Accounts(s: Session, term: seq<Byte>, line: seq<Byte>) {
    if s.status == Running then
      s.toLine + Pluses(s.det.pcnt) == term && s.toTerm == line
    else
      IsPrefix(s.toLine + Pluses(s.det.pcnt), term) && IsPrefix(s.toTerm, line)
  }

  // ---------------------------------------------------------------------
  // One pass of the loop

  /** The gate: at a pass where a whole second has gone by, with three '+'
      pending the relay returns to command mode, and otherwise the silence is
      noted and `last` advanced before the readable side is served. */
  lemma GateOpens(s: Session, e: Event)
    requires s.status == Running && GateOpen(s.det, e.sec)
    ensures Step(s, e).status == Escaped <==> s.det.pcnt == 3
    ensures s.det.pcnt != 3 ==> Step(s, e).det.last == e.sec
    ensures s.det.pcnt != 3 && !e.TermByte? ==> Step(s, e).det.gap
  {
  }

  /** Without a whole second gone by and without a terminal byte, the
      detector does not move. */
  lemma QuietPassKeepsDetector(s: Session, e: Event)
    requires s.status == Running && !GateOpen(s.det, e.sec)
    requires e.Tick? || e.LineByte? || e.LineRetry?
    ensures Step(s, e).det == s.det
  {
  }

  /** A '+' run starts only with a '+' that arrives while none is pending
      and a silence has been seen; it then counts one per further '+'. */
  lemma PlusRunStartsAfterSilence(s: Session, e: Event)
    requires s.status == Running && Step(s, e).status == Running
    requires s.det.pcnt == 0 && Step(s, e).det.pcnt != 0
    ensures e.TermByte? && e.c == PLUS && Gate(s.det, e.sec).gap
    ensures Step(s, e).det.pcnt == 1
  {
  }

  lemma PlusRunGrows(s: Session, now: int)
    requires s.status == Running && s.det.pcnt > 0
    requires !(GateOpen(s.det, now) && s.det.pcnt == 3)
    ensures Step(s, TermByte(now, PLUS)).status == Running
    ensures Step(s, TermByte(now, PLUS)).det.pcnt == s.det.pcnt + 1
    ensures Step(s, TermByte(now, PLUS)).toLine == s.toLine
  {
  }

  /** Forwarding to the line with no run pending: a byte other than '+', and
      a '+' that arrives before any silence, are written unchanged; a byte
      other than '+' also clears the silence. Every terminal byte marks
      `last`. */
  lemma TerminalByteForwarded(s: Session, now: int, c: Byte)
    requires s.status == Running && s.det.pcnt == 0
    requires c != PLUS || !Gate(s.det, now).gap
    ensures Step(s, TermByte(now, c)).status == Running
    ensures Step(s, TermByte(now, c)).toLine == s.toLine + [c]
    ensures Step(s, TermByte(now, c)).det.pcnt == 0
    ensures Step(s, TermByte(now, c)).det.last == now
    ensures c != PLUS ==> !Step(s, TermByte(now, c)).det.gap
  {
  }

  /** A byte other than '+' that arrives while a run is pending enters the
      flush loop of the source, which never ends. */
  lemma StrayByteWithRunPendingDiverges(s: Session, now: int, c: Byte)
    requires s.status == Running && s.det.pcnt > 0 && c != PLUS
    requires !(GateOpen(s.det, now) && s.det.pcnt == 3)
    ensures Step(s, TermByte(now, c)).status == Diverged
  {
  }

  /** Every byte from the line side goes to the terminal side verbatim. */
  lemma LineByteToTerminal(s: Session, now: int, c: Byte)
    requires s.status == Running && !(GateOpen(s.det, now) && s.det.pcnt == 3)
    ensures Step(s, LineByte(now, c)).status == Running
    ensures Step(s, LineByte(now, c)).toTerm == s.toTerm + [c]
    ensures Step(s, LineByte(now, c)).toLine == s.toLine
  {
  }

  // ---------------------------------------------------------------------
  // Whole sessions

  lemma RunWithOneMore(pass: (Session, Event) -> Session, s: Session, es: seq<Event>, e: Event)
    ensures RunWith(pass, s, es + [e]) == pass(RunWith(pass, s, es), e)
  {
    assert (es + [e])[..|es|] == es;
  }

  lemma RunOneMore(s: Session, es: seq<Event>, e: Event)
    ensures Run(s, es + [e]) == Step(Run(s, es), e)
  {
    RunWithOneMore(Step, s, es, e);
  }

  /** The pass leaves a stopped session as it is. */
  ghost predicate Halts(pass: (Session, Event) -> Session) {
    forall s: Session, e: Event :: s.status != Running ==> pass(s, e) == s
  }

  lemma {:induction false} RunStopped(pass: (Session, Event) -> Session, s: Session, es: seq<Event>)
    requires Halts(pass) && s.status != Running
    ensures RunWith(pass, s, es) == s
    decreases |es|
  {
    if es != [] {
      RunStopped(pass, s, es[..|es| - 1]);
    }
  }

  lemma {:induction false} RunAppend(pass: (Session, Event) -> Session, s: Session, a: seq<Event>, b: seq<Event>)
    ensures RunWith(pass, s, a + b) == RunWith(pass, RunWith(pass, s, a), b)
    decreases |b|
  {
    if b == [] {
      assert a + b == a;
    } else {
      assert (a + b)[..|a + b| - 1] == a + b[..|b| - 1];
      RunAppend(pass, s, a, b[..|b| - 1]);
    }
  }

  /** Once a session has stopped, the events after that make no difference. */
  lemma StopsForGood(pass: (Session, Event) -> Session, s: Session, es: seq<Event>, i: nat)
    requires Halts(pass) && i <= |es| && RunWith(pass, s, es[..i]).status != Running
    ensures RunWith(pass, s, es) == RunWith(pass, s, es[..i])
  {
    assert es == es[..i] + es[i..];
    RunAppend(pass, s, es[..i], es[i..]);
    RunStopped(pass, RunWith(pass, s, es[..i]), es[i..]);
  }

  lemma PlusesOneMore(n: nat)
    ensures Pluses(n + 1) == Pluses(n) + [PLUS]
  {
  }

  lemma PrefixGrows(a: seq<Byte>, b: seq<Byte>, x: seq<Byte>)
    requires IsPrefix(a, b)
    ensures IsPrefix(a, b + x)
  {
    assert (b + x)[..|a|] == b[..|a|];
  }

  lemma StepAccounts(s: Session, e: Event, term: seq<Byte>, line: seq<Byte>)
    requires Accounts(s, term, line)
    ensures Accounts(Step(s, e), term + TermOf(e), line + LineOf(e))
  {
    var t := Step(s, e);
    if s.status != Running {
      PrefixGrows(s.toLine + Pluses(s.det.pcnt), term, TermOf(e));
      PrefixGrows(s.toTerm, line, LineOf(e));
    } else if t.status == Running {
      if e.TermByte? {
        if t.det.pcnt == s.det.pcnt + 1 {
          PlusesOneMore(s.det.pcnt);
          assert t.toLine + Pluses(t.det.pcnt) == s.toLine + Pluses(s.det.pcnt) + [e.c];
        } else {
          assert t.toLine + Pluses(t.det.pcnt) == s.toLine + [e.c];
        }
      }
    } else {
      assert t.toLine + Pluses(t.det.pcnt) == term;
      PrefixGrows(term, term, TermOf(e));
      PrefixGrows(line, line, LineOf(e));
    }
  }

  ghost predicate AccountsAfter(t: Session, e: Event, term: seq<Byte>, line: seq<Byte>) {
    Accounts(t, term + TermOf(e), line + LineOf(e))
  }

  /** A pass function keeps the books balanced. */
  ghost predicate KeepsAccounts(pass: (Session, Event) -> Session) {
    forall s, e, term, line {:trigger AccountsAfter(pass(s, e), e, term, line)}
      | Accounts(s, term, line) :: AccountsAfter(pass(s, e), e, term, line)
  }

  lemma {:induction false} RunWithAccounts(pass: (Session, Event) -> Session, s: Session, es: seq<Event>)
    requires KeepsAccounts(pass) && Accounts(s, [], [])
    ensures Accounts(RunWith(pass, s, es), TermInput(es), LineInput(es))
    decreases |es|
  {
    if es != [] {
      var before := es[..|es| - 1];
      RunWithAccounts(pass, s, before);
      assert AccountsAfter(pass(RunWith(pass, s, before), es[|es| - 1]), es[|es| - 1],
                           TermInput(before), LineInput(before));
    }
  }

  lemma StepKeepsAccounts()
    ensures KeepsAccounts(Step)
  {
    forall s, e, term, line | Accounts(s, term, line)
      ensures AccountsAfter(Step(s, e), e, term, line)
    {
      StepAccounts(s, e, term, line);
    }
  }

  /** Nothing is lost, duplicated or reordered: while the relay runs, what it
      wrote to the line followed by the pending '+' run is exactly what the
      terminal sent, and what it wrote to the terminal is exactly what the
      line sent; once it stops, both are prefixes of what was sent. */
  lemma RelayConserves(now: int, es: seq<Event>)
    ensures var s := Run(Start(now), es);
      IsPrefix(s.toLine + Pluses(s.det.pcnt), TermInput(es)) && IsPrefix(s.toTerm, LineInput(es))
    ensures var s := Run(Start(now), es);
      s.status == Running ==>
        s.toLine + Pluses(s.det.pcnt) == TermInput(es) && s.toTerm == LineInput(es)
  {
    StepKeepsAccounts();
    RunWithAccounts(Step, Start(now), es);
    var s := Run(Start(now), es);
    if s.status == Running {
      assert TermInput(es)[..|s.toLine + Pluses(s.det.pcnt)|] == TermInput(es);
      assert LineInput(es)[..|s.toTerm|] == LineInput(es);
    }
  }

  /** With no '+' typed the relay is transparent: it never leaves for
      command mode nor hangs, and while it runs both directions are copied
      exactly. */
  lemma NoPlusIsTransparent(now: int, es: seq<Event>)
    requires PLUS !in TermInput(es)
    ensures Run(Start(now), es).status in {Running, LineClosed}
    ensures Run(Start(now), es).status == Running ==>
      Run(Start(now), es).toLine == TermInput(es) && Run(Start(now), es).toTerm == LineInput(es)
  {
    RelayConserves(now, es);
    StoppedConsistently(now, es);
    var s := Run(Start(now), es);
    PendingRunWasTyped(s.toLine, s.det.pcnt, TermInput(es));
    assert s.toLine + Pluses(s.det.pcnt) == s.toLine;
  }

  /** A pending run that balances the books was typed: its last '+' is in
      the terminal input. */
  lemma PendingRunWasTyped(sent: seq<Byte>, n: nat, term: seq<Byte>)
    requires IsPrefix(sent + Pluses(n), term)
    ensures n > 0 ==> |sent| + n <= |term| && term[|sent| + n - 1] == PLUS
  {
    if n > 0 {
      assert term[..|sent| + n][|sent| + n - 1] == PLUS;
    }
  }

  /** How a session can have stopped: leaving for command mode with three
      '+' pending, or hanging with a run pending. */
  ghost predicate Consistent(s: Session) {
    (s.status == Escaped ==> s.det.pcnt == 3) && (s.status == Diverged ==> s.det.pcnt > 0)
  }

  lemma {:induction false} RunConsistent(s: Session, es: seq<Event>)
    requires Consistent(s)
    ensures Consistent(Run(s, es))
    decreases |es|
  {
    if es != [] {
      RunConsistent(s, es[..|es| - 1]);
    }
  }

  /** A session only ever leaves for command mode with three '+' pending,
      and only hangs with a run pending. */
  lemma StoppedConsistently(now: int, es: seq<Event>)
    ensures Run(Start(now), es).status == Escaped ==> Run(Start(now), es).det.pcnt == 3
    ensures Run(Start(now), es).status == Diverged ==> Run(Start(now), es).det.pcnt > 0
  {
    RunConsistent(Start(now), es);
  }

  /** Once a fourth '+' has been counted, the session can never return to
      command mode. */
  lemma {:induction false} FourthPlusNeverEscapes(s: Session, es: seq<Event>)
    requires s.status == Running && s.det.pcnt >= 4
    ensures Run(s, es).status != Escaped
    ensures Run(s, es).status == Running ==> Run(s, es).det.pcnt >= 4
    decreases |es|
  {
    if es != [] {
      FourthPlusNeverEscapes(s, es[..|es| - 1]);
    }
  }

  // ---------------------------------------------------------------------
  // Scenarios

  /** One second of silence, "+++", one more second of silence: back to
      command mode, with none of the three '+' sent to the line. */
  lemma EscapeSequenceDetected(t: int)
    ensures Run(Start(t), [Tick(t + 1), TermByte(t + 1, PLUS), TermByte(t + 1, PLUS),
                           TermByte(t + 1, PLUS), Tick(t + 2)])
         == Session(Escaped, Detector(3, true, t + 1), [], [])
  {
    var es := [Tick(t + 1), TermByte(t + 1, PLUS), TermByte(t + 1, PLUS),
               TermByte(t + 1, PLUS), Tick(t + 2)];
    RunOneMore(Start(t), [], es[0]);
    assert Run(Start(t), es[..1]) == Session(Running, Detector(0, true, t + 1), [], []);
    RunOneMore(Start(t), es[..1], es[1]);
    assert es[..1] + [es[1]] == es[..2];
    assert Run(Start(t), es[..2]) == Session(Running, Detector(1, true, t + 1), [], []);
    RunOneMore(Start(t), es[..2], es[2]);
    assert es[..2] + [es[2]] == es[..3];
    assert Run(Start(t), es[..3]) == Session(Running, Detector(2, false, t + 1), [], []);
    RunOneMore(Start(t), es[..3], es[3]);
    assert es[..3] + [es[3]] == es[..4];
    assert Run(Start(t), es[..4]) == Session(Running, Detector(3, false, t + 1), [], []);
    RunOneMore(Start(t), es[..4], es[4]);
    assert es[..4] + [es[4]] == es;
  }

  /** From any running state with no '+' pending, once a silence has been
      seen (or the first '+' itself comes after one), three '+' followed by
      any event a whole second after the last of them return to command
      mode, with none of the three sent; the repaired relay does the same. */
  lemma EscapeFromAnyRunningState(s: Session, t1: int, t2: int, t3: int, e: Event)
    requires s.status == Running && s.det.pcnt == 0
    requires s.det.gap || GateOpen(s.det, t1)
    requires e.sec - t3 >= 1
    ensures var es := [TermByte(t1, PLUS), TermByte(t2, PLUS), TermByte(t3, PLUS), e];
      Run(s, es) == Session(Escaped, Detector(3, true, t3), s.toLine, s.toTerm)
      && RepairedRun(s, es) == Run(s, es)
  {
    var es := [TermByte(t1, PLUS), TermByte(t2, PLUS), TermByte(t3, PLUS), e];
    assert [es[0]] == es[..1] && es[..1] + [es[1]] == es[..2];
    assert es[..2] + [es[2]] == es[..3] && es[..3] + [es[3]] == es;
    RunOneMore(s, [], es[0]);
    assert Run(s, es[..1]) == Session(Running, Detector(1, true, t1), s.toLine, s.toTerm);
    RunOneMore(s, es[..1], es[1]);
    assert Run(s, es[..2]) == Session(Running, Detector(2, false, t2), s.toLine, s.toTerm);
    RunOneMore(s, es[..2], es[2]);
    assert Run(s, es[..3]) == Session(Running, Detector(3, false, t3), s.toLine, s.toTerm);
    RunOneMore(s, es[..3], es[3]);
    RepairOnlyChangesHangs(s, es);
  }

  /** The same "+++" typed without the leading silence is plain data. */
  lemma PlusesWithoutSilenceAreData(t: int)
    ensures Run(Start(t), [TermByte(t, PLUS), TermByte(t, PLUS), TermByte(t, PLUS), Tick(t + 1)])
         == Session(Running, Detector(0, true, t + 1), [PLUS, PLUS, PLUS], [])
  {
    var es := [TermByte(t, PLUS), TermByte(t, PLUS), TermByte(t, PLUS), Tick(t + 1)];
    RunOneMore(Start(t), [], es[0]);
    assert Run(Start(t), es[..1]) == Session(Running, Detector(0, false, t), [PLUS], []);
    RunOneMore(Start(t), es[..1], es[1]);
    assert es[..1] + [es[1]] == es[..2];
    assert Run(Start(t), es[..2]) == Session(Running, Detector(0, false, t), [PLUS, PLUS], []);
    RunOneMore(Start(t), es[..2], es[2]);
    assert es[..2] + [es[2]] == es[..3];
    assert Run(Start(t), es[..3]) == Session(Running, Detector(0, false, t), [PLUS, PLUS, PLUS], []);
    RunOneMore(Start(t), es[..3], es[3]);
    assert es[..3] + [es[3]] == es;
  }

  // ---------------------------------------------------------------------
  // The flush loop as evidently intended

  /** The pass as intended by the flush loop: a byte other than '+' sends
      the pending run to the line as literal '+' bytes, then itself. */
  function RepairedStep(s: Session, e: Event): Session {
    if s.status == Running && !(GateOpen(s.det, e.sec) && s.det.pcnt == 3)
       && e.TermByte? && e.c != PLUS && s.det.pcnt != 0
    then
      Session(Running, Detector(0, false, e.sec), s.toLine + Pluses(s.det.pcnt) + [e.c], s.toTerm)
    else Step(s, e)
  }

  function RepairedRun(s: Session, es: seq<Event>): Session {
    RunWith(RepairedStep, s, es)
  }

  lemma RepairedRunOneMore(s: Session, es: seq<Event>, e: Event)
    ensures RepairedRun(s, es + [e]) == RepairedStep(RepairedRun(s, es), e)
  {
    RunWithOneMore(RepairedStep, s, es, e);
  }

  /** Once the repaired relay has stopped, later events change nothing. */
  lemma RepairedStopsForGood(s: Session, es: seq<Event>, i: nat)
    requires i <= |es| && RepairedRun(s, es[..i]).status != Running
    ensures RepairedRun(s, es) == RepairedRun(s, es[..i])
  {
    RepairedStepHalts();
    StopsForGood(RepairedStep, s, es, i);
  }

  /** The repair changes nothing but the hang: on every input the relay, as
      written, gets through without hanging, the repaired relay does exactly
      the same. So the properties of `Run` above hold for `RepairedRun` on
      those inputs. */
  lemma {:induction false} RepairOnlyChangesHangs(s: Session, es: seq<Event>)
    requires Run(s, es).status != Diverged
    ensures RepairedRun(s, es) == Run(s, es)
    decreases |es|
  {
    if es != [] {
      var p, e := es[..|es| - 1], es[|es| - 1];
      assert es == p + [e];
      RunOneMore(s, p, e);
      RepairedRunOneMore(s, p, e);
      RepairOnlyChangesHangs(s, p);
    }
  }

  /** As written, a '+' run after a silence followed by any other byte hangs
      the relay; with the repaired flush the same input is forwarded. */
  lemma StrayByteAfterPlusHangs(t: int, c: Byte)
    requires c != PLUS
    ensures Run(Start(t), [Tick(t + 1), TermByte(t + 1, PLUS), TermByte(t + 1, c)]).status == Diverged
    ensures RepairedRun(Start(t), [Tick(t + 1), TermByte(t + 1, PLUS), TermByte(t + 1, c)])
         == Session(Running, Detector(0, false, t + 1), [PLUS, c], [])
  {
    var es := [Tick(t + 1), TermByte(t + 1, PLUS), TermByte(t + 1, c)];
    var s1 := Session(Running, Detector(0, true, t + 1), [], []);
    var s2 := Session(Running, Detector(1, true, t + 1), [], []);
    assert [es[0]] == es[..1] && es[..1] + [es[1]] == es[..2] && es[..2] + [es[2]] == es;
    RunOneMore(Start(t), [], es[0]);
    RunOneMore(Start(t), es[..1], es[1]);
    RunOneMore(Start(t), es[..2], es[2]);
    assert Run(Start(t), es[..2]) == s2;
    RunWithOneMore(RepairedStep, Start(t), [], es[0]);
    RunWithOneMore(RepairedStep, Start(t), es[..1], es[1]);
    RunWithOneMore(RepairedStep, Start(t), es[..2], es[2]);
    assert RepairedRun(Start(t), es[..1]) == s1;
    assert RepairedRun(Start(t), es[..2]) == s2;
  }

  lemma RepairedStepAccounts(s: Session, e: Event, term: seq<Byte>, line: seq<Byte>)
    requires Accounts(s, term, line)
    ensures Accounts(RepairedStep(s, e), term + TermOf(e), line + LineOf(e))
  {
    if s.status == Running && !(GateOpen(s.det, e.sec) && s.det.pcnt == 3)
       && e.TermByte? && e.c != PLUS && s.det.pcnt != 0
    {
      assert RepairedStep(s, e).toLine + Pluses(0) == term + [e.c];
    } else {
      StepAccounts(s, e, term, line);
    }
  }

  lemma {:induction false} RepairedRunNeverHangs(s: Session, es: seq<Event>)
    requires s.status != Diverged
    ensures RepairedRun(s, es).status != Diverged
    decreases |es|
  {
    if es != [] {
      RepairedRunNeverHangs(s, es[..|es| - 1]);
    }
  }

  lemma RepairedStepKeepsAccounts()
    ensures KeepsAccounts(RepairedStep)
  {
    forall s, e, term, line | Accounts(s, term, line)
      ensures AccountsAfter(RepairedStep(s, e), e, term, line)
    {
      RepairedStepAccounts(s, e, term, line);
    }
  }

  /** With the repaired flush the relay never hangs, and nothing typed is
      lost, duplicated or reordered: while running, the line received exactly what the
      terminal sent except the pending '+' run, and the terminal exactly
      what the line sent; once stopped, both are prefixes of those. */
  lemma RepairedRelayConserves(now: int, es: seq<Event>)
    ensures RepairedRun(Start(now), es).status != Diverged
    ensures var s := RepairedRun(Start(now), es);
      IsPrefix(s.toLine + Pluses(s.det.pcnt), TermInput(es)) && IsPrefix(s.toTerm, LineInput(es))
    ensures var s := RepairedRun(Start(now), es);
      s.status == Running ==>
        s.toLine + Pluses(s.det.pcnt) == TermInput(es) && s.toTerm == LineInput(es)
  {
    RepairedRunNeverHangs(Start(now), es);
    RepairedStepKeepsAccounts();
    RunWithAccounts(RepairedStep, Start(now), es);
    var s := RepairedRun(Start(now), es);
    if s.status == Running {
      assert TermInput(es)[..|s.toLine + Pluses(s.det.pcnt)|] == TermInput(es);
      assert LineInput(es)[..|s.toTerm|] == LineInput(es);
    }
  }

  lemma RepairedStepHalts()
    ensures Halts(RepairedStep)
  {
  }
}
