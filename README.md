# A virtual Hayes modem, verified

`hayes.c` turns a terminal into a Hayes-style (AT command) modem. Its
command loop reads a line. It skips white space, requires `A` then `T`, and
then runs the line's commands:

- `E`, `V` and `Q` select and zero the echo, verbose and quiet registers, and
  digits accumulate into the selected register.
- `?` prints the help page.
- `D` dials: the rest of the line, less a leading `T` or `P`, is run under a
  fresh pseudo-terminal.
- `H` hangs up.
- `O` resumes the relay with the call.
- `X` leaves.

After every line, `response()` prints a result code, as a word or as a
digit. While a call is up, the relay loop `copy()` does two things:

- It copies bytes between the terminal and the line.
- It watches the terminal for the escape sequence: one second of silence,
  `+++`, one second of silence.

The model has five modules:

- `Bytes`: 8-bit C characters, `isspace`/`toupper` in the "C" locale, and
  the reading of a buffer as a NUL-terminated string.
- `ResultCodes`: the result codes and `response()`, as a pure function, with
  what a terminal reads back from its output.
- `Relay`: one pass of `copy()`'s loop, as a step function over what the
  pass observes (`Event`), and whole sessions as the fold of those steps.
  - `Step` is the loop as written. Its flush of a broken `+` run never ends.
    It is kept as a separate `Diverged` outcome (see Findings).
  - `RepairedStep` is the loop with that flush as evidently intended.
- `Interpreter`: the scan of one command line by `command()`, as a
  declarative specification (`Interpret`, `Commands`). It also holds the
  dial-prefix strip and the raw line reader, which is modelled both as a
  function and as its counted loop.
- `Modem`: the program's globals as a class `Modem`. Its fields are `echo`,
  `verbose`, `quiet`, `dev` and `pid`. Three more fields hold what was
  printed on the terminal, what was written to the line, and a ghost log of
  `close`, `kill` and `system` calls. Its methods are `hangup()`, `dial()`,
  `copy()`, `response()`, and the loop that executes one line. `Respond`,
  `Hangup`, `Copy`, `Dial` and `CommandLine` are proved equal to a
  function on `Machine`, a value with the same state, and the properties
  are lemmas about those functions. The other methods are proved against
  the specification functions of what they compute:
  - `ExecuteLine` against `Interpreter.Interpret`;
  - `ScanCommands` against `Interpreter.Commands`;
  - `Switch` against `Interpreter.Effect` and `Interpreter.StopAction`;
  - `Store` against `Interpreter.Set`;
  - `Pass` against `Relay.RepairedStep`;
  - `Flush` against `Relay.Pluses`.

  `Copy` runs the repaired relay.

The model follows the code as written:

- All three registers start at 0 (hayes.c:43-45).
- The commands are `E`, `V`, `Q`, `?`, `D`, `H`, `O` and `X`, in either
  case where they are letters; digits, space and NUL let the scan go on, and
  every other character is an error (hayes.c:277-316).
- `verbose == 0` selects words and any other value selects digits
  (hayes.c:183-186).
- The one-second gate compares only the seconds of the clock (hayes.c:111).
- A line that fails during a call, a dial whose `forkpty` fails, and an
  escape are all followed by `OK`, because control comes back through
  `setjmp`, after which the result is set to OK (hayes.c:241-242).

## Model

| member | source | states |
|---|---|---|
| Bytes.Upper | hayes.c:264-269 | `toupper` in the "C" locale: each of `a`..`z` becomes the letter 32 below, and every other character stays as it is |
| Bytes.CStr | hayes.c:284-285 | the C string at the front of a buffer is its longest NUL-free prefix, ended by a NUL or by the buffer's end |
| ResultCodes.Reported | hayes.c:180-181 | the code reported is the code itself when in 0..7 and ERROR otherwise |
| ResultCodes.Response | hayes.c:173-188 | nothing is printed exactly when `quiet > 0`; otherwise the output ends in CR LF |
| ResultCodes.ResponseRoundTrip | hayes.c:173-188 | a terminal reading the output gets back the reported code, as a word when `verbose == 0` and as a digit otherwise; the only exceptions are the reserved codes 2 and 5 in word mode |
| ResultCodes.ReservedCodesPrintEmptyLine | hayes.c:174-175 | in word mode codes 2 and 5 print only CR LF |
| ResultCodes.OutOfRangeIsError | hayes.c:180-181 | a code outside 0..7 prints exactly what ERROR prints |
| ResultCodes.NumericReportIsOneDigit | hayes.c:185-186 | in numeric mode every report is one digit from 0 to 7, then CR LF |
| Relay.Gate | hayes.c:111-119 | the once-a-second gate: a whole second since `last` notes the silence and advances `last`; no contract of its own, its properties are in `GateOpens` |
| Relay.TermStep | hayes.c:121-139 | a byte from the terminal after the gate, as written; no contract of its own, its properties are in the per-byte lemmas below |
| Relay.Step | hayes.c:100-160 | one pass of the loop as written, including the hang; no contract of its own, its properties are the lemmas below |
| Relay.GateOpens | hayes.c:111-119 | when a whole second has passed, the relay returns to command mode exactly when three `+` are pending; otherwise `last` becomes now and the silence is noted |
| Relay.QuietPassKeepsDetector | hayes.c:111-119 | a pass with no whole second gone by and no terminal byte leaves the detector unchanged |
| Relay.PlusRunStartsAfterSilence | hayes.c:125-126 | the pending count leaves 0 only on a `+` after a silence, and then becomes 1 |
| Relay.PlusRunGrows | hayes.c:127-129 | each further `+` adds one to the pending count and sends nothing to the line |
| Relay.TerminalByteForwarded | hayes.c:121-139 | with no run pending, a non-`+` byte, or a `+` arriving before any silence, is written to the line unchanged; a non-`+` byte clears the silence, and every terminal byte sets `last` |
| Relay.StrayByteWithRunPendingDiverges | hayes.c:130-135 | as written, a non-`+` byte while a run is pending enters the endless flush loop |
| Relay.LineByteToTerminal | hayes.c:141-144 | every byte read from the line is written to the terminal verbatim |
| Relay.RelayConserves | hayes.c:121-144 | while the relay runs, the line got exactly the terminal's bytes less the pending `+` run, and the terminal got exactly the line's bytes; once stopped, both are prefixes of what was sent |
| Relay.NoPlusIsTransparent | hayes.c:121-144 | with no `+` typed the relay never escapes nor hangs, and while it runs both directions are copied exactly |
| Relay.StoppedConsistently | hayes.c:111-135 | a session escapes only with three `+` pending and hangs only with a run pending |
| Relay.FourthPlusNeverEscapes | hayes.c:111-135 | once four `+` are counted the session can never return to command mode |
| Relay.EscapeFromAnyRunningState | hayes.c:111-129 | from any running state with no `+` pending that has seen a silence, or whose first `+` comes after one, three `+` and then any event a whole second later return to command mode, with none of the `+` sent and nothing else forwarded; the repaired relay does the same |
| Relay.EscapeSequenceDetected | hayes.c:96-129 | silence, `+++`, silence returns to command mode and sends none of the `+` to the line |
| Relay.PlusesWithoutSilenceAreData | hayes.c:125-139 | `+++` typed without a preceding silence is forwarded as data |
| Relay.RepairedStep | hayes.c:121-139 | one pass with the flush of a broken `+` run as intended; no contract of its own, its properties are in `RepairedRelayConserves` and `RepairOnlyChangesHangs` |
| Relay.StrayByteAfterPlusHangs | hayes.c:130-137 | silence, `+`, then any other byte: the loop as written hangs, while the repaired loop forwards `+` and the byte |
| Relay.RepairOnlyChangesHangs | hayes.c:130-137 | on every input where the loop as written does not hang, the repaired loop does exactly the same |
| Relay.RepairedRelayConserves | hayes.c:130-139 | the repaired relay never hangs, and it keeps the conservation guarantee of `RelayConserves` |
| Interpreter.Effect | hayes.c:293-311 | what a character that lets the scan go on does: a digit accumulates into the selected register, a selector selects and zeroes its register, `?` prints the help page, a space nothing; no contract of its own, its properties are in `SelectorThenDigits` and `DigitsWithoutRegister` |
| Interpreter.StopAction | hayes.c:277-316 | the action of the character that ends the scan; no contract of its own, its properties are in `EndingCommand`, `DialTakesRestOfLine`, `UnrecognisedCharacterIsError` and `PlainLineIsOk` |
| Interpreter.Commands | hayes.c:273-317 | the scan after `AT`: the effects of the characters before the first stop, then that stop's action; no contract of its own, its properties are in `CommandsStopAt` and the lemmas below |
| Interpreter.Interpret | hayes.c:261-317 | one command line, prefix check included; no contract of its own, its properties are in `NoAtPrefixIsError` and `AtPrefixRunsCommands` |
| Interpreter.SkipSpace | hayes.c:262-263 | the scan skips exactly the leading white space and stops at the first other character or at the NUL |
| Interpreter.FirstStop | hayes.c:275-317 | the index of the first character that ends the scan; every character before it lets the scan go on |
| Interpreter.CommandsStopAt | hayes.c:275-317 | the line's effect is that of the characters before the first stopping character, and its action is that character's |
| Interpreter.NoAtPrefixIsError | hayes.c:261-272 | a line that does not begin, after white space, with `A` then `T` in either case is ERROR and changes no register |
| Interpreter.AtPrefixRunsCommands | hayes.c:261-275 | after white space and `AT` in either case, exactly the characters after the `T` are executed |
| Interpreter.SelectorThenDigits | hayes.c:293-309 | `E`, `V` or `Q` followed by digits leaves that register selected and equal to the digits' decimal value (0 for no digits) |
| Interpreter.DigitsWithoutRegister | hayes.c:293-297 | digits with no register selected change nothing |
| Interpreter.LeadingDigitsIgnored | hayes.c:273-297 | the register is cleared at the start of each line, so digits before any selector have no effect |
| Interpreter.UnrecognisedCharacterIsError | hayes.c:312-317 | an unrecognised character makes the line ERROR; what came before it stays applied and nothing after it is looked at |
| Interpreter.EndingCommand | hayes.c:278-292 | `X`, `H` and `O` end the line with their action; nothing after them is scanned |
| Interpreter.DialTakesRestOfLine | hayes.c:284-286 | `D` ends the scan, and the dial argument is the C string after it |
| Interpreter.PlainLineIsOk | hayes.c:274-317 | a line with no stopping character before its end is OK, with the effects of all its characters |
| Interpreter.EchoTwelve | hayes.c:293-301 | `ATE12` sets echo to 12 and reports OK |
| Interpreter.EchoAloneIsZero | hayes.c:298-301 | `ate` sets echo to 0 and reports OK |
| Interpreter.UnknownLetterExample | hayes.c:261-317 | ` AT$` reports ERROR with the registers unchanged |
| Interpreter.StripDialPrefix | hayes.c:218-221 | the argument loses exactly one leading character, and does so exactly when that character is `T` or `P` in either case |
| Interpreter.ToneDialExample | hayes.c:284-286 | `ATDT555` dials the argument `T555` |
| Interpreter.ToneSelectorStripped | hayes.c:218-221 | `t555` runs as `555`, and `555` stays as it is |
| Interpreter.LineLength | hayes.c:253-258 | the length of the raw line: up to the first CR, at most 255 and at most what is available |
| Interpreter.RawLine | hayes.c:252-259 | the raw line holds no CR and is a prefix of the input; a CR that ends it is consumed; 255 characters fill the buffer; input that runs out first gives an incomplete read |
| Interpreter.ReadRawLine | hayes.c:252-259 | the reader's counted loop returns exactly what `RawLine` describes |
| Interpreter.RawLineRoundTrip | hayes.c:252-259 | a line shorter than 255 characters followed by CR reads back whole, leaving what follows the CR |
| Interpreter.FullLineLeavesCr | hayes.c:253-259 | a 255-character line fills the buffer and leaves its CR to the next read, which gives an empty line |
| Modem.Initial | hayes.c:35-47 | the globals as the program starts; no contract of its own, the constructor is proved to give it |
| Modem.HungUp | hayes.c:206-214 | `hangup()` on the state; no contract of its own, its properties are in `HangupIdempotent` and `HangupReleases` |
| Modem.Copied | hayes.c:85-160 | `copy()` on the state; no contract of its own, its properties are in `CopyWithoutLine`, `CopyForwards` and `CopyEndsWithLine` |
| Modem.Forked | hayes.c:222-224 | the state after `forkpty`; no contract of its own |
| Modem.Dialled | hayes.c:216-233 | `dial()` on the state; no contract of its own, its properties are in `DialHangsUpFirst`, `ChildRunsCommand`, `DialConnects` and `FailedDialIsSilent` |
| Modem.AfterLine | hayes.c:273-292 | the state after one command line and its ending command; no contract of its own, its properties are in the lemmas below |
| Modem.NextAfterLine | hayes.c:241-292 | what the command loop does after one line; no contract of its own, its properties are in the lemmas below |
| Modem.HangupIdempotent | hayes.c:206-214 | hang-up leaves no line and no child, and a second hang-up changes nothing, calls included |
| Modem.HangupReleases | hayes.c:206-214 | hang-up closes the line exactly when one is open and kills the child with signal 9 exactly when one exists, closing first; nothing else changes |
| Modem.CopyWithoutLine | hayes.c:85-86 | with no line, the relay returns at once and changes nothing |
| Modem.CopyForwards | hayes.c:121-144 | the relay only appends to the terminal and the line what they were sent, in order; while it runs, exactly that, less a pending `+` run |
| Modem.CopyEndsWithLine | hayes.c:145-156 | a line that fails is closed and forgotten; any other ending leaves the line open and makes no call |
| Modem.DialHangsUpFirst | hayes.c:216-228 | dialling first closes the old line and kills the old child; every later call concerns the new connection |
| Modem.ChildRunsCommand | hayes.c:225-229 | in the child of the fork the stripped argument is run as a command, nothing is printed, and the process ends |
| Modem.DialConnects | hayes.c:230-232 | a dial that gets a line prints CONNECT and then relays over the new line |
| Modem.FailedDialIsSilent | hayes.c:222-232 | a dial whose fork fails only hangs up, prints nothing, and is followed by OK |
| Modem.BadLineChangesNothing | hayes.c:261-272 | a line without the AT prefix changes no state and reports ERROR |
| Modem.ResumeWithoutLine | hayes.c:290-292 | `O` with no call up changes only what the line's registers and `?` did, and reports OK |
| Modem.ControlCommandsReportOk | hayes.c:284-292 | after `D`, `H` or `O` the next result printed is OK |
| Modem.ExitHangsUp | hayes.c:278-280 | `X` hangs up and leaves the command loop |
| Modem.Modem.constructor | hayes.c:35-47 | the globals start with all registers 0, no line and no child |
| Modem.Modem.Respond | hayes.c:173-188 | prints the response for the current `quiet` and `verbose` on the terminal |
| Modem.Modem.Hangup | hayes.c:206-214 | updates the state as `HungUp` does, logging the close and the kill |
| Modem.Modem.Copy | hayes.c:85-160 | the relay loop over the events leaves the state and the ending that the repaired session run gives |
| Modem.Modem.Pass | hayes.c:100-160 | one pass of the relay loop does exactly what one repaired step does, its writes included |
| Modem.Modem.Flush | hayes.c:132-135 | the flush of a broken run writes exactly as many `+` as were pending |
| Modem.Modem.Dial | hayes.c:216-233 | updates the state, and returns the ending, that `Dialled` and `DialResult` give |
| Modem.Modem.Store | hayes.c:296-309 | a write through `reg` changes only the selected register |
| Modem.Modem.ExecuteLine | hayes.c:261-272 | the scan of a line gives the registers, the action and the help output `Interpret` gives |
| Modem.Modem.ScanCommands | hayes.c:273-317 | the `do`/`while` loop gives the registers, the action and the help output `Commands` gives |
| Modem.Modem.Switch | hayes.c:276-316 | each character either ends the line with its action or has the effect `Effect` gives it |
| Modem.Modem.CommandLine | hayes.c:275-292 | one line, then its ending command, gives the state and the next step `AfterLine` and `NextAfterLine` give |

## Left out

- `select`, its 10 ms timeout, and `gettimeofday`: each pass of the relay
  loop is an `Event` carrying the whole seconds of the clock and what was
  readable. The microseconds are never compared.
- The actual `read` and `write` calls: what is written is appended to
  `screen` (the terminal) and `sent` (the line).
- The `echo == 0` path of the line reader (`fgets` and the termios
  switching, hayes.c:245-250). Only the raw reader is modelled.
- The outer `for (;;)` loop of `command()`, `main`, option parsing, the
  usage and sign-on text, and opening the terminal. `CommandLine` is one
  trip round that loop, and `Next` says what the loop does next.
- `setjmp` and `longjmp`: they become the returned `Action` and `Next`
  values.
- The errno classification of a failed line read: an event is either a
  transient failure (`LineRetry`) or a final one (`LineDown`).
- `forkpty`, `system`, `kill`, `close` and `exit`: `forkpty`'s outcome is a
  parameter (`Fork`), and the other calls become entries of the ghost
  `calls` log.
- The raw reader's end of input and `read` failures. The source ignores
  what `read` returns (hayes.c:254). At end of input or on an error `read`
  returns at once and leaves `c` as it was. The loop then stores that old
  character again, up to 255 times in all, or ends the line at once if it
  was a CR. Only a terminal that has no data yet makes `read` wait. The
  model instead returns an incomplete read when the input runs out before
  a CR.
- The contents of the help page are modelled, but not the `printf` calls
  that print it.
- Modem.Modem.Switch: for an unknown character the source writes a NUL
  over it so that the loop test fails. The model reports the ERROR action
  directly and does not write to the buffer.
- Modem.Modem.Switch: digits accumulate in an unbounded `int`. The source
  has no guard against signed overflow past `INT_MAX` (hayes.c:296).
- Modem.Modem.Copy: when the events run out while the session is still
  running, `Copy` returns (`StillRelaying`), where the source would go on
  waiting.
- Modem.Modem.Copy, Modem.Copied, Modem.Dialled, Modem.AfterLine,
  Modem.NextAfterLine, Modem.CopyForwards, Modem.DialConnects: all run the
  relay with the flush loop as evidently intended (`Relay.RepairedRun`).
  The loop as written is `Relay.Step`, whose hang is the `Diverged`
  outcome (see Findings).

## Findings

| source | as written | input that shows it | evidently intended | confidence | as-written member | corrected member |
|---|---|---|---|---|---|---|
| hayes.c:132-135 | `while (pcnt)` writes `+` to the line and never decrements `pcnt`, so it never ends | one second of silence, then `+`, then any byte other than `+` (also: a fourth `+` followed by any other byte) | write the pending `+` bytes once each, then the byte, and go on relaying; this is two changes to the source, as hayes.c:133 also overwrites `c` with `+`, so even a flush that decremented `pcnt` would make hayes.c:139 write `+` in place of the byte, and the repair writes the original byte | not executed | Relay.StrayByteAfterPlusHangs | Relay.RepairedRelayConserves |
