# BL600 modem control daemon — a Dafny model

The `mobile` command on the EdgeWing flight controller runs the BL600 Bluetooth modem
that links the vehicle to a phone. `mobile start TTY` spawns a background daemon, which
opens the serial port and relays commands until `mobile stop` asks it to end. The
maintenance commands talk AT to the modem directly. `mobile at TTY cmd...` sends a batch
of AT commands that fails fast. `mobile firmware-version TTY` asks the modem "AT I 3"
and checks that its firmware is at least 1.8.88.0. Both are refused while the daemon
holds the port.

The model follows `src/modules/mobile/main.cpp`:

- `libc.dfy` (module `LibC`) gives the C library behaviour the code relies on.
  - `strtoul` with base 0, in a 32-bit `unsigned long`: octal after a leading `0`,
    hex after `0x`, an optional sign, leading white space, saturation at `ULONG_MAX`,
    and a `-` that negates in the unsigned type.
  - `strstr`.
  - Reading a NUL-terminated string out of a `char` buffer.
- `strtok.dfy` (module `Strtok`) models `strtok_r`.
  - `Strtok.StrtokR` is an in-place method on an `array<char>`. It writes a NUL over
    the delimiter that ends the token.
  - It is specified by the function `Strtok.StrtokCall`.
  - The whole token sequence is `Strtok.Tokens`, which has lemmas about splitting,
    shifting and stopping at NUL.
- `firmware.dfy` (module `Firmware`) models the firmware gate: both `parse_uint`s,
  `version_firmware_parse` (a loop over the buffer), `version_firmware_compare_le` and
  the stages of `version_firmware_check`.
  - The gate's outcome is the specification function `Firmware.FirmwareVerdict`.
- `at_batch.dfy` (module `AtBatch`) defines the fail-fast batch of AT exchanges: which
  commands run, and what the answer buffer ends up holding.
- `dispatch.dfy` (module `Dispatch`) is main's choice of command from the argument
  vector.
- `mobile.dfy` (module `Mobile`) holds the class `Control`. Its fields are the two
  global flags `daemon_should_run` and `daemon_running`, `errno`, and the sequence of
  AT commands sent to the modem. Its methods are `open_serial`, `maintenance_allowed`,
  both `exec_all_AT`s, `version_firmware_check`, the daemon body, the start, stop and
  status branches, and `main` itself.

The world outside the program is passed in as parameters:

- `Mobile.OpenOutcome` says how each of `tty_open`, `tty_set_speed` and
  `tty_use_ctsrts` goes.
- `AtBatch.Exchange` gives what `exec_AT_verbose` returns and the bytes it leaves in
  the buffer.
- `Mobile.Environment` says whether `task_spawn_cmd` succeeds.

## Model

| member | source | states |
|---|---|---|
| Mobile.Control.constructor | src/modules/mobile/main.cpp:28-29 | both flags start false and nothing has been sent |
| Mobile.Control.OpenSerial | src/modules/mobile/main.cpp:31-47 | on success it returns the opened descriptor with errno untouched; on failure it returns -1 with errno equal to the errno of the first failing call (open, speed or flow control), even though the cleanup overwrote errno; it changes neither flag |
| Mobile.Control.MaintenanceAllowed | src/modules/mobile/main.cpp:79-84 | true exactly when the daemon is not running, whatever daemon_should_run says; changes nothing |
| Mobile.Control.ExecATVerbose | src/modules/mobile/main.cpp:104 | the exchange as an oracle: it appends the command to the sent transcript, returns the modem's result and overlays the answer on the buffer start, truncated to the buffer |
| Mobile.Control.ExecAllATInto | src/modules/mobile/main.cpp:86-109 | while the daemon runs: false, nothing sent, the buffer untouched; when the port does not open: false, nothing sent, errno from the failed open; otherwise exactly the commands up to and including the first failing one are sent, in order, the buffer holds their answers laid over one another, and the result is true iff no exchange returned -1 |
| Mobile.Control.ExecAllAT | src/modules/mobile/main.cpp:111-117 | true iff the daemon is not running, the port opens and no exchange fails; the commands sent are those of the five-argument form |
| Mobile.Control.VersionFirmwareCheck | src/modules/mobile/main.cpp:174-215 | sends "AT I 3" only when the batch may open the port, and returns true iff the verdict on the answer left in a 32-character NUL buffer is Ready |
| Mobile.Control.Daemon | src/modules/mobile/main.cpp:49-77 | on a failed open it returns 1 with both flags untouched, so daemon_running is never set, and errno from the open; otherwise daemon_running holds at every relay step (`heldAt`), the `mobile stop` that ends the loop succeeds because the daemon is marked running, and it returns 0 with both flags cleared |
| Mobile.StartTwiceBeforeOpen | src/modules/mobile/main.cpp:244-265 | two `mobile start`s on a fresh state both return 0, because the guard reads only daemon_running, which the spawned task has not set yet |
| Mobile.StopAfterFailedOpen | src/modules/mobile/main.cpp:55-58 | after a start whose daemon fails to open the port, the daemon returns 1, daemon_should_run stays set, and `mobile stop` refuses with 1 (lines 276-280) |
| Mobile.Control.Start | src/modules/mobile/main.cpp:244-265 | while the daemon runs: 1, flags unchanged; otherwise daemon_should_run is set and the code is 0, or -1 when the spawn fails (should_run stays set) |
| Mobile.Control.Stop | src/modules/mobile/main.cpp:274-282 | when the daemon is not running: 1, flags unchanged; otherwise 0 with daemon_should_run cleared and daemon_running left alone |
| Mobile.Control.Status | src/modules/mobile/main.cpp:266-273 | reports both flags and changes nothing |
| Mobile.Control.Run | src/modules/mobile/main.cpp:235-318 | the exit code of every command (usage 1, start 1/0/-1, status 0, stop 0/1, mode 0 only for "at" or "default" with the daemon stopped, at and firmware-version 0 only when the maintenance work succeeds); main never changes daemon_running, and daemon_should_run changes only through start and stop |
| Dispatch.SelectCommand | src/modules/mobile/main.cpp:238-315 | each command is chosen iff its argument count and name match (start 3, status 2, stop 2, mode 3, at more than 3, firmware-version 3 or 4); everything else is usage; the chosen command carries the tty, mode and commands from the right positions |
| Dispatch.SelectInvocation | src/modules/mobile/main.cpp:244-310 | every command is selected by its own invocation, so the dispatch is onto |
| Dispatch.FirmwareVersionIgnoresExtra | src/modules/mobile/main.cpp:305-310 | a fourth argument to firmware-version is accepted and ignored |
| Dispatch.WrongArityIsUsage | src/modules/mobile/main.cpp:244-315 | a known command name with the wrong argument count falls through to usage |
| AtBatch.CommandsRun | src/modules/mobile/main.cpp:100-106 | the batch runs commands up to and including the first whose exchange returns -1, or all of them when none does |
| AtBatch.BatchOkIffAllRan | src/modules/mobile/main.cpp:100-108 | the batch succeeds iff it ran every command and the last did not fail |
| AtBatch.FailureStopsBatch | src/modules/mobile/main.cpp:105 | once a command fails, no later command of the batch is run, however many follow |
| AtBatch.FirstFailure | src/modules/mobile/main.cpp:105 | a failure at position i, with none before it, runs exactly i + 1 commands |
| AtBatch.ReplayStep | src/modules/mobile/main.cpp:100-106 | the buffer after i + 1 commands is the buffer after i with the next answer laid over it |
| AtBatch.Overlay | src/modules/mobile/main.cpp:104 | an answer overwrites the buffer start, and the bytes past its length keep their old value |
| AtBatch.OverlayHides | src/modules/mobile/main.cpp:100-106 | a longer answer hides a shorter earlier one completely |
| LibC.Strtoul | src/modules/mobile/main.cpp:123 | the end never passes the string; nothing consumed means value 0; anything consumed ends on a digit |
| LibC.StrtoulDecimal | src/modules/mobile/main.cpp:123 | a decimal numeral in range, followed by a non-digit other than x, converts to its value and consumes exactly the numeral |
| LibC.StrtoulLeadingZeroIsOctal | src/modules/mobile/main.cpp:123 | base 0 reads "010" as octal 8, and reads only the "0" of "088" |
| LibC.StrtoulNegativeWraps | src/modules/mobile/main.cpp:123 | "-1" converts to ULONG_MAX and consumes both characters |
| LibC.DecimalStringValue | src/modules/mobile/main.cpp:123 | the decimal numeral of n has value n |
| LibC.Strstr | src/modules/mobile/main.cpp:192 | finds the pattern iff it occurs, at its first occurrence |
| LibC.CString | src/modules/mobile/main.cpp:192 | the string read from a buffer is its NUL-free prefix, ending at the first NUL or the buffer end |
| LibC.CStringKeepsPrefix | src/modules/mobile/main.cpp:192 | a NUL-free start of a buffer survives into the string read from it |
| Strtok.StrtokR | src/modules/mobile/main.cpp:144-152 | one strtok_r call on the array is exactly StrtokCall: the next token, the resume position and the buffer with the delimiter ending the token replaced by NUL |
| Strtok.NextToken | src/modules/mobile/main.cpp:144-152 | a token found lies after the scan start, is non-empty, and ends at a delimiter or the end of the string |
| Strtok.NextTokenIsToken | src/modules/mobile/main.cpp:144-152 | the token found holds no delimiter and no NUL |
| Strtok.TokensAreTokens | src/modules/mobile/main.cpp:144-153 | every token of the sequence is non-empty and free of delimiters and NUL |
| Strtok.TokensSplit | src/modules/mobile/main.cpp:141-152 | the tokens of a + delimiter + b are the tokens of a followed by those of b |
| Strtok.TokensStopAtNul | src/modules/mobile/main.cpp:144-152 | tokenising stops at the first NUL: whatever follows it is never seen |
| Strtok.TokensShift | src/modules/mobile/main.cpp:199-200 | tokenising from a position inside a longer buffer gives the tokens of the rest |
| Strtok.NextTokenAgree | src/modules/mobile/main.cpp:152 | the next token depends only on the characters from the resume position on, so the NULs written before it do not matter |
| Strtok.SingleToken | src/modules/mobile/main.cpp:144-152 | a word without separators is one token |
| Strtok.LeadingDelimiterSkipped | src/modules/mobile/main.cpp:144 | leading separators are skipped |
| Strtok.DelimiterRunCollapses | src/modules/mobile/main.cpp:141-152 | a run of two separators splits like a single one, so no empty token appears |
| Firmware.ParseUintTail | src/modules/mobile/main.cpp:119-126 | succeeds iff strtoul consumed at least one character, and then the last consumed is a digit |
| Firmware.ParseUint | src/modules/mobile/main.cpp:128-135 | succeeds only on a non-empty string that ends in a digit, meaning strtoul stopped at the terminator |
| Firmware.ParseUintDecimal | src/modules/mobile/main.cpp:128-135 | every decimal numeral up to ULONG_MAX parses to its value |
| Firmware.ParseUintRejectsTrailing | src/modules/mobile/main.cpp:132 | a numeral followed by any non-digit is refused |
| Firmware.ParseUintLeadingZero | src/modules/mobile/main.cpp:128-135 | "088" is refused and "010" parses to 8 |
| Firmware.VersionFirmwareParse | src/modules/mobile/main.cpp:137-155 | true iff the first four tokens exist and all parse, and then v holds their values; false at the first token that does not parse or when tokens run out; tokens after the fourth are never looked at; the buffer differs from the input only by NULs written over separators |
| Firmware.ProgressParse | src/modules/mobile/main.cpp:147-150 | a token that does not parse decides the result is false; the fourth that parses decides it is true with the four values |
| Firmware.ProgressEnd | src/modules/mobile/main.cpp:145-154 | running out of tokens before four means false |
| Firmware.VersionFieldsOfDotted | src/modules/mobile/main.cpp:137-155 | "a.b.c.d" followed by nothing, NUL, "\r\n" or any separator parses to [a, b, c, d] |
| Firmware.DottedTokens | src/modules/mobile/main.cpp:141-152 | the first four tokens of "a.b.c.d" plus such a tail are the four numerals |
| Firmware.CompareLe | src/modules/mobile/main.cpp:157-172 | the nested comparison as written; equal versions pass, a pass never has a lower first field, and a higher first field passes whatever follows |
| Firmware.CompareLeIsLex | src/modules/mobile/main.cpp:157-172 | the comparison is exactly lexicographic less-or-equal on four fields, both directions |
| Firmware.CompareLeBoundaries | src/modules/mobile/main.cpp:157-172 | 1.8.88.0 passes against itself; 1.8.87.x, 1.7.x.x and 0.x.x.x fail; 1.8.88.x, 1.8.89.x, 1.9.x.x and 2.x.x.x pass |
| Firmware.FirmwareVerdict | src/modules/mobile/main.cpp:186-212 | the gate fails at the exchange iff the exchange failed, fails on shape iff the header "10\t3\t" is missing from the answer (then no parse or compare happens), and when a version is read it passes iff the version is at least 1.8.88.0 |
| Firmware.CheckAnswer | src/modules/mobile/main.cpp:190-214 | strstr, version_firmware_parse after the header, and the comparison, each only if the stage before succeeded, return true iff the verdict is Ready |
| Firmware.VerdictOfAnswer | src/modules/mobile/main.cpp:186-214 | an answer of the header, "a.b.c.d" and an ending tail yields that version, and passes iff it is at least the minimum |
| Firmware.VerdictAfterHeader | src/modules/mobile/main.cpp:190-200 | an answer that starts with the header has it found at 0, and parsing starts right after it |
| Firmware.AnswerAtMinimum | src/modules/mobile/main.cpp:177-212 | the answer "10\t3\t1.8.88.0" is ready to work |
| Firmware.AnswerOneBuildLow | src/modules/mobile/main.cpp:177-212 | the answer "10\t3\t1.8.87.0" needs an upgrade |
| Firmware.AnswerWithoutHeader | src/modules/mobile/main.cpp:190-195 | an "ERROR 1" answer fails on shape |
| Firmware.AnswerWithLetter | src/modules/mobile/main.cpp:197-205 | "10\t3\t1.8.x" is malformed, because a token that does not parse fails the gate |
| Firmware.AnswerWithNegativeField | src/modules/mobile/main.cpp:119-135 | "10\t3\t1.8.-1.0" reads as 1.8.ULONG_MAX.0 and passes the gate |

## Left out

- Messages on stdout and stderr (`printf`, `fprintf`, `dbg`, `dbg_perror`, `perror`, usage) are not modelled. That includes printing `v4` at line 204, which can print uninitialised fields after a failed parse.
- The internals of `tty_open`, `tty_set_speed`, `tty_use_ctsrts` and `close` are not modelled. What each reports is an `OpenOutcome` parameter, and `close` is taken to leave the descriptor at -1.
- The internals of `exec_AT_verbose` (at.hpp), `DevLog` and `make_it_blocking` are not modelled. An exchange is an oracle giving the result and the bytes written into the buffer. It does not change errno or the flags.
- `process_one_command` is not part of this model. The relay loop counts abstract steps, and `stopAfter` stands for the moment a `mobile stop` in the foreground clears `daemon_should_run`.
- `task_spawn_cmd` and real concurrency are not modelled. A spawn is a boolean parameter. The daemon is a separate method whose interleaving with the foreground is reduced to `stopAfter`. Memory ordering of the unsynchronised flags is out of scope.
- `mode_AT` and `mode_default` belong to the bl600 driver, which is not part of this model. Both count as done.
- Device names are carried in the commands but not interpreted. The outcome of opening one is a parameter.
- The `unique_file` destructor that closes the port at scope exit is not modelled. There is no descriptor table.
- LibC.Strtoul: it follows ISO C for a 32-bit `unsigned long`. It does not set `ERANGE` on overflow, and it does not model the NuttX C library's own deviations.
- LibC.CString: the string stops at the buffer end when the buffer has no NUL. In C, `strstr` would read past the 32-byte buffer in that case.
- Mobile.Control.ExecAllATInto: errno after a successful open is taken as unchanged by the exchanges.
- Mobile.Control.OpenSerial: on success errno is taken as unchanged, on the assumption that `tty_open`, `tty_set_speed` and `tty_use_ctsrts` leave it alone when they succeed; the code does not rely on errno in that case.

## Code and design

Where the design description and the code differ, the model follows the code:

- `mobile start` sets `daemon_should_run` before spawning and does not clear it when the spawn fails (lines 252-264). The design says that state is unchanged then. `Mobile.Control.Start` keeps the flag set.
- `parse_uint` uses base 0, so each version field accepts more than a plain decimal:
  - leading white space and a sign are accepted;
  - `0x` introduces hex;
  - a leading `0` introduces octal, so "088" is rejected;
  - a minus sign negates in the unsigned type, so "-1" is `ULONG_MAX`, and a version field "-1" passes the minimum (`Firmware.AnswerWithNegativeField`).
- The start guard reads only `daemon_running` (line 246), which the spawned task sets only after it has opened the port. A second `mobile start` issued before then, or after the daemon's open failed, is accepted and spawns another task; the design says a second start is refused (`Mobile.StartTwiceBeforeOpen`).
- When the daemon's open fails (lines 55-58), `daemon_should_run` stays set, and `mobile stop` refuses to clear it because the daemon is not running (lines 276-280) (`Mobile.StopAfterFailedOpen`).
- `firmware-version` accepts a fourth argument and ignores it (line 305).
- `at` and `firmware-version` check `maintenance_allowed` twice: once in `main` and once inside `exec_all_AT`. Both checks are modelled, and they read the same flag.
