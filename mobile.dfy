/** The control daemon of the BL600 Bluetooth modem: the two flags shared by the
    foreground command and the background task, the serial port set-up with its errno
    rule, the maintenance commands that talk AT to the modem, and main's dispatch. */
module Mobile {
  import opened LibC
  import opened AtBatch
  import opened Firmware
  import opened Dispatch

  /** What the calls open_serial makes report, in the order it makes them: the
      descriptor tty_open returns (-1 on failure) and the errno each failing call sets,
      and whatever errno dbg_perror and close leave behind. */
  datatype OpenOutcome = OpenOutcome(
    fd: int, openErrno: int,
    speedOk: bool, speedErrno: int,
    ctsOk: bool, ctsErrno: int,
    cleanupErrno: int)

  /** The port is usable: it opened, took 9600 baud and took RTS/CTS flow control. */
  predicate Configured(o: OpenOutcome) {
    o.fd != -1 && o.speedOk && o.ctsOk
  }

  /** The errno of the first call that failed; the calls after it are not made. */
  function FailureErrno(o: OpenOutcome): int
    requires !Configured(o)
  {
    if o.fd == -1 then o.openErrno else if !o.speedOk then o.speedErrno else o.ctsErrno
  }

  /** Everything main needs from the world it cannot see: how opening the serial port
      goes, the modem's answers to the AT commands in order, and whether task_spawn_cmd
      succeeds. */
  datatype Environment = Environment(port: OpenOutcome, answers: seq<Exchange>, spawnOk: bool)

  /** The size of the answer buffer of the three-argument exec_all_AT and of
      version_firmware_check. */
  const ANSWER_BUFFER_SIZE: nat := 32

  /** The command version_firmware_check sends. */
  const AT_I_3: seq<char> := "AT I 3"

  class Control {
    /** daemon_should_run: the foreground asks the relay loop to go on. */
    var daemonShouldRun: bool
    /** daemon_running: the background task holds the port and relays. */
    var daemonRunning: bool
    /** errno, as the calls below leave it. */
    var errno: int
    /** The AT commands sent to the modem so far, in order. */
    var sent: seq<seq<char>>

    /** The program starts with both flags clear. */
    constructor ()
      ensures !daemonShouldRun && !daemonRunning && sent == []
    {
      daemonShouldRun := false;
      daemonRunning := false;
      errno := 0;
      sent := [];
    }

    /** open_serial: open the tty, set 9600 baud, enable RTS/CTS; on failure close the
        port and give back -1 with the errno of the call that failed, whatever
        dbg_perror and close did to errno meanwhile. */
    method OpenSerial(o: OpenOutcome) returns (fd: int)
      modifies this
      ensures Configured(o) ==> fd == o.fd && fd != -1 && errno == old(errno)
      ensures !Configured(o) ==> fd == -1 && errno == FailureErrno(o)
      ensures daemonShouldRun == old(daemonShouldRun) && daemonRunning == old(daemonRunning)
      ensures sent == old(sent)
    {
      fd := o.fd;
      if fd == -1 {
        errno := o.openErrno;
      }
      var ok := fd != -1;
      if ok {
        ok := o.speedOk;
        if !ok {
          errno := o.speedErrno;
        }
      }
      if ok {
        ok := o.ctsOk;
        if !ok {
          errno := o.ctsErrno;
        }
      }
      if !ok {
        var trueErrno := errno;
        // dbg_perror and close may each overwrite errno
        errno := o.cleanupErrno;
        // close on the unique_file gives it back the invalid descriptor
        fd := -1;
        errno := trueErrno;
      }
    }

    /** maintenance_allowed: the modem may be used directly only while the daemon is not
        running, whatever the foreground has asked of it. */
    method MaintenanceAllowed() returns (ok: bool)
      ensures ok <==> !daemonRunning
    {
      ok := !daemonRunning;
    }

    /** exec_AT_verbose, which the model does not see inside: it sends the command and
        copies the answer into the buffer; `ex` is what the modem does. */
    method ExecATVerbose(command: seq<char>, ex: Exchange, buf: array<char>) returns (r: int)
      modifies this, buf
      ensures r == ex.result
      ensures buf[..] == Overlay(old(buf[..]), ex.written)
      ensures sent == old(sent) + [command]
      ensures daemonShouldRun == old(daemonShouldRun) && daemonRunning == old(daemonRunning)
      ensures errno == old(errno)
    {
      sent := sent + [command];
      var k := 0;
      while k < buf.Length && k < |ex.written|
        invariant 0 <= k <= buf.Length && k <= |ex.written|
        invariant forall j :: 0 <= j < buf.Length ==> buf[j] == (if j < k then ex.written[j] else old(buf[j]))
        invariant sent == old(sent) + [command] && errno == old(errno)
        invariant daemonShouldRun == old(daemonShouldRun) && daemonRunning == old(daemonRunning)
      {
        buf[k] := ex.written[k];
        k := k + 1;
      }
      r := ex.result;
    }

    /** The five-argument exec_all_AT: refused while the daemon runs, and when the port
        does not open; otherwise it sends the commands in order and stops after the
        first whose exchange reports -1. `answers[k]` is the modem's answer to
        `commands[k]`. */
    method ExecAllATInto(o: OpenOutcome, commands: seq<seq<char>>, answers: seq<Exchange>, buf: array<char>)
      returns (ok: bool)
      requires |answers| == |commands|
      modifies this, buf
      ensures old(daemonRunning) ==> !ok && sent == old(sent) && buf[..] == old(buf[..]) && errno == old(errno)
      ensures !old(daemonRunning) && !Configured(o) ==>
        !ok && sent == old(sent) && buf[..] == old(buf[..]) && errno == FailureErrno(o)
      ensures !old(daemonRunning) && Configured(o) ==>
        && (ok <==> BatchOk(answers))
        && sent == old(sent) + commands[..CommandsRun(answers)]
        && buf[..] == Replay(old(buf[..]), answers[..CommandsRun(answers)])
        && errno == old(errno)
      ensures daemonShouldRun == old(daemonShouldRun) && daemonRunning == old(daemonRunning)
    {
      var allowed := MaintenanceAllowed();
      if !allowed {
        return false;
      }
      var fd := OpenSerial(o);
      if fd == -1 {
        return false;
      }
      ghost var buf0, sent0 := buf[..], sent;
      var i := 0;
      while i < |commands|
        invariant 0 <= i <= |commands|
        invariant forall k :: 0 <= k < i ==> answers[k].result != -1
        invariant sent == sent0 + commands[..i]
        invariant buf[..] == Replay(buf0, answers[..i])
        invariant daemonShouldRun == old(daemonShouldRun) && daemonRunning == old(daemonRunning)
        invariant errno == old(errno)
      {
        var r := ExecATVerbose(commands[i], answers[i], buf);
        ReplayStep(buf0, answers, i);
        assert commands[..i + 1] == commands[..i] + [commands[i]];
        if r == -1 {
          FirstFailure(answers, i);
          return false;
        }
        i := i + 1;
      }
      assert answers[..i] == answers;
      assert commands[..i] == commands;
      return true;
    }

    /** The three-argument exec_all_AT: the same batch, with answers going to a fresh
        32-character buffer of NULs. */
    method ExecAllAT(o: OpenOutcome, commands: seq<seq<char>>, answers: seq<Exchange>) returns (ok: bool)
      requires |answers| == |commands|
      modifies this
      ensures ok <==> !old(daemonRunning) && Configured(o) && BatchOk(answers)
      ensures sent == old(sent) + (if !old(daemonRunning) && Configured(o) then commands[..CommandsRun(answers)] else [])
      ensures daemonShouldRun == old(daemonShouldRun) && daemonRunning == old(daemonRunning)
    {
      var buf := new char[ANSWER_BUFFER_SIZE](_ => '\0');
      ok := ExecAllATInto(o, commands, answers, buf);
    }

    /** version_firmware_check: ask the modem "AT I 3" into a buffer of NULs and pass
        only if the exchange succeeds, the record header is in the answer, four numbers
        follow it and they are at least the minimum firmware. */
    method VersionFirmwareCheck(o: OpenOutcome, answer: Exchange) returns (ok: bool)
      modifies this
      ensures var exchanged := !old(daemonRunning) && Configured(o) && answer.result != -1;
        ok <==> FirmwareVerdict(exchanged, Overlay(Zeros(ANSWER_BUFFER_SIZE), answer.written)).Ready?
      ensures sent == old(sent) + (if !old(daemonRunning) && Configured(o) then [AT_I_3] else [])
      ensures daemonShouldRun == old(daemonShouldRun) && daemonRunning == old(daemonRunning)
    {
      var buf := new char[ANSWER_BUFFER_SIZE](_ => '\0');
      ghost var zeros := buf[..];
      assert zeros == Zeros(ANSWER_BUFFER_SIZE);
      var exchanged := ExecAllATInto(o, [AT_I_3], [answer], buf);
      ghost var exchangedModel := !old(daemonRunning) && Configured(o) && answer.result != -1;
      assert exchanged == exchangedModel;
      if exchanged {
        assert [answer][..1] == [answer];
        assert buf[..] == Overlay(zeros, answer.written);
      }
      ok := CheckAnswer(buf, exchanged);
    }

    /** daemon: open the port, and when that fails report it and stop without ever
        claiming the port; otherwise mark the daemon running, relay while the foreground
        wants it to, then mark it stopped. The relay step is not modelled: `stopAfter`
        is how many steps pass before a `mobile stop` in the foreground asks the loop
        to end, which it can do only because the daemon is marked running. `heldAt`
        records daemon_running at every relay step, and `stopCode` is what that
        `mobile stop` returned. */
    method Daemon(o: OpenOutcome, stopAfter: nat) returns (code: int, relayed: nat, ghost heldAt: seq<bool>, ghost stopCode: int)
      modifies this
      ensures !Configured(o) ==>
        && code == 1 && relayed == 0 && heldAt == []
        && daemonRunning == old(daemonRunning) && daemonShouldRun == old(daemonShouldRun)
        && errno == FailureErrno(o)
      ensures Configured(o) ==>
        && code == 0 && !daemonRunning && !daemonShouldRun
        && relayed == (if old(daemonShouldRun) then stopAfter else 0)
        && |heldAt| == relayed
        && (forall k :: 0 <= k < |heldAt| ==> heldAt[k])
        && (old(daemonShouldRun) ==> stopCode == 0)
      ensures sent == old(sent)
    {
      heldAt := [];
      stopCode := 1;
      var fd := OpenSerial(o);
      if fd == -1 {
        return 1, 0, heldAt, stopCode;
      }
      daemonRunning := true;
      relayed := 0;
      while daemonShouldRun
        invariant daemonRunning && relayed <= stopAfter
        invariant sent == old(sent)
        invariant old(daemonShouldRun) || relayed == 0
        invariant daemonShouldRun ==> old(daemonShouldRun)
        invariant !daemonShouldRun && old(daemonShouldRun) ==> relayed == stopAfter && stopCode == 0
        invariant |heldAt| == relayed && forall k :: 0 <= k < |heldAt| ==> heldAt[k]
        decreases stopAfter - relayed, daemonShouldRun
      {
        if relayed == stopAfter {
          // `mobile stop`, run by the foreground meanwhile
          stopCode := Stop();
        } else {
          // one process_one_command step, with the port held
          heldAt := heldAt + [daemonRunning];
          relayed := relayed + 1;
        }
      }
      daemonRunning := false;
      return 0, relayed, heldAt, stopCode;
    }

    /** `mobile start TTY`: refused while the daemon runs; otherwise ask it to run and
        spawn it. A failed spawn returns -1 and leaves daemon_should_run set. */
    method Start(spawnOk: bool) returns (code: int)
      modifies this
      ensures old(daemonRunning) ==> code == 1 && daemonShouldRun == old(daemonShouldRun)
      ensures !old(daemonRunning) ==> daemonShouldRun && code == (if spawnOk then 0 else -1)
      ensures daemonRunning == old(daemonRunning) && errno == old(errno) && sent == old(sent)
    {
      if daemonRunning {
        return 1;
      }
      daemonShouldRun := true;
      // task_spawn_cmd; the spawned task is the Daemon method, run concurrently
      if !spawnOk {
        return -1;
      }
      return 0;
    }

    /** `mobile stop`: refused when the daemon is not running; otherwise it only asks
        the relay loop to end. */
    method Stop() returns (code: int)
      modifies this
      ensures !old(daemonRunning) ==> code == 1 && daemonShouldRun == old(daemonShouldRun)
      ensures old(daemonRunning) ==> code == 0 && !daemonShouldRun
      ensures daemonRunning == old(daemonRunning) && errno == old(errno) && sent == old(sent)
    {
      if !daemonRunning {
        return 1;
      }
      daemonShouldRun := false;
      return 0;
    }

    /** `mobile status`: reports both flags and changes nothing. */
    method Status() returns (shouldRun: bool, running: bool)
      ensures shouldRun == daemonShouldRun && running == daemonRunning
    {
      shouldRun := daemonShouldRun;
      running := daemonRunning;
    }

    /** main: dispatch on the argument vector and return the exit code. */
    method Run(args: seq<seq<char>>, env: Environment) returns (code: int)
      requires |env.answers| >= |args|
      modifies this
      ensures code == -1 || code == 0 || code == 1
      ensures daemonRunning == old(daemonRunning)
      ensures var c := SelectCommand(args);
        && (c.Usage? ==> code == 1)
        && (c.Start? ==> code == (if old(daemonRunning) then 1 else if env.spawnOk then 0 else -1))
        && (c.Status? ==> code == 0)
        && (c.Stop? ==> code == (if old(daemonRunning) then 0 else 1))
        && (c.Mode? ==> code == (if !old(daemonRunning) && (c.mode == "at" || c.mode == "default") then 0 else 1))
        && (c.At? ==>
              code == (if !old(daemonRunning) && Configured(env.port) && BatchOk(env.answers[..|c.commands|]) then 0 else 1))
        && (c.FirmwareVersion? ==>
              (var exchanged := !old(daemonRunning) && Configured(env.port) && env.answers[0].result != -1;
               var verdict := FirmwareVerdict(exchanged, Overlay(Zeros(ANSWER_BUFFER_SIZE), env.answers[0].written));
               code == (if !old(daemonRunning) && verdict.Ready? then 0 else 1)))
      ensures daemonShouldRun ==
        match SelectCommand(args)
        case Start(_) => old(daemonShouldRun) || !old(daemonRunning)
        case Stop => old(daemonShouldRun) && !old(daemonRunning)
        case _ => old(daemonShouldRun)
    {
      var c := SelectCommand(args);
      match c
      case Usage =>
        code := 1;
      case Start(_) =>
        code := Start(env.spawnOk);
      case Status =>
        var _, _ := Status();
        code := 0;
      case Stop =>
        code := Stop();
      case Mode(mode) =>
        var allowed := MaintenanceAllowed();
        if !allowed {
          code := 1;
        } else if mode == "at" || mode == "default" {
          // mode_AT and mode_default belong to the bl600 driver
          code := 0;
        } else {
          code := 1;
        }
      case At(_, commands) =>
        var ok := MaintenanceAllowed();
        if ok {
          ok := ExecAllAT(env.port, commands, env.answers[..|commands|]);
        }
        code := if ok then 0 else 1;
      case FirmwareVersion(_) =>
        var ok := MaintenanceAllowed();
        if ok {
          ok := VersionFirmwareCheck(env.port, env.answers[0]);
        }
        code := if ok then 0 else 1;
    }
  }

  /** A second `mobile start`, issued before the spawned daemon has opened the port,
      passes the daemon_running guard too and spawns another task. */
  method StartTwiceBeforeOpen() returns (first: int, second: int)
    ensures first == 0 && second == 0
  {
    var control := new Control();
    first := control.Start(true);
    second := control.Start(true);
  }

  /** When the daemon's open fails, daemon_should_run stays set and `mobile stop`
      refuses to clear it, because the daemon never ran. */
  method StopAfterFailedOpen(o: OpenOutcome) returns (daemonCode: int, stopCode: int, shouldRun: bool)
    requires !Configured(o)
    ensures daemonCode == 1 && stopCode == 1 && shouldRun
  {
    var control := new Control();
    var startCode := control.Start(true);
    var relayed;
    ghost var heldAt, innerStop;
    daemonCode, relayed, heldAt, innerStop := control.Daemon(o, 0);
    stopCode := control.Stop();
    shouldRun := control.daemonShouldRun;
  }
}
