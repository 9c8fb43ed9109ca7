/** The command line of the `mobile` program: which branch of main an argument
    vector selects. */
module Dispatch {

  /** The branches of main. `Usage` stands for every vector main rejects with the
      usage text; the mode name is checked inside its branch, not here. */
  datatype Command =
    | Usage
    | Start(tty: seq<char>)
    | Status
    | Stop
    | Mode(mode: seq<char>)
    | At(tty: seq<char>, commands: seq<seq<char>>)
    | FirmwareVersion(tty: seq<char>)

  /** The branch main takes for `args` (argv, the program name first). The branches are
      tried in the order of the source, each on its argument count and argv[1]. */
  function SelectCommand(args: seq<seq<char>>): (c: Command)
    ensures |args| < 2 ==> c == Usage
    ensures c.Start? <==> |args| == 3 && args[1] == "start"
    ensures c.Status? <==> |args| == 2 && args[1] == "status"
    ensures c.Stop? <==> |args| == 2 && args[1] == "stop"
    ensures c.Mode? <==> |args| == 3 && args[1] == "mode"
    ensures c.At? <==> |args| > 3 && args[1] == "at"
    ensures c.FirmwareVersion? <==> (|args| == 3 || |args| == 4) && args[1] == "firmware-version"
    ensures c.Start? || c.Mode? || c.At? || c.FirmwareVersion? ==> |args| >= 3
    ensures c.Start? ==> c.tty == args[2]
    ensures c.Mode? ==> c.mode == args[2]
    ensures c.At? ==> c.tty == args[2] && c.commands == args[3..] && c.commands != []
    ensures c.FirmwareVersion? ==> c.tty == args[2]
  {
    if |args| < 2 then Usage
    else if |args| == 3 && args[1] == "start" then Start(args[2])
    else if |args| == 2 && args[1] == "status" then Status
    else if |args| == 2 && args[1] == "stop" then Stop
    else if |args| == 3 && args[1] == "mode" then Mode(args[2])
    else if |args| > 3 && args[1] == "at" then At(args[2], args[3..])
    else if (|args| == 3 || |args| == 4) && args[1] == "firmware-version" then FirmwareVersion(args[2])
    else Usage
  }

  /** The argument vector that asks for command `c`, under program name `name`. */
  function Invocation(name: seq<char>, c: Command): seq<seq<char>>
  {
    match c
    case Usage => [name]
    case Start(tty) => [name, "start", tty]
    case Status => [name, "status"]
    case Stop => [name, "stop"]
    case Mode(mode) => [name, "mode", mode]
    case At(tty, commands) => [name, "at", tty] + commands
    case FirmwareVersion(tty) => [name, "firmware-version", tty]
  }

  /** Every command main accepts is selected by the vector that spells it out. */
  lemma SelectInvocation(name: seq<char>, c: Command)
    requires c.At? ==> c.commands != []
    ensures SelectCommand(Invocation(name, c)) == c
  {
    if c.At? {
      assert Invocation(name, c)[3..] == c.commands;
    }
  }

  /** firmware-version takes an optional fourth argument, which it ignores. */
  lemma FirmwareVersionIgnoresExtra(name: seq<char>, tty: seq<char>, extra: seq<char>)
    ensures SelectCommand([name, "firmware-version", tty, extra]) == FirmwareVersion(tty)
  {
  }

  /** A subcommand with the wrong number of arguments gets the usage text. */
  lemma WrongArityIsUsage(name: seq<char>, x: seq<char>)
    ensures SelectCommand([name, "start"]) == Usage
    ensures SelectCommand([name, "stop", x]) == Usage
    ensures SelectCommand([name, "at", x]) == Usage
    ensures SelectCommand([name, "firmware-version"]) == Usage
  {
  }
}
