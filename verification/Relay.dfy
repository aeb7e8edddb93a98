/** The client's command line on its way to the daemon: joined by spaces there, taken apart again here. */
module Relay {
  import opened Sequences
  import opened Strings
  import CmdLine

  const SPACE: string := " "

  class CommandLine {
    var argv: seq<string>

    constructor (argv: seq<string>)
      ensures this.argv == argv
    {
      this.argv := argv;
    }

    /** Every argument, and a space behind each but the last. */
    method GetCmdLine() returns (s: string)
      ensures s == Join(SPACE, argv)
    {
      s := "";
      ghost var all := Join(SPACE, argv);
      assert argv[0..] == argv;
      for i := 0 to |argv|
        invariant s + Join(SPACE, argv[i..]) == all
      {
        Behind(argv, i, s);
        s := s + argv[i];
        if i != |argv| - 1 {
          s := s + SPACE;
        }
      }
    }

    /** Reads line by line until the stream is at its end. */
    method SetCmdLine(cmdLine: string)
      modifies this
      ensures argv == Pieces(SPACE, cmdLine)
    {
      argv := [];
      ghost var all := Pieces(SPACE, cmdLine);
      var pos := 0;
      assert cmdLine[0..] == cmdLine;
      while pos < |cmdLine|
        invariant pos <= |cmdLine| && argv + Pieces(SPACE, cmdLine[pos..]) == all
      {
        var arg, next := GetLine(cmdLine, pos);
        Associate(argv, [arg], Pieces(SPACE, cmdLine[next..]));
        argv := argv + [arg];
        pos := next;
      }
    }
  }

  /** What getline reads from a position: up to the next space, which it consumes, or to the end. */
  method GetLine(s: string, pos: nat) returns (arg: string, next: nat)
    requires pos < |s|
    ensures pos < next <= |s|
    ensures Pieces(SPACE, s[pos..]) == [arg] + Pieces(SPACE, s[next..])
  {
    var n := First(SPACE, s[pos..]);
    arg, next := s[pos..pos + n], if pos + n < |s| then pos + n + 1 else |s|;
    Slices(s, pos, n);
    Slices(s, pos, next - pos);
    FirstPiece(s[pos..], n, arg, s[next..]);
  }

  lemma {:induction false} Behind(argv: seq<string>, i: nat, now: string)
    requires i < |argv|
    ensures i != |argv| - 1 ==> now + argv[i] + SPACE + Join(SPACE, argv[i + 1..]) == now + Join(SPACE, argv[i..])
    ensures i == |argv| - 1 ==> now + argv[i] + Join(SPACE, argv[i + 1..]) == now + Join(SPACE, argv[i..])
  {
  }

  lemma {:induction false} FirstPiece(s: string, n: nat, arg: string, rest: string)
    requires s != "" && n == Cut(SPACE, s) && arg == s[..n] && rest == if n < |s| then s[n + 1..] else ""
    ensures Pieces(SPACE, s) == [arg] + Pieces(SPACE, rest)
  {
  }

  /** The daemon gets the client's arguments back exactly if none has a space in it and the last is not empty. */
  lemma {:induction false} RelayExactly(args: seq<string>)
    ensures Pieces(SPACE, Join(SPACE, args)) == args <==>
            Free(' ', args) && (args == [] || args[|args| - 1] != "")
  {
    PiecesJoinExactly(' ', args);
  }

  /** The relay as it runs: the client's list, the line, the daemon's list. */
  method Relayed(args: seq<string>) returns (received: seq<string>)
    ensures received == args <==> Free(' ', args) && (args == [] || args[|args| - 1] != "")
  {
    var client := new CommandLine(args);
    var line := client.GetCmdLine();
    var daemon := new CommandLine([]);
    daemon.SetCmdLine(line);
    received := daemon.argv;
    RelayExactly(args);
  }

  /**
   * Client and daemon, each with its own parser behind the same getopt: from a list that survives the relay they take
   * the same command, or none.
   */
  method ParsedTwice(args: seq<string>, getopt: seq<string> -> seq<CmdLine.Token>)
    returns (here: CmdLine.Option<CmdLine.Command>, there: CmdLine.Option<CmdLine.Command>)
    ensures here == CmdLine.Accepted(CmdLine.START, getopt(args))
    ensures there == CmdLine.Accepted(CmdLine.START, getopt(Pieces(SPACE, Join(SPACE, args))))
    ensures Free(' ', args) && (args == [] || args[|args| - 1] != "") ==> here == there
  {
    var client := new CmdLine.CmdLineParser();
    var ok := client.Parse(getopt(args));
    here := if ok then CmdLine.Some(client.command) else CmdLine.None;
    var line := new CommandLine(args);
    var sent := line.GetCmdLine();
    var received := new CommandLine([]);
    received.SetCmdLine(sent);
    var daemon := new CmdLine.CmdLineParser();
    ok := daemon.Parse(getopt(received.argv));
    there := if ok then CmdLine.Some(daemon.command) else CmdLine.None;
    RelayExactly(args);
  }
}
