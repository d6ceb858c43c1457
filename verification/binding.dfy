/**
 * A binding groups a module's commands: each command is registered with its
 * usage pattern (such as `!add <name> <body..>`) and a help text, and
 * before a command runs, the request is checked against the pattern and its
 * arguments extracted. The command bodies themselves and the concurrent
 * dispatch to them are not part of this model.
 */
module Binding {
  import opened Wrappers
  import opened Text
  import opened IrcPrivmsg
  import opened Arguments
  import opened Callable

  /** Whether the binding was created around a receiver (`create`) or without one (`anonymous`). */
  datatype ThisKind = Stateful | Anonymous

  const NoReceiver: string := "bind_this requires a `this` receiver"

  /** `ThisKind::try_get_stateful`. */
  function TryGetStateful(receiver: ThisKind): (r: Result<()>)
    ensures r.Ok? <==> receiver == Stateful
    ensures r.Err? ==> r.error == NoReceiver
  {
    match receiver
    case Stateful => Ok(())
    case Anonymous => Err(NoReceiver)
  }

  /** A registered command: its usage, its help text and the argument pattern parsed from the usage. */
  datatype Bound = Bound(usage: string, help: string, pattern: seq<ArgType>)

  /** What `ExampleArgs::parse` makes of a usage. */
  function PatternOf(usage: string): Result<seq<ArgType>> {
    Scan(Split(usage, AsciiWhitespace), [])
  }

  class Binding {
    const receiver: ThisKind
    var commands: seq<Bound>
    var passives: nat

    /** `Binding::create`. */
    constructor Create()
      ensures receiver == Stateful && commands == [] && passives == 0
    {
      receiver := Stateful;
      commands := [];
      passives := 0;
    }

    /** `Binding::anonymous`. */
    constructor Anonymous()
      ensures receiver == ThisKind.Anonymous && commands == [] && passives == 0
    {
      receiver := ThisKind.Anonymous;
      commands := [];
      passives := 0;
    }

    /** `bind`: registers a command after its pattern parses; a bad pattern is an error and registers nothing. */
    method Bind(usage: string, help: string) returns (r: Result<()>)
      modifies this
      ensures passives == old(passives)
      ensures PatternOf(usage).Err? ==> r == Err(PatternOf(usage).error) && commands == old(commands)
      ensures PatternOf(usage).Ok? ==> r == Ok(()) && commands == old(commands) + [Bound(usage, help, PatternOf(usage).value)]
    {
      var pattern := Parse(usage);
      if pattern.Err? {
        return Err(pattern.error);
      }
      commands := commands + [Bound(usage, help, pattern.value)];
      return Ok(());
    }

    /** `bind_this`: as `bind`, and then the binding must have a receiver. */
    method BindThis(usage: string, help: string) returns (r: Result<()>)
      modifies this
      ensures passives == old(passives)
      ensures PatternOf(usage).Err? ==> r == Err(PatternOf(usage).error) && commands == old(commands)
      ensures PatternOf(usage).Ok? && receiver == ThisKind.Anonymous ==> r == Err(NoReceiver) && commands == old(commands)
      ensures PatternOf(usage).Ok? && receiver == Stateful ==>
        r == Ok(()) && commands == old(commands) + [Bound(usage, help, PatternOf(usage).value)]
    {
      var pattern := Parse(usage);
      if pattern.Err? {
        return Err(pattern.error);
      }
      var stateful := TryGetStateful(receiver);
      if stateful.Err? {
        return Err(stateful.error);
      }
      commands := commands + [Bound(usage, help, pattern.value)];
      return Ok(());
    }

    /** `listen`: adds a passive handler. */
    method Listen()
      modifies this
      ensures passives == old(passives) + 1 && commands == old(commands)
    {
      passives := passives + 1;
    }

    /** `listen_this`: adds a passive handler when the binding has a receiver. */
    method ListenThis() returns (r: Result<()>)
      modifies this
      ensures r == TryGetStateful(receiver)
      ensures commands == old(commands)
      ensures passives == old(passives) + (if receiver == Stateful then 1 else 0)
    {
      r := TryGetStateful(receiver);
      if r.Ok? {
        passives := passives + 1;
      }
    }

    /** `all_usage_and_help`: one pair per command, in the order they were bound. */
    function AllUsageAndHelp(): (r: seq<(string, string)>)
      reads this
      ensures |r| == |commands|
      ensures forall i :: 0 <= i < |r| ==> r[i] == (commands[i].usage, commands[i].help)
    {
      UsageAndHelp(commands)
    }

    /** `command_names`: the usage of every command, in order. */
    function CommandNames(): (r: seq<string>)
      reads this
      ensures |r| == |commands|
      ensures forall i :: 0 <= i < |r| ==> r[i] == commands[i].usage
    {
      Usages(commands)
    }
  }

  function UsageAndHelp(commands: seq<Bound>): (r: seq<(string, string)>)
    ensures |r| == |commands|
    ensures forall i :: 0 <= i < |r| ==> r[i] == (commands[i].usage, commands[i].help)
  {
    if commands == [] then [] else [(commands[0].usage, commands[0].help)] + UsageAndHelp(commands[1..])
  }

  function Usages(commands: seq<Bound>): (r: seq<string>)
    ensures |r| == |commands|
    ensures forall i :: 0 <= i < |r| ==> r[i] == commands[i].usage
  {
    if commands == [] then [] else [commands[0].usage] + Usages(commands[1..])
  }

  /** Binding one more command adds its usage and help at the end of the list. */
  lemma UsageAndHelpSnoc(commands: seq<Bound>, b: Bound)
    ensures UsageAndHelp(commands + [b]) == UsageAndHelp(commands) + [(b.usage, b.help)]
  {
    var r := UsageAndHelp(commands + [b]);
    assert forall i :: 0 <= i < |commands| ==> r[i] == UsageAndHelp(commands)[i];
  }

  /**
   * The text the arguments are read from: the request's text after its
   * command and the character that follows it, or nothing when the text is
   * only the command.
   */
  function ArgumentText(req: Request): (r: string)
    ensures req.data == req.Command() ==> r == []
    ensures req.data != req.Command() ==> req.data == req.Command() + [' '] + r
  {
    var head := if |req.Command()| + 1 < |req.data| then |req.Command()| + 1 else |req.data|;
    if req.data != req.Command() then
      assert req.data == req.data[..|req.Command()|] + [' '] + req.data[|req.Command()| + 1..];
      req.data[head..]
    else req.data[head..]
  }

  /**
   * `ExampleArgs::check_req`: for a request that opens with the command, the
   * extracted arguments, or a problem explaining the usage; for any other
   * request, an empty response.
   */
  function CheckReq(pattern: seq<ArgType>, command: string, req: Request): Either<map<string, string>, Response> {
    if !req.MatchCommand(command) then Right(Empty)
    else match Extract(pattern, ArgumentText(req))
      case Required => Right(req.Problem("an argument is required. usage: " + command))
      case NoMatch => Right(req.Problem("command did not match. usage: " + command))
      case Matched(args) => Left(args)
      case Exact => Left(map[])
  }

  /** The outcomes of `check_req` and the messages it reports. */
  lemma CheckReqOutcomes(pattern: seq<ArgType>, command: string, req: Request)
    ensures !req.MatchCommand(command) ==> CheckReq(pattern, command, req) == Right(Empty)
    ensures CheckReq(pattern, command, req).Right? && req.MatchCommand(command) ==>
      |CheckReq(pattern, command, req).right.kinds| == 1 &&
      CheckReq(pattern, command, req).right.kinds[0].Problem?
    ensures req.MatchCommand(command) && Extract(pattern, ArgumentText(req)) == Match.Required ==>
      CheckReq(pattern, command, req).right.kinds == [ResponseKind.Problem("an argument is required. usage: " + command)]
    ensures req.MatchCommand(command) && Extract(pattern, ArgumentText(req)) == NoMatch ==>
      CheckReq(pattern, command, req).right.kinds == [ResponseKind.Problem("command did not match. usage: " + command)]
    ensures CheckReq(pattern, command, req).Left? ==> CheckReq(pattern, command, req).left.Keys <= Keys(pattern)
  {
    if req.MatchCommand(command) {
      var input := ArgumentText(req);
      match Extract(pattern, input)
      case Matched(args) =>
        FillKeys(pattern, input, map[]);
      case _ =>
    }
  }

  /** A command without arguments matches exactly when nothing (beyond one space) follows it, and then has no arguments. */
  lemma CheckReqBare(command: string, req: Request)
    requires req.MatchCommand(command)
    ensures CheckReq([], command, req) ==
      if req.data == req.Command() || req.data == req.Command() + [' '] then Left(map[])
      else Right(req.Problem("command did not match. usage: " + command))
  {
  }

  /** A required argument must be present. */
  lemma CheckReqMissing(key: string, command: string, req: Request)
    requires req.MatchCommand(command) && req.data == req.Command()
    ensures CheckReq([ArgType(key, Kind.Required)], command, req).Right?
  {
    assert Contains([ArgType(key, Kind.Required)], Kind.Required) by {
      assert ArgType(key, Kind.Required) in [ArgType(key, Kind.Required)];
    }
  }
}
