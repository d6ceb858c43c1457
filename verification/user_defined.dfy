/**
 * The chat commands that manage user-defined commands (`!add`, `!update`,
 * `!remove`, `!alias`, `!commands`) and the passive handler that answers a
 * user-defined command. Names are quoted in single quotes in every reply.
 * A failed check is either an error (the request is refused) or a problem
 * reported back to the sender.
 */
module UserDefined {
  import opened Wrappers
  import opened Text
  import opened Util
  import opened Callable
  import opened CommandState
  import Arguments
  import Builtin

  const Elevation: string := "that requires you to be a moderator or the broadcaster"
  const NoPrefix: string := "you must prefix commands with !"
  const NoName: string := "the command name cannot be empty"
  const NoBody: string := "the command body cannot be empty"

  /** How a name or body is shown in a reply: between single quotes. */
  function Q(s: string): string {
    Quoted(Single(s))
  }

  /** `validate_command`: a name must start with `!` and have something after it. */
  function ValidateCommand(name: string): (r: Result<string>)
    ensures r.Ok? <==> |name| > 1 && name[0] == '!'
    ensures r.Ok? ==> r.value == name
    ensures (name == [] || name[0] != '!') ==> r == Err(NoPrefix)
    ensures name == "!" ==> r == Err(NoName)
  {
    if name == [] || name[0] != '!' then Err(NoPrefix)
    else if |name| <= 1 then Err(NoName)
    else Ok(name)
  }

  /** A command name taken from the arguments under `key` and validated. */
  function NameArg(req: Request, key: string): Result<string> {
    match Arguments.Get(req.args, key)
    case Err(e) => Err(e)
    case Ok(name) => ValidateCommand(name)
  }

  /** The body taken from the arguments; an empty body is refused. */
  function BodyArg(req: Request): Result<string> {
    match Arguments.Get(req.args, "body")
    case Err(e) => Err(e)
    case Ok(body) => if body == [] then Err(NoBody) else Ok(body)
  }

  /** The checks of `add` and `update`, in order: elevation, then the name, then the body. */
  function NameAndBody(req: Request): Result<(string, string)> {
    match req.RequireElevation()
    case Err(e) => Err(e)
    case Ok(_) =>
      match NameArg(req, "name")
      case Err(e) => Err(e)
      case Ok(name) =>
        match BodyArg(req)
        case Err(e) => Err(e)
        case Ok(body) => Ok((name, body))
  }

  /** The checks of `remove`: elevation, then the name. */
  function NameOnly(req: Request): Result<string> {
    match req.RequireElevation()
    case Err(e) => Err(e)
    case Ok(_) => NameArg(req, "name")
  }

  /** The checks of `alias`: elevation, then both names. */
  function FromAndTo(req: Request): Result<(string, string)> {
    match req.RequireElevation()
    case Err(e) => Err(e)
    case Ok(_) =>
      match NameArg(req, "from")
      case Err(e) => Err(e)
      case Ok(from) =>
        match NameArg(req, "to")
        case Err(e) => Err(e)
        case Ok(to) => Ok((from, to))
  }

  /**
   * Every managing command is refused to a sender who is neither a moderator
   * nor the broadcaster, before any argument is looked at.
   */
  lemma ElevationFirst(req: Request)
    requires !req.IsFromModerator() && !req.IsFromBroadcaster()
    ensures NameAndBody(req) == Err(Elevation)
    ensures NameOnly(req) == Err(Elevation)
    ensures FromAndTo(req) == Err(Elevation)
  {
  }

  /**
   * For an elevated sender, the checks pass exactly when the arguments hold
   * a valid name and a non-empty body, and an empty body is refused with its
   * own message.
   */
  lemma NameAndBodyAccepts(req: Request)
    requires req.IsFromModerator() || req.IsFromBroadcaster()
    ensures NameAndBody(req).Ok? <==>
      "name" in req.args && ValidateCommand(req.args["name"]).Ok? && "body" in req.args && req.args["body"] != []
    ensures NameAndBody(req).Ok? ==> NameAndBody(req).value == (req.args["name"], req.args["body"])
    ensures "name" in req.args && ValidateCommand(req.args["name"]).Ok? && "body" in req.args && req.args["body"] == [] ==>
      NameAndBody(req) == Err(NoBody)
  {
  }

  /** `add`: stores a new command by the sender; a taken name is reported as a problem. */
  method Add(req: Request, state: UserDefinedState) returns (r: Result<Response>)
    modifies state
    ensures state.aliases == old(state.aliases)
    ensures NameAndBody(req).Err? ==> r == Err(NameAndBody(req).error) && state.commands == old(state.commands)
    ensures NameAndBody(req).Ok? ==>
      var (name, body) := NameAndBody(req).value;
      if name !in old(state.commands) && !IsSource(old(state.aliases), name) then
        r == Ok(req.Reply("created " + Q(name) + " -> " + Q(body))) &&
        state.commands == old(state.commands)[name := NewCommand(name, body, req.sender)]
      else
        r == Ok(Empty.Problem(Q(name) + " already exists")) && state.commands == old(state.commands)
  {
    var checked := NameAndBody(req);
    if checked.Err? {
      return Err(checked.error);
    }
    var (name, body) := checked.value;
    var inserted := state.Insert(NewCommand(name, body, req.sender));
    if !inserted {
      return Ok(Empty.Problem(Q(name) + " already exists"));
    }
    return Ok(req.Reply("created " + Q(name) + " -> " + Q(body)));
  }

  /** `remove`: removes a command (and every alias pair naming it); a missing command is reported as a problem. */
  method Remove(req: Request, state: UserDefinedState) returns (r: Result<Response>)
    modifies state
    ensures NameOnly(req).Err? ==>
      r == Err(NameOnly(req).error) && state.commands == old(state.commands) && state.aliases == old(state.aliases)
    ensures NameOnly(req).Ok? ==>
      var name := NameOnly(req).value;
      state.commands == old(state.commands) - {name} &&
      state.aliases == Filter(old(state.aliases), Unrelated(name)) &&
      r == Ok(if name in old(state.commands) then req.Reply("removed: " + Q(name))
              else Empty.Problem(Q(name) + " wasn't found"))
  {
    var checked := NameOnly(req);
    if checked.Err? {
      return Err(checked.error);
    }
    var name := checked.value;
    var removed := state.Remove(name);
    if !removed {
      return Ok(Empty.Problem(Q(name) + " wasn't found"));
    }
    return Ok(req.Reply("removed: " + Q(name)));
  }

  /** The change `update` applies: the new body. */
  function SetBody(body: string): Command -> Command {
    (c: Command) => c.(body := body)
  }

  /** `update`: gives the command a name resolves to a new body; a name that resolves to nothing is reported. */
  method Update(req: Request, state: UserDefinedState) returns (r: Result<Response>)
    modifies state
    ensures state.aliases == old(state.aliases)
    ensures NameAndBody(req).Err? ==> r == Err(NameAndBody(req).error) && state.commands == old(state.commands)
    ensures NameAndBody(req).Ok? ==>
      var (name, body) := NameAndBody(req).value;
      var k := FindIn(old(state.commands), old(state.aliases), name);
      if k.Some? && k.value in old(state.commands) then
        r == Ok(req.Reply("updated " + Q(name) + " -> " + Q(body))) &&
        state.commands == old(state.commands)[k.value := old(state.commands)[k.value].(body := body)]
      else
        r == Ok(Empty.Problem(Q(name) + " doesn't exists")) && state.commands == old(state.commands)
  {
    var checked := NameAndBody(req);
    if checked.Err? {
      return Err(checked.error);
    }
    var (name, body) := checked.value;
    var updated := state.Update(name, SetBody(body));
    if !updated {
      return Ok(Empty.Problem(Q(name) + " doesn't exists"));
    }
    return Ok(req.Reply("updated " + Q(name) + " -> " + Q(body)));
  }

  /**
   * `alias`: a source that does not resolve is reported as not found; an
   * alias the table refuses is reported as taken.
   */
  method Alias(req: Request, state: UserDefinedState) returns (r: Result<Response>)
    modifies state
    ensures state.commands == old(state.commands)
    ensures FromAndTo(req).Err? ==> r == Err(FromAndTo(req).error) && state.aliases == old(state.aliases)
    ensures FromAndTo(req).Ok? ==>
      var (from, to) := FromAndTo(req).value;
      if Resolve(old(state.commands), old(state.aliases), from).None? then
        r == Ok(Empty.Problem(Q(from) + " was not found")) && state.aliases == old(state.aliases)
      else if Resolve(old(state.commands), old(state.aliases), to).Some? then
        r == Ok(Empty.Problem(Q(to) + " already exits")) && state.aliases == old(state.aliases)
      else
        r == Ok(req.Reply("aliased " + Q(from) + " to " + Q(to))) &&
        state.aliases == old(state.aliases) + (if Clash(old(state.aliases), from, to) then [] else [(from, to)])
  {
    var checked := FromAndTo(req);
    if checked.Err? {
      return Err(checked.error);
    }
    var (from, to) := checked.value;
    if !state.Has(from) {
      return Ok(Empty.Problem(Q(from) + " was not found"));
    }
    var aliased := state.Alias(from, to);
    if !aliased {
      return Ok(Empty.Problem(Q(to) + " already exits"));
    }
    return Ok(req.Reply("aliased " + Q(from) + " to " + Q(to)));
  }

  /** The change `lookup` applies: one more use. */
  function Used(): Command -> Command {
    (c: Command) => c.(uses := c.uses + 1)
  }

  /**
   * `lookup`: when the first word of a message names a command (directly or
   * through an alias), counts one more use of it and says its body;
   * otherwise says nothing and changes nothing.
   */
  method Lookup(req: Request, state: UserDefinedState) returns (resp: Response)
    modifies state
    ensures state.aliases == old(state.aliases)
    ensures var words := Split(req.data, AsciiWhitespace);
      words == [] || Resolve(old(state.commands), old(state.aliases), words[0]).None? ==>
        resp == Empty && state.commands == old(state.commands)
    ensures var words := Split(req.data, AsciiWhitespace);
      words != [] && Resolve(old(state.commands), old(state.aliases), words[0]).Some? ==>
        var k := FindIn(old(state.commands), old(state.aliases), words[0]).value;
        k in old(state.commands) &&
        resp.kinds == [ResponseKind.Say(old(state.commands)[k].body)] &&
        state.commands == old(state.commands)[k := old(state.commands)[k].(uses := old(state.commands)[k].uses + 1)]
  {
    var words := Split(req.data, AsciiWhitespace);
    if words == [] {
      return Empty;
    }
    var cmd := words[0];
    if !state.Has(cmd) {
      return Empty;
    }
    FindAgrees(state.commands, state.aliases, cmd);
    UpdateThenResolve(state.commands, state.aliases, cmd, Used());
    var updated := state.Update(cmd, Used());
    var found := state.GetByName(cmd);
    resp := req.Say(found.value.body);
  }

  /**
   * `list_commands`: the names of the stored commands, in the order the
   * table yields them (`keys`, each key once), twenty per line.
   */
  method ListCommands(state: UserDefinedState, keys: seq<string>) returns (resp: Response)
    requires (set k <- keys) == state.commands.Keys && |keys| == |state.commands.Keys|
    ensures resp.kinds == Builtin.Says(Builtin.Lines(NamesOf(state.commands, keys), Builtin.MaxCommandsPerLine))
  {
    resp := Builtin.FormatAllCommands(NamesOf(state.commands, keys), Builtin.MaxCommandsPerLine);
  }

  /** The names of the commands under `keys`, in that order. */
  function NamesOf(commands: map<string, Command>, keys: seq<string>): (r: seq<string>)
    requires forall k <- keys :: k in commands
    ensures |r| == |keys| && forall i :: 0 <= i < |keys| ==> r[i] == commands[keys[i]].name
  {
    seq(|keys|, i requires 0 <= i < |keys| => commands[keys[i]].name)
  }

  /**
   * With every command under its own name and names free of spaces, the
   * listing holds each stored name exactly once, in the table's order.
   */
  lemma ListedOnce(commands: map<string, Command>, keys: seq<string>)
    requires forall k <- keys :: k in commands
    requires Keyed(commands) && Pieces(keys, {' '})
    ensures Builtin.Words(Builtin.Lines(NamesOf(commands, keys), Builtin.MaxCommandsPerLine)) == keys
  {
    assert NamesOf(commands, keys) == keys;
    Builtin.LinesWords(keys, Builtin.MaxCommandsPerLine);
  }

  /**
   * Removing an alias name reports it as not found, yet drops its alias
   * pair: the pairs are filtered before the table looks for the command.
   */
  lemma RemoveAliasName(commands: map<string, Command>, from: string, to: string)
    requires from in commands && to !in commands && from != to
    ensures Filter([(from, to)], Unrelated(to)) == []
    ensures Resolve(commands, [(from, to)], to) == Some(commands[from])
  {
    assert FirstAlias([(from, to)], to, 0);
    ResolveOrder(commands, [(from, to)], to, 0);
  }
}
