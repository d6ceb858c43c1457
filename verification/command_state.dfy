/**
 * The table of user-defined commands: commands stored under their names,
 * and a list of aliases, each a pair (source, alias). A name is looked up
 * as a key first, then as the alias of the first pair that names it.
 */
module CommandState {
  import opened Wrappers
  import opened Text

  datatype Command = Command(name: string, body: string, author: string, uses: nat)

  /** `Command::new`: a command not used yet. */
  function NewCommand(name: string, body: string, author: string): (c: Command)
    ensures c.uses == 0 && c.name == name && c.body == body && c.author == author
  {
    Command(name, body, author, 0)
  }

  /** Pair `i` is the first alias pair whose alias is `name`. */
  predicate FirstAlias(aliases: seq<(string, string)>, name: string, i: int) {
    0 <= i < |aliases| && aliases[i].1 == name && forall j :: 0 <= j < i ==> aliases[j].1 != name
  }

  /** The loop shared by `get_by_name` and `find_name`: the source of the first pair whose alias is `name`. */
  function AliasSource(aliases: seq<(string, string)>, name: string): (r: Option<string>)
    ensures r.None? <==> forall p <- aliases :: p.1 != name
    ensures r.Some? ==> exists i :: FirstAlias(aliases, name, i) && r.value == aliases[i].0
  {
    if aliases == [] then None
    else if aliases[0].1 == name then
      assert FirstAlias(aliases, name, 0);
      Some(aliases[0].0)
    else
      var r := AliasSource(aliases[1..], name);
      assert forall p <- aliases :: p == aliases[0] || p in aliases[1..];
      if r.Some? then
        var i :| FirstAlias(aliases[1..], name, i) && r.value == aliases[1..][i].0;
        assert forall j :: 1 <= j < i + 1 ==> aliases[j] == aliases[1..][j - 1];
        assert FirstAlias(aliases, name, i + 1);
        r
      else r
  }

  /** There is only one first pair. */
  lemma FirstAliasUnique(aliases: seq<(string, string)>, name: string, i: int, j: int)
    requires FirstAlias(aliases, name, i) && FirstAlias(aliases, name, j)
    ensures i == j
  {
  }

  /** `get_by_name`: the command stored under `name`, else the one stored under the source of its first alias pair. */
  function Resolve(commands: map<string, Command>, aliases: seq<(string, string)>, name: string): Option<Command> {
    if name in commands then Some(commands[name])
    else match AliasSource(aliases, name)
      case None => None
      case Some(k) => if k in commands then Some(commands[k]) else None
  }

  /** `find_name`: `name` itself when it is a key, else the source of its first alias pair. */
  function FindIn(commands: map<string, Command>, aliases: seq<(string, string)>, name: string): Option<string> {
    if name in commands then Some(name) else AliasSource(aliases, name)
  }

  /** Some alias pair has `name` as its source. */
  predicate IsSource(aliases: seq<(string, string)>, name: string) {
    exists p <- aliases :: p.0 == name
  }

  /** Some pair matches exactly one of `from` (as source) and `to` (as alias). */
  predicate Clash(aliases: seq<(string, string)>, from: string, to: string) {
    exists p <- aliases :: (p.0 == from) != (p.1 == to)
  }

  /** The pairs `remove` keeps: those that do not name `name` on either side. */
  function Unrelated(name: string): ((string, string)) -> bool {
    (p: (string, string)) => p.0 != name && p.1 != name
  }

  /** Every command is stored under its own name. */
  predicate Keyed(commands: map<string, Command>) {
    forall k <- commands :: commands[k].name == k
  }

  class UserDefinedState {
    var commands: map<string, Command>
    var aliases: seq<(string, string)>

    /** `UserDefinedState::default`. */
    constructor ()
      ensures commands == map[] && aliases == []
    {
      commands := map[];
      aliases := [];
    }

    /** `get_by_name`: the command stored under the name `find_name` gives, when one is stored there. */
    function GetByName(name: string): (r: Option<Command>)
      reads this
      ensures r.Some? <==> FindName(name).Some? && FindName(name).value in commands
      ensures r.Some? ==> r.value == commands[FindName(name).value]
    {
      Resolve(commands, aliases, name)
    }

    /** `find_name`: the name itself when it is a key, otherwise a source that some alias pair maps the name to. */
    function FindName(name: string): (r: Option<string>)
      reads this
      ensures name in commands ==> r == Some(name)
      ensures r.Some? && r.value != name ==> (r.value, name) in aliases
      ensures r.None? <==> name !in commands && forall p <- aliases :: p.1 != name
    {
      FindIn(commands, aliases, name)
    }

    /** `has`: the name resolves to a command; a key always does, and anything else only through an alias pair. */
    predicate Has(name: string)
      reads this
      ensures name in commands ==> Has(name)
      ensures Has(name) && name !in commands ==> exists p <- aliases :: p.1 == name && p.0 in commands
    {
      GetByName(name).Some?
    }

    /** `get_all`: the stored commands, whatever aliases there are; with every command under its own name, each is found by its name. */
    function GetAll(): (r: set<Command>)
      reads this
      ensures forall k <- commands :: commands[k] in r
      ensures Keyed(commands) ==> forall c <- r :: c.name in commands && commands[c.name] == c
    {
      commands.Values
    }

    /** `insert`: refused when the name is a key or the source of an alias; otherwise stored under its name. */
    method Insert(command: Command) returns (ok: bool)
      modifies this
      ensures ok <==> command.name !in old(commands) && !IsSource(old(aliases), command.name)
      ensures ok ==> commands == old(commands)[command.name := command]
      ensures !ok ==> commands == old(commands)
      ensures aliases == old(aliases)
    {
      if command.name in commands || IsSource(aliases, command.name) {
        return false;
      }
      commands := commands[command.name := command];
      return true;
    }

    /** `remove`: drops every pair naming `name` on either side, then the command; true when there was one. */
    method Remove(name: string) returns (ok: bool)
      modifies this
      ensures ok <==> name in old(commands)
      ensures commands == old(commands) - {name}
      ensures aliases == Filter(old(aliases), Unrelated(name))
    {
      var all := aliases;
      var kept: seq<(string, string)> := [];
      for i := 0 to |all|
        invariant kept == Filter(all[..i], Unrelated(name))
        invariant commands == old(commands) && aliases == old(aliases)
      {
        assert all[..i + 1] == all[..i] + [all[i]];
        FilterSnoc(all[..i], all[i], Unrelated(name));
        if all[i].0 != name && all[i].1 != name {
          kept := kept + [all[i]];
        }
      }
      assert all[..|all|] == all;
      aliases := kept;
      ok := name in commands;
      commands := commands - {name};
    }

    /**
     * `update`: applies `change` to the command that `name` resolves to; false,
     * changing nothing, when it resolves to no stored command.
     */
    method Update(name: string, change: Command -> Command) returns (ok: bool)
      modifies this
      ensures var k := FindIn(old(commands), old(aliases), name);
        ok <==> k.Some? && k.value in old(commands)
      ensures var k := FindIn(old(commands), old(aliases), name);
        ok ==> commands == old(commands)[k.value := change(old(commands)[k.value])]
      ensures !ok ==> commands == old(commands)
      ensures aliases == old(aliases)
    {
      var k := FindName(name);
      if k.Some? && k.value in commands {
        commands := commands[k.value := change(commands[k.value])];
        return true;
      }
      return false;
    }

    /**
     * `alias`: refused when `from` does not resolve or `to` already does;
     * accepted without recording anything when some pair matches exactly
     * one of them; otherwise the pair is appended. Commands never change.
     */
    method Alias(from: string, to: string) returns (ok: bool)
      modifies this
      ensures commands == old(commands)
      ensures ok <==> Resolve(old(commands), old(aliases), from).Some? && Resolve(old(commands), old(aliases), to).None?
      ensures !ok || Clash(old(aliases), from, to) ==> aliases == old(aliases)
      ensures ok && !Clash(old(aliases), from, to) ==> aliases == old(aliases) + [(from, to)]
    {
      if !Has(from) || Has(to) {
        return false;
      }
      if Clash(aliases, from, to) {
        return true;
      }
      aliases := aliases + [(from, to)];
      return true;
    }
  }

  /** `get_by_name` looks at the keys first, and then only at the first pair naming the alias. */
  lemma ResolveOrder(commands: map<string, Command>, aliases: seq<(string, string)>, name: string, i: int)
    ensures name in commands ==> Resolve(commands, aliases, name) == Some(commands[name])
    ensures name !in commands && (forall p <- aliases :: p.1 != name) ==> Resolve(commands, aliases, name).None?
    ensures name !in commands && FirstAlias(aliases, name, i) ==>
      Resolve(commands, aliases, name) == if aliases[i].0 in commands then Some(commands[aliases[i].0]) else None
  {
    if name !in commands && FirstAlias(aliases, name, i) {
      var k := AliasSource(aliases, name).value;
      var j :| FirstAlias(aliases, name, j) && k == aliases[j].0;
      FirstAliasUnique(aliases, name, i, j);
    }
  }

  /**
   * `find_name` and `get_by_name` agree: a name that resolves is found
   * under the key of the command it resolves to, and a found key that is
   * stored makes the name resolve. So `update` changes the command a lookup
   * returns.
   */
  lemma FindAgrees(commands: map<string, Command>, aliases: seq<(string, string)>, name: string)
    ensures Resolve(commands, aliases, name).Some? <==>
      FindIn(commands, aliases, name).Some? && FindIn(commands, aliases, name).value in commands
    ensures Resolve(commands, aliases, name).Some? ==>
      Resolve(commands, aliases, name).value == commands[FindIn(commands, aliases, name).value]
  {
  }

  /** After a successful update, the name resolves to the changed command. */
  lemma UpdateThenResolve(commands: map<string, Command>, aliases: seq<(string, string)>, name: string, change: Command -> Command)
    requires Resolve(commands, aliases, name).Some?
    ensures var k := FindIn(commands, aliases, name).value;
      Resolve(commands[k := change(commands[k])], aliases, name) == Some(change(commands[k]))
  {
    var k := FindIn(commands, aliases, name).value;
    var after := commands[k := change(commands[k])];
    assert after.Keys == commands.Keys;
  }

  /**
   * A new alias of a stored command resolves to that command, both when the
   * pair is appended and when an existing pair already names the alias.
   */
  lemma AliasResolves(commands: map<string, Command>, aliases: seq<(string, string)>, from: string, to: string)
    requires from in commands && Resolve(commands, aliases, to).None?
    requires !Clash(aliases, from, to)
    ensures Resolve(commands, aliases + [(from, to)], to) == Some(commands[from])
  {
    var after := aliases + [(from, to)];
    assert to !in commands;
    assert forall p <- aliases :: p.1 != to;
    assert FirstAlias(after, to, |aliases|);
    ResolveOrder(commands, after, to, |aliases|);
  }

  /**
   * A second alias for the same source is accepted but not recorded: the
   * pair for the first alias matches `from` and not `to`, so the table is
   * left as it was and the new alias does not resolve.
   */
  lemma SecondAliasIgnored(commands: map<string, Command>, from: string, first: string, second: string)
    requires from in commands && first !in commands && second !in commands && first != second
    ensures Clash([(from, first)], from, second)
    ensures Resolve(commands, [(from, first)], second).None?
  {
    assert (from, first) in [(from, first)];
  }

  /**
   * Aliasing an alias is accepted and recorded, but the new alias does not
   * resolve: its source is not a stored command.
   */
  lemma ChainedAliasUnresolved(commands: map<string, Command>, a: string, b: string, c: string)
    requires a in commands && b !in commands && c !in commands && b != c && a != b
    ensures Resolve(commands, [(a, b)], b).Some? && Resolve(commands, [(a, b)], c).None?
    ensures !Clash([(a, b)], b, c)
    ensures Resolve(commands, [(a, b), (b, c)], c).None?
  {
    var after := [(a, b), (b, c)];
    assert FirstAlias([(a, b)], b, 0);
    assert FirstAlias(after, c, 1);
    ResolveOrder(commands, after, c, 1);
  }

  /** The operations keep every command under its own name (for `update`, when the change keeps the name). */
  lemma KeyedKept(commands: map<string, Command>, command: Command, name: string, change: Command -> Command, k: string)
    requires Keyed(commands)
    ensures Keyed(commands[command.name := command])
    ensures Keyed(commands - {name})
    ensures k in commands && change(commands[k]).name == commands[k].name ==> Keyed(commands[k := change(commands[k])])
  {
  }

  /**
   * `get_all` lists only stored commands: with every command under its own
   * name, the names listed are exactly the keys, so an alias is listed only
   * if it is also the name of a stored command.
   */
  lemma GetAllNames(commands: map<string, Command>)
    requires Keyed(commands)
    ensures (set c <- commands.Values :: c.name) == commands.Keys
  {
    forall k <- commands.Keys ensures k in (set c <- commands.Values :: c.name) {
      assert commands[k] in commands.Values;
    }
  }

  /** The insert test: a name can be used once, another name is still free. */
  method InsertExample() returns (first: bool, again: bool, other: bool)
    ensures first && !again && other
  {
    var state := new UserDefinedState();
    first := state.Insert(NewCommand("!foo", "testing", "testuser"));
    again := state.Insert(NewCommand("!foo", "testing", "testuser"));
    other := state.Insert(NewCommand("!bar", "testing", "testuser"));
  }

  /** The remove test: removing a command succeeds once. */
  method RemoveExample() returns (removed: bool, again: bool)
    ensures removed && !again
  {
    var state := new UserDefinedState();
    var inserted := state.Insert(NewCommand("!foo", "testing", "testuser"));
    removed := state.Remove("!foo");
    again := state.Remove("!foo");
  }

  /** The alias and get_all tests: both names give the command, and only real commands are listed. */
  method AliasExample() returns (foo: Option<Command>, bar: Option<Command>, all: set<Command>)
    ensures foo == bar == Some(NewCommand("!foo", "testing", "testuser"))
    ensures all == {NewCommand("!foo", "testing", "testuser"), NewCommand("!baz", "testing", "testuser")}
  {
    var state := new UserDefinedState();
    var ok := state.Insert(NewCommand("!foo", "testing", "testuser"));
    ok := state.Alias("!foo", "!bar");
    assert state.aliases == [("!foo", "!bar")];
    assert FirstAlias(state.aliases, "!bar", 0);
    ok := state.Insert(NewCommand("!baz", "testing", "testuser"));
    foo := state.GetByName("!foo");
    bar := state.GetByName("!bar");
    all := state.GetAll();
    var c1, c2 := NewCommand("!foo", "testing", "testuser"), NewCommand("!baz", "testing", "testuser");
    assert state.commands == map["!foo" := c1, "!baz" := c2];
    assert c1 == state.commands["!foo"] && c2 == state.commands["!baz"];
    assert all == {c1, c2};
  }

  /** The update test: changing the body of a command is seen by the next lookup. */
  method UpdateExample() returns (before: Option<Command>, ok: bool, after: Option<Command>)
    ensures before.Some? && before.value.body == "testing"
    ensures ok && after.Some? && after.value.body == "hello"
  {
    var state := new UserDefinedState();
    var inserted := state.Insert(NewCommand("!foo", "testing", "testuser"));
    before := state.GetByName("!foo");
    ok := state.Update("!foo", (c: Command) => c.(body := "hello"));
    after := state.GetByName("!foo");
  }
}
