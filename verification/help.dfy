/**
 * The help registry: for each command, the usage it was bound with and its
 * description, kept in registration order. A lookup answers with the first
 * entry for a command that has a usage.
 */
module Help {
  import opened Wrappers
  import opened Text

  datatype HelpCommand = HelpCommand(cmd: string, usage: Option<string>, description: string)

  /** The usage as stored: trimmed, and nothing when trimming leaves it empty. */
  function StoredUsage(usage: Option<string>): (r: Option<string>)
    ensures r.None? <==> usage.None? || forall c <- usage.value :: c in Whitespace
    ensures r.Some? ==> r.value == Trim(usage.value, Whitespace) && r.value != []
  {
    match usage
    case None => None
    case Some(u) =>
      TrimEmpty(u, Whitespace);
      var t := Trim(u, Whitespace);
      if t == [] then None else Some(t)
  }

  /** `HelpRegistry::with`: an empty command name is ignored; any other is appended, duplicates included. */
  function With(entries: seq<HelpCommand>, cmd: string, description: string, usage: Option<string>): (r: seq<HelpCommand>)
    ensures cmd == [] ==> r == entries
    ensures cmd != [] ==> |r| == |entries| + 1 && r[..|entries|] == entries
    ensures cmd != [] ==> r[|entries|].cmd == cmd && r[|entries|].description == description
    ensures cmd != [] ==> r[|entries|].usage == StoredUsage(usage)
  {
    if cmd == [] then entries
    else entries + [HelpCommand(cmd, StoredUsage(usage), description)]
  }

  /** Entry `i` is the first one for `cmd` that has a usage. */
  predicate FirstFor(entries: seq<HelpCommand>, cmd: string, i: int) {
    0 <= i < |entries| && entries[i].cmd == cmd && entries[i].usage.Some? &&
    forall j :: 0 <= j < i ==> entries[j].cmd != cmd || entries[j].usage.None?
  }

  /** The first entry for `cmd` that has a usage, as (usage, description). */
  function Find(entries: seq<HelpCommand>, cmd: string): (r: Option<(string, string)>)
    ensures r.None? <==> forall e <- entries :: e.cmd != cmd || e.usage.None?
    ensures r.Some? ==> exists i :: FirstFor(entries, cmd, i) && r.value == (entries[i].usage.value, entries[i].description)
  {
    if entries == [] then None
    else if entries[0].cmd == cmd && entries[0].usage.Some? then
      Some((entries[0].usage.value, entries[0].description))
    else
      var r := Find(entries[1..], cmd);
      assert forall e <- entries :: e == entries[0] || e in entries[1..];
      if r.Some? then
        var i :| FirstFor(entries[1..], cmd, i) && r.value == (entries[1..][i].usage.value, entries[1..][i].description);
        assert entries[i + 1] == entries[1..][i];
        assert forall j :: 1 <= j < i + 1 ==> entries[j] == entries[1..][j - 1];
        assert FirstFor(entries, cmd, i + 1);
        r
      else r
  }

  /** Names of all entries, in order. */
  function Names(entries: seq<HelpCommand>): (r: seq<string>)
    ensures |r| == |entries|
    ensures forall i :: 0 <= i < |r| ==> r[i] == entries[i].cmd
  {
    if entries == [] then [] else [entries[0].cmd] + Names(entries[1..])
  }

  /** The first word of a usage (`usage.split(' ').next()`). */
  function Head(usage: string): (r: string)
    ensures ' ' !in r && StartsWith(usage, r)
  {
    var pieces := SplitAll(usage, ' ');
    assert pieces[0] in pieces;
    assert usage == Join(pieces, ' ') && StartsWith(usage, pieces[0]) by {
      if |pieces| > 1 {
        assert Join(pieces, ' ') == pieces[0] + ([' '] + Join(pieces[1..], ' '));
      }
    }
    pieces[0]
  }

  /** `create_from` as a fold: each (usage, description) registered under the usage's first word. */
  function Registered(pairs: seq<(string, string)>): seq<HelpCommand> {
    if pairs == [] then []
    else
      var (usage, desc) := pairs[|pairs| - 1];
      With(Registered(pairs[..|pairs| - 1]), Head(usage), desc, Some(usage))
  }

  class HelpRegistry {
    var entries: seq<HelpCommand>

    /** `HelpRegistry::default`. */
    constructor ()
      ensures entries == []
    {
      entries := [];
    }

    /** `add`: `with` applied in place. */
    method Add(cmd: string, description: string, usage: string)
      modifies this
      ensures entries == With(old(entries), cmd, description, Some(usage))
    {
      entries := With(entries, cmd, description, Some(usage));
    }

    /** `lookup`. */
    function Lookup(cmd: string): (r: Option<(string, string)>)
      reads this
      ensures r == Find(entries, cmd)
    {
      Find(entries, cmd)
    }

    /** `get_all_commands`. */
    function AllCommands(): (r: seq<string>)
      reads this
      ensures r == Names(entries)
    {
      Names(entries)
    }
  }

  /** `create_from`: a new registry holding the bound commands, keyed by the first word of each usage. */
  method CreateFrom(pairs: seq<(string, string)>) returns (help: HelpRegistry)
    ensures fresh(help)
    ensures help.entries == Registered(pairs)
  {
    help := new HelpRegistry();
    for i := 0 to |pairs|
      invariant help.entries == Registered(pairs[..i])
    {
      var (usage, desc) := pairs[i];
      assert pairs[..i + 1][..i] == pairs[..i];
      help.Add(Head(usage), desc, usage);
    }
    assert pairs[..|pairs|] == pairs;
  }

  /**
   * Every registered entry comes from one of the pairs, under the first word
   * of its usage, and every pair whose usage has a non-empty first word is
   * registered, in order.
   */
  lemma RegisteredEntries(pairs: seq<(string, string)>)
    ensures forall e <- Registered(pairs) ::
      exists p <- pairs :: e == HelpCommand(Head(p.0), StoredUsage(Some(p.0)), p.1) && Head(p.0) != []
    ensures |Registered(pairs)| == |Filter(pairs, Named())|
  {
    RegisteredFrom(pairs);
    RegisteredCount(pairs);
  }

  /** A pair whose usage has a non-empty first word. */
  function Named(): ((string, string)) -> bool {
    (p: (string, string)) => Head(p.0) != []
  }

  lemma {:induction false} RegisteredFrom(pairs: seq<(string, string)>)
    ensures forall e <- Registered(pairs) ::
      exists p <- pairs :: e == HelpCommand(Head(p.0), StoredUsage(Some(p.0)), p.1) && Head(p.0) != []
  {
    if pairs != [] {
      var init, last := pairs[..|pairs| - 1], pairs[|pairs| - 1];
      RegisteredFrom(init);
      assert forall p <- init :: p in pairs;
      assert last in pairs;
    }
  }

  lemma {:induction false} RegisteredCount(pairs: seq<(string, string)>)
    ensures |Registered(pairs)| == |Filter(pairs, Named())|
  {
    if pairs != [] {
      var init, last := pairs[..|pairs| - 1], pairs[|pairs| - 1];
      assert pairs == init + [last];
      RegisteredCount(init);
      FilterSnoc(init, last, Named());
    }
  }

  /** A lookup keeps finding the first entry for a command, whatever is added later. */
  lemma FindFirstStays(entries: seq<HelpCommand>, later: seq<HelpCommand>, cmd: string)
    requires Find(entries, cmd).Some?
    ensures Find(entries + later, cmd) == Find(entries, cmd)
  {
    var i :| FirstFor(entries, cmd, i) && Find(entries, cmd).value == (entries[i].usage.value, entries[i].description);
    FindAt(entries + later, cmd, i);
    FindAt(entries, cmd, i);
  }

  /** The answer is decided by the first entry that has the command and a usage. */
  lemma {:induction false} FindAt(entries: seq<HelpCommand>, cmd: string, i: nat)
    requires FirstFor(entries, cmd, i)
    ensures Find(entries, cmd) == Some((entries[i].usage.value, entries[i].description))
  {
    if i > 0 {
      assert entries[0].cmd != cmd || entries[0].usage.None?;
      FindAt(entries[1..], cmd, i - 1);
    }
  }

  /** Adding a command with a non-blank usage to a registry that has no usage for it makes it found. */
  lemma AddThenFind(entries: seq<HelpCommand>, cmd: string, description: string, usage: string)
    requires Find(entries, cmd).None? && cmd != []
    requires exists c <- usage :: c !in Whitespace
    ensures Find(With(entries, cmd, description, Some(usage)), cmd)
         == Some((Trim(usage, Whitespace), description))
  {
    var r := With(entries, cmd, description, Some(usage));
    FindAt(r, cmd, |entries|);
  }

  /** An entry added with a blank usage is listed but never found. */
  lemma BlankUsageNotFound(entries: seq<HelpCommand>, cmd: string, description: string, usage: string)
    requires Find(entries, cmd).None? && cmd != []
    requires forall c <- usage :: c in Whitespace
    ensures Find(With(entries, cmd, description, Some(usage)), cmd).None?
    ensures Names(With(entries, cmd, description, Some(usage))) == Names(entries) + [cmd]
  {
    var r := With(entries, cmd, description, Some(usage));
    assert forall e <- r :: e in entries || e == r[|entries|];
    assert Names(r) == Names(entries) + [cmd];
  }

  /** The command of a bound usage such as `!help <cmd?>` is its first word. */
  lemma HeadOf(word: string, rest: string)
    requires ' ' !in word
    ensures Head(word + [' '] + rest) == word
    ensures Head(word) == word
  {
    SplitOnceOf(word, ' ', rest);
  }
}
