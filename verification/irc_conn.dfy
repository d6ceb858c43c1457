/**
 * Splitting one IRC line into its parts, in the layout of section 2.3.1 of
 * RFC 1459 with IRCv3 tags in front:
 * `[@tags ][:prefix ]command params[:trailing]`. Each step reads from a
 * shared cursor and moves it forward. Where a step finds no space it
 * cannot go on (the line is malformed) and parsing fails.
 */
module IrcConn {
  import opened Wrappers
  import opened Text
  import opened IrcTags

  datatype Message = Message(
    tags: Tags,
    prefix: Option<string>,
    command: string,
    args: seq<string>,
    data: Option<string>)

  const Malformed: string := "malformed message"

  /** The nickname of a prefix: the text before the first `!`, or nothing when the prefix is empty. */
  function Nick(s: string): (r: Option<string>)
    ensures r.None? <==> s == []
    ensures r.Some? ==> '!' !in r.value && StartsWith(s, r.value)
    ensures r.Some? && r.value != s ==> s[|r.value|] == '!'
  {
    if s == [] then None
    else match SplitOnce(s, '!')
      case None => Some(s)
      case Some((head, tail)) =>
        assert s[..|head|] == head && s[|head|] == '!' by {
          assert s == head + ['!'] + tail;
        }
        Some(head)
  }

  /** `prefix` on the text at the cursor: the prefix (if the text starts with `:`) and the text after it. */
  function PrefixAt(s: string): (r: Result<(Option<string>, string)>)
    ensures r.Err? <==> s != [] && s[0] == ':' && ' ' !in s
    ensures r.Err? ==> r.error == Malformed
    ensures (s == [] || s[0] != ':') ==> r == Ok((None, s))
  {
    if s != [] && s[0] == ':' then
      match SplitOnce(s, ' ')
      case None => Err(Malformed)
      case Some((head, tail)) =>
        assert (head + [' '] + tail)[0] == if head == [] then ' ' else head[0];
        Ok((Nick(head[1..]), tail))
    else Ok((None, s))
  }

  /** `command` on the text at the cursor: the text before the first space and the text after it. */
  function CommandAt(s: string): (r: Result<(string, string)>)
    ensures r.Err? <==> ' ' !in s
    ensures r.Err? ==> r.error == Malformed
    ensures r.Ok? ==> r.value.0 + [' '] + r.value.1 == s && ' ' !in r.value.0
  {
    match SplitOnce(s, ' ')
    case None => Err(Malformed)
    case Some((head, tail)) => Ok((head, tail))
  }

  /**
   * `args` on the text at the cursor: the whitespace-separated words before
   * the first `:` and the text after it; without a `:`, no words and the
   * text unchanged.
   */
  function ArgsAt(s: string): (r: (seq<string>, string))
    ensures ':' !in s ==> r == ([], s)
    ensures ':' in s ==> exists head :: head + [':'] + r.1 == s && ':' !in head && r.0 == Split(head, AsciiWhitespace)
  {
    match SplitOnce(s, ':')
    case None => ([], s)
    case Some((head, tail)) => (Split(head, AsciiWhitespace), tail)
  }

  /** `data`: the rest with trailing whitespace removed, or nothing if that leaves it empty. */
  function Data(s: string): (r: Option<string>)
    ensures r.None? <==> forall c <- s :: c in Whitespace
    ensures r.Some? ==> r.value != [] && StartsWith(s, r.value) && r.value[|r.value| - 1] !in Whitespace
    ensures r.Some? ==> forall i :: |r.value| <= i < |s| ==> s[i] in Whitespace
  {
    var t := TrimEnd(s, Whitespace);
    if t == [] then
      assert forall i :: 0 <= i < |s| ==> s[i] in Whitespace;
      None
    else
      assert s[|t| - 1] == t[|t| - 1];
      Some(t)
  }

  /** The tags of a line and the text after them: empty tags and the whole line when there is no tag block. */
  function TagsOf(line: string): (Tags, string) {
    if line != [] && line[0] == '@' then
      match ParseTagsAt(line)
      case None => (Tags(map[]), line)
      case Some(p) => p
    else (Tags(map[]), line)
  }

  /** `Conn::parse`: tags, prefix, command, parameters and trailing data, in that order. */
  function ParseLine(line: string): Result<Message> {
    var (tags, rest) := TagsOf(line);
    ParseAfterTags(tags, rest)
  }

  /** The steps of `Conn::parse` that follow the tags. */
  function ParseAfterTags(tags: Tags, rest: string): Result<Message> {
    match PrefixAt(rest)
    case Err(e) => Err(e)
    case Ok((prefix, rest')) =>
      match CommandAt(rest')
      case Err(e) => Err(e)
      case Ok((command, rest'')) =>
        var (args, trailing) := ArgsAt(rest'');
        Ok(Message(tags, prefix, command, args, Data(trailing)))
  }

  /** `Conn::prefix`: reads the prefix and moves the cursor past it. */
  method Prefix(cursor: Cursor) returns (r: Result<Option<string>>)
    modifies cursor
    ensures PrefixAt(old(cursor.rest)).Err? ==> r == Err(Malformed)
    ensures PrefixAt(old(cursor.rest)).Ok? ==>
      r == Ok(PrefixAt(old(cursor.rest)).value.0) && cursor.rest == PrefixAt(old(cursor.rest)).value.1
  {
    var input := cursor.rest;
    if input != [] && input[0] == ':' {
      var split := SplitOnce(input, ' ');
      if split.None? {
        return Err(Malformed);
      }
      var (head, tail) := split.value;
      cursor.rest := tail;
      return Ok(Nick(head[1..]));
    }
    return Ok(None);
  }

  /** `Conn::command`: reads the command and moves the cursor past it. */
  method Command(cursor: Cursor) returns (r: Result<string>)
    modifies cursor
    ensures CommandAt(old(cursor.rest)).Err? ==> r == Err(Malformed)
    ensures CommandAt(old(cursor.rest)).Ok? ==>
      r == Ok(CommandAt(old(cursor.rest)).value.0) && cursor.rest == CommandAt(old(cursor.rest)).value.1
  {
    var split := SplitOnce(cursor.rest, ' ');
    if split.None? {
      return Err(Malformed);
    }
    var (head, tail) := split.value;
    cursor.rest := tail;
    return Ok(head);
  }

  /** `Conn::args`: reads the parameters and moves the cursor past the `:`, if there is one. */
  method Args(cursor: Cursor) returns (args: seq<string>)
    modifies cursor
    ensures (args, cursor.rest) == ArgsAt(old(cursor.rest))
  {
    var split := SplitOnce(cursor.rest, ':');
    if split.None? {
      return [];
    }
    var (head, tail) := split.value;
    cursor.rest := tail;
    args := Split(head, AsciiWhitespace);
  }

  /** `Conn::parse`, threading one cursor through the steps; a missing space fails instead of panicking. */
  method Parse(line: string) returns (r: Result<Message>)
    ensures r == ParseLine(line)
  {
    var cursor := new Cursor(line);
    var tags := Tags(map[]);
    if line != [] && line[0] == '@' {
      var parsed := ParseTags(cursor);
      if parsed.Some? {
        tags := parsed.value;
      }
    }
    assert (tags, cursor.rest) == TagsOf(line);
    var prefix: Option<string> := None;
    if cursor.rest != [] && cursor.rest[0] == ':' {
      var p := Prefix(cursor);
      if p.Err? {
        return Err(p.error);
      }
      prefix := p.value;
    }
    var command := Command(cursor);
    if command.Err? {
      return Err(command.error);
    }
    var args := Args(cursor);
    r := Ok(Message(tags, prefix, command.value, args, Data(cursor.rest)));
  }

  /**
   * A line laid out as `:prefix command params:trailing` (no tags) comes
   * apart into exactly those parts.
   */
  lemma LineParts(prefix: string, command: string, params: string, trailing: string)
    requires ' ' !in prefix && ' ' !in command && ':' !in params
    ensures ParseLine([':'] + prefix + [' '] + command + [' '] + params + [':'] + trailing)
         == Ok(Message(Tags(map[]), Nick(prefix), command, Split(params, AsciiWhitespace), Data(trailing)))
  {
    var rest := command + [' '] + params + [':'] + trailing;
    var line := [':'] + prefix + [' '] + command + [' '] + params + [':'] + trailing;
    assert line == [':'] + prefix + [' '] + rest;
    PrefixParts(prefix, rest);
    CommandParts(command, params, trailing);
  }

  /** A `:prefix ` in front of the rest is read as that nick. */
  lemma PrefixParts(prefix: string, rest: string)
    requires ' ' !in prefix
    ensures PrefixAt([':'] + prefix + [' '] + rest) == Ok((Nick(prefix), rest))
  {
    var head := [':'] + prefix;
    assert [':'] + prefix + [' '] + rest == head + [' '] + rest;
    assert ' ' !in head;
    SplitOnceOf(head, ' ', rest);
    assert head[1..] == prefix;
  }

  /** After the prefix: the command, then the parameters up to `:`, then the trailing data. */
  lemma CommandParts(command: string, params: string, trailing: string)
    requires ' ' !in command && ':' !in params
    ensures CommandAt(command + [' '] + params + [':'] + trailing) == Ok((command, params + [':'] + trailing))
    ensures ArgsAt(params + [':'] + trailing) == (Split(params, AsciiWhitespace), trailing)
  {
    var rest' := params + [':'] + trailing;
    assert command + [' '] + params + [':'] + trailing == command + [' '] + rest';
    SplitOnceOf(command, ' ', rest');
    SplitOnceOf(params, ':', trailing);
  }

  /** A tag block in front of a line sets the tags and leaves the rest of the parse as it was. */
  lemma LineTags(block: string, rest: string)
    requires ' ' !in block
    requires rest == [] || rest[0] != '@'
    ensures ParseLine(['@'] + block + [' '] + rest).Ok? == ParseLine(rest).Ok?
    ensures ParseLine(rest).Ok? ==>
      ParseLine(['@'] + block + [' '] + rest) == Ok(ParseLine(rest).value.(tags := Tags(TagMap(block))))
  {
    TagsBlock(block, rest);
    assert TagsOf(['@'] + block + [' '] + rest) == (Tags(TagMap(block)), rest);
    assert TagsOf(rest) == (Tags(map[]), rest);
    AfterTags(Tags(TagMap(block)), rest);
  }

  /** The tags do not influence the rest of the parse. */
  lemma AfterTags(tags: Tags, rest: string)
    ensures ParseAfterTags(tags, rest).Ok? == ParseAfterTags(Tags(map[]), rest).Ok?
    ensures ParseAfterTags(tags, rest).Ok? ==>
      ParseAfterTags(tags, rest) == Ok(ParseAfterTags(Tags(map[]), rest).value.(tags := tags))
  {
  }

  /** Without any space a line cannot be split into a command and what follows. */
  lemma NoSpace(line: string)
    requires ' ' !in line
    ensures ParseLine(line) == Err(Malformed)
  {
    if line != [] && line[0] == '@' {
      assert ParseTagsAt(line).None?;
    }
  }
}
