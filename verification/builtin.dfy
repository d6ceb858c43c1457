/**
 * The built-in commands whose logic is more than a fixed reply: listing all
 * commands a fixed number per line, answering a greeting, and `!help`.
 */
module Builtin {
  import opened Wrappers
  import opened Text
  import opened Callable
  import opened Help
  import Arguments

  const MaxCommandsPerLine: nat := 20

  /** The characters stripped from the end of a greeting. */
  const HelloEnd: set<char> := {'!', '?', '.'}

  /** Says each line, in order. */
  function Says(lines: seq<string>): (r: seq<ResponseKind>)
    ensures |r| == |lines|
    ensures forall i :: 0 <= i < |r| ==> r[i] == ResponseKind.Say(lines[i])
  {
    seq(|lines|, i requires 0 <= i < |lines| => ResponseKind.Say(lines[i]))
  }

  lemma SaysCons(line: string, lines: seq<string>)
    ensures Says([line] + lines) == [ResponseKind.Say(line)] + Says(lines)
  {
  }

  /** The final line, which is said only when it is not empty. */
  function LastLine(names: seq<string>): seq<string> {
    var line := Joined(names, ' ');
    if line == [] then [] else [line]
  }

  /**
   * The lines of the listing: the names `max` at a time, each group joined
   * by spaces; the last group is left out when it joins to nothing. A `max`
   * of zero is only usable with at most one name (a larger list would divide
   * by zero).
   */
  function Lines(names: seq<string>, max: nat): seq<string>
    requires max > 0 || |names| <= 1
    decreases |names|
  {
    if max == 0 || |names| <= max then LastLine(names)
    else [Joined(names[..max], ' ')] + Lines(names[max..], max)
  }

  /** A non-zero multiple of `m` is at least `m` in size. */
  lemma {:induction false} MulBounds(a: int, m: int)
    requires m >= 0
    ensures a >= 1 ==> a * m >= m
    ensures a <= -1 ==> a * m <= -m
    decreases if a < 0 then -a else a
  {
    if a > 1 {
      MulBounds(a - 1, m);
      assert a * m == (a - 1) * m + m;
    } else if a < -1 {
      MulBounds(a + 1, m);
      assert a * m == (a + 1) * m - m;
    }
  }

  /** A position `r` into the group that starts at a multiple of `max` is a multiple of `max` only at the group's end. */
  lemma ChunkBoundary(start: nat, r: nat, max: nat)
    requires 0 < r <= max && start % max == 0
    ensures (start + r) % max == 0 <==> r == max
  {
    var q := start / max;
    assert start == q * max;
    var x := q * max + r;
    var d, rem := x / max, x % max;
    assert x == d * max + rem && 0 <= rem < max;
    if r == max {
      assert (q + 1 - d) * max == q * max + max - d * max;
      MulBounds(q + 1 - d, max);
    } else {
      assert (q - d) * max == q * max - d * max;
      MulBounds(q - d, max);
    }
  }

  /** Saying the full group that ends at `i` keeps the lines said so far and those still to come equal to all lines. */
  lemma GroupStep(names: seq<string>, max: nat, start: nat, i: nat, kinds: seq<ResponseKind>, out: string)
    requires max > 0 && i == start + max && i < |names|
    requires out == Joined(names[start..i], ' ')
    requires kinds + Says(Lines(names[start..], max)) == Says(Lines(names, max))
    ensures (kinds + [ResponseKind.Say(out)]) + Says(Lines(names[i..], max)) == Says(Lines(names, max))
  {
    var rest := names[start..];
    assert rest[..max] == names[start..i] && rest[max..] == names[i..];
    assert Lines(rest, max) == [out] + Lines(names[i..], max);
    SaysCons(out, Lines(names[i..], max));
  }

  /** Adding the next name to the line being built. */
  lemma LineStep(names: seq<string>, start: nat, i: nat, out: string)
    requires start <= i < |names|
    requires out == Joined(names[start..i], ' ')
    ensures (if out == [] then out else out + [' ']) + names[i] == Joined(names[start..i + 1], ' ')
  {
    assert names[start..i + 1] == names[start..i] + [names[i]];
    JoinedSnoc(names[start..i], names[i], ' ');
  }

  /** What is left after the last full group is the last line, said unless it is empty. */
  lemma LastStep(names: seq<string>, max: nat, start: nat, out: string)
    requires start <= |names| && (max == 0 || |names| - start <= max) && (max > 0 || |names| <= 1)
    requires out == Joined(names[start..|names|], ' ')
    ensures Says(Lines(names[start..], max)) == if out == [] then [] else [ResponseKind.Say(out)]
  {
    assert names[start..|names|] == names[start..];
  }

  /**
   * `format_all_commands`: one pass over the names with the line being built;
   * before every `max`-th name (but the first) the line so far is said and a
   * new one started, and a non-empty last line is said at the end.
   */
  method FormatAllCommands(names: seq<string>, max: nat) returns (resp: Response)
    requires max > 0 || |names| <= 1
    ensures resp.kinds == Says(Lines(names, max))
  {
    resp := Empty;
    var out: string := [];
    ghost var start: nat := 0;
    for i := 0 to |names|
      invariant start <= i
      invariant i == 0 ==> start == 0
      invariant i > 0 ==> start < i && (max == 0 || i - start <= max)
      invariant max > 0 ==> start % max == 0
      invariant out == Joined(names[start..i], ' ')
      invariant resp.kinds + Says(Lines(names[start..], max)) == Says(Lines(names, max))
    {
      if i > 0 {
        ChunkBoundary(start, i - start, max);
      }
      if i > 0 && i % max == 0 {
        GroupStep(names, max, start, i, resp.kinds, out);
        resp := resp.Say(out);
        out := [];
        start := i;
      }
      LineStep(names, start, i, out);
      if out != [] {
        out := out + [' '];
      }
      out := out + names[i];
    }
    LastStep(names, max, start, out);
    if out != [] {
      resp := resp.Say(out);
    }
  }

  /** The words of each line, one after the other. */
  function Words(lines: seq<string>): seq<string> {
    if lines == [] then [] else Split(lines[0], {' '}) + Words(lines[1..])
  }

  /** A group of non-empty, space-free names joins into a non-empty line that splits back into the group. */
  lemma LineOf(group: seq<string>)
    requires group != [] && Pieces(group, {' '})
    ensures Joined(group, ' ') != [] && Split(Joined(group, ' '), {' '}) == group
  {
    SplitJoined(group, ' ', {' '});
    JoinedNonEmpty(group, ' ');
    JoinEmpty(group, ' ');
  }

  /** Past the first `max` names, the first line is the first group and the rest are the lines of the rest. */
  lemma FirstGroup(names: seq<string>, max: nat)
    requires max > 0 && |names| > max && Pieces(names, {' '})
    ensures Pieces(names[..max], {' '}) && Pieces(names[max..], {' '})
    ensures Lines(names, max) == [Joined(names[..max], ' ')] + Lines(names[max..], max)
    ensures Joined(names[..max], ' ') != [] && Split(Joined(names[..max], ' '), {' '}) == names[..max]
  {
    assert forall w <- names[..max] :: w in names;
    assert forall w <- names[max..] :: w in names;
    assert names[0] in names[..max];
    LineOf(names[..max]);
  }

  /**
   * For names that are non-empty and free of spaces, the listing names every
   * command exactly once and in order, and no names give no lines.
   */
  lemma {:induction false} LinesWords(names: seq<string>, max: nat)
    requires max > 0 && Pieces(names, {' '})
    ensures Words(Lines(names, max)) == names
    ensures Lines(names, max) == [] <==> names == []
    decreases |names|
  {
    if |names| <= max {
      if names != [] {
        LineOf(names);
        var line := Joined(names, ' ');
        assert Lines(names, max) == [line];
        assert Words([line]) == Split(line, {' '}) + Words([]);
      }
    } else {
      FirstGroup(names, max);
      LinesWords(names[max..], max);
      var lines := Lines(names, max);
      assert lines[1..] == Lines(names[max..], max);
      assert names[..max] + names[max..] == names;
    }
  }

  /**
   * For the same names, no line is empty, every line but the last holds
   * exactly `max` names, and the last at most `max`.
   */
  lemma {:induction false} LinesSizes(names: seq<string>, max: nat)
    requires max > 0 && Pieces(names, {' '})
    ensures forall l <- Lines(names, max) :: l != [] && 1 <= |Split(l, {' '})| <= max
    ensures forall i :: 0 <= i < |Lines(names, max)| - 1 ==> |Split(Lines(names, max)[i], {' '})| == max
    decreases |names|
  {
    if |names| <= max {
      if names != [] {
        LineOf(names);
      }
    } else {
      FirstGroup(names, max);
      LinesSizes(names[max..], max);
      var lines := Lines(names, max);
      assert forall i :: 1 <= i < |lines| ==> lines[i] == Lines(names[max..], max)[i - 1];
      assert forall l <- lines :: l == lines[0] || l in Lines(names[max..], max);
    }
  }

  /** Lower-case for ASCII letters, every other character as it is. */
  function AsciiLower(c: char): char {
    if 'A' <= c <= 'Z' then (c as int + 32) as char else c
  }

  /** `str::eq_ignore_ascii_case`. */
  predicate EqIgnoreAsciiCase(a: string, b: string) {
    |a| == |b| && forall i :: 0 <= i < |a| ==> AsciiLower(a[i]) == AsciiLower(b[i])
  }

  /** The greeting test of `say_hello`: the text without trailing `!`, `?` and `.` is "hello" in any case. */
  predicate IsHello(data: string) {
    EqIgnoreAsciiCase(TrimEnd(data, HelloEnd), "hello")
  }

  /** `say_hello`: greets the sender back when the message is a greeting, and says nothing otherwise. */
  function SayHello(req: Request): (r: Response)
    ensures r.IsEmpty() <==> !IsHello(req.data)
    ensures !r.IsEmpty() ==> r.kinds == [ResponseKind.Say("hello, " + req.sender + ".")]
  {
    if IsHello(req.data) then req.Say("hello, " + req.sender + ".") else Empty
  }

  /** `hello`: greets the sender by name with `!`, whatever else the request says. */
  function Hello(req: Request): (r: Response)
    ensures r.kinds == [ResponseKind.Say("hello, " + req.sender + "!")]
  {
    req.Say("hello, " + req.sender + "!")
  }

  /** `!hello` always answers, and when the text is also a greeting the two answers differ only in their last character. */
  lemma HelloAndSayHello(req: Request)
    ensures !Hello(req).IsEmpty()
    ensures IsHello(req.data) ==>
      var said, greeted := SayHello(req).kinds[0].text, Hello(req).kinds[0].text;
      |said| == |greeted| && said[..|said| - 1] == greeted[..|greeted| - 1] &&
      said[|said| - 1] == '.' && greeted[|greeted| - 1] == '!'
  {
    var prefix := "hello, " + req.sender;
    assert Hello(req).kinds[0].text == prefix + "!";
    assert (prefix + "!")[..|prefix|] == prefix;
    if IsHello(req.data) {
      assert SayHello(req).kinds[0].text == prefix + ".";
      assert (prefix + ".")[..|prefix|] == prefix;
    }
  }

  /** Stripping a run of trailing characters from text that does not end in one of them gives the text. */
  lemma {:induction false} TrimEndSuffix(w: string, p: string, chars: set<char>)
    requires w == [] || w[|w| - 1] !in chars
    requires forall c <- p :: c in chars
    ensures TrimEnd(w + p, chars) == w
    decreases |p|
  {
    if p == [] {
      assert w + p == w;
    } else {
      var init := p[..|p| - 1];
      assert (w + p)[..|w + p| - 1] == w + init;
      assert p[|p| - 1] in p;
      assert forall c <- init :: c in p;
      TrimEndSuffix(w, init, chars);
    }
  }

  /** Any spelling of "hello" followed by any run of `!`, `?` and `.` is a greeting. */
  lemma HelloWithPunctuation(w: string, p: string)
    requires EqIgnoreAsciiCase(w, "hello")
    requires forall c <- p :: c in HelloEnd
    ensures IsHello(w + p)
  {
    assert AsciiLower(w[4]) == 'o';
    TrimEndSuffix(w, p, HelloEnd);
  }

  /** The greetings pinned down by the module's tests: three are answered, `hello#` is not. */
  lemma HelloExamples()
    ensures IsHello("hello") && IsHello("hello.") && IsHello("hello?") && IsHello("HeLLo!?")
    ensures !IsHello("hello#")
  {
    assert EqIgnoreAsciiCase("hello", "hello");
    HelloWithPunctuation("hello", "");
    assert "hello" + "" == "hello";
    HelloWithPunctuation("hello", ".");
    assert "hello" + "." == "hello.";
    HelloWithPunctuation("hello", "?");
    assert "hello" + "?" == "hello?";
    assert EqIgnoreAsciiCase("HeLLo", "hello");
    HelloWithPunctuation("HeLLo", "!?");
    assert "HeLLo" + "!?" == "HeLLo!?";
    assert TrimEnd("hello#", HelloEnd) == "hello#";
  }

  /**
   * `help`: with a `cmd` argument, its usage and description, or a problem
   * when the registry has no usage for it; without one, every registered
   * command, twenty per line.
   */
  method HelpCommand(req: Request, help: HelpRegistry) returns (resp: Response)
    ensures "cmd" in req.args && help.Lookup(req.args["cmd"]).Some? ==>
      resp.kinds == [ResponseKind.Say("usage: " + help.Lookup(req.args["cmd"]).value.0),
                     ResponseKind.Say("description: " + help.Lookup(req.args["cmd"]).value.1)]
    ensures "cmd" in req.args && help.Lookup(req.args["cmd"]).None? ==>
      resp.kinds == [ResponseKind.Problem("I couldn't find " + req.args["cmd"])]
    ensures "cmd" !in req.args ==> resp.kinds == Says(Lines(help.AllCommands(), MaxCommandsPerLine))
  {
    match Arguments.Get(req.args, "cmd")
    case Ok(cmd) =>
      match help.Lookup(cmd) {
        case Some((usage, desc)) =>
          var first := req.Say("usage: " + usage);
          resp := first.Say("description: " + desc);
        case None =>
          resp := req.Problem("I couldn't find " + cmd);
      }
    case Err(_) =>
      resp := FormatAllCommands(help.AllCommands(), MaxCommandsPerLine);
  }
}
