/**
 * Command argument patterns such as `!add <name> <body..>`: parsing the
 * pattern into keys of three kinds, and matching the text after a command
 * against it.
 */
module Arguments {
  import opened Wrappers
  import opened Text

  datatype Kind = Required | Optional | Variadic

  datatype ArgType = ArgType(key: string, kind: Kind)

  /** The outcome of matching input against a pattern. */
  datatype Match =
    | Required
    | Matched(args: map<string, string>)
    | NoMatch
    | Exact

  /** `Arguments::get`. */
  function Get(args: map<string, string>, key: string): (r: Result<string>)
    ensures r.Ok? <==> key in args
    ensures r.Ok? ==> r.value == args[key]
    ensures r.Err? ==> r.error == "cannot find " + key
  {
    if key in args then Ok(args[key]) else Err("cannot find " + key)
  }

  predicate IsAsciiAlpha(c: char) {
    'a' <= c <= 'z' || 'A' <= c <= 'Z'
  }

  predicate AllAlpha(s: string) {
    forall c <- s :: IsAsciiAlpha(c)
  }

  /** One token of a pattern: `<key..>`, `<key?>`, `<key>` with an alphabetic key, or nothing. */
  function Classify(token: string): Option<ArgType> {
    if |token| < 2 || token[0] != '<' || token[|token| - 1] != '>' then None
    else
      var inner := token[1..|token| - 1];
      if |inner| >= 2 && inner[|inner| - 2] == '.' && inner[|inner| - 1] == '.' && AllAlpha(inner[..|inner| - 2]) then
        Some(ArgType(inner[..|inner| - 2], Kind.Variadic))
      else if |inner| >= 1 && inner[|inner| - 1] == '?' && AllAlpha(inner[..|inner| - 1]) then
        Some(ArgType(inner[..|inner| - 1], Kind.Optional))
      else if AllAlpha(inner) then Some(ArgType(inner, Kind.Required))
      else None
  }

  /** What each kind of argument looks like written out. */
  lemma ClassifyShape(token: string)
    requires Classify(token).Some?
    ensures AllAlpha(Classify(token).value.key)
    ensures Classify(token).value.kind == Kind.Variadic ==> token == ['<'] + Classify(token).value.key + ['.', '.', '>']
    ensures Classify(token).value.kind == Kind.Optional ==> token == ['<'] + Classify(token).value.key + ['?', '>']
    ensures Classify(token).value.kind == Kind.Required ==> token == ['<'] + Classify(token).value.key + ['>']
  {
    var inner := token[1..|token| - 1];
    assert token == ['<'] + inner + ['>'];
    var k := Classify(token).value.key;
    if Classify(token).value.kind == Kind.Variadic {
      assert inner == k + ['.', '.'];
    } else if Classify(token).value.kind == Kind.Optional {
      assert inner == k + ['?'];
    }
  }

  /** Keys are alphabetic; a trailing `..` or `?` decides the kind; anything else is skipped. */
  lemma ClassifyExamples()
    ensures Classify("<name>") == Some(ArgType("name", Kind.Required))
    ensures Classify("<body..>") == Some(ArgType("body", Kind.Variadic))
    ensures Classify("<a?>") == Some(ArgType("a", Kind.Optional))
    ensures Classify("!say") == None
  {
    assert Classify("<name>") == Some(ArgType("name", Kind.Required)) by {
      assert AllAlpha("name");
      ClassifyRequired("name");
      assert "<name>" == ['<'] + "name" + ['>'];
    }
    assert Classify("<body..>") == Some(ArgType("body", Kind.Variadic)) by {
      assert AllAlpha("body");
      ClassifyVariadic("body");
      assert "<body..>" == ['<'] + "body" + ['.', '.', '>'];
    }
    assert Classify("<a?>") == Some(ArgType("a", Kind.Optional)) by {
      assert AllAlpha("a");
      ClassifyOptional("a");
      assert "<a?>" == ['<'] + "a" + ['?', '>'];
    }
  }

  /** A key with a character that is not a letter (and not a kind marker at the end) is skipped. */
  lemma ClassifyNotAlpha(k: string)
    requires k != [] && IsAsciiAlpha(k[|k| - 1]) && !AllAlpha(k)
    ensures Classify(['<'] + k + ['>']) == None
  {
    var t := ['<'] + k + ['>'];
    assert t[1..|t| - 1] == k;
  }

  lemma ClassifyRequired(k: string)
    requires AllAlpha(k)
    ensures Classify(['<'] + k + ['>']) == Some(ArgType(k, Kind.Required))
  {
    var t := ['<'] + k + ['>'];
    assert t[1..|t| - 1] == k;
    if |k| >= 1 {
      assert k[|k| - 1] in k;
    }
  }

  lemma ClassifyOptional(k: string)
    requires AllAlpha(k)
    ensures Classify(['<'] + k + ['?', '>']) == Some(ArgType(k, Kind.Optional))
  {
    var t := ['<'] + k + ['?', '>'];
    var inner := t[1..|t| - 1];
    assert inner == k + ['?'];
    assert inner[|inner| - 1] == '?' && inner[..|inner| - 1] == k;
    if |k| >= 1 {
      assert inner[|inner| - 2] == k[|k| - 1];
      assert k[|k| - 1] in k;
    }
  }

  lemma ClassifyVariadic(k: string)
    requires AllAlpha(k)
    ensures Classify(['<'] + k + ['.', '.', '>']) == Some(ArgType(k, Kind.Variadic))
  {
    var t := ['<'] + k + ['.', '.', '>'];
    var inner := t[1..|t| - 1];
    assert inner == k + ['.', '.'] && inner[..|inner| - 2] == k;
  }

  function Keys(args: seq<ArgType>): set<string> {
    set a <- args :: a.key
  }

  /** No two arguments share a key. */
  predicate DistinctKeys(args: seq<ArgType>) {
    forall i, j :: 0 <= i < j < |args| ==> args[i].key != args[j].key
  }

  /** Only the last argument may be variadic. */
  predicate VariadicLast(args: seq<ArgType>) {
    forall i :: 0 <= i < |args| - 1 ==> args[i].kind != Kind.Variadic
  }

  lemma KeysSnoc(args: seq<ArgType>, a: ArgType)
    ensures Keys(args + [a]) == Keys(args) + {a.key}
  {
    assert forall b <- args + [a] :: b in args || b == a;
  }

  /** The pattern's tokens from here on, with `args` taken so far. */
  function Scan(tokens: seq<string>, args: seq<ArgType>): Result<seq<ArgType>>
    decreases |tokens|
  {
    if tokens == [] then Ok(args)
    else match Classify(tokens[0])
      case None => Scan(tokens[1..], args)
      case Some(a) =>
        if a.key in Keys(args) then Err(a.key + " was already used")
        else if a.kind == Kind.Variadic then Ok(args + [a])
        else Scan(tokens[1..], args + [a])
  }

  /** `ExampleArgs::parse`: classify each whitespace-separated token, stopping after a variadic one. */
  method Parse(input: string) returns (r: Result<seq<ArgType>>)
    ensures r == Scan(Split(input, AsciiWhitespace), [])
  {
    var tokens := Split(input, AsciiWhitespace);
    var seen: set<string> := {};
    var args: seq<ArgType> := [];
    for i := 0 to |tokens|
      invariant seen == Keys(args)
      invariant Scan(tokens, []) == Scan(tokens[i..], args)
      invariant args == [] || args[|args| - 1].kind != Kind.Variadic
    {
      assert tokens[i..][1..] == tokens[i + 1..];
      var arg := Classify(tokens[i]);
      if arg.None? {
        continue;
      }
      var a := arg.value;
      if a.key in seen {
        return Err(a.key + " was already used");
      }
      KeysSnoc(args, a);
      seen := seen + {a.key};
      args := args + [a];
      if a.kind == Kind.Variadic {
        return Ok(args);
      }
    }
    return Ok(args);
  }

  /**
   * A parsed pattern has distinct keys, a variadic argument only at the
   * end, and every argument is the classification of one of its tokens.
   */
  lemma {:induction false} ScanShape(tokens: seq<string>, args: seq<ArgType>)
    requires DistinctKeys(args) && (forall a <- args :: a.kind != Kind.Variadic)
    ensures Scan(tokens, args).Ok? ==> DistinctKeys(Scan(tokens, args).value)
    ensures Scan(tokens, args).Ok? ==> VariadicLast(Scan(tokens, args).value)
    ensures Scan(tokens, args).Ok? ==> forall a <- Scan(tokens, args).value :: a in args || exists t <- tokens :: Classify(t) == Some(a)
    decreases |tokens|
  {
    if tokens != [] {
      match Classify(tokens[0])
      case None =>
        ScanShape(tokens[1..], args);
        assert forall t <- tokens[1..] :: t in tokens;
      case Some(a) =>
        if a.key !in Keys(args) {
          var next := args + [a];
          forall i, j | 0 <= i < j < |next| ensures next[i].key != next[j].key {
            if j == |args| {
              assert args[i] in args;
            }
          }
          if a.kind != Kind.Variadic {
            ScanShape(tokens[1..], next);
            assert forall t <- tokens[1..] :: t in tokens;
          }
        }
    }
  }

  /** A repeated key is reported by name. */
  lemma {:induction false} ScanError(tokens: seq<string>, args: seq<ArgType>)
    ensures Scan(tokens, args).Err? ==> exists a <- tokens :: Classify(a).Some? && Scan(tokens, args).error == Classify(a).value.key + " was already used"
    decreases |tokens|
  {
    if tokens != [] && Classify(tokens[0]) != None && Classify(tokens[0]).value.key !in Keys(args) {
      var a := Classify(tokens[0]).value;
      if a.kind != Kind.Variadic {
        ScanError(tokens[1..], args + [a]);
        assert forall t <- tokens[1..] :: t in tokens;
      }
    } else if tokens != [] && Classify(tokens[0]) == None {
      ScanError(tokens[1..], args);
      assert forall t <- tokens[1..] :: t in tokens;
    }
  }

  /** `contains`: some argument is of this kind. */
  predicate Contains(args: seq<ArgType>, kind: Kind) {
    exists a <- args :: a.kind == kind
  }

  /**
   * Matching the remaining input against the arguments from here on: a
   * non-final argument facing a space takes the text before it and the rest
   * is trimmed; a variadic argument, or one facing text without a space,
   * takes all of it (if any) and matching stops.
   */
  function Fill(args: seq<ArgType>, input: string, m: map<string, string>): map<string, string>
    decreases |args|
  {
    if args == [] then m
    else
      var a := args[0];
      var whole := if input != [] then m[a.key := input] else m;
      match IndexOf(input, ' ')
      case None => whole
      case Some(pos) =>
        if a.kind == Kind.Variadic then whole
        else Fill(args[1..], Trim(input[pos..], Whitespace), m[a.key := input[..pos]])
  }

  /** `ExampleArgs::extract`. */
  function Extract(args: seq<ArgType>, input: string): Match {
    if input == [] && Contains(args, Kind.Required) then Match.Required
    else if input == [] && args != [] && !Contains(args, Kind.Optional) && !Contains(args, Kind.Variadic) then NoMatch
    else if input == [] && args == [] then Exact
    else if input != [] && args == [] then NoMatch
    else Matched(Fill(args, input, map[]))
  }

  /** The loop of `extract`, moving the input forward argument by argument. */
  method ExtractArgs(args: seq<ArgType>, input: string) returns (r: Match)
    ensures r == Extract(args, input)
  {
    if input == [] {
      if Contains(args, Kind.Required) {
        return Match.Required;
      }
      if args != [] && !Contains(args, Kind.Optional) && !Contains(args, Kind.Variadic) {
        return NoMatch;
      }
      if args == [] {
        return Exact;
      }
    }
    if input != [] && args == [] {
      return NoMatch;
    }
    assert Extract(args, input) == Matched(Fill(args, input, map[]));
    var rest := input;
    var m: map<string, string> := map[];
    for i := 0 to |args|
      invariant Fill(args, input, map[]) == Fill(args[i..], rest, m)
    {
      var a := args[i];
      var pos := IndexOf(rest, ' ');
      FillFirst(args[i..], rest, m);
      if pos.None? || a.kind == Kind.Variadic {
        if rest != [] {
          m := m[a.key := rest];
        }
        return Matched(m);
      }
      assert args[i..][1..] == args[i + 1..];
      m := m[a.key := rest[..pos.value]];
      rest := Trim(rest[pos.value..], Whitespace);
    }
    assert args[|args|..] == [];
    return Matched(m);
  }

  /** One step of matching: the first argument either takes what is left and stops, or takes one word. */
  lemma FillFirst(args: seq<ArgType>, input: string, m: map<string, string>)
    requires args != []
    ensures IndexOf(input, ' ').None? || args[0].kind == Kind.Variadic ==>
      Fill(args, input, m) == if input != [] then m[args[0].key := input] else m
    ensures IndexOf(input, ' ').Some? && args[0].kind != Kind.Variadic ==>
      Fill(args, input, m) ==
        Fill(args[1..], Trim(input[IndexOf(input, ' ').value..], Whitespace), m[args[0].key := input[..IndexOf(input, ' ').value]])
  {
  }

  /** Matching only adds declared keys. */
  lemma {:induction false} FillKeys(args: seq<ArgType>, input: string, m: map<string, string>)
    ensures Fill(args, input, m).Keys <= m.Keys + Keys(args)
    decreases |args|
  {
    if args != [] && IndexOf(input, ' ').Some? && args[0].kind != Kind.Variadic {
      var pos := IndexOf(input, ' ').value;
      FillKeys(args[1..], Trim(input[pos..], Whitespace), m[args[0].key := input[..pos]]);
      assert Keys(args[1..]) <= Keys(args) by {
        forall k | k in Keys(args[1..]) ensures k in Keys(args) {
          var a :| a in args[1..] && a.key == k;
          assert a in args;
        }
      }
    }
  }

  /** An empty remainder is never inserted: with nothing left, matching adds nothing. */
  lemma FillNothing(args: seq<ArgType>, m: map<string, string>)
    ensures Fill(args, [], m) == m
  {
  }

  /** Without a space, or for a variadic argument, the first argument takes the whole input and matching stops. */
  lemma FillWhole(a: ArgType, rest: seq<ArgType>, input: string)
    requires input != []
    requires ' ' !in input || a.kind == Kind.Variadic
    ensures Fill([a] + rest, input, map[]) == map[a.key := input]
  {
    assert ([a] + rest)[0] == a;
  }

  /** Otherwise the first argument keeps the text before the first space, unless a later one reuses its key. */
  lemma FillHead(a: ArgType, rest: seq<ArgType>, input: string)
    requires ' ' in input && a.kind != Kind.Variadic && a.key !in Keys(rest)
    ensures a.key in Fill([a] + rest, input, map[])
    ensures Fill([a] + rest, input, map[])[a.key] == input[..IndexOf(input, ' ').value]
  {
    var args := [a] + rest;
    assert args[0] == a && args[1..] == rest;
    var pos := IndexOf(input, ' ').value;
    FillKeeps(rest, Trim(input[pos..], Whitespace), map[a.key := input[..pos]], a.key);
  }

  /** A key no later argument declares keeps its value. */
  lemma {:induction false} FillKeeps(args: seq<ArgType>, input: string, m: map<string, string>, k: string)
    requires k in m && k !in Keys(args)
    ensures k in Fill(args, input, m) && Fill(args, input, m)[k] == m[k]
    decreases |args|
  {
    if args != [] {
      assert args[0] in args;
      if IndexOf(input, ' ').Some? && args[0].kind != Kind.Variadic {
        var pos := IndexOf(input, ' ').value;
        assert Keys(args[1..]) <= Keys(args) by {
          forall x | x in Keys(args[1..]) ensures x in Keys(args) {
            var b :| b in args[1..] && b.key == x;
            assert b in args;
          }
        }
        FillKeeps(args[1..], Trim(input[pos..], Whitespace), m[args[0].key := input[..pos]], k);
      }
    }
  }

  /** Empty input: a required argument is reported, no arguments is exact, otherwise nothing is matched. */
  lemma ExtractEmpty(args: seq<ArgType>)
    ensures Contains(args, Kind.Required) ==> Extract(args, []) == Match.Required
    ensures args == [] ==> Extract(args, []) == Exact
    ensures args != [] && !Contains(args, Kind.Required) ==> Extract(args, []) == Matched(map[])
  {
    if args != [] && !Contains(args, Kind.Required) {
      assert args[0] in args;
      assert args[0].kind == Kind.Optional || args[0].kind == Kind.Variadic;
    }
  }

  /** Input with no arguments declared does not match. */
  lemma ExtractNoArgs(input: string)
    requires input != []
    ensures Extract([], input) == NoMatch
  {
  }

  /**
   * `<name> <body..>` against a word, a gap of whitespace opening with a
   * space, a body and trailing whitespace: the name is the word and the body
   * is what follows, trimmed at both ends.
   */
  lemma ExtractNameBody(name: string, gap: string, body: string, trail: string)
    requires name != [] && ' ' !in name
    requires gap != [] && gap[0] == ' ' && forall c <- gap :: c in Whitespace
    requires body != [] && body[0] !in Whitespace && body[|body| - 1] !in Whitespace
    requires forall c <- trail :: c in Whitespace
    ensures Extract([ArgType("name", Kind.Required), ArgType("body", Kind.Variadic)], name + gap + body + trail)
      == Matched(map["name" := name, "body" := body])
  {
    var args := [ArgType("name", Kind.Required), ArgType("body", Kind.Variadic)];
    var input := name + gap + body + trail;
    WordThenRest(name, gap, body, trail, Whitespace);
    FillFirst(args, input, map[]);
    assert args[1..] == [ArgType("body", Kind.Variadic)];
    FillFirst(args[1..], body, map["name" := name]);
  }

  /** The first space ends the word, and trimming what follows leaves the body. */
  lemma WordThenRest(name: string, gap: string, body: string, trail: string, chars: set<char>)
    requires name != [] && ' ' !in name
    requires gap != [] && gap[0] == ' ' && forall c <- gap :: c in chars
    requires body != [] && body[0] !in chars && body[|body| - 1] !in chars
    requires forall c <- trail :: c in chars
    ensures IndexOf(name + gap + body + trail, ' ') == Some(|name|)
    ensures (name + gap + body + trail)[..|name|] == name
    ensures Trim((name + gap + body + trail)[|name|..], chars) == body
  {
    var rest := gap + body + trail;
    assert name + gap + body + trail == name + rest;
    FirstSpace(name, rest);
    TrimAround(gap, body, trail, chars);
  }

  lemma FirstSpace(name: string, rest: string)
    requires ' ' !in name && rest != [] && rest[0] == ' '
    ensures IndexOf(name + rest, ' ') == Some(|name|)
    ensures (name + rest)[..|name|] == name && (name + rest)[|name|..] == rest
  {
    assert name + rest == name + [' '] + rest[1..];
    IndexOfAfter(name, ' ', rest[1..]);
  }

  lemma TrimAround(gap: string, body: string, trail: string, chars: set<char>)
    requires forall c <- gap :: c in chars
    requires body != [] && body[0] !in chars && body[|body| - 1] !in chars
    requires forall c <- trail :: c in chars
    ensures Trim(gap + body + trail, chars) == body
  {
    assert gap + body + trail == gap + (body + trail);
    TrimStartRun(gap, body + trail, chars);
    TrimEndRun(body, trail, chars);
  }

  /** One token of a pattern consumed by `Scan`. */
  lemma ScanToken(t: string, rest: seq<string>, args: seq<ArgType>)
    ensures Classify(t).None? ==> Scan([t] + rest, args) == Scan(rest, args)
    ensures Classify(t).Some? && Classify(t).value.key in Keys(args) ==>
      Scan([t] + rest, args) == Err(Classify(t).value.key + " was already used")
    ensures Classify(t).Some? && Classify(t).value.key !in Keys(args) && Classify(t).value.kind == Kind.Variadic ==>
      Scan([t] + rest, args) == Ok(args + [Classify(t).value])
    ensures Classify(t).Some? && Classify(t).value.key !in Keys(args) && Classify(t).value.kind != Kind.Variadic ==>
      Scan([t] + rest, args) == Scan(rest, args + [Classify(t).value])
  {
    assert ([t] + rest)[0] == t && ([t] + rest)[1..] == rest;
  }

  /** `<name> <body..>` parses to a required and a variadic argument. */
  lemma ParseExample()
    ensures Scan(["<name>", "<body..>"], []) == Ok([ArgType("name", Kind.Required), ArgType("body", Kind.Variadic)])
  {
    ClassifyExamples();
    var a := ArgType("name", Kind.Required);
    assert Keys([]) == {};
    ScanToken("<name>", ["<body..>"], []);
    assert [] + [a] == [a];
    assert Keys([a]) == {"name"} by { assert a in [a]; }
    ScanToken("<body..>", [], [a]);
    assert [a] + [ArgType("body", Kind.Variadic)] == [a, ArgType("body", Kind.Variadic)];
    assert ["<name>", "<body..>"] == ["<name>"] + ["<body..>"];
    assert ["<body..>"] == ["<body..>"] + [];
  }

  /** A key used twice is an error naming the key. */
  lemma ParseRepeated(k: string)
    requires AllAlpha(k)
    ensures Scan([['<'] + k + ['>'], ['<'] + k + ['?', '>']], []) == Err(k + " was already used")
  {
    var a := ArgType(k, Kind.Required);
    var t1, t2 := ['<'] + k + ['>'], ['<'] + k + ['?', '>'];
    assert Scan([t1, t2], []) == Scan([t2], [a]) by {
      ClassifyRequired(k);
      assert Keys([]) == {};
      ScanToken(t1, [t2], []);
      assert [t1, t2] == [t1] + [t2];
      assert [] + [a] == [a];
    }
    assert Scan([t2], [a]) == Err(k + " was already used") by {
      ClassifyOptional(k);
      assert Keys([a]) == {k} by { assert a in [a]; }
      ScanToken(t2, [], [a]);
      assert [t2] == [t2] + [];
    }
  }



  /** Tokens that are not arguments are skipped, and nothing after a variadic argument is read. */
  lemma ParseVariadicExample()
    ensures Scan(["!say", "<rest..>", "<b>"], []) == Ok([ArgType("rest", Kind.Variadic)])
  {
    ClassifyExamples();
    assert AllAlpha("rest");
    ClassifyVariadic("rest");
    assert "<rest..>" == ['<'] + "rest" + ['.', '.', '>'];
    assert Keys([]) == {};
    ScanToken("!say", ["<rest..>", "<b>"], []);
    ScanToken("<rest..>", ["<b>"], []);
    assert [] + [ArgType("rest", Kind.Variadic)] == [ArgType("rest", Kind.Variadic)];
    assert ["!say", "<rest..>", "<b>"] == ["!say"] + ["<rest..>", "<b>"];
    assert ["<rest..>", "<b>"] == ["<rest..>"] + ["<b>"];
  }
}
