/**
 * What a bot command receives and what it answers. A request carries the
 * chat message's tags, sender, channel, text and the arguments matched for
 * the command; a response is an ordered list of things to say, replies and
 * problems to report.
 */
module Callable {
  import opened Wrappers
  import opened Text
  import opened IrcTags
  import opened IrcPrivmsg

  datatype ResponseKind = Say(text: string) | Reply(text: string) | Problem(text: string)

  /**
   * A response owns its list of kinds; `push` and `append` both add one kind
   * at the end, which on a value is `Append`.
   */
  datatype Response = Response(kinds: seq<ResponseKind>) {
    /** The only response with nothing in it is `Empty`. */
    predicate IsEmpty()
      ensures IsEmpty() <==> this == Empty
    {
      kinds == []
    }

    function Append(kind: ResponseKind): (r: Response)
      ensures |r.kinds| == |kinds| + 1 && r.kinds[..|kinds|] == kinds && r.kinds[|kinds|] == kind
      ensures !r.IsEmpty()
    {
      Response(kinds + [kind])
    }

    function Say(data: string): (r: Response)
      ensures r.kinds == kinds + [ResponseKind.Say(data)]
    {
      Append(ResponseKind.Say(data))
    }

    function Reply(data: string): (r: Response)
      ensures r.kinds == kinds + [ResponseKind.Reply(data)]
    {
      Append(ResponseKind.Reply(data))
    }

    function Problem(data: string): (r: Response)
      ensures r.kinds == kinds + [ResponseKind.Problem(data)]
    {
      Append(ResponseKind.Problem(data))
    }
  }

  const Empty := Response([])

  datatype Request = Request(tags: Tags, sender: string, target: string, data: string, args: map<string, string>) {
    function Say(data: string): (r: Response)
      ensures r.kinds == [ResponseKind.Say(data)]
    {
      Empty.Say(data)
    }

    function Reply(data: string): (r: Response)
      ensures r.kinds == [ResponseKind.Reply(data)]
    {
      Empty.Reply(data)
    }

    function Problem(data: string): (r: Response)
      ensures r.kinds == [ResponseKind.Problem(data)]
    {
      Empty.Problem(data)
    }

    /** Only a request whose tags carry badges can be from the broadcaster. */
    predicate IsFromBroadcaster()
      ensures IsFromBroadcaster() ==> "badges" in tags.entries
    {
      HasBadge(tags, "broadcaster")
    }

    /** Only a request whose tags carry badges can be from a moderator. */
    predicate IsFromModerator()
      ensures IsFromModerator() ==> "badges" in tags.entries
    {
      HasBadge(tags, "moderator")
    }

    /** The first word of the text: no space in it, and the text opens with it. */
    function Command(): (r: string)
      ensures ' ' !in r && StartsWith(data, r)
      ensures ' ' !in data ==> r == data
    {
      SplitCommand(data)
    }

    /** A matching pattern opens with the request's command. */
    predicate MatchCommand(right: string)
      ensures MatchCommand(right) ==> StartsWith(right, Command())
      ensures ' ' !in right ==> (MatchCommand(right) <==> Command() == right)
    {
      Command() == SplitCommand(right)
    }

    function RequireModerator(): (r: Result<()>)
      ensures r.Ok? <==> IsFromModerator()
      ensures r.Err? ==> r.error == "that requires you to be a moderator"
    {
      if IsFromModerator() then Ok(()) else Err("that requires you to be a moderator")
    }

    function RequireBroadcaster(): (r: Result<()>)
      ensures r.Ok? <==> IsFromBroadcaster()
      ensures r.Err? ==> r.error == "that requires you to be the broadcaster"
    {
      if IsFromBroadcaster() then Ok(()) else Err("that requires you to be the broadcaster")
    }

    /** Elevation is being a moderator or the broadcaster. */
    function RequireElevation(): (r: Result<()>)
      ensures r.Ok? <==> RequireModerator().Ok? || RequireBroadcaster().Ok?
      ensures r.Err? ==> r.error == "that requires you to be a moderator or the broadcaster"
    {
      if IsFromModerator() || IsFromBroadcaster() then Ok(())
      else Err("that requires you to be a moderator or the broadcaster")
    }
  }

  /** The broadcaster's name is fixed. */
  const StreamerName: string := "museun"

  /** `Request::from_pm`: the message's tags, sender, channel and text, with no arguments. */
  /** The request answers every question about badges and commands as the message does, and has no arguments. */
  function FromPm(pm: Privmsg): (r: Request)
    ensures r.IsFromBroadcaster() == IrcPrivmsg.IsFromBroadcaster(pm)
    ensures r.IsFromModerator() == IrcPrivmsg.IsFromModerator(pm)
    ensures r.Command() == IrcPrivmsg.Command(pm)
    ensures forall right :: r.MatchCommand(right) == IrcPrivmsg.MatchCommand(pm, right)
    ensures r.args == map[] && r.sender == pm.user && r.target == pm.target
  {
    Request(pm.tags, pm.user, pm.target, pm.data, map[])
  }

  /** Appending each kind of `kinds` in turn. */
  function AppendAll(resp: Response, kinds: seq<ResponseKind>): Response
    decreases |kinds|
  {
    if kinds == [] then resp else AppendAll(resp.Append(kinds[0]), kinds[1..])
  }

  lemma {:induction false} AppendAllKinds(resp: Response, kinds: seq<ResponseKind>)
    ensures AppendAll(resp, kinds).kinds == resp.kinds + kinds
    decreases |kinds|
  {
    if kinds != [] {
      var next := resp.Append(kinds[0]);
      assert next.kinds == resp.kinds + [kinds[0]] by {
        var k := |resp.kinds|;
        assert next.kinds == next.kinds[..k] + [next.kinds[k]];
      }
      AppendAllKinds(next, kinds[1..]);
      assert resp.kinds + [kinds[0]] + kinds[1..] == resp.kinds + kinds;
    }
  }

  /** `fold_many`: every kind of every response, appended one by one to an empty response, keeps them all in input order. */
  function FoldMany(responses: seq<Response>): (r: Response)
    ensures r.kinds == Flatten(responses)
  {
    if responses == [] then Empty
    else
      var init, last := responses[..|responses| - 1], responses[|responses| - 1];
      AppendAllKinds(FoldMany(init), last.kinds);
      assert responses == init + [last];
      FlattenSnoc(init, last);
      AppendAll(FoldMany(init), last.kinds)
  }

  /** All kinds of the responses, in order. */
  function Flatten(responses: seq<Response>): seq<ResponseKind> {
    if responses == [] then [] else responses[0].kinds + Flatten(responses[1..])
  }

  lemma {:induction false} FlattenSnoc(responses: seq<Response>, last: Response)
    ensures Flatten(responses + [last]) == Flatten(responses) + last.kinds
  {
    if responses == [] {
      assert [last][1..] == [];
    } else {
      assert (responses + [last])[1..] == responses[1..] + [last];
      FlattenSnoc(responses[1..], last);
    }
  }

  /** Folding nothing, or only empty responses, gives an empty response. */
  lemma {:induction false} FoldManyEmpty(responses: seq<Response>)
    requires forall r <- responses :: r.IsEmpty()
    ensures FoldMany(responses).IsEmpty()
  {
    FlattenEmpty(responses);
  }

  lemma {:induction false} FlattenEmpty(responses: seq<Response>)
    requires forall r <- responses :: r.IsEmpty()
    ensures Flatten(responses) == []
  {
    if responses != [] {
      assert responses[0] in responses;
      assert forall r <- responses[1..] :: r in responses;
      FlattenEmpty(responses[1..]);
    }
  }
}
