/**
 * The edge set of one context: an order-preserving vector of links with at
 * most one link per token. Inserting a token bumps its link or appends a new
 * one.
 */
module MarkovSet {
  import opened Wrappers
  import opened MarkovLink

  /** Index of the first link carrying `token`. */
  function FindIndex(links: seq<Link>, token: Token): (r: Option<nat>)
    ensures r.Some? ==> r.value < |links| && links[r.value].token == token
    ensures r.Some? ==> forall j :: 0 <= j < r.value ==> links[j].token != token
    ensures r.None? ==> forall j :: 0 <= j < |links| ==> links[j].token != token
  {
    if links == [] then None
    else if links[0].token == token then Some(0)
    else match FindIndex(links[1..], token)
      case None => None
      case Some(i) => Some(i + 1)
  }

  /** The links after inserting `token`: bump the existing link, or append a new one. */
  function Inserted(links: seq<Link>, token: Token): seq<Link> {
    match FindIndex(links, token)
    case Some(i) => links[i := Expand(links[i], 1)]
    case None => links + [NewLink(token)]
  }

  /** At most one link per token. */
  predicate UniqueTokens(links: seq<Link>) {
    forall i, j :: 0 <= i < j < |links| ==> links[i].token != links[j].token
  }

  /** Every count is at least one. */
  predicate Positive(links: seq<Link>) {
    forall l <- links :: l.count >= 1
  }

  function Tokens(links: seq<Link>): set<Token> {
    set l <- links :: l.token
  }

  /** Sum of all counts. */
  function Total(links: seq<Link>): nat {
    if links == [] then 0 else Total(links[..|links| - 1]) + links[|links| - 1].count
  }

  /** Sum of the counts of the links carrying `token`. */
  function CountOf(links: seq<Link>, token: Token): nat {
    if links == [] then 0
    else
      var last := links[|links| - 1];
      CountOf(links[..|links| - 1], token) + (if last.token == token then last.count else 0)
  }

  /** `b` extends `a`: same tokens in the same order, counts no smaller, possibly more links. */
  predicate Dominates(a: seq<Link>, b: seq<Link>) {
    |a| <= |b| && forall i :: 0 <= i < |a| ==> b[i].token == a[i].token && b[i].count >= a[i].count
  }

  lemma {:induction false} TotalUpdate(links: seq<Link>, i: nat, l: Link)
    requires i < |links|
    ensures Total(links[i := l]) + links[i].count == Total(links) + l.count
    decreases |links|
  {
    var n := |links| - 1;
    if i < n {
      assert links[i := l][..n] == links[..n][i := l];
      TotalUpdate(links[..n], i, l);
    } else {
      assert links[i := l][..n] == links[..n];
    }
  }

  lemma {:induction false} CountOfUpdate(links: seq<Link>, i: nat, l: Link, t: Token)
    requires i < |links|
    ensures CountOf(links[i := l], t) + (if links[i].token == t then links[i].count else 0)
         == CountOf(links, t) + (if l.token == t then l.count else 0)
    decreases |links|
  {
    var n := |links| - 1;
    if i < n {
      assert links[i := l][..n] == links[..n][i := l];
      CountOfUpdate(links[..n], i, l, t);
    } else {
      assert links[i := l][..n] == links[..n];
    }
  }

  lemma AppendOne(links: seq<Link>, l: Link)
    ensures (links + [l])[..|links|] == links
  {
  }

  /** Inserting a present token adds one to that link only; length and order are unchanged. */
  lemma InsertPresent(links: seq<Link>, token: Token, i: nat)
    requires i < |links| && links[i].token == token && UniqueTokens(links)
    ensures var r := Inserted(links, token);
      |r| == |links| && r[i] == Link(token, links[i].count + 1)
      && forall j :: 0 <= j < |links| && j != i ==> r[j] == links[j]
  {
    var f := FindIndex(links, token);
    assert f.Some? && f.value == i;
  }

  /** Inserting an absent token appends a link of count one and leaves the rest alone. */
  lemma InsertAbsent(links: seq<Link>, token: Token)
    requires token !in Tokens(links)
    ensures Inserted(links, token) == links + [Link(token, 1)]
  {
  }

  /** Insertion keeps at most one link per token and every count positive. */
  lemma InsertKeepsInvariant(links: seq<Link>, token: Token)
    requires UniqueTokens(links) && Positive(links)
    ensures UniqueTokens(Inserted(links, token)) && Positive(Inserted(links, token))
    ensures Inserted(links, token) != []
  {
    var r := Inserted(links, token);
    match FindIndex(links, token)
    case Some(i) =>
      assert forall l <- r :: l in links || l == Expand(links[i], 1);
    case None =>
      assert forall l <- r :: l in links || l == NewLink(token);
  }

  /** Every insertion raises the total of all counts by exactly one. */
  lemma InsertTotal(links: seq<Link>, token: Token)
    ensures Total(Inserted(links, token)) == Total(links) + 1
  {
    match FindIndex(links, token)
    case Some(i) => TotalUpdate(links, i, Expand(links[i], 1));
    case None => AppendOne(links, NewLink(token));
  }

  /** Insertion adds one observation of `token` and none of any other token. */
  lemma InsertCountOf(links: seq<Link>, token: Token, t: Token)
    ensures CountOf(Inserted(links, token), t) == CountOf(links, t) + (if t == token then 1 else 0)
  {
    match FindIndex(links, token)
    case Some(i) => CountOfUpdate(links, i, Expand(links[i], 1), t);
    case None => AppendOne(links, NewLink(token));
  }

  /** Insertion never removes a link, reorders links or lowers a count. */
  lemma InsertGrows(links: seq<Link>, token: Token)
    ensures Dominates(links, Inserted(links, token))
    ensures token in Tokens(Inserted(links, token))
  {
    var r := Inserted(links, token);
    match FindIndex(links, token)
    case Some(i) => assert r[i].token == token;
    case None => assert r[|links|].token == token;
  }

  lemma DominatesTrans(a: seq<Link>, b: seq<Link>, c: seq<Link>)
    requires Dominates(a, b) && Dominates(b, c)
    ensures Dominates(a, c)
  {
  }

  lemma DominatesTokens(a: seq<Link>, b: seq<Link>)
    requires Dominates(a, b)
    ensures Tokens(a) <= Tokens(b)
  {
    forall t | t in Tokens(a) ensures t in Tokens(b) {
      var i :| 0 <= i < |a| && a[i].token == t;
      assert b[i] in b;
    }
  }

  /** The `find` over the links, as the loop the iterator runs. */
  method Find(links: seq<Link>, token: Token) returns (r: Option<nat>)
    ensures r == FindIndex(links, token)
  {
    var i := 0;
    while i < |links|
      invariant 0 <= i <= |links|
      invariant forall j :: 0 <= j < i ==> links[j].token != token
    {
      if links[i].token == token {
        FindFirst(links, token, i);
        return Some(i);
      }
      i := i + 1;
    }
    return None;
  }

  lemma FindFirst(links: seq<Link>, token: Token, i: nat)
    requires i < |links| && links[i].token == token
    requires forall j :: 0 <= j < i ==> links[j].token != token
    ensures FindIndex(links, token) == Some(i)
  {
  }

  /** `Set`: the links of one context, updated in place. */
  class EdgeSet {
    var links: seq<Link>

    /** `Set::new`: exactly one link, for `token`, with count one. */
    constructor (token: Token)
      ensures links == [Link(token, 1)]
    {
      links := [NewLink(token)];
    }

    /** `Set::size`: the number of links. */
    function Size(): (n: nat)
      reads this
      ensures n == |links|
    {
      |links|
    }

    /** `Set::find_mut`: the position of the link for `token`, if any. */
    method FindMut(token: Token) returns (r: Option<nat>)
      ensures r.Some? ==> r.value < |links| && links[r.value].token == token
      ensures r.None? <==> token !in Tokens(links)
    {
      r := Find(links, token);
    }

    /** `Set::insert`: bump the link for `token` in place, or push a new one. */
    method Insert(token: Token)
      modifies this
      ensures links == Inserted(old(links), token)
    {
      var found := Find(links, token);
      match found {
        case Some(i) =>
          links := links[i := Expand(links[i], 1)];
        case None =>
          links := links + [NewLink(token)];
      }
    }
  }
}
