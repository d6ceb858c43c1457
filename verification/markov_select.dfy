/**
 * Choosing the next token for a context: the candidate links of every
 * context suffix that the chain knows, each scaled by the suffix length and
 * merged by token, and the weighted choice among them.
 */
module MarkovSelect {
  import opened Wrappers
  import opened MarkovLink
  import opened MarkovSet
  import opened MarkovChain

  /** The last `w` words of the context. */
  function Suffix(context: Context, w: nat): Context
    requires w <= |context|
  {
    context[|context| - w..]
  }

  /** Some suffix of one to `min(depth, len)` words is a context of the chain. */
  predicate Matched(c: Chain, depth: nat, context: Context) {
    exists w: nat :: 1 <= w <= Min(depth, |context|) && Suffix(context, w) in c
  }

  function Scale(l: Link, w: nat): Link {
    l.(count := l.count * w)
  }

  /** Merge one link into the candidates: add to the link of the same token, or append. */
  function MergeLink(acc: seq<Link>, l: Link): seq<Link> {
    match FindIndex(acc, l.token)
    case Some(i) => acc[i := Merge(acc[i], l)]
    case None => acc + [l]
  }

  /** The first `j` links of a set, each scaled by `w`, merged into `acc`. */
  function MergeSet(acc: seq<Link>, links: seq<Link>, w: nat, j: nat): seq<Link>
    requires j <= |links|
  {
    if j == 0 then acc else MergeLink(MergeSet(acc, links, w, j - 1), Scale(links[j - 1], w))
  }

  /** The candidates contributed by the suffixes of one to `w` words, shortest first. */
  function MergeWidths(c: Chain, context: Context, w: nat): seq<Link>
    requires w <= |context|
  {
    if w == 0 then []
    else
      var acc := MergeWidths(c, context, w - 1);
      var key := Suffix(context, w);
      if key in c then MergeSet(acc, c[key], w, |c[key]|) else acc
  }

  /** The merged candidate links for `context`. */
  function Candidates(c: Chain, depth: nat, context: Context): seq<Link> {
    MergeWidths(c, context, Min(depth, |context|))
  }

  /** The weight of `token` after `context`: its count under each known suffix, times the suffix length. */
  function Weight(c: Chain, context: Context, token: Token, w: nat): nat
    requires w <= |context|
  {
    if w == 0 then 0
    else
      Weight(c, context, token, w - 1)
      + (if Suffix(context, w) in c then w * CountOf(c[Suffix(context, w)], token) else 0)
  }

  /** Every token the chain has observed, after any context. */
  function ChainTokens(c: Chain): set<Token> {
    set k, l | k in c && l in c[k] :: l.token
  }

  /** `Set::insert` is a merge with a fresh link of count one. */
  lemma InsertIsMerge(links: seq<Link>, token: Token)
    ensures Inserted(links, token) == MergeLink(links, NewLink(token))
  {
  }

  lemma MergeLinkCount(acc: seq<Link>, l: Link, t: Token)
    ensures CountOf(MergeLink(acc, l), t) == CountOf(acc, t) + (if l.token == t then l.count else 0)
  {
    match FindIndex(acc, l.token)
    case Some(i) => CountOfUpdate(acc, i, Merge(acc[i], l), t);
    case None => AppendOne(acc, l);
  }

  lemma MergeLinkTokens(acc: seq<Link>, l: Link)
    ensures Tokens(MergeLink(acc, l)) == Tokens(acc) + {l.token}
  {
    var r := MergeLink(acc, l);
    match FindIndex(acc, l.token)
    case Some(i) =>
      assert forall x <- r :: x in acc || x == Merge(acc[i], l);
      forall x | x in Tokens(acc) ensures x in Tokens(r) {
        var j :| 0 <= j < |acc| && acc[j].token == x;
        assert r[j].token == x;
      }
    case None =>
      assert r[|acc|] == l;
  }

  lemma MergeLinkInvariant(acc: seq<Link>, l: Link)
    ensures UniqueTokens(acc) ==> UniqueTokens(MergeLink(acc, l))
    ensures Positive(acc) && l.count >= 1 ==> Positive(MergeLink(acc, l))
  {
    var r := MergeLink(acc, l);
    match FindIndex(acc, l.token)
    case Some(i) =>
      assert forall x <- r :: x in acc || x == Merge(acc[i], l);
    case None =>
      assert forall x <- r :: x in acc || x == l;
  }

  lemma Distribute(w: nat, a: nat, b: nat)
    ensures w * (a + b) == w * a + w * b
  {
  }

  lemma Zero(w: nat)
    ensures w * 0 == 0
  {
  }

  lemma Commute(a: nat, b: nat)
    ensures a * b == b * a
  {
  }

  lemma AtLeastOne(a: nat, b: nat)
    requires a >= 1 && b >= 1
    ensures a * b >= 1
  {
  }

  lemma {:induction false} MergeSetCount(acc: seq<Link>, links: seq<Link>, w: nat, j: nat, t: Token)
    requires j <= |links|
    ensures CountOf(MergeSet(acc, links, w, j), t) == CountOf(acc, t) + w * CountOf(links[..j], t)
  {
    if j > 0 {
      var prev := MergeSet(acc, links, w, j - 1);
      var l := links[j - 1];
      var a := CountOf(links[..j - 1], t);
      var b := if l.token == t then l.count else 0;
      assert CountOf(MergeSet(acc, links, w, j), t) == CountOf(prev, t) + w * b by {
        MergeLinkCount(prev, Scale(l, w), t);
        if l.token == t { Commute(l.count, w); }
      }
      assert CountOf(links[..j], t) == a + b by {
        assert links[..j][..j - 1] == links[..j - 1];
      }
      assert CountOf(prev, t) == CountOf(acc, t) + w * a by {
        MergeSetCount(acc, links, w, j - 1, t);
      }
      Distribute(w, a, b);
    } else {
      assert links[..j] == [];
      Zero(w);
    }
  }

  lemma {:induction false} MergeSetTokens(acc: seq<Link>, links: seq<Link>, w: nat, j: nat)
    requires j <= |links|
    ensures Tokens(MergeSet(acc, links, w, j)) == Tokens(acc) + Tokens(links[..j])
  {
    if j > 0 {
      MergeSetTokens(acc, links, w, j - 1);
      MergeLinkTokens(MergeSet(acc, links, w, j - 1), Scale(links[j - 1], w));
      assert Tokens(links[..j]) == Tokens(links[..j - 1]) + {links[j - 1].token} by {
        assert links[..j] == links[..j - 1] + [links[j - 1]];
      }
    } else {
      assert links[..j] == [];
      assert Tokens(links[..j]) == {};
    }
  }

  lemma {:induction false} MergeSetInvariant(acc: seq<Link>, links: seq<Link>, w: nat, j: nat)
    requires j <= |links|
    ensures UniqueTokens(acc) ==> UniqueTokens(MergeSet(acc, links, w, j))
    ensures Positive(acc) && Positive(links) && w >= 1 ==> Positive(MergeSet(acc, links, w, j))
  {
    if j > 0 {
      MergeSetInvariant(acc, links, w, j - 1);
      MergeLinkInvariant(MergeSet(acc, links, w, j - 1), Scale(links[j - 1], w));
      if Positive(links) && w >= 1 {
        assert links[j - 1] in links;
        AtLeastOne(links[j - 1].count, w);
      }
    }
  }

  /** The merged weight of a token is its weight summed over the first `w` suffix widths. */
  lemma {:induction false} MergeWidthsCount(c: Chain, context: Context, w: nat, t: Token)
    requires w <= |context|
    ensures CountOf(MergeWidths(c, context, w), t) == Weight(c, context, t, w)
  {
    if w > 0 {
      MergeWidthsCount(c, context, w - 1, t);
      var key := Suffix(context, w);
      if key in c {
        var links := c[key];
        assert links[..|links|] == links;
        MergeSetCount(MergeWidths(c, context, w - 1), links, w, |links|, t);
      }
    }
  }

  /** The merged links name chain tokens, once each, with positive counts, and are empty when no suffix is known. */
  lemma {:induction false} MergeWidthsFacts(c: Chain, context: Context, w: nat, depth: nat)
    requires w <= |context|
    ensures Tokens(MergeWidths(c, context, w)) <= ChainTokens(c)
    ensures UniqueTokens(MergeWidths(c, context, w))
    ensures WellFormed(c, depth) ==> Positive(MergeWidths(c, context, w))
    ensures WellFormed(c, depth) ==>
      (MergeWidths(c, context, w) == [] <==> forall v: nat :: 1 <= v <= w ==> Suffix(context, v) !in c)
  {
    if w > 0 {
      var acc := MergeWidths(c, context, w - 1);
      var key := Suffix(context, w);
      MergeWidthsFacts(c, context, w - 1, depth);
      if key in c {
        var links := c[key];
        assert links[..|links|] == links;
        MergeSetTokens(acc, links, w, |links|);
        MergeSetInvariant(acc, links, w, |links|);
        assert Tokens(links) <= ChainTokens(c) by {
          forall x | x in Tokens(links) ensures x in ChainTokens(c) {
            var l :| l in links && l.token == x;
          }
        }
        if WellFormed(c, depth) {
          assert links != [];
          assert links[0].token in Tokens(MergeWidths(c, context, w));
        }
      }
    }
  }

  /**
   * The candidates for a context carry each token at most once, with a
   * weight equal to the sum, over the known suffixes, of the suffix length
   * times the token's count there; every candidate token was observed in the
   * chain; every weight is positive; and there are none exactly when no
   * suffix is known.
   */
  lemma CandidatesSpec(c: Chain, depth: nat, context: Context)
    requires WellFormed(c, depth)
    ensures UniqueTokens(Candidates(c, depth, context))
    ensures Positive(Candidates(c, depth, context))
    ensures Tokens(Candidates(c, depth, context)) <= ChainTokens(c)
    ensures forall t :: CountOf(Candidates(c, depth, context), t) == Weight(c, context, t, Min(depth, |context|))
    ensures Candidates(c, depth, context) == [] <==> !Matched(c, depth, context)
  {
    var u := Min(depth, |context|);
    forall t ensures CountOf(Candidates(c, depth, context), t) == Weight(c, context, t, u) {
      MergeWidthsCount(c, context, u, t);
    }
    MergeWidthsFacts(c, context, u, depth);
  }

  // The weighted choice.

  /** The links in the order a cycle started at position `p` visits them. */
  function Rotated(links: seq<Link>, p: nat): seq<Link>
    requires p <= |links|
  {
    links[p..] + links[..p]
  }

  lemma {:induction false} TotalConcat(a: seq<Link>, b: seq<Link>)
    ensures Total(a + b) == Total(a) + Total(b)
    decreases |b|
  {
    if b != [] {
      var n := |b| - 1;
      assert (a + b)[..|a + b| - 1] == a + b[..n];
      TotalConcat(a, b[..n]);
    } else {
      assert a + b == a;
    }
  }

  lemma TotalPrefix(s: seq<Link>, m: nat)
    requires m <= |s|
    ensures Total(s[..m]) <= Total(s)
    ensures m < |s| ==> Total(s[..m + 1]) == Total(s[..m]) + s[m].count
  {
    TotalAtMost(s, m);
    if m < |s| {
      var p := s[..m + 1];
      assert p[..|p| - 1] == s[..m] && p[|p| - 1] == s[m];
    }
  }

  lemma {:induction false} TotalAtMost(s: seq<Link>, m: nat)
    requires m <= |s|
    ensures Total(s[..m]) <= Total(s)
    decreases |s|
  {
    if m < |s| {
      var init := s[..|s| - 1];
      assert init[..m] == s[..m];
      TotalAtMost(init, m);
    } else {
      assert s[..m] == s;
    }
  }

  lemma RotatedFacts(links: seq<Link>, p: nat)
    requires p < |links|
    ensures |Rotated(links, p)| == |links|
    ensures Total(Rotated(links, p)) == Total(links)
    ensures forall k :: 0 <= k < |links| ==>
      Rotated(links, p)[k] == links[if p + k < |links| then p + k else p + k - |links|]
  {
    TotalConcat(links[p..], links[..p]);
    TotalConcat(links[..p], links[p..]);
    assert links[..p] + links[p..] == links;
  }

  /**
   * What `weighted_select` returns, as written: the slot `skip mod len`,
   * whatever the counts are. The sum starts at the total of all counts, so a
   * full turn of the cycle never exhausts it, and the first link met again
   * after that turn is the one the cycle started at.
   */
  function SelectedSlot(links: seq<Link>, skip: nat): nat
    requires links != []
  {
    skip % |links|
  }

  /**
   * The choice `weighted_select` is evidently meant to make: the link whose
   * share of the running total covers the draw `r`, so that each link is
   * chosen for exactly `count` of the `Total` possible draws.
   */
  function WeightedSlot(links: seq<Link>, r: nat): (i: nat)
    requires r < Total(links)
    ensures i < |links|
    ensures Total(links[..i]) <= r < Total(links[..i + 1])
  {
    var n := |links| - 1;
    assert links[..n + 1] == links;
    if r >= Total(links[..n]) then n
    else
      var i := WeightedSlot(links[..n], r);
      assert links[..n][..i] == links[..i] && links[..n][..i + 1] == links[..i + 1];
      i
  }

  /** The slot is unique: draws below a slot's share map below it, draws above map above it. */
  lemma WeightedSlotUnique(links: seq<Link>, r: nat, i: nat)
    requires r < Total(links)
    requires i < |links| && Total(links[..i]) <= r < Total(links[..i + 1])
    ensures WeightedSlot(links, r) == i
  {
    var j := WeightedSlot(links, r);
    if j < i {
      PrefixMonotone(links, j + 1, i);
    } else if j > i {
      PrefixMonotone(links, i + 1, j);
    }
  }

  lemma PrefixMonotone(s: seq<Link>, a: nat, b: nat)
    requires a <= b <= |s|
    ensures Total(s[..a]) <= Total(s[..b])
  {
    assert s[..b][..a] == s[..a];
    TotalPrefix(s[..b], a);
  }

  /**
   * Two links with counts one and three: under `SelectedSlot` the draws 0 to
   * 3 give the first link twice and the second twice; under the weighted
   * choice the first link is chosen for one draw and the second for three.
   */
  lemma SelectIgnoresWeights()
    ensures var links := [Link(Word([97]), 1), Link(Word([98]), 3)];
      Total(links) == 4
      && SelectedSlot(links, 0) == 0 && SelectedSlot(links, 1) == 1
      && SelectedSlot(links, 2) == 0 && SelectedSlot(links, 3) == 1
      && WeightedSlot(links, 0) == 0 && WeightedSlot(links, 1) == 1
      && WeightedSlot(links, 2) == 1 && WeightedSlot(links, 3) == 1
  {
    var links := [Link(Word([97]), 1), Link(Word([98]), 3)];
    assert links[..0] == [] && links[..1] == [links[0]] && links[..2] == links;
    assert Total(links[..1]) == 1;
    assert Total(links) == 4;
    WeightedSlotUnique(links, 0, 0);
    WeightedSlotUnique(links, 1, 1);
    WeightedSlotUnique(links, 2, 1);
    WeightedSlotUnique(links, 3, 1);
  }

  /**
   * `Brain::weighted_select` as written: the running sum starts at the total
   * and every link the cycle visits is subtracted until one no longer fits.
   * `steps` counts the links visited.
   */
  method WeightedSelect(links: seq<Link>, skip: nat) returns (index: nat, ghost steps: nat)
    requires links != [] && Positive(links)
    ensures index == SelectedSlot(links, skip)
    ensures steps == |links| + 1
  {
    var n := |links|;
    var sum := Total(links);
    var p := skip % n;
    ghost var rot := Rotated(links, p);
    RotatedFacts(links, p);
    var k := 0;
    while true
      invariant k <= n
      invariant sum + Total(rot[..k]) == Total(links)
      decreases n - k
    {
      var at := if p + k < n then p + k else p + k - n;
      if k == n {
        assert rot[..k] == rot;
        assert links[at] in links;
      } else {
        TotalPrefix(rot, k + 1);
        TotalPrefix(rot, k);
      }
      if sum < links[at].count {
        return at, k + 1;
      }
      sum := sum - links[at].count;
      k := k + 1;
    }
  }

  /** The corrected choice: walk the links, subtracting counts from the draw until it falls inside one. */
  method WeightedChoice(links: seq<Link>, r: nat) returns (index: nat)
    requires r < Total(links)
    ensures index < |links| && index == WeightedSlot(links, r)
  {
    var rest: nat := r;
    index := 0;
    while rest >= links[index].count
      invariant index < |links|
      invariant rest + Total(links[..index]) == r
      decreases |links| - index
    {
      TotalPrefix(links, index);
      rest := rest - links[index].count;
      index := index + 1;
      if index == |links| {
        assert false;
      }
    }
    TotalPrefix(links, index);
    WeightedSlotUnique(links, r, index);
  }
}
