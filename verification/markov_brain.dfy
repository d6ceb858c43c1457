/**
 * The brain: a named chain of a fixed depth plus the set of words that have
 * started a line. Training a line updates the chain in place; generating
 * walks it from a starting word, splicing in the words of an optional query.
 */
module MarkovBrain {
  import opened Wrappers
  import opened Text
  import opened MarkovLink
  import opened MarkovSet
  import opened MarkovChain
  import opened MarkovSelect
  import opened Random
  import opened Utf8

  function SaturatingSub(a: nat, b: nat): nat {
    if a >= b then a - b else 0
  }

  /** `Brain::context`: the last `depth` words, or all of them when there are fewer. */
  function ContextOf(words: seq<Word>, depth: nat): (c: Context)
    ensures |c| == Min(depth, |words|)
    ensures c == words[|words| - |c|..]
  {
    words[SaturatingSub(|words|, depth)..]
  }

  /** `Brain::base_words`: the query split at ASCII whitespace, or nothing. */
  function BaseWords(query: Option<seq<Byte>>): (r: seq<Word>)
    ensures Pieces(r, AsciiWhitespaceBytes)
    ensures r == [] <==> query.None? || forall b <- query.value :: b in AsciiWhitespaceBytes
  {
    match query
    case None => []
    case Some(q) =>
      SplitEmpty(q, AsciiWhitespaceBytes);
      Split(q, AsciiWhitespaceBytes)
  }

  /** At most the first `max` words. */
  function Take(words: seq<Word>, max: nat): seq<Word> {
    words[..Min(max, |words|)]
  }

  /** The output text: the well-formed words among the first `max`, joined by single spaces. */
  function Rendered(words: seq<Word>, max: nat): seq<Byte> {
    Joined(Filter(Take(words, max), IsUtf8), 32)
  }

  /**
   * Splitting the output at whitespace gives back exactly the well-formed
   * words among the first `max`, as long as no word holds whitespace.
   */
  lemma RenderedWords(words: seq<Word>, max: nat)
    requires Pieces(words, AsciiWhitespaceBytes)
    ensures Split(Rendered(words, max), AsciiWhitespaceBytes) == Filter(Take(words, max), IsUtf8)
    ensures |Split(Rendered(words, max), AsciiWhitespaceBytes)| <= max
  {
    var kept := Filter(Take(words, max), IsUtf8);
    assert forall w <- Take(words, max) :: w in words;
    SplitJoined(kept, 32, AsciiWhitespaceBytes);
  }

  /** The words written out by the rendering loop, one at a time. */
  method Render(words: seq<Word>, max: nat) returns (out: seq<Byte>)
    ensures out == Rendered(words, max)
  {
    var taken := Take(words, max);
    out := [];
    for i := 0 to |taken|
      invariant out == Joined(Filter(taken[..i], IsUtf8), 32)
    {
      ghost var kept := Filter(taken[..i], IsUtf8);
      FilterSnoc(taken[..i], taken[i], IsUtf8);
      assert taken[..i + 1] == taken[..i] + [taken[i]];
      if IsUtf8(taken[i]) {
        assert Filter(taken[..i + 1], IsUtf8) == kept + [taken[i]];
        JoinedSnoc(kept, taken[i], 32);
        if out != [] {
          out := out + [32];
        }
        out := out + taken[i];
      } else {
        assert Filter(taken[..i + 1], IsUtf8) == kept;
      }
    }
    assert taken[..|taken|] == taken;
  }

  /** The spread of an accepted insertion index: the index and its two neighbours. */
  function Neighbourhood(index: nat): seq<nat> {
    [SaturatingSub(index, 1), index, index + 1]
  }

  function Marks(accepted: seq<nat>): seq<nat> {
    if accepted == [] then []
    else Marks(accepted[..|accepted| - 1]) + Neighbourhood(accepted[|accepted| - 1])
  }

  predicate Near(a: nat, x: nat) {
    x in Neighbourhood(a)
  }

  /** Any two accepted indices are at least two apart. */
  predicate Spread(accepted: seq<nat>) {
    forall i, j :: 0 <= i < j < |accepted| ==> accepted[i] + 2 <= accepted[j] || accepted[j] + 2 <= accepted[i]
  }

  /** An index is marked exactly when it is next to, or equal to, an accepted one. */
  lemma {:induction false} MarksNear(accepted: seq<nat>, x: nat)
    ensures x in Marks(accepted) <==> exists a :: a in accepted && Near(a, x)
    decreases |accepted|
  {
    if accepted != [] {
      var init := accepted[..|accepted| - 1];
      var last := accepted[|accepted| - 1];
      MarksNear(init, x);
      assert accepted == init + [last];
      if x in Marks(accepted) && x !in Marks(init) {
        assert Near(last, x);
      }
      if exists a :: a in accepted && Near(a, x) {
        var a :| a in accepted && Near(a, x);
        if a != last {
          assert a in init;
        }
      }
    }
  }

  /** Accepting an unmarked index keeps the accepted indices spread out. */
  lemma AcceptKeepsSpread(accepted: seq<nat>, x: nat)
    requires Spread(accepted) && x !in Marks(accepted)
    ensures Spread(accepted + [x])
  {
    MarksNear(accepted, x);
    var r := accepted + [x];
    forall i, j | 0 <= i < j < |r| ensures r[i] + 2 <= r[j] || r[j] + 2 <= r[i] {
      if j == |accepted| {
        assert r[i] in accepted;
        assert !Near(r[i], x);
      }
    }
  }

  /** `Adjacent`: the indices next to earlier insertions, refused for later ones. */
  class Adjacent {
    var used: seq<nat>
    ghost var accepted: seq<nat>

    ghost predicate Valid()
      reads this
    {
      used == Marks(accepted) && Spread(accepted)
    }

    constructor ()
      ensures Valid() && used == [] && accepted == []
    {
      used := [];
      accepted := [];
    }

    /** `create_adjacency`: refuse a marked index; otherwise mark it and its neighbours. */
    method CreateAdjacency(index: nat) returns (ok: bool)
      requires Valid()
      modifies this
      ensures Valid()
      ensures ok <==> index !in old(used)
      ensures used == if ok then old(used) + Neighbourhood(index) else old(used)
      ensures accepted == if ok then old(accepted) + [index] else old(accepted)
    {
      if index in used {
        return false;
      }
      AcceptKeepsSpread(accepted, index);
      assert (accepted + [index])[..|accepted|] == accepted;
      used := used + [SaturatingSub(index, 1), index, index + 1];
      accepted := accepted + [index];
      return true;
    }
  }

  /**
   * The `pick` closure: draw an index in `1..max` (or take 1 when `max` is
   * 1) until one is accepted. Every draw spends one unit of `fuel`; running
   * out stands for the generation time-out. An empty range panics in the
   * repository and fails here.
   */
  method Pick(rng: Rng, adj: Adjacent, max: nat, fuel: nat) returns (n: Option<nat>, left: nat)
    requires adj.Valid()
    modifies rng, adj
    ensures adj.Valid() && left <= fuel
    ensures n.Some? ==> 1 <= n.value <= max && (max >= 2 ==> n.value < max)
    ensures n.Some? ==> n.value !in old(adj.used) && adj.accepted == old(adj.accepted) + [n.value]
    ensures n.None? ==> adj.accepted == old(adj.accepted)
    ensures max == 0 ==> n.None?
  {
    left := fuel;
    if max == 0 {
      return None, left;
    }
    while true
      invariant adj.Valid() && left <= fuel
      invariant adj.accepted == old(adj.accepted) && adj.used == old(adj.used)
      decreases left
    {
      if left == 0 {
        return None, left;
      }
      left := left - 1;
      var t: nat;
      if max == 1 {
        t := max;
      } else {
        t := rng.Usize(1, max);
      }
      var ok := adj.CreateAdjacency(t);
      if ok {
        return Some(t), left;
      }
    }
  }

  /**
   * The `choose` closure: with at least one query word left and at least two
   * words generated, a coin decides whether the last query word is spliced in
   * at a picked index. `ok` is false when the pick failed.
   */
  method Choose(rng: Rng, adj: Adjacent, words: seq<Word>, base: seq<Word>, fuel: nat)
    returns (ok: bool, words': seq<Word>, base': seq<Word>, left: nat)
    requires adj.Valid()
    modifies rng, adj
    ensures adj.Valid() && left <= fuel
    ensures ok ==> |base'| <= |base| <= |base'| + 1 && base' == base[..|base'|]
    ensures ok ==> multiset(words') == multiset(words) + multiset(base[|base'|..])
    ensures ok ==> |words| <= |words'|
    ensures ok && words != [] ==> words' != [] && words'[0] == words[0]
    ensures (!ok || |words| <= 1) ==> words' == words && base' == base
  {
    ok, words', base', left := true, words, base, fuel;
    assert base[|base|..] == [];
    if base != [] && |words| > 1 {
      var coin := rng.Coin();
      if coin {
        var next := base[|base| - 1];
        var n;
        n, left := Pick(rng, adj, |words|, fuel);
        if n.None? {
          return false, words, base, left;
        }
        SpliceLast(words, base, n.value);
        words' := words[..n.value] + [next] + words[n.value..];
        base' := base[..|base| - 1];
      }
    }
  }

  /** Inserting `x` at a non-zero index adds it to the multiset and keeps the first word. */
  lemma InsertAt(words: seq<Word>, n: nat, x: Word)
    requires 1 <= n <= |words|
    ensures multiset(words[..n] + [x] + words[n..]) == multiset(words) + multiset{x}
    ensures (words[..n] + [x] + words[n..])[0] == words[0]
  {
    assert words == words[..n] + words[n..];
  }

  /** Moving the last pending query word to a non-zero index of the line. */
  lemma SpliceLast(words: seq<Word>, base: seq<Word>, n: nat)
    requires 1 <= n <= |words| && base != []
    ensures var b := base[..|base| - 1];
      |b| <= |base| <= |b| + 1 && b == base[..|b|]
    ensures var after := words[..n] + [base[|base| - 1]] + words[n..];
      multiset(after) == multiset(words) + multiset(base[|base| - 1..]) &&
      |words| <= |after| && after[0] == words[0]
  {
    InsertAt(words, n, base[|base| - 1]);
    assert base[|base| - 1..] == [base[|base| - 1]];
  }

  /** Splicing a query word into the line keeps track of where every word came from. */
  lemma Spliced(before: seq<Word>, after: seq<Word>, pending: seq<Word>, rest: seq<Word>, query: seq<Word>)
    requires |rest| <= |pending| && rest == pending[..|rest|]
    requires multiset(after) == multiset(before) + multiset(pending[|rest|..])
    ensures multiset(pending) == multiset(rest) + multiset(pending[|rest|..])
    ensures forall w <- after :: w in before || w in pending
    ensures |after| >= |before| && multiset(before) <= multiset(after)
  {
    assert pending == rest + pending[|rest|..];
    forall w | w in after ensures w in before || w in pending {
      assert multiset(after)[w] > 0;
      if w !in before {
        assert multiset(pending[|rest|..])[w] > 0;
        assert w in pending[|rest|..];
      }
    }
  }

  /** The inner loop of `select_token`: each link of a set, scaled by `w`, merged into `acc`. */
  method MergeScaled(acc: seq<Link>, edges: seq<Link>, w: nat) returns (links: seq<Link>)
    ensures links == MergeSet(acc, edges, w, |edges|)
  {
    links := acc;
    for j := 0 to |edges|
      invariant links == MergeSet(acc, edges, w, j)
    {
      var link := edges[j].(count := edges[j].count * w);
      var found := Find(links, link.token);
      match found {
        case Some(i) =>
          links := links[i := Merge(links[i], link)];
        case None =>
          links := links + [link];
      }
    }
  }

  /**
   * `Brain`: a chain of a given depth and the words that started a line. The
   * chain owns its edge sets, so it is held as a map value that the methods
   * reassign.
   */
  /** A word a brain with starting words `head` and chain `c` may produce for `query`: a starting word, an observed word or a query word. */
  predicate KnownTo(head: set<Word>, c: Chain, w: Word, query: Option<seq<Byte>>) {
    w in head || Word(w) in ChainTokens(c) || w in BaseWords(query)
  }

  class Brain {
    const name: string
    const depth: nat
    var chain: Chain
    var head: set<Word>

    ghost predicate Valid()
      reads this
    {
      WellFormed(chain, depth)
    }

    /** A word this brain may produce for `query`: a starting word, an observed word or a query word. */
    ghost predicate Known(w: Word, query: Option<seq<Byte>>)
      reads this
    {
      KnownTo(head, chain, w, query)
    }

    /** `Brain::new`: an empty brain. */
    constructor (name: string, depth: nat)
      ensures Valid() && this.name == name && this.depth == depth
      ensures chain == map[] && head == {}
    {
      this.name := name;
      this.depth := depth;
      chain := map[];
      head := {};
    }

    /** `train_link`: count one more `token` after `context`. */
    method TrainLink(context: Context, token: Token)
      requires Valid() && 1 <= |context| <= depth
      modifies this
      ensures Valid()
      ensures chain == AddTransition(old(chain), context, token)
      ensures head == old(head)
    {
      AddTransitionWellFormed(chain, context, token, depth);
      if context in chain {
        chain := chain[context := Inserted(chain[context], token)];
      } else {
        chain := chain[context := [NewLink(token)]];
      }
    }

    /** `train`: record one line of text. */
    method Train(text: seq<Byte>)
      requires Valid()
      modifies this
      ensures Valid()
      ensures chain == TrainChain(old(chain), text, depth)
      ensures head == TrainHead(old(head), text)
    {
      var t := Trim(text, WhitespaceBytes);
      if t == [] {
        TrimEmpty(text, WhitespaceBytes);
        assert LineWords(text) == [];
        return;
      }
      var words := Split(t, WhitespaceBytes);
      assert words == LineWords(text);
      head := head + {words[0]};
      var d := Min(depth, |words| - 1);
      ghost var c0 := chain;
      for width := 1 to d + 1
        invariant Valid() && chain == Widths(c0, words, width - 1)
        invariant head == TrainHead(old(head), text)
      {
        TrainPass(words, width);
      }
      assert TrainedChain(c0, words, depth) == chain;
      TrainChainUnfold(c0, text, depth, words);
    }

    /** One pass of `train`: every window of `width + 1` words, then the final run of `width`. */
    method TrainPass(words: seq<Word>, width: nat)
      requires Valid() && 1 <= width <= depth && width < |words|
      modifies this
      ensures Valid()
      ensures chain == Pass(old(chain), words, width)
      ensures head == old(head)
    {
      ghost var c0 := chain;
      for i := 0 to |words| - width
        invariant Valid() && chain == Windows(c0, words, width, i)
        invariant head == old(head)
      {
        ghost var now := chain;
        TrainLink(Run(words, i, width), Word(words[i + width]));
        assert Windows(c0, words, width, i + 1) == AddTransition(now, Run(words, i, width), Word(words[i + width]));
      }
      ghost var now := chain;
      TrainLink(Run(words, |words| - width, width), End);
      assert Pass(c0, words, width) == AddTransition(now, Run(words, |words| - width, width), End);
    }

    /** The candidate links for `context`, built suffix by suffix, and whether any suffix matched. */
    method CandidateLinks(context: Context) returns (links: seq<Link>, matched: bool)
      requires Valid()
      ensures links == Candidates(chain, depth, context)
      ensures matched == Matched(chain, depth, context)
    {
      var upper := Min(depth, |context|);
      links := [];
      matched := false;
      for w := 1 to upper + 1
        invariant links == MergeWidths(chain, context, w - 1)
        invariant matched <==> exists v: nat :: 1 <= v < w && Suffix(context, v) in chain
      {
        var key := Suffix(context, w);
        if key in chain {
          matched := true;
          links := MergeScaled(links, chain[key], w);
        }
      }
    }

    /**
     * `select_token`: the end of the line when no suffix of the context is
     * known; otherwise a weighted choice among the candidates with one draw
     * below their total. The choice is the corrected one, in proportion to
     * the counts, not `weighted_select` as written (`WeightedSelect`).
     */
    method SelectToken(rng: Rng, context: Context) returns (token: Token)
      requires Valid()
      modifies rng
      ensures !Matched(chain, depth, context) ==> token == End
      ensures Matched(chain, depth, context) ==> token in Tokens(Candidates(chain, depth, context))
      ensures token.Word? ==> token in ChainTokens(chain)
      ensures Matched(chain, depth, context) ==> Total(Candidates(chain, depth, context)) > 0
      ensures Matched(chain, depth, context) ==>
        var links := Candidates(chain, depth, context);
        token == links[WeightedSlot(links, old(rng.At(0)) % Total(links))].token
      ensures Matched(chain, depth, context) ==> rng.draws == old(rng.Rest())
      ensures !Matched(chain, depth, context) ==> rng.draws == old(rng.draws)
    {
      var links, matched := CandidateLinks(context);
      if !matched {
        return End;
      }
      CandidatesSpec(chain, depth, context);
      assert links[|links| - 1] in links;
      ghost var d := rng.At(0);
      var r := rng.Usize(0, Total(links));
      assert r == d % Total(links);
      var i := WeightedChoice(links, r);
      token := links[i].token;
    }

    /**
     * What `generate` keeps track of: the query words still to place and the
     * ones already spliced make up the query, the spliced ones are in the
     * line, every word of the line is known, and the line starts with a
     * starting word.
     */
    ghost predicate Tracked(line: seq<Word>, base: seq<Word>, spliced: multiset<Word>, query: Option<seq<Byte>>)
      reads this
    {
      && multiset(base) + spliced == multiset(BaseWords(query))
      && spliced <= multiset(line)
      && (forall w <- base :: w in BaseWords(query))
      && (forall w <- line :: Known(w, query))
      && (line != [] ==> line[0] in head)
    }

    /** A successful `choose` keeps the bookkeeping. */
    lemma ChooseTracked(before: seq<Word>, after: seq<Word>, pending: seq<Word>, rest: seq<Word>,
                        spliced: multiset<Word>, query: Option<seq<Byte>>)
      requires Tracked(before, pending, spliced, query)
      requires |rest| <= |pending| && rest == pending[..|rest|]
      requires multiset(after) == multiset(before) + multiset(pending[|rest|..])
      requires if before == [] then after == [] else after != [] && after[0] == before[0]
      ensures Tracked(after, rest, spliced + multiset(pending[|rest|..]), query)
    {
      var added := multiset(pending[|rest|..]);
      Spliced(before, after, pending, rest, BaseWords(query));
      assert multiset(rest) + (spliced + added) == multiset(BaseWords(query));
      assert spliced + added <= multiset(after);
      assert forall w <- rest :: w in pending;
      assert forall w <- after :: Known(w, query);
    }

    /** Adding a known word at the end keeps the bookkeeping. */
    lemma PushTracked(line: seq<Word>, w: Word, base: seq<Word>, spliced: multiset<Word>, query: Option<seq<Byte>>)
      requires Tracked(line, base, spliced, query) && Known(w, query)
      requires line == [] ==> w in head
      ensures Tracked(line + [w], base, spliced, query)
    {
      assert multiset(line) <= multiset(line + [w]);
    }

    /**
     * The inner loop of `generate`: follow the chain from the line's context
     * until the end of a line or `max` words (`full`), calling `choose`
     * before each word.
     */
    method Follow(rng: Rng, adj: Adjacent, max: nat, query: Option<seq<Byte>>,
                  line0: seq<Word>, base0: seq<Word>, budget0: nat, ghost spliced0: multiset<Word>)
      returns (ok: bool, full: bool, line: seq<Word>, base: seq<Word>, budget: nat, ghost spliced: multiset<Word>)
      requires Valid() && adj.Valid() && Tracked(line0, base0, spliced0, query)
      requires line0 != [] && |line0| < max
      modifies rng, adj
      ensures adj.Valid() && budget <= budget0 && Tracked(line, base, spliced, query)
      ensures ok && full ==> |line| >= max
      ensures !full ==> |line| < max
    {
      line, base, budget, spliced := line0, base0, budget0, spliced0;
      ok, full := true, false;
      while true
        invariant adj.Valid() && budget <= budget0 && Tracked(line, base, spliced, query)
        invariant line != [] && |line| < max
        decreases max - |line|
      {
        var token := SelectToken(rng, ContextOf(line, depth));
        if token.End? {
          return;
        }
        ghost var before, pending := line, base;
        ok, line, base, budget := Choose(rng, adj, line, base, budget);
        if !ok {
          return;
        }
        ChooseTracked(before, line, pending, base, spliced, query);
        spliced := spliced + multiset(pending[|base|..]);
        PushTracked(line, token.word, base, spliced, query);
        line := line + [token.word];
        if |line| >= max {
          return ok, true, line, base, budget, spliced;
        }
      }
    }

    /**
     * The outer loop of `generate`: until the line has `min` words, call
     * `choose`, add a random starting word and follow the chain. `ok` is
     * false on a time-out, a failed pick or an empty set of starting words.
     */
    method Grow(rng: Rng, adj: Adjacent, min: nat, max: nat, query: Option<seq<Byte>>, base0: seq<Word>, fuel: nat)
      returns (ok: bool, line: seq<Word>, base: seq<Word>, budget: nat, ghost spliced: multiset<Word>)
      requires Valid() && adj.Valid() && Tracked([], base0, multiset{}, query)
      modifies rng, adj
      ensures adj.Valid() && budget <= fuel && Tracked(line, base, spliced, query)
      ensures ok ==> |line| >= min || |line| >= max
      ensures min >= 1 && head == {} ==> !ok
      ensures min == 0 && fuel >= 1 ==> ok && line == [] && base == base0
    {
      line, base, budget, spliced := [], base0, fuel, multiset{};
      while true
        invariant adj.Valid() && budget <= fuel && Tracked(line, base, spliced, query)
        invariant min == 0 ==> line == [] && base == base0 && budget == fuel
        invariant min >= 1 && head == {} ==> line == []
        decreases budget
      {
        if budget == 0 {
          return false, line, base, budget, spliced;
        }
        budget := budget - 1;
        if |line| >= min {
          return true, line, base, budget, spliced;
        }
        ghost var before, pending := line, base;
        ghost var top := budget;
        ok, line, base, budget := Choose(rng, adj, line, base, budget);
        if !ok {
          return;
        }
        ChooseTracked(before, line, pending, base, spliced, query);
        spliced := spliced + multiset(pending[|base|..]);
        if head == {} {
          return false, line, base, budget, spliced;
        }
        var h :| h in head;
        PushTracked(line, h, base, spliced, query);
        line := line + [h];
        if |line| >= max {
          return true, line, base, budget, spliced;
        }
        var full;
        ok, full, line, base, budget, spliced := Follow(rng, adj, max, query, line, base, budget, spliced);
        if !ok {
          return;
        }
        if full {
          return;
        }
      }
    }

    /** The last loop of `generate`: splice every remaining query word at a picked index. */
    method SpliceRest(rng: Rng, adj: Adjacent, query: Option<seq<Byte>>,
                      line0: seq<Word>, base0: seq<Word>, budget0: nat, ghost spliced0: multiset<Word>)
      returns (ok: bool, line: seq<Word>, budget: nat)
      requires adj.Valid() && Tracked(line0, base0, spliced0, query)
      modifies rng, adj
      ensures budget <= budget0 && |line| >= |line0|
      ensures forall w <- line :: Known(w, query)
      ensures if line0 == [] then line == [] else line != [] && line[0] == line0[0]
      ensures ok ==> multiset(BaseWords(query)) <= multiset(line)
      ensures base0 == [] ==> ok && line == line0
    {
      var base := base0;
      ghost var spliced := spliced0;
      line, budget := line0, budget0;
      while base != []
        invariant adj.Valid() && budget <= budget0 && Tracked(line, base, spliced, query)
        invariant |line| >= |line0| && if line0 == [] then line == [] else line != [] && line[0] == line0[0]
        invariant base0 == [] ==> line == line0
        decreases |base|
      {
        var word := base[|base| - 1];
        ghost var before, pending := line, base;
        var n;
        n, budget := Pick(rng, adj, |line|, budget);
        if n.None? {
          return false, line, budget;
        }
        SpliceLast(line, base, n.value);
        line := line[..n.value] + [word] + line[n.value..];
        base := base[..|base| - 1];
        ChooseTracked(before, line, pending, base, spliced, query);
        spliced := spliced + multiset(pending[|base|..]);
      }
      assert multiset(base) == multiset{};
      return true, line, budget;
    }

    /**
     * `generate`: grow a line from random starting words until it has `min`
     * words, following the chain until the end of a line or `max` words,
     * splicing in the query words at random, non-adjacent positions, and
     * render the first `max` of them. `fuel` bounds the work in place of the
     * time-out; `words` is the line before rendering.
     */
    method Generate(rng: Rng, min: nat, max: nat, query: Option<seq<Byte>>, fuel: nat)
      returns (r: Option<seq<Byte>>, ghost words: seq<Word>)
      requires Valid()
      modifies rng
      ensures min >= 1 && head == {} ==> r.None?
      ensures r.Some? ==> r.value == Rendered(words, max)
      ensures r.Some? ==> |words| >= min || |words| >= max
      ensures r.Some? && words != [] ==> words[0] in head
      ensures r.Some? ==> multiset(BaseWords(query)) <= multiset(words)
      ensures forall w <- words :: Known(w, query)
      ensures fuel >= 1 && min == 0 && BaseWords(query) == [] ==> r == Some([])
    {
      var adj := new Adjacent();
      var base := BaseWords(query);
      base := rng.Shuffle(base);
      forall w <- base ensures w in BaseWords(query) {
        assert multiset(base)[w] > 0;
      }
      var ok, line, budget;
      ghost var spliced;
      ok, line, base, budget, spliced := Grow(rng, adj, min, max, query, base, fuel);
      words := line;
      if !ok {
        return None, words;
      }
      ok, line, budget := SpliceRest(rng, adj, query, line, base, budget, spliced);
      words := line;
      if !ok {
        return None, words;
      }
      var out := Render(line, max);
      return Some(out), words;
    }
  }
}
