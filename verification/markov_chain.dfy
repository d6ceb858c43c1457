/**
 * The chain as a value: a map from contexts (one to `depth` consecutive
 * words) to the links observed after them, and what training one line of
 * text does to it.
 */
module MarkovChain {
  import opened Wrappers
  import opened Text
  import opened MarkovLink
  import opened MarkovSet

  type Context = seq<Word>
  type Chain = map<Context, seq<Link>>

  /** The bytes `split_whitespace` separates words at (the ASCII ones). */
  const WhitespaceBytes: set<Byte> := {9, 10, 11, 12, 13, 32}

  /** The bytes `split_ascii_whitespace` separates words at. */
  const AsciiWhitespaceBytes: set<Byte> := {9, 10, 12, 13, 32}

  function Min(a: nat, b: nat): nat {
    if a <= b then a else b
  }

  /** Every context is one to `depth` words long and has a non-empty, duplicate-free, positive edge set. */
  predicate WellFormed(c: Chain, depth: nat) {
    forall k | k in c :: 1 <= |k| <= depth && c[k] != [] && UniqueTokens(c[k]) && Positive(c[k])
  }

  /** `token` has been observed after `ctx`. */
  predicate Has(c: Chain, ctx: Context, token: Token) {
    ctx in c && token in Tokens(c[ctx])
  }

  /** `c2` keeps every context of `c` and extends its edge set. */
  predicate Grows(c: Chain, c2: Chain) {
    forall k | k in c :: k in c2 && Dominates(c[k], c2[k])
  }

  /** The `n` words starting at position `j`. */
  function Run(words: seq<Word>, j: nat, n: nat): Context
    requires j + n <= |words|
  {
    words[j..j + n]
  }

  /** `k` is a run of consecutive words of `words`. */
  predicate Infix(k: Context, words: seq<Word>) {
    exists j: nat :: j + |k| <= |words| && Run(words, j, |k|) == k
  }

  /** The `v` words from position `j` have been seen followed by the word after them. */
  predicate Recorded(c: Chain, words: seq<Word>, j: nat, v: nat) {
    j + v < |words| && Has(c, Run(words, j, v), Word(words[j + v]))
  }

  /** The last `v` words have been seen followed by the end of the line. */
  predicate EndRecorded(c: Chain, words: seq<Word>, v: nat) {
    v <= |words| && Has(c, Run(words, |words| - v, v), End)
  }

  /** `train_link`: insert into the context's set, or create the set. */
  function AddTransition(c: Chain, ctx: Context, token: Token): Chain {
    c[ctx := if ctx in c then Inserted(c[ctx], token) else [NewLink(token)]]
  }

  /** The first `i` windows of width `w + 1`: each `w` words followed by the next one. */
  function Windows(c: Chain, words: seq<Word>, w: nat, i: nat): Chain
    requires i + w <= |words|
  {
    if i == 0 then c
    else AddTransition(Windows(c, words, w, i - 1), Run(words, i - 1, w), Word(words[i - 1 + w]))
  }

  /** The pass of width `w`: every window, then the last `w` words followed by the end of the line. */
  function Pass(c: Chain, words: seq<Word>, w: nat): Chain
    requires w <= |words|
  {
    AddTransition(Windows(c, words, w, |words| - w), Run(words, |words| - w, w), End)
  }

  /** The passes of widths one to `w`. */
  function Widths(c: Chain, words: seq<Word>, w: nat): Chain
    requires w < |words|
  {
    if w == 0 then c else Pass(Widths(c, words, w - 1), words, w)
  }

  /** The words of one line of training text. */
  function LineWords(text: seq<Byte>): (r: seq<Word>)
    ensures Pieces(r, WhitespaceBytes)
    ensures r == [] <==> forall x <- text :: x in WhitespaceBytes
  {
    var t := Trim(text, WhitespaceBytes);
    TrimEmpty(text, WhitespaceBytes);
    SplitEmpty(t, WhitespaceBytes);
    assert t != [] ==> t[|t| - 1] in t;
    Split(t, WhitespaceBytes)
  }

  /** The chain after training `words` with at most `depth` words of context. */
  function TrainedChain(c: Chain, words: seq<Word>, depth: nat): Chain
    requires |words| >= 1
  {
    Widths(c, words, Min(depth, |words| - 1))
  }

  /** `Brain::train` on the chain: a blank line changes nothing. */
  function TrainChain(c: Chain, text: seq<Byte>, depth: nat): Chain {
    var words := LineWords(text);
    if words == [] then c else TrainedChain(c, words, depth)
  }

  /** `Brain::train` on the starting words: the first word of a non-blank line is added. */
  function TrainHead(head: set<Word>, text: seq<Byte>): set<Word> {
    var words := LineWords(text);
    if words == [] then head else head + {words[0]}
  }

  /** Training a non-blank line is the passes of width one to `min(depth, n - 1)`. */
  lemma TrainChainUnfold(c: Chain, text: seq<Byte>, depth: nat, words: seq<Word>)
    requires words == LineWords(text) && words != []
    ensures TrainChain(c, text, depth) == TrainedChain(c, words, depth)
  {
  }

  lemma AddTransitionFacts(c: Chain, ctx: Context, token: Token, depth: nat)
    ensures Grows(c, AddTransition(c, ctx, token))
    ensures Has(AddTransition(c, ctx, token), ctx, token)
    ensures forall k | k in AddTransition(c, ctx, token) :: k in c || k == ctx
    ensures WellFormed(c, depth) && 1 <= |ctx| <= depth ==> WellFormed(AddTransition(c, ctx, token), depth)
  {
    var r: Chain := AddTransition(c, ctx, token);
    if ctx in c {
      InsertGrows(c[ctx], token);
      if WellFormed(c, depth) {
        InsertKeepsInvariant(c[ctx], token);
      }
    } else {
      assert r[ctx][0].token == token;
    }
  }

  lemma AddTransitionWellFormed(c: Chain, ctx: Context, token: Token, depth: nat)
    requires WellFormed(c, depth) && 1 <= |ctx| <= depth
    ensures WellFormed(AddTransition(c, ctx, token), depth)
  {
    if ctx in c {
      InsertKeepsInvariant(c[ctx], token);
    }
  }

  lemma GrowsTrans(a: Chain, b: Chain, c: Chain)
    requires Grows(a, b) && Grows(b, c)
    ensures Grows(a, c)
  {
    forall k | k in a ensures k in c && Dominates(a[k], c[k]) {
      DominatesTrans(a[k], b[k], c[k]);
    }
  }

  lemma GrowsHas(a: Chain, b: Chain, ctx: Context, token: Token)
    requires Grows(a, b) && Has(a, ctx, token)
    ensures Has(b, ctx, token)
  {
    DominatesTokens(a[ctx], b[ctx]);
  }

  lemma InfixSlice(words: seq<Word>, j: nat, w: nat)
    requires j + w <= |words|
    ensures Infix(Run(words, j, w), words)
  {
    assert |Run(words, j, w)| == w;
  }

  lemma {:induction false} WindowsFacts(c: Chain, words: seq<Word>, w: nat, i: nat, depth: nat)
    requires i + w <= |words|
    ensures Grows(c, Windows(c, words, w, i))
    ensures forall j: nat :: j < i ==> Recorded(Windows(c, words, w, i), words, j, w)
    ensures forall k | k in Windows(c, words, w, i) :: k in c || Infix(k, words)
    ensures WellFormed(c, depth) && 1 <= w <= depth ==> WellFormed(Windows(c, words, w, i), depth)
  {
    if i > 0 {
      var prev := Windows(c, words, w, i - 1);
      var ctx := Run(words, i - 1, w);
      var token := Word(words[i - 1 + w]);
      var r := Windows(c, words, w, i);
      WindowsFacts(c, words, w, i - 1, depth);
      AddTransitionFacts(prev, ctx, token, depth);
      GrowsTrans(c, prev, r);
      forall j: nat | j < i ensures Recorded(r, words, j, w) {
        if j < i - 1 {
          assert Recorded(prev, words, j, w);
          GrowsHas(prev, r, Run(words, j, w), Word(words[j + w]));
        }
      }
      InfixSlice(words, i - 1, w);
    }
  }

  /** One pass of width `w` on top of the passes before it. */
  lemma WidthStep(c: Chain, words: seq<Word>, w: nat, depth: nat)
    requires 0 < w < |words|
    ensures Grows(Widths(c, words, w - 1), Widths(c, words, w))
    ensures forall k | k in Widths(c, words, w) :: k in Widths(c, words, w - 1) || Infix(k, words)
    ensures WellFormed(Widths(c, words, w - 1), depth) && w <= depth ==> WellFormed(Widths(c, words, w), depth)
  {
    var n := |words|;
    var prev := Widths(c, words, w - 1);
    var c1 := Windows(prev, words, w, n - w);
    assert Widths(c, words, w) == AddTransition(c1, Run(words, n - w, w), End);
    WindowsFacts(prev, words, w, n - w, depth);
    AddTransitionFacts(c1, Run(words, n - w, w), End, depth);
    GrowsTrans(prev, c1, Widths(c, words, w));
    InfixSlice(words, n - w, w);
  }

  lemma {:induction false} WidthsShape(c: Chain, words: seq<Word>, w: nat, depth: nat)
    requires w < |words|
    ensures Grows(c, Widths(c, words, w))
    ensures forall k | k in Widths(c, words, w) :: k in c || Infix(k, words)
    ensures WellFormed(c, depth) && w <= depth ==> WellFormed(Widths(c, words, w), depth)
  {
    if w > 0 {
      WidthsShape(c, words, w - 1, depth);
      WidthStep(c, words, w, depth);
      GrowsTrans(c, Widths(c, words, w - 1), Widths(c, words, w));
    }
  }

  lemma GrowsRecorded(a: Chain, b: Chain, words: seq<Word>)
    requires Grows(a, b)
    ensures forall j: nat, v: nat :: Recorded(a, words, j, v) ==> Recorded(b, words, j, v)
    ensures forall v: nat :: EndRecorded(a, words, v) ==> EndRecorded(b, words, v)
  {
    forall j: nat, v: nat | Recorded(a, words, j, v) ensures Recorded(b, words, j, v) {
      GrowsHas(a, b, Run(words, j, v), Word(words[j + v]));
    }
    forall v: nat | EndRecorded(a, words, v) ensures EndRecorded(b, words, v) {
      GrowsHas(a, b, Run(words, |words| - v, v), End);
    }
  }

  /** The pass of width `w` records every window of that width and the final run. */
  lemma WidthRecords(c: Chain, words: seq<Word>, w: nat)
    requires 0 < w < |words|
    ensures forall j: nat :: j + w < |words| ==> Recorded(Widths(c, words, w), words, j, w)
    ensures EndRecorded(Widths(c, words, w), words, w)
  {
    var n := |words|;
    var prev := Widths(c, words, w - 1);
    var c1 := Windows(prev, words, w, n - w);
    assert Widths(c, words, w) == AddTransition(c1, Run(words, n - w, w), End);
    WindowsFacts(prev, words, w, n - w, 0);
    AddTransitionFacts(c1, Run(words, n - w, w), End, 0);
    GrowsRecorded(c1, Widths(c, words, w), words);
  }

  lemma {:induction false} WidthsRecords(c: Chain, words: seq<Word>, w: nat)
    requires w < |words|
    ensures forall v: nat, j: nat :: 1 <= v <= w && j + v < |words| ==> Recorded(Widths(c, words, w), words, j, v)
    ensures forall v: nat :: 1 <= v <= w ==> EndRecorded(Widths(c, words, w), words, v)
  {
    if w > 0 {
      WidthsRecords(c, words, w - 1);
      WidthStep(c, words, w, 0);
      GrowsRecorded(Widths(c, words, w - 1), Widths(c, words, w), words);
      WidthRecords(c, words, w);
    }
  }

  /**
   * Training a line only adds: no context disappears, no link is removed or
   * reordered, no count drops; every new context is a run of the line's words
   * of one to `depth` words; and the chain stays well formed.
   */
  lemma TrainOnlyAdds(c: Chain, words: seq<Word>, depth: nat)
    requires |words| >= 1
    ensures Grows(c, TrainedChain(c, words, depth))
    ensures forall k | k in TrainedChain(c, words, depth) :: k in c || Infix(k, words)
    ensures WellFormed(c, depth) ==> WellFormed(TrainedChain(c, words, depth), depth)
  {
    WidthsShape(c, words, Min(depth, |words| - 1), depth);
  }

  /**
   * Training a line records, for every width up to the effective depth, each
   * run of that many words followed by the next word, and the last run of
   * that many words followed by the end of the line.
   */
  lemma TrainRecords(c: Chain, words: seq<Word>, depth: nat)
    requires |words| >= 1
    ensures forall v: nat, j: nat :: 1 <= v <= depth && j + v < |words| ==>
      Recorded(TrainedChain(c, words, depth), words, j, v)
    ensures forall v: nat :: 1 <= v <= depth && v < |words| ==> EndRecorded(TrainedChain(c, words, depth), words, v)
  {
    WidthsRecords(c, words, Min(depth, |words| - 1));
  }

  /** A line of one word, or a brain of depth zero, leaves the chain unchanged. */
  lemma ShortLineKeepsChain(c: Chain, words: seq<Word>, depth: nat)
    requires |words| >= 1 && (|words| == 1 || depth == 0)
    ensures TrainedChain(c, words, depth) == c
  {
  }

  /** A blank line changes neither the chain nor the starting words. */
  lemma BlankLineIgnored(c: Chain, head: set<Word>, text: seq<Byte>, depth: nat)
    requires forall x <- text :: x in WhitespaceBytes
    ensures TrainChain(c, text, depth) == c && TrainHead(head, text) == head
  {
  }
}
