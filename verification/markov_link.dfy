/**
 * The value types of one chain entry: a word, a token (a word or the end of
 * a line) and a link (a token with the number of times it was observed).
 */
module MarkovLink {

  /** One byte of a word. */
  type Byte = x: int | 0 <= x < 256

  /** A word is the raw bytes of one whitespace-delimited piece of text. */
  type Word = seq<Byte>

  /** A candidate continuation of a context. */
  datatype Token = Word(word: Word) | End

  datatype Link = Link(token: Token, count: nat)

  datatype Ordering = Less | Equal | Greater

  /** `Link::new`: the first observation of a token. */
  function NewLink(token: Token): (l: Link)
    ensures l.token == token && l.count == 1
  {
    Link(token, 1)
  }

  /**
   * `Link::merge`: adds the other link's count. The repository only
   * debug-asserts that the tokens agree; the model requires it.
   */
  function Merge(l: Link, other: Link): (r: Link)
    requires other.token == l.token
    ensures r.token == l.token == other.token
    ensures r.count == l.count + other.count
  {
    l.(count := l.count + other.count)
  }

  /** `Link::expand`: adds `n` to the count. */
  function Expand(l: Link, n: nat): Link {
    l.(count := l.count + n)
  }

  /** `expand(n)` is a merge with a link of count `n` for the same token. */
  lemma ExpandIsMerge(l: Link, n: nat)
    ensures Expand(l, n) == Merge(l, Link(l.token, n))
    ensures Expand(l, n).token == l.token && Expand(l, n).count == l.count + n
  {
  }

  /** `PartialEq for Link`: only the counts are compared. */
  predicate LinkEq(a: Link, b: Link) {
    a.count == b.count
  }

  /** `Ord for Link`: by count alone. */
  function LinkCmp(a: Link, b: Link): (o: Ordering)
    ensures o == Equal <==> LinkEq(a, b)
    ensures o == Less <==> a.count < b.count
    ensures o == Greater <==> a.count > b.count
  {
    if a.count < b.count then Less
    else if a.count == b.count then Equal
    else Greater
  }

  function Reverse(o: Ordering): Ordering {
    match o
    case Less => Greater
    case Equal => Equal
    case Greater => Less
  }

  /** Two links for different tokens are equal as soon as their counts agree. */
  lemma EqIgnoresToken(a: Link, t: Token)
    ensures LinkEq(a, a.(token := t))
    ensures a.token != t ==> a != a.(token := t)
  {
  }

  /** The ordering is a total order on counts, consistent with `LinkEq`. */
  lemma CmpIsTotalOrder(a: Link, b: Link, c: Link)
    ensures LinkCmp(a, b) == Reverse(LinkCmp(b, a))
    ensures LinkCmp(a, b) != Greater && LinkCmp(b, c) != Greater ==> LinkCmp(a, c) != Greater
    ensures LinkEq(a, b) && LinkEq(b, c) ==> LinkEq(a, c)
  {
  }
}
