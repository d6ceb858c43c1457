/**
 * Sequence and string helpers shared by the modules: splitting at separator
 * runs (`split_whitespace`, `split_ascii_whitespace`), splitting at every
 * separator (`split`), `split_once`, trimming, and the two ways of joining
 * pieces used by the repository (a plain join and the fold that only writes a
 * separator after non-empty text).
 */
module Text {
  import opened Wrappers

  /** The characters for which Rust's `char::is_whitespace` holds (Unicode White_Space). */
  const Whitespace: set<char> := {
    '\t', '\n', '\U{000B}', '\U{000C}', '\r', ' ', '\U{0085}', '\U{00A0}', '\U{1680}',
    '\U{2000}', '\U{2001}', '\U{2002}', '\U{2003}', '\U{2004}', '\U{2005}', '\U{2006}',
    '\U{2007}', '\U{2008}', '\U{2009}', '\U{200A}', '\U{2028}', '\U{2029}', '\U{202F}',
    '\U{205F}', '\U{3000}'
  }

  /** The separators of `split_ascii_whitespace`. */
  const AsciiWhitespace: set<char> := {' ', '\t', '\n', '\U{000C}', '\r'}

  /** No element of `w` is a separator. */
  predicate Free<T>(w: seq<T>, seps: set<T>) {
    forall x <- w :: x !in seps
  }

  /** Every piece is a non-empty run without separators. */
  predicate Pieces<T>(ws: seq<seq<T>>, seps: set<T>) {
    forall w <- ws :: w != [] && Free(w, seps)
  }

  predicate StartsWith<T(==)>(s: seq<T>, prefix: seq<T>) {
    |prefix| <= |s| && s[..|prefix|] == prefix
  }

  /** Length of the leading run of non-separators. */
  function RunLength<T>(s: seq<T>, seps: set<T>): (n: nat)
    ensures n <= |s|
    ensures Free(s[..n], seps)
    ensures n < |s| ==> s[n] in seps
  {
    if s == [] || s[0] in seps then 0
    else
      var m := RunLength(s[1..], seps);
      assert s[..m + 1] == [s[0]] + s[1..][..m];
      m + 1
  }

  /** The maximal runs of non-separators, in order (`split_whitespace`). */
  function Split<T>(s: seq<T>, seps: set<T>): (r: seq<seq<T>>)
    ensures Pieces(r, seps)
    decreases |s|
  {
    if s == [] then []
    else if s[0] in seps then Split(s[1..], seps)
    else
      var n := RunLength(s, seps);
      [s[..n]] + Split(s[n..], seps)
  }

  lemma {:induction false} SplitEmpty<T>(s: seq<T>, seps: set<T>)
    ensures Split(s, seps) == [] <==> forall x <- s :: x in seps
    decreases |s|
  {
    if s != [] && s[0] in seps {
      SplitEmpty(s[1..], seps);
      assert forall x <- s[1..] :: x in s;
      assert forall x <- s :: x == s[0] || x in s[1..];
    }
  }

  /** Plain join: pieces separated by exactly one `sep`. */
  function Join<T>(items: seq<seq<T>>, sep: T): seq<T> {
    if items == [] then []
    else if |items| == 1 then items[0]
    else items[0] + [sep] + Join(items[1..], sep)
  }

  /**
   * The fold used by `join_with` and by the repository's other string
   * builders: the separator is written only when the text so far is not empty.
   */
  function Joined<T>(items: seq<seq<T>>, sep: T): seq<T> {
    if items == [] then []
    else
      var acc := Joined(items[..|items| - 1], sep);
      (if acc == [] then acc else acc + [sep]) + items[|items| - 1]
  }

  /** One more piece: a separator if the text so far is not empty, then the piece. */
  lemma JoinedSnoc<T>(items: seq<seq<T>>, last: seq<T>, sep: T)
    ensures Joined(items + [last], sep)
         == (if Joined(items, sep) == [] then [] else Joined(items, sep) + [sep]) + last
  {
    assert (items + [last])[..|items|] == items;
  }

  lemma {:induction false} JoinSnoc<T>(items: seq<seq<T>>, last: seq<T>, sep: T)
    ensures Join(items + [last], sep) == if items == [] then last else Join(items, sep) + [sep] + last
  {
    if |items| > 1 {
      assert (items + [last])[1..] == items[1..] + [last];
      JoinSnoc(items[1..], last, sep);
    }
  }

  lemma {:induction false} JoinEmpty<T>(items: seq<seq<T>>, sep: T)
    requires forall w <- items :: w != []
    ensures Join(items, sep) == [] <==> items == []
  {
    if items != [] {
      assert items[0] in items;
    }
  }

  /**
   * With no empty piece, the separator-after-text fold is the plain join:
   * consecutive pieces are separated by exactly one separator. (An empty piece
   * after non-empty text would still add a separator.)
   */
  lemma {:induction false} JoinedNonEmpty<T>(items: seq<seq<T>>, sep: T)
    requires forall w <- items :: w != []
    ensures Joined(items, sep) == Join(items, sep)
  {
    if items != [] {
      var init, last := items[..|items| - 1], items[|items| - 1];
      assert items == init + [last];
      assert forall w <- init :: w in items;
      JoinedNonEmpty(init, sep);
      JoinSnoc(init, last, sep);
      JoinEmpty(init, sep);
    }
  }

  lemma {:induction false} SplitRun<T>(w: seq<T>, rest: seq<T>, seps: set<T>)
    requires w != [] && Free(w, seps)
    requires rest == [] || rest[0] in seps
    ensures Split(w + rest, seps) == [w] + Split(rest, seps)
  {
    var s := w + rest;
    RunLengthOf(w, rest, seps);
    assert s[..|w|] == w && s[|w|..] == rest;
  }

  lemma {:induction false} RunLengthOf<T>(w: seq<T>, rest: seq<T>, seps: set<T>)
    requires Free(w, seps)
    requires rest == [] || rest[0] in seps
    ensures RunLength(w + rest, seps) == |w|
    decreases |w|
  {
    if w != [] {
      assert (w + rest)[1..] == w[1..] + rest;
      RunLengthOf(w[1..], rest, seps);
    }
  }

  /** Splitting a join at a separator gives back the pieces. */
  lemma {:induction false} SplitJoin<T>(items: seq<seq<T>>, sep: T, seps: set<T>)
    requires sep in seps && Pieces(items, seps)
    ensures Split(Join(items, sep), seps) == items
  {
    if |items| == 1 {
      assert items[0] in items;
      SplitRun(items[0], [], seps);
      assert items[0] + [] == items[0] && items == [items[0]];
    } else if |items| > 1 {
      var rest := Join(items[1..], sep);
      assert items[0] in items;
      assert forall w <- items[1..] :: w in items;
      assert items[0] + [sep] + rest == items[0] + ([sep] + rest);
      SplitRun(items[0], [sep] + rest, seps);
      assert ([sep] + rest)[1..] == rest;
      SplitJoin(items[1..], sep, seps);
    }
  }

  /** The same round trip for the separator-after-text fold. */
  lemma SplitJoined<T>(items: seq<seq<T>>, sep: T, seps: set<T>)
    requires sep in seps && Pieces(items, seps)
    ensures Split(Joined(items, sep), seps) == items
  {
    JoinedNonEmpty(items, sep);
    SplitJoin(items, sep, seps);
  }

  function Filter<T>(items: seq<T>, keep: T -> bool): (r: seq<T>)
    ensures |r| <= |items|
    ensures forall x <- r :: x in items && keep(x)
    ensures forall x <- items :: keep(x) ==> x in r
  {
    if items == [] then []
    else (if keep(items[0]) then [items[0]] else []) + Filter(items[1..], keep)
  }

  /** Filtering one more item appends it exactly when it is kept. */
  lemma {:induction false} FilterSnoc<T>(items: seq<T>, x: T, keep: T -> bool)
    ensures Filter(items + [x], keep) == Filter(items, keep) + (if keep(x) then [x] else [])
    decreases |items|
  {
    if items == [] {
      assert items + [x] == [x];
      assert Filter([x], keep) == (if keep(x) then [x] else []) + Filter([x][1..], keep);
    } else {
      assert (items + [x])[0] == items[0];
      assert (items + [x])[1..] == items[1..] + [x];
      FilterSnoc(items[1..], x, keep);
    }
  }

  /** Index of the first occurrence of `x`. */
  function IndexOf<T(==)>(s: seq<T>, x: T): (r: Option<nat>)
    ensures r.None? <==> x !in s
    ensures r.Some? ==> r.value < |s| && s[r.value] == x && x !in s[..r.value]
  {
    if s == [] then None
    else if s[0] == x then Some(0)
    else match IndexOf(s[1..], x)
      case None => None
      case Some(i) =>
        assert s[..i + 1] == [s[0]] + s[1..][..i];
        Some(i + 1)
  }

  /** `str::split_once`: the text before and after the first `x`. */
  function SplitOnce<T(==)>(s: seq<T>, x: T): (r: Option<(seq<T>, seq<T>)>)
    ensures r.None? <==> x !in s
    ensures r.Some? ==> r.value.0 + [x] + r.value.1 == s && x !in r.value.0
  {
    match IndexOf(s, x)
    case None => None
    case Some(i) =>
      assert s == s[..i] + [x] + s[i + 1..];
      Some((s[..i], s[i + 1..]))
  }

  /** The first `x` is the one right after a prefix free of `x`. */
  lemma {:induction false} IndexOfAfter<T>(head: seq<T>, x: T, tail: seq<T>)
    requires x !in head
    ensures IndexOf(head + [x] + tail, x) == Some(|head|)
    decreases |head|
  {
    var s := head + [x] + tail;
    if head != [] {
      assert s[1..] == head[1..] + [x] + tail;
      assert head[0] in head;
      IndexOfAfter(head[1..], x, tail);
    }
  }

  /** `split_once` undoes gluing two texts around the first separator. */
  lemma SplitOnceOf<T>(head: seq<T>, x: T, tail: seq<T>)
    requires x !in head
    ensures SplitOnce(head + [x] + tail, x) == Some((head, tail))
  {
    IndexOfAfter(head, x, tail);
    var s := head + [x] + tail;
    assert s[..|head|] == head && s[|head| + 1..] == tail;
  }

  /** `str::split(x)`: every piece between occurrences of `x`, empty ones included. */
  function SplitAll<T(==)>(s: seq<T>, x: T): (r: seq<seq<T>>)
    ensures |r| >= 1
    ensures forall w <- r :: x !in w
    ensures Join(r, x) == s
    decreases |s|
  {
    match SplitOnce(s, x)
    case None => [s]
    case Some((head, tail)) =>
      var rest := SplitAll(tail, x);
      assert ([head] + rest)[1..] == rest;
      [head] + rest
  }

  function TrimStart<T>(s: seq<T>, chars: set<T>): (r: seq<T>)
    ensures |r| <= |s| && r == s[|s| - |r|..]
    ensures r != [] ==> r[0] !in chars
    ensures forall i :: 0 <= i < |s| - |r| ==> s[i] in chars
  {
    if s == [] || s[0] !in chars then s else TrimStart(s[1..], chars)
  }

  function TrimEnd<T>(s: seq<T>, chars: set<T>): (r: seq<T>)
    ensures |r| <= |s| && r == s[..|r|]
    ensures r != [] ==> r[|r| - 1] !in chars
    ensures forall i :: |r| <= i < |s| ==> s[i] in chars
  {
    if s == [] || s[|s| - 1] !in chars then s else TrimEnd(s[..|s| - 1], chars)
  }

  /** A run of trimmed characters before text that does not start with one is removed. */
  lemma {:induction false} TrimStartRun<T>(run: seq<T>, s: seq<T>, chars: set<T>)
    requires forall c <- run :: c in chars
    requires s == [] || s[0] !in chars
    ensures TrimStart(run + s, chars) == s
    decreases |run|
  {
    if run == [] {
      assert run + s == s;
    } else {
      assert (run + s)[1..] == run[1..] + s;
      assert run[0] in run;
      assert forall c <- run[1..] :: c in run;
      TrimStartRun(run[1..], s, chars);
    }
  }

  /** A run of trimmed characters after text that does not end with one is removed. */
  lemma {:induction false} TrimEndRun<T>(s: seq<T>, run: seq<T>, chars: set<T>)
    requires forall c <- run :: c in chars
    requires s == [] || s[|s| - 1] !in chars
    ensures TrimEnd(s + run, chars) == s
    decreases |run|
  {
    if run == [] {
      assert s + run == s;
    } else {
      var init := run[..|run| - 1];
      assert (s + run)[..|s + run| - 1] == s + init;
      assert run[|run| - 1] in run;
      assert forall c <- init :: c in run;
      TrimEndRun(s, init, chars);
    }
  }

  /** `str::trim` for the given set of characters. */
  function Trim<T>(s: seq<T>, chars: set<T>): seq<T> {
    TrimEnd(TrimStart(s, chars), chars)
  }

  /** A trimmed text is empty exactly when every character was trimmed. */
  lemma TrimEmpty<T>(s: seq<T>, chars: set<T>)
    ensures Trim(s, chars) == [] <==> forall x <- s :: x in chars
  {
    var t := TrimStart(s, chars);
    if t != [] {
      assert t[0] == s[|s| - |t|] && t[0] !in chars;
    } else {
      assert forall i :: 0 <= i < |s| ==> s[i] in chars;
    }
  }
}
