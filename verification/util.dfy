/**
 * Small helpers used across the chat bot: appending a list that may be
 * empty, the separator-after-text join, and quoted values.
 */
module Util {
  import opened Text

  /** `VecExt::append_maybe`: nothing to add, take the right side whole, or append. */
  method AppendMaybe<T>(xs: seq<T>, right: seq<T>) returns (r: seq<T>)
    ensures r == xs + right
    ensures right == [] ==> r == xs
    ensures xs == [] ==> r == right
  {
    if right == [] {
      return xs;
    }
    if xs == [] {
      return right;
    }
    r := xs + right;
  }

  /** `IterExt::join_with`: push the separator only when the text so far is not empty. */
  method JoinWith(items: seq<string>, ch: char) returns (out: string)
    ensures out == Joined(items, ch)
  {
    out := [];
    for i := 0 to |items|
      invariant out == Joined(items[..i], ch)
    {
      JoinedSnoc(items[..i], items[i], ch);
      assert items[..i + 1] == items[..i] + [items[i]];
      if out != [] {
        out := out + [ch];
      }
      out := out + items[i];
    }
    assert items[..|items|] == items;
  }

  /** Empty items before any text leave no trace. */
  lemma {:induction false} LeadingEmptyIgnored(n: nat, items: seq<string>, ch: char)
    ensures Joined(seq(n, _ => "") + items, ch) == Joined(items, ch)
    decreases |items|
  {
    var blanks: seq<string> := seq(n, _ => "");
    if items == [] {
      assert blanks + items == blanks;
      AllBlank(blanks, ch);
    } else {
      var init, last := items[..|items| - 1], items[|items| - 1];
      assert blanks + items == (blanks + init) + [last];
      assert items == init + [last];
      LeadingEmptyIgnored(n, init, ch);
      JoinedSnoc(blanks + init, last, ch);
      JoinedSnoc(init, last, ch);
    }
  }

  lemma {:induction false} AllBlank(items: seq<string>, ch: char)
    requires forall i | 0 <= i < |items| :: items[i] == ""
    ensures Joined(items, ch) == []
  {
    if items != [] {
      AllBlank(items[..|items| - 1], ch);
    }
  }

  /** An empty item after some text still adds a separator. */
  lemma TrailingEmptyAddsSeparator(a: string, ch: char)
    requires a != []
    ensures Joined([a, ""], ch) == a + [ch]
  {
    assert [a, ""][..1] == [a];
    assert Joined([a], ch) == a by { assert [a][..0] == []; }
  }

  /** `Quote`: a value to be shown in single quotes, double quotes or backticks. */
  datatype Quote<T> = Single(inner: T) | Double(inner: T) | Tick(inner: T)

  /** The character a quote is written with. */
  function Mark<T>(q: Quote<T>): char {
    match q
    case Single(_) => '\''
    case Double(_) => '"'
    case Tick(_) => '`'
  }

  /** `Display for Quote`: the text between two quote marks. */
  function Quoted(q: Quote<string>): (r: string)
    ensures |r| == |q.inner| + 2
    ensures r[0] == r[|r| - 1] == Mark(q)
    ensures r[1..|r| - 1] == q.inner
  {
    [Mark(q)] + q.inner + [Mark(q)]
  }

  /** Dropping the marks gives back the wrapped text (`inner`, `Deref`, `AsRef`, `String::from`). */
  lemma QuotedInner(q: Quote<string>)
    ensures Quoted(q)[1..|Quoted(q)| - 1] == q.inner
    ensures q.Single? ==> Quoted(q) == "'" + q.inner + "'"
    ensures q.Double? ==> Quoted(q) == "\"" + q.inner + "\""
    ensures q.Tick? ==> Quoted(q) == "`" + q.inner + "`"
  {
  }
}
