/**
 * IRCv3 message tags: the `@key=value;key=value ` block that may open an IRC
 * line. The block is cut off at the first space, split at every `;`, each
 * item split at its first `=` (items without one are dropped), keys and
 * values trimmed, and collected into a map in which a later item overrides
 * an earlier one with the same key. Escaped values are kept as written.
 */
module IrcTags {
  import opened Wrappers
  import opened Text

  datatype Tags = Tags(entries: map<string, string>)

  /** The unread rest of a line; parsing steps move it forward. */
  class Cursor {
    var rest: string

    constructor (line: string)
      ensures rest == line
    {
      rest := line;
    }
  }

  /** Each piece split at its first `x`; pieces without `x` contribute nothing. */
  function Halves(pieces: seq<string>, x: char): (r: seq<(string, string)>)
    ensures |r| <= |pieces|
    ensures forall p <- r :: exists w <- pieces :: SplitOnce(w, x) == Some(p)
  {
    if pieces == [] then []
    else
      var rest := Halves(pieces[1..], x);
      assert forall w <- pieces[1..] :: w in pieces;
      match SplitOnce(pieces[0], x)
      case None => rest
      case Some(p) => [p] + rest
  }

  /** Every piece that holds `x` gives exactly one pair. */
  lemma {:induction false} HalvesAll(pieces: seq<string>, x: char)
    requires forall w <- pieces :: x in w
    ensures |Halves(pieces, x)| == |pieces|
  {
    if pieces != [] {
      assert pieces[0] in pieces;
      assert forall w <- pieces[1..] :: w in pieces;
      HalvesAll(pieces[1..], x);
    }
  }

  /** Pieces without `x` are dropped. */
  lemma {:induction false} HalvesNone(pieces: seq<string>, x: char)
    requires forall w <- pieces :: x !in w
    ensures Halves(pieces, x) == []
  {
    if pieces != [] {
      assert pieces[0] in pieces;
      assert forall w <- pieces[1..] :: w in pieces;
      HalvesNone(pieces[1..], x);
    }
  }

  /** Every pair with its key and value trimmed, in order. */
  function TrimPairs(pairs: seq<(string, string)>, ws: set<char>): seq<(string, string)> {
    if pairs == [] then [] else [TrimPair(pairs[0], ws)] + TrimPairs(pairs[1..], ws)
  }

  /** Key and value with surrounding whitespace removed. */
  function TrimPair(p: (string, string), ws: set<char>): (string, string) {
    (Trim(p.0, ws), Trim(p.1, ws))
  }

  /** `collect` into a map: pairs are inserted in order, so a later key overrides an earlier one. */
  function Collect(pairs: seq<(string, string)>): (r: map<string, string>)
    ensures r.Keys == set p <- pairs :: p.0
  {
    if pairs == [] then map[]
    else
      var init, last := pairs[..|pairs| - 1], pairs[|pairs| - 1];
      assert pairs == init + [last];
      assert forall p <- pairs :: p in init || p == last;
      Collect(init)[last.0 := last.1]
  }

  /** The value under a key is the one of the last pair with that key. */
  lemma {:induction false} CollectLast(pairs: seq<(string, string)>, i: nat)
    requires i < |pairs|
    requires forall j :: i < j < |pairs| ==> pairs[j].0 != pairs[i].0
    ensures pairs[i].0 in Collect(pairs) && Collect(pairs)[pairs[i].0] == pairs[i].1
  {
    if i < |pairs| - 1 {
      var init := pairs[..|pairs| - 1];
      CollectLast(init, i);
    }
  }

  /** The map built from the text of a tag block (the part after `@`). */
  function TagMap(block: string): map<string, string> {
    Collect(TrimPairs(Halves(SplitAll(block, ';'), '='), Whitespace))
  }

  /**
   * `Tags::parse` on the text at the cursor: nothing unless it starts with
   * `@` and holds a space; otherwise the tags and the text after the first
   * space.
   */
  function ParseTagsAt(s: string): (r: Option<(Tags, string)>)
    ensures r.None? <==> s == [] || s[0] != '@' || ' ' !in s
    ensures r.Some? ==> (exists head :: s == head + [' '] + r.value.1 && ' ' !in head && head != [] &&
                                        r.value.0 == Tags(TagMap(head[1..])))
  {
    if s == [] || s[0] != '@' then None
    else match SplitOnce(s, ' ')
      case None => None
      case Some((head, tail)) =>
        assert (head + [' '] + tail)[0] == if head == [] then ' ' else head[0];
        Some((Tags(TagMap(head[1..])), tail))
  }

  /** `Tags::parse`: advances the cursor past the tag block only when there is one. */
  method ParseTags(cursor: Cursor) returns (r: Option<Tags>)
    modifies cursor
    ensures ParseTagsAt(old(cursor.rest)).None? ==> r.None? && cursor.rest == old(cursor.rest)
    ensures ParseTagsAt(old(cursor.rest)).Some? ==>
      r == Some(ParseTagsAt(old(cursor.rest)).value.0) && cursor.rest == ParseTagsAt(old(cursor.rest)).value.1
  {
    var input := cursor.rest;
    if input == [] || input[0] != '@' {
      return None;
    }
    var split := SplitOnce(input, ' ');
    if split.None? {
      return None;
    }
    var (head, tail) := split.value;
    cursor.rest := tail;
    r := Some(Tags(TagMap(head[1..])));
  }

  /** A tag block glued in front of the rest of a line is read back, and the cursor lands on that rest. */
  lemma TagsBlock(block: string, rest: string)
    requires ' ' !in block
    ensures ParseTagsAt(['@'] + block + [' '] + rest) == Some((Tags(TagMap(block)), rest))
  {
    var head := ['@'] + block;
    assert ' ' !in head;
    SplitOnceOf(head, ' ', rest);
    assert head + [' '] + rest == ['@'] + block + [' '] + rest;
    assert head[1..] == block;
  }

  /** `Tags::get`. */
  function Get(tags: Tags, k: string): (r: Result<string>)
    ensures r.Ok? <==> k in tags.entries
    ensures r.Ok? ==> r.value == tags.entries[k]
    ensures r.Err? ==> r.error == "cannot find: " + k
  {
    if k in tags.entries then Ok(tags.entries[k]) else Err("cannot find: " + k)
  }

  /** Three pieces glued with `;` are split back into those pieces. */
  lemma SplitThree(a: string, b: string, c: string)
    requires ';' !in a && ';' !in b && ';' !in c
    ensures SplitAll(a + [';'] + b + [';'] + c, ';') == [a, b, c]
  {
    var rest := b + [';'] + c;
    assert a + [';'] + b + [';'] + c == a + [';'] + rest;
    SplitOnceOf(a, ';', rest);
    SplitTwo(b, c, ';');
  }

  lemma SplitTwo(a: string, b: string, x: char)
    requires x !in a && x !in b
    ensures SplitAll(a + [x] + b, x) == [a, b]
  {
    SplitOnceOf(a, x, b);
  }

  lemma HalvesTwo(a: string, b: string, x: char)
    requires SplitOnce(a, x).Some? && SplitOnce(b, x).Some?
    ensures Halves([a, b], x) == [SplitOnce(a, x).value, SplitOnce(b, x).value]
  {
    var pieces := [a, b];
    assert pieces[1..] == [b] && [b][1..] == [];
  }

  lemma HalvesThree(a: string, b: string, c: string, x: char)
    requires SplitOnce(a, x).Some? && x !in b && SplitOnce(c, x).Some?
    ensures Halves([a, b, c], x) == [SplitOnce(a, x).value, SplitOnce(c, x).value]
  {
    var pieces := [a, b, c];
    assert pieces[1..] == [b, c] && pieces[1..][1..] == [c] && [c][1..] == [];
    assert SplitOnce(b, x).None?;
    assert Halves([c], x) == [SplitOnce(c, x).value];
    assert Halves([b, c], x) == Halves([c], x);
  }

  lemma CollectTwo(k: string, v1: string, v2: string)
    ensures Collect([(k, v1), (k, v2)]) == map[k := v2]
  {
    var pairs := [(k, v1), (k, v2)];
    assert pairs[..1] == [(k, v1)] && [(k, v1)][..0] == [];
    assert Collect([(k, v1)]) == map[k := v1];
    assert Collect(pairs) == map[k := v1][k := v2];
  }

  /** The items of `first;junk;second` that hold `=`, split at it. */
  lemma ItemsOf(first: string, junk: string, second: string)
    requires ';' !in first && ';' !in junk && ';' !in second
    requires '=' in first && '=' !in junk && '=' in second
    ensures Halves(SplitAll(first + [';'] + junk + [';'] + second, ';'), '=') ==
      [SplitOnce(first, '=').value, SplitOnce(second, '=').value]
  {
    SplitThree(first, junk, second);
    HalvesThree(first, junk, second, '=');
  }

  /** The items of `k=v1;junk;k=v2` that hold `=`, split at it. */
  lemma ItemsOverride(k: string, v1: string, v2: string, junk: string)
    requires ';' !in k && ';' !in v1 && ';' !in v2 && ';' !in junk
    requires '=' !in k && '=' !in junk
    ensures Halves(SplitAll(k + ['='] + v1 + [';'] + junk + [';'] + k + ['='] + v2, ';'), '=') == [(k, v1), (k, v2)]
  {
    var first, second := k + ['='] + v1, k + ['='] + v2;
    assert k + ['='] + v1 + [';'] + junk + [';'] + k + ['='] + v2 == first + [';'] + junk + [';'] + second;
    SplitOnceOf(k, '=', v1);
    SplitOnceOf(k, '=', v2);
    ItemsOf(first, junk, second);
  }

  /**
   * In `k=v1;junk;k=v2` the item without `=` is dropped and the later value
   * wins, with the key and the value trimmed.
   */
  lemma LaterOverrides(k: string, v1: string, v2: string, junk: string)
    requires ';' !in k && ';' !in v1 && ';' !in v2 && ';' !in junk
    requires '=' !in k && '=' !in junk
    ensures TagMap(k + ['='] + v1 + [';'] + junk + [';'] + k + ['='] + v2) == map[Trim(k, Whitespace) := Trim(v2, Whitespace)]
  {
    ItemsOverride(k, v1, v2, junk);
    TrimmedTwo(k, v1, v2, Whitespace);
    CollectTwo(Trim(k, Whitespace), Trim(v1, Whitespace), Trim(v2, Whitespace));
  }

  lemma TrimmedTwo(k: string, v1: string, v2: string, ws: set<char>)
    ensures TrimPairs([(k, v1), (k, v2)], ws) == [(Trim(k, ws), Trim(v1, ws)), (Trim(k, ws), Trim(v2, ws))]
  {
    var pairs, last := [(k, v1), (k, v2)], [(k, v2)];
    assert pairs[1..] == last && last[1..] == [];
    assert TrimPairs(last, ws) == [TrimPair((k, v2), ws)] + TrimPairs([], ws);
    assert TrimPairs(pairs, ws) == [TrimPair((k, v1), ws)] + TrimPairs(last, ws);
  }
}
