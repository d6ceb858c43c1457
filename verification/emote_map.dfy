/**
 * The emote table: emote names and ids, looked up in either direction
 * through one map that holds both name-to-id and id-to-name entries, and
 * the set of emote names. A second map from ids to names exists but is
 * never filled.
 */
module EmoteMap {
  import opened Wrappers

  /** The lookups after recording each (name, id) pair in order: id to name first, then name to id. */
  function Recorded(m: map<string, string>, pairs: seq<(string, string)>): map<string, string>
    decreases |pairs|
  {
    if pairs == [] then m
    else
      var (k, v) := pairs[|pairs| - 1];
      Recorded(m, pairs[..|pairs| - 1])[v := k][k := v]
  }

  /** The names of the recorded pairs. */
  function Firsts(pairs: seq<(string, string)>): set<string> {
    set p <- pairs :: p.0
  }

  /** The ids of the recorded pairs. */
  function Seconds(pairs: seq<(string, string)>): set<string> {
    set p <- pairs :: p.1
  }

  class EmoteMap {
    var nameToId: map<string, string>
    var idToName: map<string, string>
    var names: set<string>

    /** Every remembered name has an entry in the two-way map. */
    predicate Valid()
      reads this
    {
      names <= nameToId.Keys
    }

    /** `EmoteMap::default`. */
    constructor ()
      ensures nameToId == map[] && idToName == map[] && names == {}
      ensures Valid()
    {
      nameToId := map[];
      idToName := map[];
      names := {};
    }

    /** `with_emotes`: records every (name, id) pair both ways and remembers the name. */
    method WithEmotes(pairs: seq<(string, string)>)
      modifies this
      ensures nameToId == Recorded(old(nameToId), pairs)
      ensures names == old(names) + Firsts(pairs)
      ensures idToName == old(idToName)
      ensures old(Valid()) ==> Valid()
    {
      for i := 0 to |pairs|
        invariant nameToId == Recorded(old(nameToId), pairs[..i])
        invariant names == old(names) + Firsts(pairs[..i])
        invariant idToName == old(idToName)
      {
        var (k, v) := pairs[i];
        assert pairs[..i + 1][..i] == pairs[..i];
        assert pairs[..i + 1] == pairs[..i] + [(k, v)];
        nameToId := nameToId[v := k];
        nameToId := nameToId[k := v];
        names := names + {k};
      }
      assert pairs[..|pairs|] == pairs;
      RecordedKeys(old(nameToId), pairs);
    }

    /** `get_name`: a lookup in the id-to-name map, which nothing fills. */
    function GetName(id: string): (r: Option<string>)
      reads this
      ensures r.Some? <==> id in idToName
      ensures idToName == map[] ==> r == None
    {
      if id in idToName then Some(idToName[id]) else None
    }

    /** `get_id`: a lookup in the two-way map. */
    function GetId(name: string): (r: Option<string>)
      reads this
      ensures r.Some? <==> name in nameToId
      ensures r.Some? ==> r.value == nameToId[name]
    {
      if name in nameToId then Some(nameToId[name]) else None
    }

    /** `has`: the two-way map knows the text, as a name or as an id. */
    predicate Has(name: string)
      reads this
      ensures Has(name) <==> GetId(name).Some?
    {
      name in nameToId
    }

    /** `names`: in a table kept valid, every listed name can be looked up. */
    function Names(): (r: set<string>)
      reads this
      ensures Valid() ==> forall n <- r :: GetId(n).Some?
    {
      names
    }
  }

  /** Both the name and the id of every recorded pair can be looked up, and nothing else is added. */
  lemma {:induction false} RecordedKeys(m: map<string, string>, pairs: seq<(string, string)>)
    ensures Recorded(m, pairs).Keys == m.Keys + Firsts(pairs) + Seconds(pairs)
    decreases |pairs|
  {
    if pairs != [] {
      var init, last := pairs[..|pairs| - 1], pairs[|pairs| - 1];
      RecordedKeys(m, init);
      assert pairs == init + [last];
      assert Firsts(pairs) == Firsts(init) + {last.0};
      assert Seconds(pairs) == Seconds(init) + {last.1};
    }
  }

  /** Recording two lists is recording the first, then the second. */
  lemma {:induction false} RecordedAppend(m: map<string, string>, a: seq<(string, string)>, b: seq<(string, string)>)
    ensures Recorded(m, a + b) == Recorded(Recorded(m, a), b)
    decreases |b|
  {
    if b == [] {
      assert a + b == a;
    } else {
      var init := b[..|b| - 1];
      assert (a + b)[..|a + b| - 1] == a + init;
      assert (a + b)[|a + b| - 1] == b[|b| - 1];
      RecordedAppend(m, a, init);
    }
  }

  /** A text that no later pair mentions keeps its entry. */
  lemma {:induction false} RecordedUntouched(m: map<string, string>, pairs: seq<(string, string)>, x: string)
    requires x !in Firsts(pairs) && x !in Seconds(pairs)
    ensures x in m ==> x in Recorded(m, pairs) && Recorded(m, pairs)[x] == m[x]
    ensures x !in m ==> x !in Recorded(m, pairs)
    decreases |pairs|
  {
    if pairs != [] {
      var init := pairs[..|pairs| - 1];
      assert forall p <- init :: p in pairs;
      assert pairs[|pairs| - 1] in pairs;
      RecordedUntouched(m, init, x);
    }
  }

  /**
   * A pair decides the lookups of its name and id until a later pair
   * mentions them: the name finds the id, and the id finds the name (a pair
   * whose name is its id finds itself).
   */
  lemma LastPairWins(m: map<string, string>, before: seq<(string, string)>, k: string, v: string, after: seq<(string, string)>)
    requires k !in Firsts(after) && k !in Seconds(after)
    requires v !in Firsts(after) && v !in Seconds(after)
    ensures k in Recorded(m, before + [(k, v)] + after) && Recorded(m, before + [(k, v)] + after)[k] == v
    ensures v in Recorded(m, before + [(k, v)] + after) && Recorded(m, before + [(k, v)] + after)[v] == (if k == v then v else k)
  {
    var mid := Recorded(m, before + [(k, v)]);
    assert (before + [(k, v)])[..|before + [(k, v)]| - 1] == before;
    RecordedAppend(m, before + [(k, v)], after);
    RecordedUntouched(mid, after, k);
    RecordedUntouched(mid, after, v);
  }

  /** After `with_emotes` on a fresh table, every name and id of the pairs is known, every name is listed, and no id has a name. */
  method WithEmotesOnDefault(pairs: seq<(string, string)>) returns (known: bool, listed: bool, unnamed: bool)
    ensures known && listed && unnamed
  {
    var emotes := new EmoteMap();
    emotes.WithEmotes(pairs);
    RecordedKeys(map[], pairs);
    known := forall p <- pairs :: emotes.Has(p.0) && emotes.Has(p.1);
    listed := forall p <- pairs :: p.0 in emotes.Names();
    unnamed := forall p <- pairs :: emotes.GetName(p.1).None?;
  }
}
