/**
 * Well-formed UTF-8 (RFC 3629, section 4): the check a generated word must
 * pass before it is written into the output.
 */
module Utf8 {
  import opened MarkovLink

  predicate Continuation(b: Byte) {
    0x80 <= b <= 0xBF
  }

  /** The length of the well-formed sequence `w` starts with, or zero when it starts with none. */
  function LeadLength(w: seq<Byte>): (n: nat)
    requires w != []
    ensures n <= 4 && n <= |w|
  {
    var b := w[0];
    if b < 0x80 then 1
    else if 0xC2 <= b <= 0xDF then
      if |w| >= 2 && Continuation(w[1]) then 2 else 0
    else if 0xE0 <= b <= 0xEF then
      var lo := if b == 0xE0 then 0xA0 else 0x80;
      var hi := if b == 0xED then 0x9F else 0xBF;
      if |w| >= 3 && lo <= w[1] <= hi && Continuation(w[2]) then 3 else 0
    else if 0xF0 <= b <= 0xF4 then
      var lo := if b == 0xF0 then 0x90 else 0x80;
      var hi := if b == 0xF4 then 0x8F else 0xBF;
      if |w| >= 4 && lo <= w[1] <= hi && Continuation(w[2]) && Continuation(w[3]) then 4 else 0
    else 0
  }

  /** `std::str::from_utf8` succeeds. */
  predicate IsUtf8(w: seq<Byte>)
    decreases |w|
  {
    w == [] || (LeadLength(w) > 0 && IsUtf8(w[LeadLength(w)..]))
  }

  /** Plain ASCII is well formed. */
  lemma {:induction false} AsciiIsUtf8(w: seq<Byte>)
    requires forall b <- w :: b < 0x80
    ensures IsUtf8(w)
    decreases |w|
  {
    if w != [] {
      assert w[0] in w;
      assert LeadLength(w) == 1;
      assert forall b <- w[1..] :: b in w;
      AsciiIsUtf8(w[1..]);
    }
  }

  /** Two well-formed texts stay well formed when put together. */
  lemma {:induction false} ConcatIsUtf8(a: seq<Byte>, b: seq<Byte>)
    requires IsUtf8(a) && IsUtf8(b)
    ensures IsUtf8(a + b)
    decreases |a|
  {
    if a == [] {
      assert a + b == b;
    } else {
      var n := LeadLength(a);
      assert (a + b)[..n] == a[..n];
      assert LeadLength(a + b) == n by {
        assert forall i :: 0 <= i < n ==> (a + b)[i] == a[i];
      }
      assert (a + b)[n..] == a[n..] + b;
      ConcatIsUtf8(a[n..], b);
    }
  }

  /** A two-byte sign, an overlong encoding, an encoded surrogate and a truncated sequence. */
  lemma Examples()
    ensures IsUtf8([0xC3, 0xA9])
    ensures IsUtf8([0xE2, 0x82, 0xAC])
    ensures !IsUtf8([0xC0, 0x80])
    ensures !IsUtf8([0xED, 0xA0, 0x80])
    ensures !IsUtf8([0xE2, 0x82])
  {
    assert [0xC3, 0xA9][2..] == [];
    assert [0xE2, 0x82, 0xAC][3..] == [];
  }
}
