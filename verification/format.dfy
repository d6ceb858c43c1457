/**
 * Human-readable durations: a number of seconds written as days, hours,
 * minutes and seconds, largest first, zero parts left out, with commas and
 * a final "and".
 */
module Format {
  import opened Text

  /** A decimal digit. */
  function Digit(d: nat): char
    requires d < 10
  {
    "0123456789"[d]
  }

  predicate IsDigits(s: string) {
    forall i | 0 <= i < |s| :: '0' <= s[i] <= '9'
  }

  /** `n` in decimal, without leading zeros. */
  function NatToString(n: nat): (r: string)
    ensures |r| >= 1 && IsDigits(r)
    ensures r[0] == '0' ==> n == 0
    decreases n
  {
    if n < 10 then [Digit(n)]
    else NatToString(n / 10) + [Digit(n % 10)]
  }

  /** The value of a string of decimal digits. */
  function DecimalValue(s: string): nat
    requires IsDigits(s)
  {
    if s == [] then 0
    else DecimalValue(s[..|s| - 1]) * 10 + (s[|s| - 1] as int - '0' as int)
  }

  /** Reading the digits back gives the number. */
  lemma {:induction false} DecimalRoundTrip(n: nat)
    ensures DecimalValue(NatToString(n)) == n
    decreases n
  {
    if n >= 10 {
      var r := NatToString(n);
      assert r[..|r| - 1] == NatToString(n / 10);
      DecimalRoundTrip(n / 10);
    }
  }

  /** The units, largest first. */
  const Units: seq<(string, nat)> := [("days", 86400), ("hours", 3600), ("minutes", 60), ("seconds", 1)]

  /** `pluralize`: "N units", or the singular (last letter dropped) when `n` is not above one. */
  function Pluralize(s: string, n: nat): string
    requires |s| >= 1
  {
    NatToString(n) + [' '] + if n > 1 then s else s[..|s| - 1]
  }

  /** The seconds left before unit `k` is taken out. */
  function Remaining(secs: nat, k: nat): nat
    requires k <= |Units|
  {
    if k == 0 then secs
    else
      var r := Remaining(secs, k - 1);
      var d := Units[k - 1].1;
      r - d * (r / d)
  }

  /** How many of unit `k` the input holds once the larger units are taken out. */
  function Count(secs: nat, k: nat): nat
    requires k < |Units|
  {
    Remaining(secs, k) / Units[k].1
  }

  /** The parts for the first `k` units, zero counts left out. */
  function Parts(secs: nat, k: nat): seq<string>
    requires k <= |Units|
  {
    if k == 0 then []
    else Parts(secs, k - 1) + if Count(secs, k - 1) > 0 then [Pluralize(Units[k - 1].0, Count(secs, k - 1))] else []
  }

  /** A comma after each of the first `n` parts. */
  function Commas(parts: seq<string>, n: nat): seq<string>
    requires n <= |parts|
  {
    seq(|parts|, i requires 0 <= i < |parts| => if i < n then parts[i] + [','] else parts[i])
  }

  /** Commas after all but the last two parts, and "and" before the last one. */
  function Punctuated(parts: seq<string>): (r: seq<string>)
    ensures |parts| <= 1 ==> r == parts
    ensures |parts| == 2 ==> r == [parts[0], "and", parts[1]]
    ensures |parts| >= 2 ==> |r| == |parts| + 1 && r[|r| - 2] == "and" && r[|r| - 1] == parts[|parts| - 1]
  {
    if |parts| <= 1 then parts
    else
      var c := Commas(parts, |parts| - 2);
      c[..|parts| - 1] + ["and"] + c[|parts| - 1..]
  }

  /** `format_seconds` as a value. */
  function Readable(secs: nat): string {
    Join(Punctuated(Parts(secs, |Units|)), ' ')
  }

  /** `format_seconds`: the parts unit by unit, then the punctuation, then one space between words. */
  method FormatSeconds(secs: nat) returns (out: string)
    ensures out == Readable(secs)
  {
    var rest := secs;
    var time: seq<string> := [];
    for k := 0 to |Units|
      invariant rest == Remaining(secs, k)
      invariant time == Parts(secs, k)
    {
      var (name, d) := Units[k];
      TakeUnit(secs, k);
      var div := rest / d;
      if div > 0 {
        time := time + [Pluralize(name, div)];
        rest := rest - d * div;
      }
    }
    time := Punctuate(time);
    out := Join(time, ' ');
  }

  /** Taking unit `k` out: what remains, and the part it adds. */
  lemma TakeUnit(secs: nat, k: nat)
    requires k < |Units|
    ensures Count(secs, k) == Remaining(secs, k) / Units[k].1
    ensures Remaining(secs, k + 1) == Remaining(secs, k) - Units[k].1 * Count(secs, k)
    ensures Count(secs, k) == 0 ==> Remaining(secs, k + 1) == Remaining(secs, k)
    ensures Parts(secs, k + 1) == Parts(secs, k) + Part(secs, k)
  {
  }

  /** The punctuation step of `format_seconds`, done in place on the parts. */
  method Punctuate(parts: seq<string>) returns (time: seq<string>)
    ensures time == Punctuated(parts)
  {
    time := parts;
    var len := |time|;
    if len > 1 {
      if len > 2 {
        for i := 0 to len - 2
          invariant time == Commas(parts, i)
        {
          time := time[i := time[i] + [',']];
        }
      }
      assert time == Commas(parts, len - 2);
      time := time[..len - 1] + ["and"] + time[len - 1..];
    }
  }

  /** A `Duration`: whole seconds and the nanoseconds beyond them. */
  datatype Duration = Duration(secs: nat, nanos: nat)

  /** `as_readable_time` for `std::time::Duration`: the whole seconds only. */
  method AsReadableTime(d: Duration) returns (out: string)
    ensures out == Readable(d.secs)
  {
    out := FormatSeconds(d.secs);
  }

  lemma DivBound(r: nat, d: nat, q: nat)
    requires d > 0 && r < d * q
    ensures r / d < q
  {
  }

  lemma DivSplit(r: nat, d: nat)
    requires d > 0
    ensures r == d * (r / d) + (r - d * (r / d)) && r - d * (r / d) < d
  {
  }

  /** The counts rebuild the input: days, hours, minutes and seconds times their units. */
  lemma CountsSum(secs: nat)
    ensures Count(secs, 0) * 86400 + Count(secs, 1) * 3600 + Count(secs, 2) * 60 + Count(secs, 3) == secs
  {
    DivSplit(secs, 86400);
    DivSplit(Remaining(secs, 1), 3600);
    DivSplit(Remaining(secs, 2), 60);
    DivSplit(Remaining(secs, 3), 1);
  }

  /** Each count below days is smaller than the ratio to the next larger unit. */
  lemma CountsBounded(secs: nat)
    ensures Count(secs, 1) < 24 && Count(secs, 2) < 60 && Count(secs, 3) < 60
  {
    DivSplit(secs, 86400);
    DivSplit(Remaining(secs, 1), 3600);
    DivSplit(Remaining(secs, 2), 60);
    DivBound(Remaining(secs, 1), 3600, 24);
    DivBound(Remaining(secs, 2), 60, 60);
  }

  /** The parts, unit by unit. */
  function Part(secs: nat, k: nat): seq<string>
    requires k < |Units|
  {
    if Count(secs, k) > 0 then [Pluralize(Units[k].0, Count(secs, k))] else []
  }

  lemma PartsUnfold(secs: nat)
    ensures Parts(secs, |Units|) == Part(secs, 0) + Part(secs, 1) + Part(secs, 2) + Part(secs, 3)
  {
    assert Parts(secs, 1) == Part(secs, 0);
    assert Parts(secs, 2) == Part(secs, 0) + Part(secs, 1);
    assert Parts(secs, 3) == Part(secs, 0) + Part(secs, 1) + Part(secs, 2);
  }

  /** No seconds, no text. */
  lemma ZeroIsEmpty()
    ensures Readable(0) == ""
  {
    PartsUnfold(0);
    assert Remaining(0, 1) == 0 && Remaining(0, 2) == 0 && Remaining(0, 3) == 0;
  }

  /** A single part is written alone; two are joined by "and". */
  lemma OneOrTwoParts(secs: nat)
    ensures |Parts(secs, |Units|)| == 1 ==> Readable(secs) == Parts(secs, |Units|)[0]
    ensures |Parts(secs, |Units|)| == 2 ==>
      Readable(secs) == Parts(secs, |Units|)[0] + " and " + Parts(secs, |Units|)[1]
  {
    var p := Parts(secs, |Units|);
    if |p| == 2 {
      var items := [p[0], "and", p[1]];
      assert Join(items[1..], ' ') == "and" + [' '] + p[1] by {
        assert items[1..][1..] == [p[1]];
      }
    }
  }

  /** The singular of each unit. */
  lemma Singulars()
    ensures Pluralize("days", 1) == "1 day" && Pluralize("hours", 1) == "1 hour"
    ensures Pluralize("minutes", 1) == "1 minute" && Pluralize("seconds", 1) == "1 second"
  {
    assert NatToString(1) == "1";
    assert "days"[..3] == "day" && "hours"[..4] == "hour" && "minutes"[..6] == "minute" && "seconds"[..6] == "second";
  }

  /** Four parts: commas after the first two, "and" before the last. */
  lemma FourParts(a: string, b: string, c: string, d: string)
    ensures Join(Punctuated([a, b, c, d]), ' ') == a + ", " + b + ", " + c + " and " + d
  {
    FourPunctuated(a, b, c, d);
    var q := [a + [','], b + [','], c, "and", d];
    assert Join(q[3..], ' ') == "and" + [' '] + d by { assert q[3..][1..] == [d]; }
    assert Join(q[2..], ' ') == c + [' '] + ("and" + [' '] + d) by { assert q[2..][1..] == q[3..]; }
    assert Join(q[1..], ' ') == b + [','] + [' '] + Join(q[2..], ' ') by { assert q[1..][1..] == q[2..]; }
    assert Join(q, ' ') == a + [','] + [' '] + Join(q[1..], ' ');
  }

  lemma FourPunctuated(a: string, b: string, c: string, d: string)
    ensures Punctuated([a, b, c, d]) == [a + [','], b + [','], c, "and", d]
  {
    assert Commas([a, b, c, d], 2) == [a + [','], b + [','], c, d];
  }

  /** The parts of one of each unit. */
  lemma EveryUnitParts()
    ensures Parts(90061, 4) == ["1 day", "1 hour", "1 minute", "1 second"]
  {
    PartsUnfold(90061);
    Singulars();
    assert Remaining(90061, 1) == 3661 && Remaining(90061, 2) == 61 && Remaining(90061, 3) == 1;
    assert Count(90061, 0) == 1 && Count(90061, 1) == 1 && Count(90061, 2) == 1 && Count(90061, 3) == 1;
  }

  /** One of each unit: "1 day, 1 hour, 1 minute and 1 second". */
  lemma ExampleEveryUnit()
    ensures Readable(90061) == "1 day" + ", " + "1 hour" + ", " + "1 minute" + " and " + "1 second"
  {
    EveryUnitParts();
    FourParts("1 day", "1 hour", "1 minute", "1 second");
  }

  /** Two days and five seconds, counted unit by unit. */
  lemma DaysAndSecondsCounts()
    ensures Count(172805, 0) == 2 && Count(172805, 1) == 0 && Count(172805, 2) == 0 && Count(172805, 3) == 5
  {
    assert Remaining(172805, 1) == 5;
    assert Remaining(172805, 2) == 5;
    assert Remaining(172805, 3) == 5;
  }

  /** The parts of two days and five seconds. */
  lemma DaysAndSecondsParts()
    ensures Parts(172805, 4) == ["2 days", "5 seconds"]
  {
    PartsUnfold(172805);
    DaysAndSecondsCounts();
    assert Pluralize("days", 2) == "2 days" by {
      assert NatToString(2) == "2";
    }
    assert Pluralize("seconds", 5) == "5 seconds" by {
      assert NatToString(5) == "5";
    }
  }

  /** Plurals, with the zero hours and minutes left out. */
  lemma ExampleDaysAndSeconds()
    ensures Readable(172805) == "2 days and 5 seconds"
  {
    DaysAndSecondsParts();
    OneOrTwoParts(172805);
  }
}
