/**
 * The text handling of the "another viewer" module: recognising the bot's
 * own name in a word, cleaning a generated reply of mentions, and the
 * filter pipeline a chat line goes through before it is used for training.
 * Every word filter splits at ASCII whitespace, keeps some words and joins
 * the kept ones with single spaces. The regular expression that removes the
 * bot's name and the URL parser are not modelled; they are parameters.
 */
module AnotherViewer {
  import opened Text

  /** Characters stripped from the front of a word before comparing it with the bot's name. */
  const Head: set<char> := {'(', '[', '\'', '"', '#', '@'}
  /** Characters stripped from the back. */
  const Tail: set<char> := {'.', '?', '!', '"', '\'', ']', ')', ',', ':'}

  /** A word with the leading and trailing punctuation stripped. */
  function Stripped(input: string): string {
    TrimEnd(TrimStart(input, Head), Tail)
  }

  /**
   * `is_the_bot_name`: the stripped word is one of the bot's names. The
   * source also accepts `@shaken_bot`, which cannot occur once a leading `@`
   * has been stripped, so only two names are ever recognised.
   */
  function IsTheBotName(input: string): (b: bool)
    ensures b <==> Stripped(input) == "shaken_bot" || Stripped(input) == "shaken"
  {
    var s := Stripped(input);
    NeverLeadingAt(input);
    s == "@shaken_bot" || s == "shaken_bot" || s == "shaken"
  }

  /** A stripped word never starts with `@`. */
  lemma NeverLeadingAt(input: string)
    ensures Stripped(input) == [] || Stripped(input)[0] != '@'
  {
    var t := TrimStart(input, Head);
    var s := TrimEnd(t, Tail);
    if s != [] {
      assert s[0] == t[0];
    }
  }

  /** One leading and one trailing mark around a word that has no more of them. */
  lemma StripAround(open: char, w: string, close: char)
    requires open in Head && close in Tail
    requires w != [] && w[0] !in Head && w[|w| - 1] !in Tail
    ensures Stripped([open] + w + [close]) == w
  {
    var s := [open] + w + [close];
    assert s[1..] == w + [close];
    assert TrimStart(w + [close], Head) == w + [close];
    assert (w + [close])[..|w|] == w;
  }

  /** The bot's names are recognised inside one pair of opening and closing marks. */
  lemma WrappedName(open: char, name: string, close: char)
    requires open in Head && close in Tail
    requires name == "shaken_bot" || name == "shaken"
    ensures IsTheBotName([open] + name + [close])
  {
    StripAround(open, name, close);
  }

  /** `starts_with(c)` on a word. */
  predicate StartsWithChar(w: string, c: char) {
    |w| > 0 && w[0] == c
  }

  predicate IsAscii(w: string) {
    forall c <- w :: c as int < 128
  }

  /** The words of `input` that `keep` accepts, joined with single spaces. */
  function DropWords(input: string, keep: string -> bool): (r: string)
    ensures Split(r, AsciiWhitespace) == Filter(Split(input, AsciiWhitespace), keep)
  {
    var kept := Filter(Split(input, AsciiWhitespace), keep);
    assert Pieces(kept, AsciiWhitespace);
    SplitJoined(kept, ' ', AsciiWhitespace);
    Joined(kept, ' ')
  }

  function NotCommand(): string -> bool {
    (w: string) => !StartsWithChar(w, '!')
  }

  function NotMention(): string -> bool {
    (w: string) => !StartsWithChar(w, '@')
  }

  function AsciiOnly(): string -> bool {
    (w: string) => IsAscii(w)
  }

  function NotLink(isUrl: string -> bool): string -> bool {
    (w: string) => !isUrl(w)
  }

  /** `filter_commands`: drops the words that start with `!`. */
  function FilterCommands(input: string): (r: string)
    ensures forall w <- Split(r, AsciiWhitespace) :: w in Split(input, AsciiWhitespace) && !StartsWithChar(w, '!')
    ensures forall w <- Split(input, AsciiWhitespace) :: !StartsWithChar(w, '!') ==> w in Split(r, AsciiWhitespace)
  {
    DropWords(input, NotCommand())
  }

  /** `filter_mentions`: drops the words that start with `@`. */
  function FilterMentions(input: string): (r: string)
    ensures forall w <- Split(r, AsciiWhitespace) :: w in Split(input, AsciiWhitespace) && !StartsWithChar(w, '@')
    ensures forall w <- Split(input, AsciiWhitespace) :: !StartsWithChar(w, '@') ==> w in Split(r, AsciiWhitespace)
  {
    DropWords(input, NotMention())
  }

  /** `remove_garbage`: drops the words holding any character outside ASCII. */
  function RemoveGarbage(input: string): (r: string)
    ensures forall w <- Split(r, AsciiWhitespace) :: w in Split(input, AsciiWhitespace) && IsAscii(w)
    ensures forall w <- Split(input, AsciiWhitespace) :: IsAscii(w) ==> w in Split(r, AsciiWhitespace)
  {
    DropWords(input, AsciiOnly())
  }

  /** `remove_links`: drops the words the URL parser accepts (`isUrl`). */
  function RemoveLinks(input: string, isUrl: string -> bool): (r: string)
    ensures forall w <- Split(r, AsciiWhitespace) :: w in Split(input, AsciiWhitespace) && !isUrl(w)
    ensures forall w <- Split(input, AsciiWhitespace) :: !isUrl(w) ==> w in Split(r, AsciiWhitespace)
  {
    DropWords(input, NotLink(isUrl))
  }

  /**
   * `filter_response`: a reply without `@` is returned as it is; otherwise
   * the words that start with `@` are dropped and the rest rejoined.
   */
  function FilterResponse(input: string): (r: string)
    ensures '@' !in input ==> r == input
    ensures '@' in input ==> Split(r, AsciiWhitespace) == Filter(Split(input, AsciiWhitespace), NotMention())
  {
    if '@' !in input then input
    else DropWords(input, NotMention())
  }

  /** Every word of a text is made of the text's characters. */
  lemma {:induction false} SplitChars(s: string, seps: set<char>)
    ensures forall w <- Split(s, seps), c <- w :: c in s
    decreases |s|
  {
    if s != [] {
      if s[0] in seps {
        SplitChars(s[1..], seps);
      } else {
        var n := RunLength(s, seps);
        SplitChars(s[n..], seps);
        assert forall w <- Split(s, seps) :: w == s[..n] || w in Split(s[n..], seps);
      }
    }
  }

  /** Whichever branch is taken, no word of a filtered reply is a mention. */
  lemma ResponseHasNoMention(input: string)
    ensures forall w <- Split(FilterResponse(input), AsciiWhitespace) :: !StartsWithChar(w, '@')
  {
    if '@' !in input {
      SplitChars(input, AsciiWhitespace);
      forall w <- Split(input, AsciiWhitespace)
        ensures !StartsWithChar(w, '@')
      {
        if |w| > 0 {
          assert w[0] in w;
        }
      }
    }
  }

  /** Filtering twice is filtering once by both conditions. */
  lemma {:induction false} FilterFilter(items: seq<string>, a: string -> bool, b: string -> bool, both: string -> bool)
    requires forall w :: both(w) == (a(w) && b(w))
    ensures Filter(Filter(items, a), b) == Filter(items, both)
  {
    if items != [] {
      var x, rest := items[0], Filter(items[1..], a);
      FilterFilter(items[1..], a, b, both);
      if a(x) {
        var l := Filter(items, a);
        assert l == [x] + rest;
        assert l[0] == x && l[1..] == rest;
        assert Filter(l, b) == (if b(x) then [x] else []) + Filter(rest, b);
      } else {
        assert Filter(items, a) == rest;
      }
    }
  }

  /** Filtering again by the same condition changes nothing. */
  lemma {:induction false} FilterIdempotent(items: seq<string>, keep: string -> bool)
    ensures Filter(Filter(items, keep), keep) == Filter(items, keep)
  {
    FilterFilter(items, keep, keep, keep);
  }

  /** A word filter applied to its own output leaves it unchanged. */
  lemma DropWordsIdempotent(input: string, keep: string -> bool)
    ensures DropWords(DropWords(input, keep), keep) == DropWords(input, keep)
  {
    FilterIdempotent(Split(input, AsciiWhitespace), keep);
  }

  /** The stages of `filter`, in the order they are applied. */
  function Stages(removeName: string -> string, isUrl: string -> bool): seq<string -> string> {
    [removeName, (s: string) => RemoveLinks(s, isUrl), RemoveGarbage, FilterCommands, FilterMentions]
  }

  /** Folding the stages over the input, first stage first. */
  function Apply(stages: seq<string -> string>, input: string): string
    decreases |stages|
  {
    if stages == [] then input else Apply(stages[1..], stages[0](input))
  }

  /** A word survives the four word filters. */
  function Kept(isUrl: string -> bool): string -> bool {
    (w: string) => !isUrl(w) && IsAscii(w) && !StartsWithChar(w, '!') && !StartsWithChar(w, '@')
  }

  /**
   * `filters::filter`: after the name is removed, the words that remain are
   * exactly those that are not links, are pure ASCII, and are neither
   * commands nor mentions, in their original order.
   */
  function FilterLine(input: string, removeName: string -> string, isUrl: string -> bool): (r: string)
    ensures Split(r, AsciiWhitespace) == Filter(Split(removeName(input), AsciiWhitespace), Kept(isUrl))
  {
    var words := Split(removeName(input), AsciiWhitespace);
    var both1 := (w: string) => !isUrl(w) && IsAscii(w);
    var both2 := (w: string) => !isUrl(w) && IsAscii(w) && !StartsWithChar(w, '!');
    FilterFilter(words, NotLink(isUrl), AsciiOnly(), both1);
    FilterFilter(words, both1, NotCommand(), both2);
    FilterFilter(words, both2, NotMention(), Kept(isUrl));
    var stages := Stages(removeName, isUrl);
    var named := removeName(input);
    var s1 := RemoveLinks(named, isUrl);
    var s2 := RemoveGarbage(s1);
    var s3 := FilterCommands(s2);
    var s4 := FilterMentions(s3);
    assert Apply(stages, input) == Apply(stages[1..], named);
    assert stages[1..][0](named) == s1;
    assert Apply(stages[1..], named) == Apply(stages[2..], s1) by {
      assert stages[1..][1..] == stages[2..];
    }
    assert Apply(stages[2..], s1) == Apply(stages[3..], s2) by {
      assert stages[2..][1..] == stages[3..];
    }
    assert Apply(stages[3..], s2) == Apply(stages[4..], s3) by {
      assert stages[3..][1..] == stages[4..];
    }
    assert Apply(stages[4..], s3) == s4 by {
      assert stages[4..][1..] == [];
    }
    s4
  }
}
