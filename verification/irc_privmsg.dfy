/**
 * A chat message (an IRC PRIVMSG): who sent it, to which channel, the text,
 * and the tags it came with. The command of a message is its first
 * space-separated word; badges come from the `badges` tag, written as
 * `name/version,name/version`.
 */
module IrcPrivmsg {
  import opened Wrappers
  import opened Text
  import opened IrcTags

  datatype Privmsg = Privmsg(tags: Tags, user: string, target: string, data: string)

  /** `split_command`: the text before the first space, or all of it. */
  function SplitCommand(input: string): (r: string)
    ensures ' ' !in r && StartsWith(input, r)
    ensures r == input || input[|r|] == ' '
    ensures ' ' !in input ==> r == input
  {
    match SplitOnce(input, ' ')
    case None => input
    case Some((head, tail)) =>
      assert input[..|head|] == head && input[|head|] == ' ' by {
        assert input == head + [' '] + tail;
      }
      head
  }

  /** The first word of what comes before any other word is that first word. */
  lemma SplitCommandOf(word: string, rest: string)
    requires ' ' !in word
    ensures SplitCommand(word) == word
    ensures SplitCommand(word + [' '] + rest) == word
  {
    SplitOnceOf(word, ' ', rest);
  }

  /** `Privmsg::command`: the first word of the text, which holds no space and opens the text. */
  function Command(m: Privmsg): (r: string)
    ensures ' ' !in r && StartsWith(m.data, r)
    ensures ' ' !in m.data ==> r == m.data
  {
    SplitCommand(m.data)
  }

  /** `match_command`: the message's first word is the first word of `right`, so `right` opens with it. */
  predicate MatchCommand(m: Privmsg, right: string)
    ensures MatchCommand(m, right) ==> StartsWith(right, Command(m))
    ensures ' ' !in right ==> (MatchCommand(m, right) <==> Command(m) == right)
  {
    Command(m) == SplitCommand(right)
  }

  /** A message matches a pattern exactly when both open with the same word, whatever follows. */
  lemma MatchCommandWords(word: string, rest: string, pattern: string)
    requires ' ' !in word
    ensures MatchCommand(Privmsg(Tags(map[]), "", "", word + [' '] + rest), pattern) <==> SplitCommand(pattern) == word
    ensures MatchCommand(Privmsg(Tags(map[]), "", "", word), pattern) <==> SplitCommand(pattern) == word
  {
    SplitCommandOf(word, rest);
  }

  /** `badge_iter` over a set of tags: the `badges` tag split at `,`, each badge at its first `/`; nothing without the tag. */
  function BadgesOf(tags: Tags): (r: seq<(string, string)>)
    ensures "badges" !in tags.entries ==> r == []
    ensures forall b <- r :: exists w <- SplitAll(tags.entries["badges"], ',') :: SplitOnce(w, '/') == Some(b)
  {
    match Get(tags, "badges")
    case Err(_) => []
    case Ok(s) => Halves(SplitAll(s, ','), '/')
  }

  /** Some badge is `name/1`. */
  predicate HasBadge(tags: Tags, name: string) {
    exists b <- BadgesOf(tags) :: b.0 == name && b.1 == "1"
  }

  /** `badge_iter`: each badge is one `,`-separated word of the `badges` tag split at its first `/`; none without the tag. */
  function Badges(m: Privmsg): (r: seq<(string, string)>)
    ensures "badges" !in m.tags.entries ==> r == []
    ensures forall b <- r :: exists w <- SplitAll(m.tags.entries["badges"], ',') :: SplitOnce(w, '/') == Some(b)
  {
    BadgesOf(m.tags)
  }

  /** `is_from_broadcaster`: a `broadcaster/1` badge, so never without a `badges` tag. */
  predicate IsFromBroadcaster(m: Privmsg)
    ensures IsFromBroadcaster(m) ==> "badges" in m.tags.entries
  {
    HasBadge(m.tags, "broadcaster")
  }

  /** `is_from_moderator`: a `moderator/1` badge, so never without a `badges` tag. */
  predicate IsFromModerator(m: Privmsg)
    ensures IsFromModerator(m) ==> "badges" in m.tags.entries
  {
    HasBadge(m.tags, "moderator")
  }

  /** The badge list `b1,b2` of names and versions free of `,` and `/` lists both badges. */
  lemma TwoBadges(m: Privmsg, n1: string, v1: string, n2: string, v2: string)
    requires ',' !in n1 && ',' !in v1 && ',' !in n2 && ',' !in v2 && '/' !in n1 && '/' !in n2
    requires "badges" in m.tags.entries && m.tags.entries["badges"] == n1 + ['/'] + v1 + [','] + n2 + ['/'] + v2
    ensures BadgesOf(m.tags) == [(n1, v1), (n2, v2)]
  {
    var first, second := n1 + ['/'] + v1, n2 + ['/'] + v2;
    assert SplitAll(m.tags.entries["badges"], ',') == [first, second] by {
      assert ',' !in first && ',' !in second;
      assert m.tags.entries["badges"] == first + [','] + second;
      SplitTwo(first, second, ',');
    }
    assert Halves([first, second], '/') == [(n1, v1), (n2, v2)] by {
      SplitOnceOf(n1, '/', v1);
      SplitOnceOf(n2, '/', v2);
      HalvesTwo(first, second, '/');
    }
    assert Get(m.tags, "badges") == Ok(m.tags.entries["badges"]);
  }

  /** With two badges, the message is from the broadcaster (a moderator) exactly when one of them is `broadcaster/1` (`moderator/1`). */
  lemma TwoBadgeRoles(m: Privmsg, n1: string, v1: string, n2: string, v2: string)
    requires ',' !in n1 && ',' !in v1 && ',' !in n2 && ',' !in v2 && '/' !in n1 && '/' !in n2
    requires "badges" in m.tags.entries && m.tags.entries["badges"] == n1 + ['/'] + v1 + [','] + n2 + ['/'] + v2
    ensures IsFromBroadcaster(m) <==> (n1, v1) == ("broadcaster", "1") || (n2, v2) == ("broadcaster", "1")
    ensures IsFromModerator(m) <==> (n1, v1) == ("moderator", "1") || (n2, v2) == ("moderator", "1")
  {
    TwoBadges(m, n1, v1, n2, v2);
    BadgeOfTwo(m.tags, "broadcaster", (n1, v1), (n2, v2));
    BadgeOfTwo(m.tags, "moderator", (n1, v1), (n2, v2));
  }

  /** With exactly two badges, a role is held when either badge is that role at version 1. */
  lemma BadgeOfTwo(tags: Tags, name: string, b1: (string, string), b2: (string, string))
    requires BadgesOf(tags) == [b1, b2]
    ensures HasBadge(tags, name) <==> b1 == (name, "1") || b2 == (name, "1")
  {
    assert b1 in BadgesOf(tags) && b2 in BadgesOf(tags);
  }

  /** `Display`: `[target] user: data`. */
  function Display(m: Privmsg): (r: string)
    ensures |r| == |m.target| + |m.user| + |m.data| + 5
    ensures r[0] == '[' && r[1..|m.target| + 1] == m.target && r[|m.target| + 1..|m.target| + 3] == "] "
    ensures r[|r| - |m.data|..] == m.data
  {
    "[" + m.target + "] " + m.user + ": " + m.data
  }

  /** With a target free of `]`, the target is the text up to the first `]`. */
  lemma DisplayTarget(m: Privmsg)
    requires ']' !in m.target
    ensures IndexOf(Display(m)[1..], ']') == Some(|m.target|)
  {
    var r := Display(m);
    assert r[1..] == m.target + [']'] + (" " + m.user + ": " + m.data);
    IndexOfAfter(m.target, ']', " " + m.user + ": " + m.data);
  }
}
