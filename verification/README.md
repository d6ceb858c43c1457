# stirred, modelled in Dafny

stirred is a Twitch chat bot ("shaken") together with a markov-chain text
generator ("markov") and a small worker that serves a trained chain
("serve_brain"). This project models the core of these three crates and
proves properties of the model.

The markov crate:

- **links** (`MarkovLink`) are tokens with counts. They can be merged and
  expanded.
- **edge sets** (`MarkovSet`, with the class `EdgeSet`) keep one link per
  token. Inserting a token that is already there merges it into the
  existing link.
- **the brain** (`MarkovBrain`, class `Brain`) is trained on lines of text.
  Training slides a window of every width from 1 to the brain's depth over
  the words of a line. The brain generates text by following the chain from
  a starting context. Generation can be seeded with a query, which is
  spliced into the output. The next token is chosen in proportion to the
  candidates' counts, with one draw below their total.
- **`weighted_select`** (`MarkovSelect`) is modelled exactly as written. It
  ignores the link counts: its choice lands on the candidate at the draw
  modulo the number of candidates. The brain in this model uses the
  corrected choice instead; see "## Findings" and "## Left out".

The serve_brain crate:

- **the worker** (`ServeBrain`, class `Worker`) handles train, generate,
  save and force-save messages, one at a time.
- A save message saves only when five minutes have passed since the last
  save. A force-save message always saves.

The shaken crate:

- **argument patterns** (`Arguments`): parsing `<name>`, `<name?>` and
  `<name..>`. Each is matched against the words of a command.
- **command bindings** (`Binding`): how a command string chooses a
  handler.
- **requests and responses** (`Callable`).
- **the help registry** (`Help`).
- **the built-in commands** (`Builtin`): help, listing the commands, the
  `!hello` greeting, and answering a greeting (`say_hello`).
- **user-defined commands**: their state in `CommandState`, class
  `UserDefinedState`, and their handlers in `UserDefined`. The handlers are
  add, remove, update, alias, lookup and list.
- **the bounded history queue** (`History`, class `Queue`).
- **duration formatting** (`Format`).
- **small helpers** (`Util`).
- **IRC tags, line parsing and `PRIVMSG` handling** (`IrcTags`, `IrcConn`,
  `IrcPrivmsg`).
- **the text filters of the "another viewer" module** (`AnotherViewer`).
- **how a crate is shown in chat** (`CrateFormat`).
- **the emote table** (`EmoteMap`).

Shared helpers live in `Wrappers` (`Option` and `Result`), `Text`
(splitting, joining and trimming), `Utf8` and `Random`. `Random` provides
the class `Rng`, which draws from a sequence supplied by the caller.

Behaviour of the code that the model keeps, each proved as a lemma:

- **An unreachable branch in argument extraction.** `NoMatch` for an empty
  input cannot be produced. Once no argument is required, every argument is
  optional or variadic, so an empty input always matches with nothing bound.
- **How `alias` behaves:**
  - `insert` checks the source of an alias, not the alias name.
  - A second alias of the same command is accepted, but it is not recorded.
  - An alias of an alias does not resolve.
  - Removing a command by an alias name reports that it was not found, yet
    drops the alias.
- **An alternative `is_the_bot_name` never matches.** The `@shaken_bot`
  alternative cannot match, because a leading `@` has already been
  stripped.
- **The emote id-to-name map is never filled**, so `get_name` is always
  `None`.

## Model

| member | source | states |
|---|---|---|
| Arguments.Get | crates/shaken/src/arguments.rs:17-22 | the value stored under the key, or the error "cannot find {key}" exactly when the key is missing |
| Arguments.ClassifyShape | crates/shaken/src/arguments.rs:118-136 | a classified token is `<k..>`, `<k?>` or `<k>` with an ASCII-alphabetic key `k`, of kind Variadic, Optional or Required |
| Arguments.ClassifyRequired | crates/shaken/src/arguments.rs:129-132 | `<k>` with an alphabetic key is Required |
| Arguments.ClassifyOptional | crates/shaken/src/arguments.rs:125-128 | `<k?>` with an alphabetic key is Optional |
| Arguments.ClassifyVariadic | crates/shaken/src/arguments.rs:121-124 | `<k..>` with an alphabetic key is Variadic |
| Arguments.ClassifyNotAlpha | crates/shaken/src/arguments.rs:135 | a bracketed key holding a non-letter is skipped |
| Arguments.ClassifyExamples | crates/shaken/src/arguments.rs:118-136 | `<name>`, `<body..>` and `<a?>` are classified by their endings; `!say` is skipped |
| Arguments.Parse | crates/shaken/src/arguments.rs:106-151 | the loop over the whitespace-separated tokens computes `Scan`: skip what is not an argument, fail on a repeated key, stop after a variadic argument |
| Arguments.ScanToken | crates/shaken/src/arguments.rs:111-147 | one token: skipped, an error for a used key, the end of the pattern for a variadic argument, or appended and scanning goes on |
| Arguments.ScanShape | crates/shaken/src/arguments.rs:111-147 | a parsed pattern has distinct keys, a variadic argument only at the end, and only arguments classified from its tokens |
| Arguments.ScanError | crates/shaken/src/arguments.rs:113-114 | a parse error is "{key} was already used" for the key of one of the tokens |
| Arguments.ParseExample | crates/shaken/src/arguments.rs:106-151 | `<name> <body..>` parses to a required and a variadic argument |
| Arguments.ParseRepeated | crates/shaken/src/arguments.rs:113-114 | a key used twice fails with "{key} was already used" |
| Arguments.ParseVariadicExample | crates/shaken/src/arguments.rs:135-147 | non-argument tokens are skipped and nothing after a variadic argument is read |
| Arguments.ExtractArgs | crates/shaken/src/arguments.rs:66-104 | the loop that moves the input forward argument by argument computes `Extract` |
| Arguments.FillFirst | crates/shaken/src/arguments.rs:87-100 | one step: a variadic argument, or one facing text without a space, takes the whole (non-empty) remainder and stops; otherwise it takes the text before the first space and the trimmed rest goes on |
| Arguments.FillKeys | crates/shaken/src/arguments.rs:89-97 | matching adds only declared keys |
| Arguments.FillNothing | crates/shaken/src/arguments.rs:90-92 | an empty remainder is never inserted |
| Arguments.FillWhole | crates/shaken/src/arguments.rs:89-94 | without a space, or for a variadic argument, the first argument takes the whole input and no further argument is matched |
| Arguments.FillHead | crates/shaken/src/arguments.rs:95-98 | otherwise the first argument gets the text before the first space |
| Arguments.FillKeeps | crates/shaken/src/arguments.rs:87-101 | a key that no later argument declares keeps its value |
| Arguments.ExtractEmpty | crates/shaken/src/arguments.rs:67-79 | empty input: `Required` when a required argument is declared, `Exact` when none are, and otherwise an empty match |
| Arguments.ExtractNoArgs | crates/shaken/src/arguments.rs:81-83 | non-empty input with no declared arguments is `NoMatch` |
| Arguments.ExtractNameBody | crates/shaken/src/arguments.rs:86-103 | `<name> <body..>` against `word gap body trailing-space` matches the word as the name and the trimmed rest as the body |
| Binding.TryGetStateful | crates/shaken/src/binding.rs:26-33 | succeeds exactly for a binding created with a receiver; otherwise fails with "bind_this requires a `this` receiver" |
| Binding.Binding.constructor | crates/shaken/src/binding.rs:51-65 | `create` and `anonymous` start with no commands and no passive handlers, with and without a receiver |
| Binding.Binding.Bind | crates/shaken/src/binding.rs:114-140 | a usage whose pattern fails to parse returns that error and registers nothing; otherwise the command is appended with its parsed pattern |
| Binding.Binding.BindThis | crates/shaken/src/binding.rs:81-112 | as `bind`, and a binding without a receiver fails with the receiver error after the pattern is parsed and registers nothing |
| Binding.Binding.Listen | crates/shaken/src/binding.rs:159-171 | adds one passive handler and leaves the commands alone |
| Binding.Binding.ListenThis | crates/shaken/src/binding.rs:142-157 | adds one passive handler exactly when there is a receiver, and returns the receiver check |
| Binding.Binding.AllUsageAndHelp | crates/shaken/src/binding.rs:256-261 | one (usage, help) pair per bound command, in binding order |
| Binding.Binding.CommandNames | crates/shaken/src/binding.rs:252-254 | the usage of every bound command, in binding order |
| Binding.UsageAndHelp | crates/shaken/src/binding.rs:256-261 | the pairs list has one entry per command, at the same index |
| Binding.Usages | crates/shaken/src/binding.rs:252-254 | the usage list has one entry per command, at the same index |
| Binding.UsageAndHelpSnoc | crates/shaken/src/binding.rs:138 | binding one more command appends its pair at the end of the list |
| Binding.ArgumentText | crates/shaken/src/binding.rs:294-295 | the arguments are the request text after its command and one separating character, or nothing when the text is only the command |
| Binding.CheckReqOutcomes | crates/shaken/src/binding.rs:289-311 | a request for another command gets an empty response; a failed match is one problem with the usage text for a missing required argument or a mismatch; extracted arguments carry only the pattern's keys |
| Binding.CheckReqBare | crates/shaken/src/binding.rs:289-311 | a command without arguments accepts only the bare command (or it plus one space) and reports a mismatch otherwise |
| Binding.CheckReqMissing | crates/shaken/src/binding.rs:298-301 | a bare command whose pattern needs an argument is answered with a problem |
| Builtin.Says | crates/shaken/src/modules/builtin.rs:132 | one `Say` per line, in order |
| Builtin.SaysCons | crates/shaken/src/modules/builtin.rs:132 | saying a first line and then the rest is the first `Say` followed by the rest |
| Builtin.FormatAllCommands | crates/shaken/src/modules/builtin.rs:127-145 | the loop that starts a new line before every `max`-th name and says a non-empty last line says exactly the lines of `Lines` (for `max` zero only up to one name, since more would divide by zero) |
| Builtin.LineOf | crates/shaken/src/modules/builtin.rs:134-137 | a group of non-empty names without spaces joins into a non-empty line that splits back into the group |
| Builtin.FirstGroup | crates/shaken/src/modules/builtin.rs:131-133 | beyond `max` names, the first line is the first `max` names and the other lines are those of the rest |
| Builtin.LinesWords | crates/shaken/src/modules/builtin.rs:127-145 | for non-empty names without spaces, the words of the lines are all the names once each, in order, and there are no lines exactly when there are no names |
| Builtin.LinesSizes | crates/shaken/src/modules/builtin.rs:127-145 | for the same names, no line is empty, every line but the last names exactly `max` commands and the last at most `max` |
| Builtin.Hello | crates/shaken/src/modules/builtin.rs:40-42 | `!hello` says only "hello, {sender}!" |
| Builtin.HelloAndSayHello | crates/shaken/src/modules/builtin.rs:40-48 | `!hello` always answers; when the text is also a greeting, its answer and that of `say_hello` differ only in the last character, `!` against `.` |
| Builtin.SayHello | crates/shaken/src/modules/builtin.rs:44-48 | the sender is greeted with "hello, {sender}." exactly when the text, with trailing `!`, `?` and `.` removed, is "hello" in any ASCII case; otherwise nothing is said |
| Builtin.TrimEndSuffix | crates/shaken/src/modules/builtin.rs:45 | trimming a run of the given characters off a text that does not end in one of them gives the text back |
| Builtin.HelloWithPunctuation | crates/shaken/src/modules/builtin.rs:45-46 | any spelling of "hello" followed by any run of `!`, `?` and `.` is a greeting |
| Builtin.HelloExamples | crates/shaken/src/modules/builtin.rs:162-169 | "hello", "hello." and "hello?" are greetings and "hello#" is not |
| Builtin.HelpCommand | crates/shaken/src/modules/builtin.rs:85-99 | with a known `cmd`, its usage and then its description; with an unknown one, "I couldn't find {cmd}"; without one, every registered command twenty per line |
| Callable.Response.IsEmpty | crates/shaken/src/callable.rs:268-270 | a response is empty exactly when it is the empty response |
| Callable.Response.Say | crates/shaken/src/callable.rs:284-286 | the `Say` is added after all the kinds already there |
| Callable.Response.Reply | crates/shaken/src/callable.rs:280-282 | the `Reply` is added after all the kinds already there |
| Callable.Response.Problem | crates/shaken/src/callable.rs:288-290 | the `Problem` is added after all the kinds already there |
| Callable.Response.Append | crates/shaken/src/callable.rs:296-299 | the kind is added after all the kinds already there, and the response is no longer empty |
| Callable.Request.Say | crates/shaken/src/callable.rs:172-176 | a response holding only the given `Say` |
| Callable.Request.Reply | crates/shaken/src/callable.rs:166-170 | a response holding only the given `Reply` |
| Callable.Request.Problem | crates/shaken/src/callable.rs:178-182 | a response holding only the given `Problem` |
| Callable.Request.RequireModerator | crates/shaken/src/callable.rs:196-202 | succeeds exactly when the badges hold `moderator/1`; otherwise fails with "that requires you to be a moderator" |
| Callable.Request.RequireBroadcaster | crates/shaken/src/callable.rs:204-210 | succeeds exactly when the badges hold `broadcaster/1`; otherwise fails with "that requires you to be the broadcaster" |
| Callable.Request.RequireElevation | crates/shaken/src/callable.rs:212-218 | succeeds exactly when the moderator check or the broadcaster check would; otherwise fails with the combined message |
| Callable.Request.IsFromBroadcaster | crates/shaken/src/callable.rs:220-223 | a request without a `badges` tag is never from the broadcaster |
| Callable.Request.IsFromModerator | crates/shaken/src/callable.rs:225-228 | a request without a `badges` tag is never from a moderator |
| Callable.Request.Command | crates/shaken/src/callable.rs:249-251 | the command holds no space and the text opens with it; a text without spaces is its own command |
| Callable.Request.MatchCommand | crates/shaken/src/callable.rs:245-247 | a matching pattern opens with the request's command; a pattern without spaces matches exactly when it is the command |
| Callable.FromPm | crates/shaken/src/callable.rs:151-160 | a request built from a chat message has no arguments, the message's sender and channel, and agrees with the message on badges, command and command matching |
| Callable.AppendAllKinds | crates/shaken/src/callable.rs:301-305 | appending kinds one by one puts them after the existing kinds, in order |
| Callable.FlattenSnoc | crates/shaken/src/callable.rs:303 | the kinds of one more response come after all the earlier ones |
| Callable.FoldMany | crates/shaken/src/callable.rs:301-305 | `fold_many` keeps every kind of every response, in input order |
| Callable.FoldManyEmpty | crates/shaken/src/callable.rs:301-305 | folding only empty responses gives an empty response |
| Callable.FlattenEmpty | crates/shaken/src/callable.rs:303 | empty responses contribute no kinds |
| IrcConn.Nick | crates/shaken/src/irc/conn.rs:106 | the nick is the prefix up to its first `!` (all of it when there is none), and nothing for an empty prefix |
| IrcConn.PrefixAt | crates/shaken/src/irc/conn.rs:102-109 | text not starting with `:` has no prefix and is left whole; a `:` text without a space is malformed |
| IrcConn.CommandAt | crates/shaken/src/irc/conn.rs:111-116 | the command is the space-free text before the first space and the rest follows it; text without a space is malformed |
| IrcConn.ArgsAt | crates/shaken/src/irc/conn.rs:118-125 | the whitespace-separated words before the first `:` and the text after it; without a `:`, no words and the text unchanged |
| IrcConn.Data | crates/shaken/src/irc/conn.rs:127-129 | the text without its trailing whitespace, and nothing exactly when that leaves it empty |
| IrcConn.Prefix | crates/shaken/src/irc/conn.rs:102-109 | reads the prefix and moves the cursor past it; fails where the source panics |
| IrcConn.Command | crates/shaken/src/irc/conn.rs:111-116 | reads the command and moves the cursor past it; fails where the source panics |
| IrcConn.Args | crates/shaken/src/irc/conn.rs:118-125 | reads the parameters and moves the cursor past the `:`, if any |
| IrcConn.Parse | crates/shaken/src/irc/conn.rs:131-151 | threading one cursor through tags (only for a line starting with `@`), prefix, command, parameters and data gives `ParseLine` |
| IrcConn.LineParts | crates/shaken/src/irc/conn.rs:131-151 | a line `:prefix command params:trailing` comes apart into exactly those parts |
| IrcConn.PrefixParts | crates/shaken/src/irc/conn.rs:102-109 | a `:prefix ` in front of the rest is read as that nick, and the cursor lands on the rest |
| IrcConn.CommandParts | crates/shaken/src/irc/conn.rs:111-125 | after the prefix come the command, the parameters up to `:`, and the trailing data |
| IrcConn.LineTags | crates/shaken/src/irc/conn.rs:133-138 | a tag block in front of a line sets the tags and changes nothing else in the parse |
| IrcConn.AfterTags | crates/shaken/src/irc/conn.rs:140-150 | the tags do not influence the rest of the parse |
| IrcConn.NoSpace | crates/shaken/src/irc/conn.rs:113 | a line without any space is malformed |
| History.Queue.constructor | crates/shaken/src/queue.rs:10-15 | a new queue is empty and keeps its limit |
| History.Queue.Push | crates/shaken/src/queue.rs:17-22 | the value is appended, after dropping the oldest one when the queue is at its limit; with a positive limit the queue never exceeds it |
| History.Queue.Len | crates/shaken/src/queue.rs:28-30 | the number of values held |
| History.Queue.IsEmpty | crates/shaken/src/queue.rs:24-26 | true exactly when no value is held |
| History.Queue.Last | crates/shaken/src/queue.rs:39-41 | nothing exactly when empty; otherwise the newest value |
| History.Queue.Iter | crates/shaken/src/queue.rs:47-49 | every value, newest first |
| History.Queue.LastNth | crates/shaken/src/queue.rs:43-45 | nothing exactly when `n` is not below the length; otherwise the value `n` places before the newest |
| History.Queue.Has | crates/shaken/src/queue.rs:32-37 | true exactly when the newest value is the item; older values are not compared |
| History.Queue.LastNthZero | crates/shaken/src/queue.rs:36-45 | the first value read newest-first is `last` |
| History.PushThenRead | crates/shaken/src/queue.rs:17-45 | after a push the value is the newest and is `has`, and the previous newest is second unless the limit is one |
| History.Examples | crates/shaken/src/queue.rs:17-22 | a queue of limit 2 keeps the last two of 1, 2, 3; with limit 0 nothing is ever dropped |
| Format.NatToString | crates/shaken/src/format.rs:26 | a number is written as at least one decimal digit, without a leading zero |
| Format.DecimalRoundTrip | crates/shaken/src/format.rs:26 | reading the written digits back gives the number |
| Format.Punctuated | crates/shaken/src/format.rs:38-46 | zero or one part is left alone; two or more gain an "and" before the last part |
| Format.FormatSeconds | crates/shaken/src/format.rs:17-48 | the loop over the units and the punctuation compute `Readable`: the non-zero parts, largest unit first, with commas and "and", joined by spaces |
| Format.TakeUnit | crates/shaken/src/format.rs:30-36 | taking a unit out: its count is what remains divided by the unit, that many units are subtracted, and a part is added only when the count is not zero |
| Format.Punctuate | crates/shaken/src/format.rs:38-46 | the in-place commas and the inserted "and" compute `Punctuated` |
| Format.AsReadableTime | crates/shaken/src/format.rs:11-15 | a duration is written from its whole seconds only |
| Format.CountsSum | crates/shaken/src/format.rs:30-36 | the counts times their units add up to the input |
| Format.CountsBounded | crates/shaken/src/format.rs:18-36 | fewer than 24 hours, 60 minutes and 60 seconds are ever written |
| Format.PartsUnfold | crates/shaken/src/format.rs:30-36 | the parts are those of days, hours, minutes and seconds, in that order |
| Format.ZeroIsEmpty | crates/shaken/src/format.rs:17-48 | zero seconds give the empty text |
| Format.OneOrTwoParts | crates/shaken/src/format.rs:38-47 | one part is written alone; two are joined with " and " |
| Format.Singulars | crates/shaken/src/format.rs:25-27 | a count of one gives "1 day", "1 hour", "1 minute" and "1 second" |
| Format.FourParts | crates/shaken/src/format.rs:38-47 | four parts are written "a, b, c and d" |
| Format.FourPunctuated | crates/shaken/src/format.rs:41-45 | four parts get commas after the first two and "and" before the last |
| Format.EveryUnitParts | crates/shaken/src/format.rs:29-36 | 90061 seconds has one of each unit |
| Format.ExampleEveryUnit | crates/shaken/src/format.rs:17-48 | 90061 seconds is "1 day, 1 hour, 1 minute and 1 second" |
| Format.DaysAndSecondsCounts | crates/shaken/src/format.rs:30-36 | 172805 seconds counts 2 days, no hours, no minutes and 5 seconds |
| Format.DaysAndSecondsParts | crates/shaken/src/format.rs:29-36 | its parts are "2 days" and "5 seconds" |
| Format.ExampleDaysAndSeconds | crates/shaken/src/format.rs:17-48 | 172805 seconds is "2 days and 5 seconds" |
| Help.StoredUsage | crates/shaken/src/help.rs:41-44 | the stored usage is the trimmed usage, and nothing exactly when there was none or it was blank |
| Help.With | crates/shaken/src/help.rs:27-50 | an empty command name leaves the registry unchanged; any other appends one entry with that name, description and stored usage, after all the existing ones (duplicates included) |
| Help.Find | crates/shaken/src/help.rs:56-63 | nothing exactly when no entry for the command has a usage; otherwise the usage and description of the first entry for it that has one |
| Help.Names | crates/shaken/src/help.rs:65-67 | the name of every entry, at the same index |
| Help.Head | crates/shaken/src/help.rs:19 | the first piece of a usage split at spaces holds no space and is a prefix of the usage |
| Help.HelpRegistry.constructor | crates/shaken/src/help.rs:4-7 | a default registry is empty |
| Help.HelpRegistry.Add | crates/shaken/src/help.rs:52-54 | `add` is `with` applied in place |
| Help.HelpRegistry.Lookup | crates/shaken/src/help.rs:56-63 | the lookup answers as `Find` on the registry's entries |
| Help.HelpRegistry.AllCommands | crates/shaken/src/help.rs:65-67 | the names of all entries, in registration order |
| Help.CreateFrom | crates/shaken/src/help.rs:10-25 | the fold over the bound (usage, description) pairs builds a fresh registry holding `Registered` of the pairs |
| Help.RegisteredEntries | crates/shaken/src/help.rs:10-25 | every registered entry comes from one pair, under the non-empty first word of its usage, and one entry is registered per pair whose usage has a non-empty first word |
| Help.RegisteredFrom | crates/shaken/src/help.rs:18-23 | every registered entry comes from one of the pairs, under the first word of its usage |
| Help.RegisteredCount | crates/shaken/src/help.rs:18-23 | as many entries as pairs with a non-empty first word |
| Help.FindFirstStays | crates/shaken/src/help.rs:56-63 | once a command is found, adding entries later never changes its answer |
| Help.FindAt | crates/shaken/src/help.rs:57-62 | the answer is that of the first entry with the command and a usage |
| Help.AddThenFind | crates/shaken/src/help.rs:52-63 | adding a command with a non-blank usage to a registry without one for it makes the lookup return the trimmed usage and the description |
| Help.BlankUsageNotFound | crates/shaken/src/help.rs:41-44 | a command added with a blank usage is listed but the lookup does not find it |
| Help.HeadOf | crates/shaken/src/help.rs:19 | the command of a usage such as `!help <cmd?>` is its first word |
| MarkovLink.NewLink | crates/markov/src/link.rs:13-15 | a new link carries its token with count 1 |
| MarkovLink.Merge | crates/markov/src/link.rs:18-22 | merging keeps the token and adds the other link's count; the tokens must agree |
| MarkovLink.ExpandIsMerge | crates/markov/src/link.rs:25-27 | `expand(n)` keeps the token and adds exactly `n`; it equals a merge with a link of count `n` |
| MarkovLink.LinkCmp | crates/markov/src/link.rs:30-42 | links are ordered by count alone: `Less`, `Equal`, `Greater` exactly when the counts are `<`, `==`, `>`, and `Equal` exactly when `==` holds |
| MarkovLink.EqIgnoresToken | crates/markov/src/link.rs:44-49 | two links that differ only in their token are `==`, although they are different values |
| MarkovLink.CmpIsTotalOrder | crates/markov/src/link.rs:30-49 | the ordering is antisymmetric and transitive, and equality is transitive |
| MarkovSet.EdgeSet.constructor | crates/markov/src/set.rs:7-9 | `Set::new(t)` holds exactly one link, for `t`, with count 1 |
| MarkovSet.EdgeSet.Size | crates/markov/src/set.rs:12-14 | the size is the number of links |
| MarkovSet.EdgeSet.FindMut | crates/markov/src/set.rs:29-31 | a found position holds the token; nothing is found exactly when no link carries it |
| MarkovSet.Find | crates/markov/src/set.rs:29-31 | the scan returns the first position whose link carries the token, or none |
| MarkovSet.EdgeSet.Insert | crates/markov/src/set.rs:17-27 | the links become `Inserted(old links, token)`: bump the link found, else append `Link(token, 1)` |
| MarkovSet.InsertPresent | crates/markov/src/set.rs:17-24 | inserting a present token adds 1 to that link only; length, order and every other link are unchanged |
| MarkovSet.InsertAbsent | crates/markov/src/set.rs:26 | inserting an absent token appends `Link(token, 1)` after the untouched links |
| MarkovSet.InsertKeepsInvariant | crates/markov/src/set.rs:17-27 | insertion keeps at most one link per token and every count at least 1, and the set is non-empty afterwards |
| MarkovSet.InsertTotal | crates/markov/src/set.rs:17-27 | every insertion raises the total of all counts by exactly 1 |
| MarkovSet.InsertCountOf | crates/markov/src/set.rs:17-27 | insertion adds one observation of the inserted token and none of any other token |
| MarkovSet.InsertGrows | crates/markov/src/set.rs:17-27 | insertion never removes or reorders a link or lowers a count, and the token is present afterwards |
| MarkovBrain.Brain.constructor | crates/markov/src/brain.rs:17-24 | a new brain has the given name and depth, an empty chain and no starting words |
| MarkovBrain.Brain.Train | crates/markov/src/brain.rs:113-135 | the chain becomes `TrainChain(old chain, text, depth)`, the starting words `TrainHead(old head, text)`, and the brain stays well formed |
| MarkovBrain.Brain.TrainPass | crates/markov/src/brain.rs:127-134 | one width: every window of `width + 1` words, then the last `width` words followed by `End` |
| MarkovBrain.Brain.TrainLink | crates/markov/src/brain.rs:138-148 | the chain becomes `AddTransition(old chain, context, token)`: the context's set gets the token, or a new set is created; the starting words are unchanged |
| MarkovChain.LineWords | crates/markov/src/brain.rs:114-122 | the words of a line hold no whitespace, and there are none exactly when the text is all whitespace |
| MarkovChain.BlankLineIgnored | crates/markov/src/brain.rs:114-117 | training a blank or whitespace-only line changes neither the chain nor the starting words |
| MarkovChain.TrainChainUnfold | crates/markov/src/brain.rs:119-134 | training a non-blank line is the passes of widths 1 to `min(depth, n - 1)` over its words |
| MarkovChain.ShortLineKeepsChain | crates/markov/src/brain.rs:126-127 | a one-word line, or depth 0, leaves the chain unchanged |
| MarkovChain.AddTransitionFacts | crates/markov/src/brain.rs:138-148 | `train_link` only grows the chain, records the token after the context, adds no other context, and keeps contexts of 1 to `depth` words well formed |
| MarkovChain.WindowsFacts | crates/markov/src/brain.rs:129-132 | the windows of one width only grow the chain, record each window's last word after its first `w` words, and add only runs of the line |
| MarkovChain.WidthsShape | crates/markov/src/brain.rs:126-134 | the passes of widths 1 to `w` only grow the chain, add only runs of the line, and keep it well formed |
| MarkovChain.WidthsRecords | crates/markov/src/brain.rs:126-134 | after the passes of widths 1 to `w`, every run of `v <= w` words is recorded with the word after it, and the last `v` words with `End` |
| MarkovChain.TrainOnlyAdds | crates/markov/src/brain.rs:126-148 | training only adds: no context, link or count is removed or lowered, every new context is a run of 1 to `depth` words of the line, and well-formedness is kept |
| MarkovChain.TrainRecords | crates/markov/src/brain.rs:126-134 | training records, for every width up to the effective depth, each run followed by its next word and the final run followed by `End` |
| MarkovBrain.ContextOf | crates/markov/src/brain.rs:202-204 | the context is exactly the last `min(depth, len)` words |
| MarkovBrain.BaseWords | crates/markov/src/brain.rs:191-199 | the query words hold no ASCII whitespace; there are none exactly when there is no query or it is all whitespace |
| MarkovBrain.MergeScaled | crates/markov/src/brain.rs:166-173 | the loop over one set's links, each scaled by the width and merged by token, computes `MergeSet` |
| MarkovBrain.Brain.CandidateLinks | crates/markov/src/brain.rs:152-174 | the suffix loop builds exactly `Candidates(chain, depth, context)` and reports whether any suffix matched |
| MarkovSelect.InsertIsMerge | crates/markov/src/set.rs:17-27 | `Set::insert` is the merge step of `select_token` with a fresh link of count 1 |
| MarkovSelect.MergeLinkCount | crates/markov/src/brain.rs:169-172 | merging a link adds its count to its own token's weight and to no other |
| MarkovSelect.MergeSetCount | crates/markov/src/brain.rs:167-173 | merging a set scaled by `w` adds `w` times each token's count in the set |
| MarkovSelect.MergeWidthsCount | crates/markov/src/brain.rs:153-174 | a token's merged weight is the sum, over the known suffixes, of the suffix length times its count there |
| MarkovSelect.MergeWidthsFacts | crates/markov/src/brain.rs:153-174 | the merged links name observed tokens, each once, with positive weights, and are empty exactly when no suffix is known |
| MarkovSelect.CandidatesSpec | crates/markov/src/brain.rs:152-176 | the candidates carry each token once, with weight equal to the sum of width times count over the matching widths; there are none exactly when no suffix of width 1 to `min(depth, len)` is a key |
| MarkovBrain.Brain.SelectToken | crates/markov/src/brain.rs:151-177 | `End` when no suffix matches, with no draw taken; otherwise one draw `d` is taken and the token is that of the candidate whose share of the total covers `d mod total` (the corrected weighted choice); it is always among the candidates, and any word chosen was observed in the chain |
| MarkovSelect.RotatedFacts | crates/markov/src/brain.rs:181 | the cycle started after the skip visits the links in rotated order, with the same length and total |
| MarkovSelect.WeightedSelect | crates/markov/src/brain.rs:179-188 | as written: the loop leaves only when subtracting a link's count from the running sum would go below zero; on non-empty links with positive counts that happens at the slot `skip mod len`, after exactly `len + 1` links, so the `unreachable!` is never hit |
| MarkovSelect.SelectIgnoresWeights | crates/markov/src/brain.rs:179-188 | with counts 1 and 3, the as-written choice picks each link for two of the four draws; the weighted choice picks them for one and three |
| MarkovSelect.WeightedSlot | crates/markov/src/brain.rs:179-188 | the weighted choice is the link whose share of the running total covers the draw |
| MarkovSelect.WeightedSlotUnique | crates/markov/src/brain.rs:179-188 | that link is unique: every draw maps to exactly one slot |
| MarkovSelect.WeightedChoice | crates/markov/src/brain.rs:179-188 | the corrected loop subtracts counts from the draw until it falls inside a link, and returns `WeightedSlot` |
| MarkovBrain.Adjacent.CreateAdjacency | crates/markov/src/brain.rs:215-225 | refuses an index already recorded and changes nothing; otherwise records `index - 1` (saturating), `index` and `index + 1` and accepts |
| MarkovBrain.MarksNear | crates/markov/src/brain.rs:216-223 | an index is recorded exactly when it equals or neighbours an accepted index |
| MarkovBrain.AcceptKeepsSpread | crates/markov/src/brain.rs:215-225 | accepting an unrecorded index keeps any two accepted indices at least 2 apart |
| MarkovBrain.Pick | crates/markov/src/brain.rs:49-54 | a picked index lies in `1..max` (or is 1 when `max` is 1), was not recorded and is now accepted; an empty range fails |
| MarkovBrain.Choose | crates/markov/src/brain.rs:56-62 | with a query word left, at least two words and a winning coin, the last query word is inserted at a picked index; the first word stays first and nothing else changes |
| MarkovBrain.Brain.Follow | crates/markov/src/brain.rs:80-88 | following the chain keeps every word of the line known, the first word a starting word and the query words accounted for; it reports `full` only once the line has `max` words and otherwise stops below `max` (at `End` or on a failed pick) |
| MarkovBrain.Brain.Grow | crates/markov/src/brain.rs:65-89 | a successful outer loop stops at `min` or `max` words; with no starting words and `min >= 1` it fails |
| MarkovBrain.Brain.SpliceRest | crates/markov/src/brain.rs:91-94 | every remaining query word is spliced in after the first word; on success the line holds the whole query as a multiset |
| MarkovBrain.Render | crates/markov/src/brain.rs:96-109 | the output joins, with single spaces, the well-formed UTF-8 words among the first `max` |
| MarkovBrain.RenderedWords | crates/markov/src/brain.rs:99-106 | splitting the output at whitespace gives back exactly those words, and at most `max` of them |
| MarkovBrain.Brain.Generate | crates/markov/src/brain.rs:35-110 | `None` when there are no starting words and `min >= 1`; otherwise the rendered line, which has at least `min` or `max` words, starts with a starting word, holds every query word and only known words |
| Utf8.AsciiIsUtf8 | crates/markov/src/brain.rs:100 | plain ASCII passes the UTF-8 check |
| Utf8.ConcatIsUtf8 | crates/markov/src/brain.rs:100 | two well-formed texts put together stay well formed |
| Utf8.Examples | crates/markov/src/brain.rs:100 | a two- and a three-byte sign pass; an overlong encoding, an encoded surrogate and a truncated sequence fail |
| Random.Rng.Usize | crates/markov/src/brain.rs:50 | a draw in the half-open range `lo..hi` |
| Random.Rng.Coin | crates/markov/src/brain.rs:57 | `f64() > f64()` as two draws compared |
| Random.Rng.Shuffle | crates/markov/src/brain.rs:47 | the shuffled query words are a permutation of the input |
| ServeBrain.Worker.HandleMessage | crates/serve_brain/src/messaging.rs:68-108 | `Train` trains the brain and answers `Ok(false)`; `Generate` sends `Generated` with exactly the rendered text of the generated line (which reaches `min` or `max`, starts with a starting word, holds every query word and only words the brain may produce) or fails with "cannot generate data", always failing when there are no starting words and `min >= 1`; `ForceSave` always saves, `Save` only after `SAVE_DURATION` (300 s); `last` moves only on a successful save; only `Train` changes the brain |
| ServeBrain.Worker.Step | crates/serve_brain/src/messaging.rs:53-60 | one turn: `Nothing` for `Train`; for `Generate`, `Generated` holding the rendered text of the generated line with the same guarantees as `handle_message`, or the generate error; the save error or `Nothing` for a save, `Nothing` for a `Save` that is not yet due |
| ServeBrain.Worker.Turn | crates/serve_brain/src/messaging.rs:53-60 | the part of a turn the loop keeps: only `Generate` can be answered with `Generated`, `Train` is answered with `Nothing`, and only `Train` changes the brain |
| ServeBrain.Worker.Run | crates/serve_brain/src/messaging.rs:52-61 | every message gets exactly one reply, in order; the brain ends as the training messages alone would leave it |
| ServeBrain.TrainedByStep | crates/serve_brain/src/messaging.rs:84-85 | one more message trains the brain when it is `Train` and leaves it alone otherwise |
| ServeBrain.OnlyTrainingChanges | crates/serve_brain/src/messaging.rs:87-104 | messages other than `Train` never change the chain or the starting words |
| MarkovBrain.Adjacent.constructor | crates/markov/src/brain.rs:207-212 | no index is marked or accepted at the start |
| ServeBrain.Worker.constructor | crates/serve_brain/src/messaging.rs:42-50 | the worker owns the brain and counts its last save from the moment it starts |
| AnotherViewer.IsTheBotName | crates/shaken/src/modules/another_viewer.rs:229-235 | true exactly when the word, with leading `( [ ' " # @` and trailing `. ? ! " ' ] ) , :` removed, is `shaken_bot` or `shaken` |
| AnotherViewer.NeverLeadingAt | crates/shaken/src/modules/another_viewer.rs:231-234 | a stripped word never starts with `@`, so the `@shaken_bot` alternative is never matched |
| AnotherViewer.StripAround | crates/shaken/src/modules/another_viewer.rs:233 | one leading and one trailing mark around a word without more of them are stripped to the word |
| AnotherViewer.WrappedName | crates/shaken/src/modules/another_viewer.rs:229-235 | the bot's names are recognised inside a pair of marks |
| AnotherViewer.DropWords | crates/shaken/src/modules/another_viewer.rs:270-296 | the words of the result are exactly the kept words of the input, in order |
| AnotherViewer.FilterCommands | crates/shaken/src/modules/another_viewer.rs:270-275 | the result's words are the input's words that do not start with `!`, and every such word is kept |
| AnotherViewer.FilterMentions | crates/shaken/src/modules/another_viewer.rs:277-282 | the result's words are the input's words that do not start with `@`, and every such word is kept |
| AnotherViewer.RemoveGarbage | crates/shaken/src/modules/another_viewer.rs:291-296 | the result's words are the input's pure-ASCII words, and every such word is kept |
| AnotherViewer.RemoveLinks | crates/shaken/src/modules/another_viewer.rs:284-289 | the result's words are the input's words that the URL parser rejects, and every such word is kept |
| AnotherViewer.FilterResponse | crates/shaken/src/modules/another_viewer.rs:219-227 | a reply without `@` is returned unchanged; otherwise its words are those of the input not starting with `@` |
| AnotherViewer.SplitChars | crates/shaken/src/modules/another_viewer.rs:224 | every character of a word comes from the text it was split from |
| AnotherViewer.ResponseHasNoMention | crates/shaken/src/modules/another_viewer.rs:219-227 | whichever branch is taken, no word of a filtered reply starts with `@` |
| AnotherViewer.FilterFilter | crates/shaken/src/modules/another_viewer.rs:243-253 | filtering by one condition and then another is filtering once by both |
| AnotherViewer.FilterIdempotent | crates/shaken/src/modules/another_viewer.rs:270-296 | filtering again by the same condition changes nothing |
| AnotherViewer.DropWordsIdempotent | crates/shaken/src/modules/another_viewer.rs:270-296 | each word filter applied to its own output leaves it unchanged |
| AnotherViewer.FilterLine | crates/shaken/src/modules/another_viewer.rs:243-253 | after the name is removed, the words that remain are exactly those that are not links, are pure ASCII, and start with neither `!` nor `@`, in their original order |
| CrateFormat.Format | crates/shaken/src/modules/crates/data.rs:19-41 | the first line is `name = "version"`, a bar and the description, or `name = version` without a description; the second is empty without links, one labelled link alone, or both links with a bar between them |
| CrateFormat.SecondLineIsLinks | crates/shaken/src/modules/crates/data.rs:29-38 | the second line is the present labelled links joined by a bar |
| CrateFormat.FirstWordIsName | crates/shaken/src/modules/crates/data.rs:24-27 | both shapes of the first line open with the name and a space |
| EmoteMap.EmoteMap.constructor | crates/shaken/src/twitch/data.rs:46-51 | the default table is empty, and so every remembered name can be looked up |
| EmoteMap.EmoteMap.WithEmotes | crates/shaken/src/twitch/data.rs:54-61 | each pair is recorded id-to-name and then name-to-id in the two-way map, in order; every name is remembered; the id-to-name map is not touched; every remembered name stays one that can be looked up |
| EmoteMap.EmoteMap.Names | crates/shaken/src/twitch/data.rs:75-77 | in a table built by the default and `with_emotes`, every listed name can be looked up |
| EmoteMap.EmoteMap.GetName | crates/shaken/src/twitch/data.rs:63-65 | a lookup in the id-to-name map, so nothing while that map is empty |
| EmoteMap.EmoteMap.GetId | crates/shaken/src/twitch/data.rs:67-69 | exactly a lookup in the two-way map |
| EmoteMap.EmoteMap.Has | crates/shaken/src/twitch/data.rs:71-73 | true exactly when `get_id` finds something |
| EmoteMap.RecordedKeys | crates/shaken/src/twitch/data.rs:55-57 | the two-way map gains exactly the names and ids of the pairs |
| EmoteMap.RecordedAppend | crates/shaken/src/twitch/data.rs:55-59 | recording two lists is recording the first and then the second |
| EmoteMap.RecordedUntouched | crates/shaken/src/twitch/data.rs:55-57 | a text no pair mentions keeps its entry, or its absence |
| EmoteMap.LastPairWins | crates/shaken/src/twitch/data.rs:54-60 | the last pair to mention a name or id decides its lookup: the name finds the id and the id finds the name |
| EmoteMap.WithEmotesOnDefault | crates/shaken/src/twitch/data.rs:54-73 | on a fresh table, every name and id of the pairs is known, every name is listed, and no id has a name |
| IrcPrivmsg.SplitCommand | crates/shaken/src/irc/privmsg.rs:49-54 | a space-free prefix of the input that ends at its first space or at its end; the whole input when it holds no space |
| IrcPrivmsg.SplitCommandOf | crates/shaken/src/irc/privmsg.rs:49-54 | the command of a word, alone or followed by a space and more text, is the word |
| IrcPrivmsg.MatchCommandWords | crates/shaken/src/irc/privmsg.rs:37-43 | a message matches a pattern exactly when both start with the same word, whatever follows |
| IrcPrivmsg.BadgesOf | crates/shaken/src/irc/privmsg.rs:29-35 | no badges without a `badges` tag; each badge is one `,`-separated item split at its first `/` |
| IrcPrivmsg.Badges | crates/shaken/src/irc/privmsg.rs:29-35 | no badges without a `badges` tag; each badge is one `,`-separated item of the tag split at its first `/` |
| IrcPrivmsg.IsFromBroadcaster | crates/shaken/src/irc/privmsg.rs:19-22 | a message without a `badges` tag is never from the broadcaster |
| IrcPrivmsg.IsFromModerator | crates/shaken/src/irc/privmsg.rs:24-27 | a message without a `badges` tag is never from a moderator |
| IrcPrivmsg.Command | crates/shaken/src/irc/privmsg.rs:41-43 | the command holds no space and the text opens with it; a text without spaces is its own command |
| IrcPrivmsg.MatchCommand | crates/shaken/src/irc/privmsg.rs:37-39 | a matching pattern opens with the message's command; a pattern without spaces matches exactly when it is the command |
| IrcPrivmsg.TwoBadges | crates/shaken/src/irc/privmsg.rs:29-35 | the list `n1/v1,n2/v2` gives both badges, in order |
| IrcPrivmsg.TwoBadgeRoles | crates/shaken/src/irc/privmsg.rs:19-27 | with two badges, the message is from the broadcaster (a moderator) exactly when one of them is `broadcaster/1` (`moderator/1`) |
| IrcPrivmsg.BadgeOfTwo | crates/shaken/src/irc/privmsg.rs:20-21 | with exactly two badges, a role is held when either is that role at version 1 |
| IrcPrivmsg.Display | crates/shaken/src/irc/privmsg.rs:57-61 | the text is `[`, the target, `] `, the user, `: ` and the data, and its length is theirs plus five |
| IrcPrivmsg.DisplayTarget | crates/shaken/src/irc/privmsg.rs:57-61 | for a target without `]`, the target is read back up to the first `]` |
| CommandState.NewCommand | crates/shaken/src/modules/user_defined/state.rs:11-24 | a new command has the given name, body and author, and has not been used |
| CommandState.AliasSource | crates/shaken/src/modules/user_defined/state.rs:72-76 | nothing exactly when no pair has the name as its alias; otherwise the source of the first pair that does |
| CommandState.FirstAliasUnique | crates/shaken/src/modules/user_defined/state.rs:85-89 | there is only one first pair for an alias |
| CommandState.UserDefinedState.GetByName | crates/shaken/src/modules/user_defined/state.rs:70-79 | a command is found exactly when `find_name` gives a name that is stored, and it is the command stored under that name |
| CommandState.UserDefinedState.FindName | crates/shaken/src/modules/user_defined/state.rs:81-92 | a key is its own name; any other result is the source of an alias pair for the name; nothing exactly when the name is no key and no alias |
| CommandState.UserDefinedState.Has | crates/shaken/src/modules/user_defined/state.rs:98-100 | every key is known; any other known name is the alias of a pair whose source is stored |
| CommandState.UserDefinedState.GetAll | crates/shaken/src/modules/user_defined/state.rs:94-96 | every stored command is listed; with every command under its own name, each listed command is the one stored under its name |
| CommandState.UserDefinedState.constructor | crates/shaken/src/modules/user_defined/state.rs:26-30 | the default table has no commands and no aliases |
| CommandState.UserDefinedState.Insert | crates/shaken/src/modules/user_defined/state.rs:33-42 | stores the command under its name exactly when the name is neither a key nor the source of an alias pair; the aliases are unchanged |
| CommandState.UserDefinedState.Remove | crates/shaken/src/modules/user_defined/state.rs:44-47 | drops every pair with the name on either side and the command stored under it; true exactly when a command was stored |
| CommandState.UserDefinedState.Update | crates/shaken/src/modules/user_defined/state.rs:49-54 | changes the command the name is found under (a key, or the source of its first alias pair) when that is stored; false and nothing changed otherwise |
| CommandState.UserDefinedState.Alias | crates/shaken/src/modules/user_defined/state.rs:56-68 | refused when the source does not resolve or the alias already does; accepted without recording when some pair matches exactly one of source and alias; otherwise the pair is appended; the commands never change |
| CommandState.ResolveOrder | crates/shaken/src/modules/user_defined/state.rs:70-79 | `get_by_name` answers from the keys first, and then only from the first pair naming the alias |
| CommandState.FindAgrees | crates/shaken/src/modules/user_defined/state.rs:70-92 | `find_name` and `get_by_name` agree: a name resolves exactly when it is found under a stored key, and then to the command under that key |
| CommandState.UpdateThenResolve | crates/shaken/src/modules/user_defined/state.rs:49-54 | after an update, the name resolves to the changed command |
| CommandState.AliasResolves | crates/shaken/src/modules/user_defined/state.rs:56-79 | a new alias of a stored command resolves to that command |
| CommandState.SecondAliasIgnored | crates/shaken/src/modules/user_defined/state.rs:62-64 | a second alias for the same source is accepted, not recorded, and does not resolve |
| CommandState.ChainedAliasUnresolved | crates/shaken/src/modules/user_defined/state.rs:56-79 | an alias of an alias is recorded but does not resolve, because its source is not a stored command |
| CommandState.KeyedKept | crates/shaken/src/modules/user_defined/state.rs:33-54 | insert, remove and a name-keeping update keep every command under its own name |
| CommandState.GetAllNames | crates/shaken/src/modules/user_defined/state.rs:94-96 | with every command under its own name, the names listed by `get_all` are exactly the keys, so aliases are not listed |
| CommandState.InsertExample | crates/shaken/src/modules/user_defined/state/tests.rs:12-18 | a name can be inserted once, and another name is still free |
| CommandState.RemoveExample | crates/shaken/src/modules/user_defined/state/tests.rs:20-26 | a command can be removed once |
| CommandState.AliasExample | crates/shaken/src/modules/user_defined/state/tests.rs:37-70 | the command and its alias find the same command, and only the two stored commands are listed |
| CommandState.UpdateExample | crates/shaken/src/modules/user_defined/state/tests.rs:28-35 | a changed body is seen by the next lookup |
| IrcTags.Cursor.constructor | crates/shaken/src/irc/tags.rs:11 | the cursor starts on the whole line |
| IrcTags.Halves | crates/shaken/src/irc/tags.rs:21 | each pair comes from one piece split at its first `=`, and there are no more pairs than pieces |
| IrcTags.HalvesAll | crates/shaken/src/irc/tags.rs:21 | every piece that holds `=` gives a pair |
| IrcTags.HalvesNone | crates/shaken/src/irc/tags.rs:21 | pieces without `=` are dropped |
| IrcTags.Collect | crates/shaken/src/irc/tags.rs:23 | the map has exactly the keys of the pairs |
| IrcTags.CollectLast | crates/shaken/src/irc/tags.rs:23 | the value under a key is that of the last pair with the key |
| IrcTags.ParseTagsAt | crates/shaken/src/irc/tags.rs:11-26 | nothing exactly when the text does not start with `@` or holds no space; otherwise the map of the block up to the first space and the text after that space |
| IrcTags.ParseTags | crates/shaken/src/irc/tags.rs:11-26 | the cursor moves past the tag block only when there is one, and is left where it was otherwise |
| IrcTags.TagsBlock | crates/shaken/src/irc/tags.rs:11-26 | a space-free block after `@` is read back, and the rest of the line is what follows its space |
| IrcTags.Get | crates/shaken/src/irc/tags.rs:28-37 | the value under the key, or "cannot find: {key}" exactly when it is missing |
| IrcTags.ItemsOverride | crates/shaken/src/irc/tags.rs:19-21 | `k=v1;junk;k=v2` with junk lacking `=` gives the two pairs for `k` |
| IrcTags.LaterOverrides | crates/shaken/src/irc/tags.rs:19-23 | a later item for a key overrides an earlier one; an item without `=` is dropped; key and value are trimmed |
| UserDefined.ValidateCommand | crates/shaken/src/modules/user_defined/mod.rs:157-161 | a name is accepted, unchanged, exactly when it starts with `!` and has more after it; otherwise "you must prefix commands with !" or, for a bare `!`, "the command name cannot be empty" |
| UserDefined.ElevationFirst | crates/shaken/src/modules/user_defined/mod.rs:45-92 | every managing command refuses a sender who is neither moderator nor broadcaster, before any argument is read |
| UserDefined.NameAndBodyAccepts | crates/shaken/src/modules/user_defined/mod.rs:46-50 | for an elevated sender the checks pass exactly when there is a valid name and a non-empty body, and an empty body is refused with its own message |
| UserDefined.Add | crates/shaken/src/modules/user_defined/mod.rs:45-60 | a failed check is an error; a taken name (a key or an alias source) is the problem "'{name}' already exists"; otherwise the command is stored by the sender and "created '{name}' -> '{body}'" is replied |
| UserDefined.Remove | crates/shaken/src/modules/user_defined/mod.rs:62-72 | a failed check is an error; otherwise every pair naming it is dropped with the command, and the reply is "removed: '{name}'", or the problem "'{name}' wasn't found" when no command was stored |
| UserDefined.Update | crates/shaken/src/modules/user_defined/mod.rs:74-89 | a failed check is an error; the command the name is found under gets the new body and "updated '{name}' -> '{body}'" is replied; otherwise the problem "'{name}' doesn't exists" and no change |
| UserDefined.Alias | crates/shaken/src/modules/user_defined/mod.rs:91-103 | a failed check is an error; a source that does not resolve is "'{from}' was not found"; an alias that already resolves is "'{to}' already exits"; otherwise "aliased '{from}' to '{to}'", with the pair recorded unless a pair already matches one side |
| UserDefined.Lookup | crates/shaken/src/modules/user_defined/mod.rs:105-116 | when the message's first word resolves, that command's use count goes up by one and its body is said; otherwise nothing is said and nothing changes |
| UserDefined.ListCommands | crates/shaken/src/modules/user_defined/mod.rs:118-144 | the names of the stored commands, in the table's iteration order, twenty per line |
| UserDefined.NamesOf | crates/shaken/src/modules/user_defined/mod.rs:124 | one name per key, in key order |
| UserDefined.ListedOnce | crates/shaken/src/modules/user_defined/mod.rs:118-144 | with commands under their own names and names free of spaces, the listing names each stored command exactly once |
| UserDefined.RemoveAliasName | crates/shaken/src/modules/user_defined/mod.rs:62-72 | removing by an alias name reports it as not found and yet drops the alias pair |
| Util.AppendMaybe | crates/shaken/src/util.rs:21-30 | whichever of its three branches is taken, the result is the left list followed by the right one |
| Util.JoinWith | crates/shaken/src/util.rs:37-45 | the fold that pushes the separator only after non-empty text computes `Joined` |
| Util.LeadingEmptyIgnored | crates/shaken/src/util.rs:39-41 | empty items before any text leave no trace in the joined text |
| Util.AllBlank | crates/shaken/src/util.rs:37-45 | joining only empty items gives the empty text |
| Util.TrailingEmptyAddsSeparator | crates/shaken/src/util.rs:39-42 | an empty item after some text still adds one separator |
| Util.Quoted | crates/shaken/src/util.rs:78-86 | the wrapped text between two copies of its quote mark |
| Util.QuotedInner | crates/shaken/src/util.rs:70-107 | dropping the marks gives the wrapped text back, and each kind uses its own mark |

## Left out

- MarkovBrain.Brain.SelectToken: generation uses the corrected weighted
  choice (`WeightedChoice`), not `weighted_select` as written. The program
  picks the candidate at the draw modulo the number of candidates, whatever
  the counts, so the words the modelled `generate` picks differ from the
  program's. The code as written is `MarkovSelect.WeightedSelect`; see
  "## Findings".
- Fixed-width integers: link counts and use counts are unbounded in the
  model, so neither the wrap-around of a release build nor the overflow
  panic of a debug build is modelled. This affects `merge` and `expand`
  of links (link.rs), `expand(1)` when a known token is inserted into a
  set (set.rs), the scaling `count *= width` in `select_token`, the sum of
  the counts that bounds the draw in `weighted_select`, and the
  `uses += 1` of a user-defined command lookup.
- Randomness: `fastrand` is replaced by the class `Rng`, which reads from a
  draw sequence the caller supplies.
  - `Rng.Usize` gives `lo + d % (hi - lo)`.
  - `Rng.Coin` stands for comparing two `f64` draws.
  - `Rng.Shuffle` gives some permutation.
- The starting word of a generation is any element of the set of heads.
  The random choice from a `HashSet` is left out, since the iteration order
  of a hash set is not modelled.
- Generation stops on time in the source (`Instant` and the time-out). The
  model uses a fuel budget instead, which also bounds the loop that retries
  `pick`. Running out of fuel gives no output.
  - The source panics on `pick` over an empty range. The model gives no
    output there too.
- Whitespace: words in the markov crate are byte strings. They are split at
  the ASCII whitespace bytes, including vertical tab. The Unicode whitespace
  outside ASCII that `split_whitespace` and `trim` also accept is left out.
- Saving a brain to disk is an abstract action that may fail: its outcome
  is a parameter of the worker.
  - Time is a whole number of seconds that the caller passes in.
  - The generation time-out of the worker is a fuel budget.
  - Channels and message passing between tasks are not modelled.
- Concurrency: the tokio fan-out in `Binding::call` and in the call on
  arrays of boxed callables is left out. So are `Binding::create` (async)
  and `get_inner` / `into_callable`.
- Network and clients: HTTP, the Twitch client, Spotify and the crates.io
  lookup are left out. Only the formatting of a crate that was found is
  modelled.
- Persistence: reading and writing the user-defined commands file is left
  out. `sync` always succeeds in the model.
- `require_streaming` is left out, because it needs the Twitch client.
- `Tags::get_parsed` and `msg_id` are left out (generic parsing via
  `FromStr`).
- IRC socket I/O is left out: `read_message`, `wait_for_ready`,
  `join_channel` and sending a `privmsg`. Only parsing of a line and
  handling of `PRIVMSG` lines is modelled.
- IrcConn.Parse: the source panics when a space is missing after the tags
  or the prefix. The model returns the error "malformed message" instead.
- `as_readable_time` for `time::Duration` (floating-point seconds) is left
  out. Only the `std::time::Duration` form is modelled.
- The asynchronous parts of "another viewer" are left out: `train`,
  `generate`, `speak`, `listen`, `try_mention`, `try_kappa` and
  `try_context`.
  - The regular expression in `remove_name` is the parameter `removeName`.
  - The URL parser in `remove_links` is the parameter `isUrl`.
- The built-in handlers `time`, `theme`, `uptime` and `bot_uptime` are left
  out. They need the clock, files or HTTP.
- UserDefined.ListCommands takes the order of the command names as the
  parameter `keys`. Any order of the map's keys is accepted, since the
  iteration order of a `HashMap` is not modelled.
- Builtin.FormatAllCommands requires a group size above zero unless there
  is at most one name. The source computes a remainder by zero otherwise.
- History.Queue.Valid bounds the queue only when the limit is at least 1.
  A limit of 0 leaves the queue unbounded, as in the source.
- The shared state handle (`SharedState`) and the locks around the
  user-defined state are left out. Each handler takes the state directly.

## Findings

| source | as written | input that shows it | evidently intended | confidence | as-written member | corrected member |
|---|---|---|---|---|---|---|
| crates/markov/src/brain.rs:179-188 | `weighted_select` sums the counts and draws below the sum, but uses the draw as a number of links to skip. Cycling from link `draw mod length`, it subtracts each passed link's count from the sum; after one full cycle the sum is zero and it returns the link it started at, so the counts never matter | two links with counts 1 and 3: of the four possible draws, each link is chosen by two | a choice proportional to the counts (here one draw and three draws) | not executed | MarkovSelect.WeightedSelect (shown by MarkovSelect.SelectIgnoresWeights) | MarkovSelect.WeightedChoice (proved by MarkovSelect.WeightedSlot and MarkovSelect.WeightedSlotUnique), used by MarkovBrain.Brain.SelectToken |
