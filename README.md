# icey channel model

icey reads IRC channel logs and turns them into statistics. This project models the part of
it that keeps track of a channel and counts what happens in it:

- **the channel state machine** (`src/channel.js`). It holds a registry that maps each nick to
  one shared attribute record, a log of applied events, the topic, and the mode table. The mode
  table has four parts: each known mode letter's class (`list`, `param`, `partial`, `channel`
  or `user`), the per-letter values of channel modes, the per-letter nick lists of user modes,
  and the per-letter mask lists of list modes. This is module `ChannelModel`, class `Channel`.
  The mode table is a value in module `Modes`. Each mode operation of `Channel` is proved
  against the pure function in `Modes` that specifies it, and the properties are proved about
  those functions.
- **events** (`src/events.js`). There are eleven event classes. Each one stores certain fields,
  has an `apply` step that updates a channel, and has a JSON form that `toJSON` writes and
  `fromJson` reads back. This is module `Events`. The `apply` steps are `Channel.Apply`.
- **the ZNC mode-change splitter** (`src/parsers/znc.js`, `parseModeChanges`). It splits a mode
  string such as `-v+mv-o a b c` into the letters added, the letters removed and the
  parameters. This is module `Znc`. The `split(' ')` it relies on is module `Text`.
- **the event-count collector** (`src/collectors/eventcount.js`). For each event kind it keeps
  a running total, broken down by nick, by day, by hour of the day and by nick within each
  hour. This is module `EventCount`. The collector keeps a ghost history of every hit it has
  counted. Its state is the replay of that history, and every figure in the nested tally is
  proved to equal the number of matching hits.
- **the sentiment collector** (`src/collectors/sentiments.js`). It loads a word/emotion lexicon
  from tab-separated lines, scores each message's words against it, groups the scored words
  by month, and combines a month's words into per-key sums. This is module `Sentiments`.

`Wrappers` holds `Option`, `Result` and the `Outcome` of an operation that can only fail.

## Model

| member | source | states |
|---|---|---|
| Text.Split | src/parsers/znc.js:109 | `split` on one character gives at least one token, and no token contains the separator |
| Text.JoinSplit | src/parsers/znc.js:109-111 | putting the separator back between the tokens of a split rebuilds the original string |
| Text.SplitJoin | src/parsers/znc.js:109-111 | splitting a join of separator-free tokens gives those tokens back |
| Text.SplitAround | src/channel.js:40 | a string that has a separator splits into the tokens before it followed by the tokens after it |
| Text.SplitSingle | src/parsers/znc.js:111 | a split gives exactly one token if and only if the separator does not occur |
| Znc.ParseModeChanges | src/parsers/znc.js:108-125 | the loop over the mode token gives exactly `ModeChangesOf(message)`: each letter goes to the side chosen by the last sign before it, and the parameters are the other tokens |
| Znc.ParamsAreLaterTokens | src/parsers/znc.js:109-111 | the parameters are every token after the first, and there are none if and only if the message has no space |
| Znc.RemovingIffLastSignMinus | src/parsers/znc.js:113-120 | at any position the direction is "removed" if and only if the last sign before that position is `-` |
| Znc.LettersPartitioned | src/parsers/znc.js:114-123 | taken together, the added and removed lists are exactly the non-sign characters of the mode token, as a multiset |
| Znc.NoSignRouted | src/parsers/znc.js:116-121 | neither `+` nor `-` ever ends up in the added or removed list |
| Znc.OnlyRemoving | src/parsers/znc.js:113-123 | a mode token that starts with `-` and has no `+` adds nothing, and removes every letter in order |
| Znc.RemovingIffLastSign1 | src/parsers/znc.js:118-119 | after a leading `-`, the direction stays "removed" until a `+` appears |
| Znc.ExampleSingle | test/parsers/znc_parser.js:78-89 | `+m` adds `m`, removes nothing and has no parameters |
| Znc.ExampleParameter | test/parsers/znc_parser.js:91-102 | `+v somebody` adds `v` with the parameter `somebody` |
| Znc.ExampleRepeated | test/parsers/znc_parser.js:104-115 | `+vmv somebody else` adds `v`, `m` and `v`, with two parameters |
| Znc.ExampleMixed | test/parsers/znc_parser.js:156-167 | `-v+mv-o somebody else Dinnerbone` adds `m` and `v`, removes `v` and `o`, and keeps all three parameters |
| Modes.RemoveFirst | src/channel.js:93-94 | `indexOf` plus `splice` leaves the list alone when the value is absent, and otherwise shortens it by one without adding anything |
| Modes.IndexOf | src/channel.js:93 | `indexOf` of a present value is a position holding that value, with no earlier occurrence |
| Modes.RemoveFirstAt | src/channel.js:93-94 | for a present value, the result is the list with exactly its first occurrence cut out, everything else in order |
| Modes.RemoveFirstTwice | src/channel.js:93-94 | on a repeat-free list, removing the same value a second time changes nothing |
| Modes.RemoveFirstClean | src/channel.js:93-94 | removing a value from a repeat-free list leaves it repeat-free and without that value |
| Modes.RemoveFirstAppended | src/channel.js:68-94 | removing a value that was just appended to a list that lacked it gives the original list back |
| Modes.SetMode | src/channel.js:64-86 | `setMode` keeps the table well formed and makes the letter known, classifying an unknown letter as `channel`; every other letter's class and storage is unchanged |
| Modes.SetModeEffect | src/channel.js:64-86 | for each class, the effect of `setMode` on the letter: a `list` or `user` bucket gets a non-empty parameter appended at its end when the parameter is not already there, and is otherwise unchanged; `param`/`partial` take a non-empty parameter and are otherwise unchanged; `channel` and unknown letters become `true` |
| Modes.UnsetMode | src/channel.js:88-114 | `unsetMode` keeps the table well formed and makes the letter known, classifying an unknown letter as `channel`; every other letter's class and storage is unchanged |
| Modes.UnsetModeEffect | src/channel.js:88-114 | for each class, the effect of `unsetMode` on the letter: a `list` or `user` bucket given a non-empty parameter becomes `RemoveFirst` of it and no longer holds the parameter, and is unchanged without one; `param` is cleared only when given a parameter, `partial` is always cleared, and `channel` and unknown letters become `false` |
| Modes.SetModeIdempotent | src/channel.js:64-86 | setting the same mode twice is the same as setting it once |
| Modes.UnsetModeIdempotent | src/channel.js:88-114 | unsetting the same mode twice is the same as unsetting it once |
| Modes.SetThenUnset | src/channel.js:64-114 | adding a non-empty entry that is not yet in a list or user list, then removing it, gives back the original table |
| Modes.Step | src/channel.js:55-59 | one instruction (set or unset) keeps the table well formed |
| Modes.Interpret | src/channel.js:44-61 | the left-to-right pass over the letters keeps the table well formed |
| Modes.UpdateModes | src/channel.js:39-62 | `updateModes` keeps the table well formed |
| Modes.RunCalls | src/channel.js:55-59 | applying a sequence of set and unset calls keeps the table well formed |
| Modes.StepConsumesAlike | src/channel.js:52-112 | no call changes whether a letter takes a parameter, because unknown letters become `channel`, which takes none |
| Modes.InterpretIsCalls | src/channel.js:44-61 | the pass over the letters is the same as first working out every call from the classes at the start, then running the calls |
| Modes.UpdateModesIsCalls | src/channel.js:39-62 | `updateModes` runs exactly the calls worked out from the first token and the remaining tokens |
| Modes.CallsTakeQueuePrefix | src/channel.js:52-53 | the parameters the calls receive are a prefix of the remaining tokens, in order; there is one call per non-sign letter, and no call is for a sign |
| Modes.AddedOf | src/channel.js:122 | a letter is added to a class if and only if it is listed for that class and does not already have that class |
| Modes.FirstRepeatNoneIff | src/channel.js:132-141 | the duplicate scan finds nothing if and only if the letters to add are pairwise distinct |
| Modes.FirstRepeatIsRepeated | src/channel.js:136-137 | a letter the scan reports occurs at least twice among the letters to add |
| Modes.PurgeClass | src/channel.js:143-148 | removing a class's dropped letters deletes their class and storage, and leaves every other letter, and the storage of other kinds, as it was |
| Modes.InstallClassValid | src/channel.js:150-155 | giving letters a class and its initial storage keeps the table well formed |
| Modes.InstallClassOther | src/channel.js:150-155 | giving letters a class leaves every other letter as it was |
| Modes.InstallClassFresh | src/channel.js:150-155 | a letter given a class has that class and holds that class's initial value |
| Modes.Purge | src/channel.js:143-148 | the removal pass over all five classes keeps the table well formed |
| Modes.Install | src/channel.js:150-155 | the addition pass over all five classes keeps the table well formed |
| Modes.SetAvailable | src/channel.js:120-156 | on success, `setAvailableModes` leaves a well-formed table |
| Modes.AddedExclusive | src/channel.js:132-141 | once validation has passed, no letter is added to two classes |
| Modes.PurgeLetter | src/channel.js:143-148 | the removal pass deletes exactly the letters whose current class no longer lists them |
| Modes.InstallUntouched | src/channel.js:150-155 | the addition pass leaves every letter that is not being added as it was |
| Modes.InstallFresh | src/channel.js:150-155 | a letter added to exactly one class gets that class and its initial value |
| Modes.SetAvailableFailsIff | src/channel.js:132-141 | `setAvailableModes` throws if and only if some letter is added under two classes, and the letter it reports occurs at least twice among the letters to add |
| Modes.FirstRepeatFromStart | src/channel.js:132-141 | the scan, started with nothing seen, finds a letter if and only if the letters are not pairwise distinct, and the letter it finds occurs at least twice |
| Modes.SetAvailableDistinct | src/channel.js:132-141 | a successful call had pairwise-distinct letters to add |
| Modes.SetAvailableKeeps | src/channel.js:122-155 | when no letter is added twice, the call succeeds, and a letter listed only under its current class keeps its class and storage |
| Modes.SetAvailableInstalls | src/channel.js:150-155 | when no letter is added twice, the call succeeds, and a letter that is added gets the new class and that class's initial value |
| Modes.SetAvailableClassifies | src/channel.js:120-156 | when no letter is added twice, the call succeeds, and a letter listed under exactly one class has that class |
| Modes.SetAvailableDrops | src/channel.js:123-148 | when no letter is added twice, the call succeeds, and a known letter not listed under any class loses its class and storage |
| Modes.SetAvailableIgnores | src/channel.js:120-156 | when no letter is added twice, the call succeeds, and an unknown letter that is not listed anywhere is left as it was |
| Modes.SetAvailableReclassifies | src/channel.js:122-155 | when no letter is added twice, a known letter listed under its own class and also under another class is moved to the other class without error, and keeps its old storage when the two classes store in different places |
| Modes.DuplicateExample | test/channel.js:224-228 | listing `a` both as a list mode and as a param mode is rejected, naming `a` |
| ChannelModel.Channel.constructor | src/channel.js:2-9 | a new channel has no actors, no events, an empty mode table and no topic |
| ChannelModel.Channel.GetAvailableModes | src/channel.js:158-160 | returns the letter classes |
| ChannelModel.Channel.GetUserModes | src/channel.js:162-164 | returns the user-mode lists |
| ChannelModel.Channel.GetChannelModes | src/channel.js:166-168 | returns the channel-mode values |
| ChannelModel.Channel.GetLists | src/channel.js:170-172 | returns the list-mode lists |
| ChannelModel.Channel.Lookup | src/channel.js:17-21 | the nick's existing record is returned with the registry unchanged, or a fresh empty record is filed under the nick; either way no other nick shares it |
| ChannelModel.Channel.UpdateActor | src/channel.js:16-24 | the nick's existing record is kept, or a fresh one is created; the incoming `user` attributes are merged over the old ones; the actor is pointed at the registry's record; the registry gains at most that nick and that record, and every other nick keeps its record and its attributes |
| ChannelModel.Channel.RemoveActor | src/channel.js:26-28 | the registry loses the nick and nothing else |
| ChannelModel.Channel.RenameActor | src/channel.js:30-37 | a known nick's record moves to the target, which it replaces; an unknown nick gives the target a fresh empty record |
| ChannelModel.Channel.SetMode | src/channel.js:64-86 | the new mode table is `Modes.SetMode` of the old one |
| ChannelModel.Channel.UnsetMode | src/channel.js:88-114 | the new mode table is `Modes.UnsetMode` of the old one |
| ChannelModel.Channel.UpdateModes | src/channel.js:39-62 | the new mode table is `Modes.UpdateModes` of the old one |
| ChannelModel.Channel.UpdateTopic | src/channel.js:116-118 | the topic becomes the given text |
| ChannelModel.Channel.FirstDuplicate | src/channel.js:132-141 | the validation loop reports the first letter already seen, which is `Modes.FirstRepeat` |
| ChannelModel.Channel.RemoveClass | src/channel.js:144-147 | deleting one class's dropped letters and their storage gives `Modes.PurgeClass` |
| ChannelModel.Channel.AddClass | src/channel.js:151-154 | installing one class's new letters with their initial storage gives `Modes.InstallClass` |
| ChannelModel.Channel.SetAvailableModes | src/channel.js:120-156 | on a duplicate it fails, naming the letter, and leaves the table unchanged; otherwise it succeeds and the table is `Modes.SetAvailable` of the old one |
| ChannelModel.Channel.ApplyAuthor | src/events.js:25-27 | the author's nick is registered under its old record if it had one and under a newly created record otherwise, `author.user` is that record and holds the merged attributes, and every other nick keeps its record and attributes |
| ChannelModel.Channel.ApplyLeave | src/events.js:72-76 | `Part`/`Quit` merge the author's attributes into the nick's old record if it had one (a newly created record otherwise), then the nick leaves the registry; every other nick keeps its record and attributes |
| ChannelModel.Channel.ApplyKick | src/events.js:62-66 | the author is registered (in its old record, or a newly created one) unless it is the victim's nick, the victim is registered in its old record (or a newly created one) and then forgotten, the merged attributes are stated for both, and every third nick keeps its record and attributes |
| ChannelModel.Channel.ApplyMode | src/events.js:94-97 | the author is registered in its old record or a newly created one, and the mode table becomes `Modes.UpdateModes` of the old one for the instructions; the topic and the log are unchanged |
| ChannelModel.Channel.ApplyTopic | src/events.js:105-108 | the author is registered in its old record or a newly created one, and the topic becomes the new text; the mode table and the log are unchanged |
| ChannelModel.Channel.ApplyNick | src/events.js:116-119 | the author is registered in its old record (or a newly created one) with the merged attributes, that record then moves to the new nick and the old nick is gone, and every other nick keeps its record and attributes |
| ChannelModel.Channel.Apply | src/events.js:7-8 | `apply` for every variant does what `Applied` describes: only the `user` field of the event's actors changes, never their nick; the base class changes no nick, the other variants change the registry as the `Apply...` rows say, and every nick outside the event keeps its record and attributes; the mode table changes only for `Mode`, through `Modes.UpdateModes`, and the topic only for `Topic`; the log is unchanged |
| ChannelModel.Channel.AddEvent | src/channel.js:11-14 | the event is applied as `Apply` states, and then appended to the log |
| ChannelModel.Channel.Log | src/channel.js:13 | the event is appended to the log |
| Events.UserRecord.constructor | src/channel.js:19 | a record holds the given attributes |
| Events.Actor.constructor | src/events.js:20-23 | an actor holds the given nick and user record |
| Events.NewKick | src/events.js:55-61 | a kick stores the time, the author and the victim, but not the message |
| Events.NewPart | src/events.js:68-71 | a part stores the time and the author, but not the message |
| Events.NewQuit | src/events.js:78-81 | a quit stores the time and the author, but not the message |
| Events.ToJson | src/events.js:10-12 | the JSON object carries the class name as `type`, the time, and the author |
| Events.ToJsonKeys | src/events.js:10-12 | the JSON object's keys are `type`, `time` and exactly the fields the class stores |
| Events.JsonInput.FromJson | src/events.js:121-126 | `type` is deleted from the input object, and the result is the reconstruction its tag names |
| Events.RoundTrip | src/events.js:10-126 | for every variant except the base class, reading back the JSON form gives the same event |
| Events.BaseDoesNotRoundTrip | src/events.js:121-126 | the base class writes the tag `Event`, which names no class, so reading it back fails |
| EventCount.ReplaySnoc | src/collectors/eventcount.js:8-40 | counting one more hit is one `increment` on the tally |
| EventCount.IncValid | src/collectors/eventcount.js:8-40 | `increment` keeps the tally equal to the replay of the history, consistent and positive |
| EventCount.IncFigure | src/collectors/eventcount.js:13-38 | one `increment` raises every figure that matches the hit by one and leaves every other figure unchanged |
| EventCount.ReplayCounts | src/collectors/eventcount.js:8-40 | every figure of the tally (total, by nick, by day, by day and nick, by hour, by hour and nick) is the number of matching hits |
| EventCount.IncPositive | src/collectors/eventcount.js:15-38 | every stored count stays at least 1 |
| EventCount.ReplayPositive | src/collectors/eventcount.js:9-38 | no stored count is ever 0 |
| EventCount.KeysAreUsed | src/collectors/eventcount.js:9-21 | an event kind, nick or day has an entry if and only if some hit produced it |
| EventCount.HourIncConsistent | src/collectors/eventcount.js:33-38 | after an hour's increment its total is still the sum of its by-nick counts |
| EventCount.DayIncConsistent | src/collectors/eventcount.js:23-38 | after a day's increment its total is still the sum of its by-nick counts and of its hours' totals |
| EventCount.TallyIncConsistent | src/collectors/eventcount.js:13-38 | after an event's increment its total is still the sum of its by-nick counts and of its days' totals |
| EventCount.IncConsistent | src/collectors/eventcount.js:8-40 | `increment` preserves every total-is-the-sum invariant |
| EventCount.ReplayConsistent | src/collectors/eventcount.js:8-40 | every tally reached by increments satisfies those invariants |
| EventCount.EventCountCollector.constructor | src/collectors/eventcount.js:3-6 | the counter starts empty, with no hits |
| EventCount.EventCountCollector.Increment | src/collectors/eventcount.js:8-40 | the counter becomes `Inc` of the old one for the hit, which is recorded in the history |
| EventCount.EventCountCollector.IncrementTally | src/collectors/eventcount.js:9-38 | an event kind's tally update gives `TallyInc` |
| EventCount.EventCountCollector.IncrementDay | src/collectors/eventcount.js:21-38 | a day's tally update gives `DayInc` |
| EventCount.EventCountCollector.BumpCount | src/collectors/eventcount.js:15-19 | one count goes up by one, starting at 1 when absent |
| EventCount.EventCountCollector.OnAction | src/collectors/eventcount.js:42-44 | counts an `action` hit |
| EventCount.EventCountCollector.OnMessage | src/collectors/eventcount.js:46-48 | counts a `message` hit |
| EventCount.EventCountCollector.OnNotice | src/collectors/eventcount.js:58-62 | counts a notice as a `message` hit |
| EventCount.EventCountCollector.OnKick | src/collectors/eventcount.js:50-52 | counts a `kick` hit for the kicker |
| EventCount.EventCountCollector.OnMode | src/collectors/eventcount.js:54-56 | counts a `mode` hit |
| EventCount.EventCountCollector.OnTopic | src/collectors/eventcount.js:64-66 | counts a `topic` hit |
| EventCount.EventCountCollector.OnJoin | src/collector.js:6 | a join changes no counter |
| EventCount.EventCountCollector.OnNick | src/collector.js:9 | a nick change changes no counter |
| EventCount.EventCountCollector.OnPart | src/collector.js:11 | a part changes no counter |
| EventCount.EventCountCollector.OnQuit | src/collector.js:12 | a quit changes no counter |
| Sentiments.LeadingSpaces | src/collectors/sentiments.js:20 | the number of leading whitespace characters: all of them are spaces, and the next character is not |
| Sentiments.TrailingSpaces | src/collectors/sentiments.js:20 | the number of trailing whitespace characters: all of them are spaces, and the one before them is not |
| Sentiments.Trim | src/collectors/sentiments.js:20 | `trim` never lengthens a line, and leaves no whitespace at either end |
| Sentiments.TrimPadded | src/collectors/sentiments.js:20 | trimming whitespace padding off a body that neither starts nor ends with whitespace gives that body exactly |
| Sentiments.MatchLineIff | src/collectors/sentiments.js:18-21 | a line is accepted as word `w` with kind `k` if and only if both are non-empty lower-case ASCII words and the trimmed line is `w`, tab, `k`, tab, `1` |
| Sentiments.MatchLinePadded | src/collectors/sentiments.js:18-21 | surrounding whitespace does not stop a well-formed line from being accepted |
| Sentiments.Mark | src/collectors/sentiments.js:24-30 | an entry gains the key `sentiment` for `positive`/`negative`, and otherwise the kind itself |
| Sentiments.Matches | src/collectors/sentiments.js:19-20 | one match result per line |
| Sentiments.MatchesAt | src/collectors/sentiments.js:19-20 | the result at position `i` is line `i`'s match |
| Sentiments.LoadLinesStep | src/collectors/sentiments.js:19-32 | loading one more line adds that line's match to what the earlier lines loaded |
| Sentiments.LoadMatchesWords | src/collectors/sentiments.js:21-22 | a word is in the lexicon after loading if and only if it was there before or some accepted line named it |
| Sentiments.LoadLinesEmpty | src/collectors/sentiments.js:19-33 | loading into an empty lexicon gives an empty one if and only if no line is accepted |
| Sentiments.LoadMatchesWellScored | src/collectors/sentiments.js:24-30 | every score the lexicon holds is `1`, or `-1` under `sentiment` |
| Sentiments.AddMatchWellScored | src/collectors/sentiments.js:24-30 | one accepted line keeps every score at `1`, or `-1` under `sentiment` |
| Sentiments.LaterSentimentWins | src/collectors/sentiments.js:24-27 | a `positive` or `negative` line overwrites the word's earlier sentiment and keeps its other keys |
| Sentiments.GetWord | src/collectors/sentiments.js:36-40 | a found entry is one of the lexicon's entries, and there is none if and only if neither the word nor the word without one final `s` is in the lexicon |
| Sentiments.GetWordKnown | src/collectors/sentiments.js:37 | a word in the lexicon gives its own entry |
| Sentiments.GetWordPlural | src/collectors/sentiments.js:38 | an unknown word ending in `s` gives the entry of the word without that `s` |
| Sentiments.GetWordOneS | src/collectors/sentiments.js:38 | only one trailing `s` is stripped |
| Sentiments.Lower | src/collectors/sentiments.js:43 | lower-casing keeps the length and maps each character on its own |
| Sentiments.Normalize | src/collectors/sentiments.js:44 | only `a`-`z`, `0`-`9` and space survive, and the text never gets longer |
| Sentiments.NormalizeChar | src/collectors/sentiments.js:44 | a single character is kept if it is `a`-`z`, `0`-`9` or space, and is removed otherwise |
| Sentiments.Scored | src/collectors/sentiments.js:46-47 | at most one entry per token, each of them from the lexicon; no entries if and only if no token scores, and one per token if and only if every token scores |
| Sentiments.ScoredSingle | src/collectors/sentiments.js:46-47 | a list of one token scores exactly what that token scores |
| Sentiments.ScoreToken | src/collectors/sentiments.js:46-47 | a non-empty token that `getWord` finds scores exactly that entry, and any other token scores nothing; every entry comes from the lexicon |
| Sentiments.ScoredAppend | src/collectors/sentiments.js:46-47 | scoring is done token by token, so it distributes over concatenation |
| Sentiments.NormalizeAppend | src/collectors/sentiments.js:44 | stripping is done character by character, so it distributes over concatenation |
| Sentiments.NormalizeIdempotent | src/collectors/sentiments.js:43-44 | lower-casing and stripping again changes nothing |
| Sentiments.NormalizeKept | src/collectors/sentiments.js:44 | text made only of kept characters is left unchanged |
| Sentiments.GetWordsNormal | src/collectors/sentiments.js:42-48 | a message and its normalised form score the same words |
| Sentiments.GetWordsConcat | src/collectors/sentiments.js:42-48 | two texts joined by a space score the words of the first and then those of the second |
| Sentiments.GetWordsEmpty | src/collectors/sentiments.js:42-48 | the empty message scores no words |
| Sentiments.ExampleNormalised | test/collectors/sentiments/index.js:124-134 | `Let's hug! :)` becomes the tokens `lets`, `hug` and the empty token, and scores only `hug` |
| Sentiments.ExampleCapital | src/collectors/sentiments.js:18 | a line with an upper-case word is rejected |
| Sentiments.ExampleNotOne | src/collectors/sentiments.js:18 | a line whose flag is not `1` is rejected |
| Sentiments.ExampleCarriageReturn | src/collectors/sentiments.js:17-20 | a line that ends in `\r` is still accepted, because `trim` removes the carriage return |
| Sentiments.Combined | src/collectors/sentiments.js:50-61 | there is no score if and only if there are no words; otherwise the count is the number of words, and the keys are exactly the keys of the words |
| Sentiments.SumKeyAbsent | src/collectors/sentiments.js:54-60 | a key that no word has sums to 0 |
| Sentiments.SumKeyAppend | src/collectors/sentiments.js:53-61 | the sums, and the key sets, add up over concatenated word lists |
| Sentiments.CombinedSingle | src/collectors/sentiments.js:53-61 | one word's combined sums are that word's own scores |
| Sentiments.CombinedAppend | src/collectors/sentiments.js:53-61 | combining two non-empty lists adds their counts and their sums key by key |
| Sentiments.CombineScore | src/collectors/sentiments.js:50-61 | the loop's result is `Combined(words)` |
| Sentiments.AddScores | src/collectors/sentiments.js:54-60 | one word's keys are folded into the running sums, which then cover exactly the keys seen so far, each holding its total |
| Sentiments.ExampleCombined | test/collectors/sentiments/index.js:137-156 | three sample words combine into the sums `sentiment` -1, `joy` 1, `fear` 2 and `anger` 1, over a count of 3 |
| Sentiments.RecordAllMonth | src/collectors/sentiments.js:68-79 | after any sequence of posts, a month's words are the scored words of that month's posts, in order, and the month has an entry if and only if at least one word was scored |
| Sentiments.Setup | src/collectors/sentiments.js:6-33 | a successful construction leaves a non-empty lexicon with well-formed scores |
| Sentiments.SetupEmptyIff | src/collectors/sentiments.js:13-33 | a given lexicon file is rejected as empty if and only if loading it into the fresh lexicon leaves that lexicon empty |
| Sentiments.SentimentCollector.Blank | src/collectors/sentiments.js:8-9 | a blank collector has an empty lexicon and no months |
| Sentiments.SentimentCollector.Create | src/collectors/sentiments.js:6-14 | construction fails exactly when `Setup` does, with the same error (no config, no lexicon, or an empty lexicon); otherwise the collector holds `Setup`'s lexicon and no months |
| Sentiments.SentimentCollector.LoadLexicon | src/collectors/sentiments.js:16-34 | the lexicon becomes `LoadLines` of the old one over the file's lines; it fails exactly when the lexicon is empty afterwards |
| Sentiments.SentimentCollector.AddEntry | src/collectors/sentiments.js:21-31 | one line's match is recorded as `AddMatch` |
| Sentiments.SentimentCollector.Increment | src/collectors/sentiments.js:68-79 | the message's scored words are appended to its month, and an empty result changes nothing |
| Sentiments.SentimentCollector.OnAction | src/collectors/sentiments.js:81-83 | an action's text is scored into its month |
| Sentiments.SentimentCollector.OnMessage | src/collectors/sentiments.js:85-87 | a message's text is scored into its month |
| Sentiments.SentimentCollector.OnNotice | src/collectors/sentiments.js:89-93 | a notice's text is scored into its month, just like a message |
| Sentiments.SentimentCollector.OnJoin | src/collector.js:6 | a join changes nothing |
| Sentiments.SentimentCollector.OnKick | src/collector.js:7 | a kick changes nothing |
| Sentiments.SentimentCollector.OnMode | src/collector.js:8 | a mode change changes nothing |
| Sentiments.SentimentCollector.OnNick | src/collector.js:9 | a nick change changes nothing |
| Sentiments.SentimentCollector.OnPart | src/collector.js:11 | a part changes nothing |
| Sentiments.SentimentCollector.OnQuit | src/collector.js:12 | a quit changes nothing |
| Sentiments.SentimentCollector.OnTopic | src/collector.js:13 | a topic change changes nothing |

## Left out

- Log-line parsing (`parseLine` and its regular expressions), the writers, the command line, the driver and the progress bar are not part of this model. Only the `parseModeChanges` helper of the ZNC parser is modelled.
- `CombinedCollector` (`src/collector.js:18-71`) only forwards each handler to a list of collectors, so it is not part of this model.
- `save` of both collectors is left out. It hands the state to a writer callback. For the sentiment collector it also divides every sum by the word count in floating point, so `Combined` keeps each sum and the count and stops before that division.
- Time formatting with moment is left out. The day (`YYYY-MM-DD`), the hour (`H`) and the month (`YYYY-MM`) strings are inputs to the collectors. An event's `time` is an opaque integer that is carried through unchanged.
- Reading the lexicon file is left out. `LoadLexicon` takes the file's contents, and the configuration's `lexicon` is those contents.
- `fromJson` on a string (`JSON.parse`) is left out. Only the object path is modelled.
- Events.Reconstruct: JavaScript copies every key of the object onto the new instance, and leaves a missing field `undefined`. The model builds only the fields the class stores: it ignores extra keys and reports a missing or ill-typed field as `BadField`.
- Keys that JavaScript objects inherit from `Object.prototype` are left out, because maps in the model have no prototype. Such keys are `constructor`, `toString` and `__proto__`. Used as a nick, a lexicon word, a message word or a `fromJson` tag, they behave differently in the original.
- Strings in the model are sequences of Unicode scalar values, while JavaScript strings are UTF-16 code units. `split('')` in `updateModes` and `setAvailableModes` (`src/channel.js:41`, `src/channel.js:121`) and `modes[i]` in `parseModeChanges` (`src/parsers/znc.js:114-115`) see a character outside the Basic Multilingual Plane as two letters; the model sees it as one.
- `setAvailableModes` removes and installs letters one at a time (`forEach`); the model does each class's removals and installations as one map update per field, which gives the same table.
- Character handling is simplified. `toLowerCase` is modelled on ASCII only, so the few non-ASCII characters that JavaScript lower-cases into `a`-`z` (such as U+212A, the Kelvin sign) are simply stripped. `trim` uses the full JavaScript whitespace and line-terminator set.
- ChannelModel.Channel.ApplyKick: it states the victim's merged attributes only when the victim is a different object with a different nick, and does not already share the author's record. With aliasing, the second merge can overwrite the first, and the contract says nothing about it.
- ChannelModel.Channel.Apply: it inherits the `ApplyKick` restriction for `Kick` events, through `Applied`.
- Sentiments.SetupEmptyIff: it states emptiness in terms of `LoadLines`, not of the individual lines. `Sentiments.LoadLinesEmpty` then gives the per-line form: no line is accepted.
- `setAvailableModes` throws only when a letter is added under two classes. When a letter that already has a class is listed both under that class and under a different one, it is added only once, so the code does not throw. The letter is moved to the new class and its old storage stays behind. The model follows the code (`Modes.SetAvailableReclassifies`).
- In the model `apply` cannot fail, because no event calls `setAvailableModes`, so `AddEvent` always appends.
- A mode instruction's parameter is `Option<string>`; `undefined` is `None`. The `typeof param === 'string'` checks are modelled as `Some` of a non-empty string.
- Lexicon entries are never changed after loading. `months` therefore holds entries as values, and the sharing of entry objects between `lexicon` and `months` is not modelled.
