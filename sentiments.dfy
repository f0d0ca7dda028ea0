/** The sentiment collector: a word lexicon read from lines of `word TAB type TAB 1`, the
    scored words of each message, gathered per month, and their per-key sums. The month key
    (a `YYYY-MM` rendering of the event time) and the lexicon file's contents are inputs. */
module Sentiments {
  import opened Wrappers
  import Text

  /** The scores of one lexicon word: `sentiment` (1 or -1) and one flag per emotion. */
  type Entry = map<string, int>

  type Lexicon = map<string, Entry>

  // ---- lexicon lines -------------------------------------------------------------------

  /** The characters `String.prototype.trim` removes: ECMAScript WhiteSpace and
      LineTerminator. */
  predicate IsSpace(c: char) {
    c in Spaces || ('\U{2000}' <= c <= '\U{200A}')
  }

  const Spaces: set<char> := {'\t', '\n', '\U{000B}', '\U{000C}', '\r', ' ', '\U{00A0}', '\U{1680}',
    '\U{2028}', '\U{2029}', '\U{202F}', '\U{205F}', '\U{3000}', '\U{FEFF}'}

  predicate AllSpace(s: string) {
    forall i :: 0 <= i < |s| ==> IsSpace(s[i])
  }

  /** The number of white-space characters `s` starts with. */
  function LeadingSpaces(s: string): (n: nat)
    ensures n <= |s| && AllSpace(s[..n])
    ensures n < |s| ==> !IsSpace(s[n])
    decreases |s|
  {
    if s == [] || !IsSpace(s[0]) then 0
    else
      var n := 1 + LeadingSpaces(s[1..]);
      assert s[..n] == [s[0]] + s[1..][..n - 1];
      n
  }

  /** The number of white-space characters `s` ends with. */
  function TrailingSpaces(s: string): (n: nat)
    ensures n <= |s| && AllSpace(s[|s| - n..])
    ensures n < |s| ==> !IsSpace(s[|s| - n - 1])
    decreases |s|
  {
    if s == [] || !IsSpace(s[|s| - 1]) then 0
    else
      var m := TrailingSpaces(s[..|s| - 1]);
      TrailingStep(s, m);
      1 + m
  }

  /** One more white-space character at the end extends an all-space suffix by one. */
  lemma TrailingStep(s: string, m: nat)
    requires |s| >= 1 && m <= |s| - 1 && IsSpace(s[|s| - 1])
    requires AllSpace(s[..|s| - 1][|s| - 1 - m..])
    ensures AllSpace(s[|s| - 1 - m..])
    ensures m + 1 < |s| ==> s[|s| - m - 2] == s[..|s| - 1][|s| - 1 - m - 1]
  {
    var p := s[..|s| - 1][|s| - 1 - m..];
    var q := s[|s| - 1 - m..];
    forall i | 0 <= i < |q| ensures IsSpace(q[i]) {
      if i < m { assert q[i] == p[i]; }
    }
  }

  /** `s.trim()`: `s` without its leading and trailing white space. */
  function Trim(s: string): (r: string)
    ensures |r| <= |s|
    ensures r == [] || (!IsSpace(r[0]) && !IsSpace(r[|r| - 1]))
  {
    var t := s[LeadingSpaces(s)..];
    t[..|t| - TrailingSpaces(t)]
  }

  /** Trimming removes exactly the white-space padding around a body that neither starts nor
      ends with white space. */
  lemma TrimPadded(pre: string, body: string, post: string)
    requires AllSpace(pre) && AllSpace(post)
    requires body == [] || (!IsSpace(body[0]) && !IsSpace(body[|body| - 1]))
    ensures Trim(pre + body + post) == body
  {
    var rest := body + post;
    var s := pre + rest;
    assert pre + body + post == s;
    if body == [] {
      assert rest == post;
      LeadingPadded(pre, post);
      TrimAllSpace(s);
    } else {
      assert rest[0] == body[0];
      assert !AllSpace(rest) by { assert !IsSpace(rest[0]); }
      LeadingPadded(pre, rest);
      TrailingPadded(body, post);
    }
  }

  /** A string whose leading white space is all of it trims to nothing. */
  lemma TrimAllSpace(s: string)
    requires s[LeadingSpaces(s)..] == []
    ensures Trim(s) == []
  {
  }

  lemma LeadingPadded(pre: string, rest: string)
    requires AllSpace(pre) && (rest == [] || !IsSpace(rest[0]) || AllSpace(rest))
    ensures (pre + rest)[LeadingSpaces(pre + rest)..] == (if AllSpace(rest) then [] else rest)
  {
    var s := pre + rest;
    if AllSpace(rest) {
      assert s[..|s|] == s;
      LeadingExact(s, |s|);
    } else {
      assert s[..|pre|] == pre && s[|pre|] == rest[0];
      LeadingExact(s, |pre|);
      assert s[|pre|..] == rest;
    }
  }

  /** `LeadingSpaces` counts exactly the white space before the first other character. */
  lemma {:induction false} LeadingExact(s: string, k: nat)
    requires k <= |s| && AllSpace(s[..k]) && (k < |s| ==> !IsSpace(s[k]))
    ensures LeadingSpaces(s) == k
    decreases k
  {
    if k > 0 {
      assert s[..k][0] == s[0];
      assert s[1..][..k - 1] == s[..k][1..];
      LeadingExact(s[1..], k - 1);
    }
  }

  lemma TrailingPadded(body: string, post: string)
    requires body != [] && !IsSpace(body[|body| - 1]) && AllSpace(post)
    ensures var t := body + post; t[..|t| - TrailingSpaces(t)] == body
  {
    var t := body + post;
    assert t[|t| - |post|..] == post && t[|t| - |post| - 1] == body[|body| - 1];
    TrailingExact(t, |post|);
    assert t[..|t| - |post|] == body;
  }

  /** `TrailingSpaces` counts exactly the white space after the last other character. */
  lemma {:induction false} TrailingExact(s: string, k: nat)
    requires k <= |s| && AllSpace(s[|s| - k..]) && (k < |s| ==> !IsSpace(s[|s| - k - 1]))
    ensures TrailingSpaces(s) == k
    decreases k
  {
    if k > 0 {
      var init := s[..|s| - 1];
      assert s[|s| - k..][k - 1] == s[|s| - 1];
      assert init[|init| - (k - 1)..] == s[|s| - k..][..k - 1];
      TrailingExact(init, k - 1);
    }
  }

  predicate IsLetter(c: char) {
    'a' <= c <= 'z'
  }

  /** A `[a-z]+` match. */
  predicate IsWord(w: string) {
    |w| > 0 && forall i :: 0 <= i < |w| ==> IsLetter(w[i])
  }

  /** The `word` and `type` groups of a lexicon line. */
  datatype LexiconLine = LexiconLine(word: string, kind: string)

  /** Matching the trimmed line against `^(?<word>[a-z]+)\t(?<type>[a-z]+)\t1$`. */
  function MatchLine(line: string): Option<LexiconLine> {
    var parts := Text.Split(Trim(line), '\t');
    if |parts| == 3 && IsWord(parts[0]) && IsWord(parts[1]) && parts[2] == "1" then
      Some(LexiconLine(parts[0], parts[1]))
    else None
  }

  /** A line is accepted, with these groups, exactly when its trimmed form is the word, a tab,
      the type, a tab and `1`, and both groups are runs of lower-case letters. */
  lemma MatchLineIff(line: string, w: string, k: string)
    ensures MatchLine(line) == Some(LexiconLine(w, k)) <==> IsWord(w) && IsWord(k) && Trim(line) == w + "\t" + k + "\t1"
  {
    var t := Trim(line);
    var parts := Text.Split(t, '\t');
    Text.JoinSplit(t, '\t');
    if |parts| == 3 {
      JoinThree(parts);
    }
    if IsWord(w) && IsWord(k) && t == w + "\t" + k + "\t1" {
      var ts := [w, k, "1"];
      JoinThree(ts);
      assert Text.Join(ts, '\t') == t;
      forall i | 0 <= i < 3 ensures '\t' !in ts[i] {
        if i < 2 { assert forall j :: 0 <= j < |ts[i]| ==> IsLetter(ts[i][j]); }
      }
      Text.SplitJoin(ts, '\t');
    }
  }

  lemma JoinThree(parts: seq<string>)
    requires |parts| == 3
    ensures Text.Join(parts, '\t') == parts[0] + "\t" + parts[1] + "\t" + parts[2]
  {
    assert parts[1..][1..] == parts[2..];
    assert Text.Join(parts[2..], '\t') == parts[2];
  }

  /** A Windows line ending or surrounding blanks do not stop a line from being accepted. */
  lemma MatchLinePadded(w: string, k: string, pre: string, post: string)
    requires IsWord(w) && IsWord(k) && AllSpace(pre) && AllSpace(post)
    ensures MatchLine(pre + (w + "\t" + k + "\t1") + post) == Some(LexiconLine(w, k))
  {
    var body := w + "\t" + k + "\t1";
    assert body[0] == w[0];
    TrimPadded(pre, body, post);
    MatchLineIff(pre + body + post, w, k);
  }

  /** How an accepted line changes its word's entry: `positive` and `negative` set the
      sentiment to 1 and -1, every other type sets a flag of that name to 1. */
  function Mark(entry: Entry, kind: string): (r: Entry)
    ensures r.Keys == entry.Keys + {if kind in {"positive", "negative"} then "sentiment" else kind}
  {
    if kind == "positive" then entry["sentiment" := 1]
    else if kind == "negative" then entry["sentiment" := -1]
    else entry[kind := 1]
  }

  /** The match of every line, in order. */
  function Matches(lines: seq<string>): (ms: seq<Option<LexiconLine>>)
    ensures |ms| == |lines|
    decreases |lines|
  {
    if lines == [] then [] else Matches(lines[..|lines| - 1]) + [MatchLine(lines[|lines| - 1])]
  }

  lemma {:induction false} MatchesAt(lines: seq<string>, i: int)
    requires 0 <= i < |lines|
    ensures Matches(lines)[i] == MatchLine(lines[i])
    decreases |lines|
  {
    if i < |lines| - 1 {
      MatchesAt(lines[..|lines| - 1], i);
    }
  }

  /** One step of `loadLexicon`'s `forEach`: for an accepted line, the word's entry is
      created on first use, then marked; a rejected line changes nothing. */
  function AddMatch(lex: Lexicon, m: Option<LexiconLine>): Lexicon {
    match m
    case None => lex
    case Some(l) => lex[l.word := Mark(if l.word in lex then lex[l.word] else map[], l.kind)]
  }

  function LoadMatches(lex: Lexicon, ms: seq<Option<LexiconLine>>): Lexicon
    decreases |ms|
  {
    if ms == [] then lex else AddMatch(LoadMatches(lex, ms[..|ms| - 1]), ms[|ms| - 1])
  }

  /** The lexicon after `loadLexicon` reads these lines in order. */
  function LoadLines(lex: Lexicon, lines: seq<string>): Lexicon {
    LoadMatches(lex, Matches(lines))
  }

  lemma LoadLinesStep(lex: Lexicon, lines: seq<string>, i: int)
    requires 0 <= i < |lines|
    ensures LoadMatches(lex, Matches(lines[..i + 1])) == AddMatch(LoadMatches(lex, Matches(lines[..i])), MatchLine(lines[i]))
  {
    MatchesSnoc(lines[..i + 1], lines[..i], lines[i]);
    LoadMatchesSnoc(lex, Matches(lines[..i]), MatchLine(lines[i]));
  }

  lemma MatchesSnoc(longer: seq<string>, lines: seq<string>, line: string)
    requires longer == lines + [line]
    ensures Matches(longer) == Matches(lines) + [MatchLine(line)]
  {
    assert longer[..|longer| - 1] == lines;
  }

  lemma LoadMatchesSnoc(lex: Lexicon, ms: seq<Option<LexiconLine>>, m: Option<LexiconLine>)
    ensures LoadMatches(lex, ms + [m]) == AddMatch(LoadMatches(lex, ms), m)
  {
    assert (ms + [m])[..|ms|] == ms;
  }

  /** Some match is for word `w`. */
  predicate Accepted(ms: seq<Option<LexiconLine>>, w: string) {
    exists i :: 0 <= i < |ms| && ms[i].Some? && ms[i].value.word == w
  }

  /** The lexicon's words are those it had plus the words of the accepted lines (line `i`
      of `lines` has match `Matches(lines)[i]`). */
  lemma {:induction false} LoadMatchesWords(lex: Lexicon, ms: seq<Option<LexiconLine>>, w: string)
    ensures w in LoadMatches(lex, ms) <==> w in lex || Accepted(ms, w)
    decreases |ms|
  {
    if ms != [] {
      var init := ms[..|ms| - 1];
      LoadMatchesWords(lex, init, w);
      if Accepted(init, w) {
        var i :| 0 <= i < |init| && init[i].Some? && init[i].value.word == w;
        assert ms[i] == init[i];
      }
      if Accepted(ms, w) {
        var i :| 0 <= i < |ms| && ms[i].Some? && ms[i].value.word == w;
        if i < |init| {
          assert init[i] == ms[i];
        }
      }
    }
  }

  /** The lexicon stays empty exactly when no line is accepted, which `loadLexicon` reports. */
  lemma LoadLinesEmpty(lines: seq<string>)
    ensures LoadLines(map[], lines) == map[] <==> forall i :: 0 <= i < |lines| ==> MatchLine(lines[i]).None?
  {
    var ms := Matches(lines);
    if LoadLines(map[], lines) == map[] {
      forall i | 0 <= i < |lines| ensures MatchLine(lines[i]).None? {
        MatchesAt(lines, i);
        if ms[i].Some? {
          LoadMatchesWords(map[], ms, ms[i].value.word);
        }
      }
    } else {
      var w :| w in LoadLines(map[], lines);
      LoadMatchesWords(map[], ms, w);
      var i :| 0 <= i < |ms| && ms[i].Some? && ms[i].value.word == w;
      MatchesAt(lines, i);
    }
  }

  /** Every entry has some score, every flag is 1 and a sentiment is 1 or -1. */
  predicate WellScored(lex: Lexicon) {
    forall w :: w in lex ==> |lex[w]| > 0 && forall k :: k in lex[w] ==> lex[w][k] == 1 || (k == "sentiment" && lex[w][k] == -1)
  }

  lemma {:induction false} LoadMatchesWellScored(lex: Lexicon, ms: seq<Option<LexiconLine>>)
    requires WellScored(lex)
    ensures WellScored(LoadMatches(lex, ms))
    decreases |ms|
  {
    if ms != [] {
      LoadMatchesWellScored(lex, ms[..|ms| - 1]);
      AddMatchWellScored(LoadMatches(lex, ms[..|ms| - 1]), ms[|ms| - 1]);
    }
  }

  lemma AddMatchWellScored(lex: Lexicon, m: Option<LexiconLine>)
    requires WellScored(lex)
    ensures WellScored(AddMatch(lex, m))
  {
    if m.Some? {
      var w0 := m.value.word;
      var e := if w0 in lex then lex[w0] else map[];
      var key := if m.value.kind in {"positive", "negative"} then "sentiment" else m.value.kind;
      var marked := Mark(e, m.value.kind);
      assert key in marked;
      assert forall k :: k in marked ==> marked[k] == 1 || (k == "sentiment" && marked[k] == -1);
      assert AddMatch(lex, m) == lex[w0 := marked];
    }
  }

  /** A `positive` or `negative` line for a word overrides the sentiment an earlier line set;
      the entry's other flags stay. */
  lemma LaterSentimentWins(lex: Lexicon, w: string, k: string)
    requires k in {"positive", "negative"}
    ensures var r := AddMatch(lex, Some(LexiconLine(w, k)));
      && w in r && r[w]["sentiment"] == (if k == "positive" then 1 else -1)
      && (w in lex ==> forall f :: f in lex[w] && f != "sentiment" ==> f in r[w] && r[w][f] == lex[w][f])
  {
  }

  // ---- words of a message --------------------------------------------------------------

  /** `getWord(word)`: the word's entry or, failing that, the entry of the word without one
      final `s`; otherwise null. */
  function GetWord(lex: Lexicon, w: string): (r: Option<Entry>)
    ensures r.Some? ==> r.value in lex.Values
    ensures r == None <==> w !in lex && !(|w| > 0 && w[|w| - 1] == 's' && w[..|w| - 1] in lex)
  {
    if w in lex then Some(lex[w])
    else if |w| > 0 && w[|w| - 1] == 's' && w[..|w| - 1] in lex then Some(lex[w[..|w| - 1]])
    else None
  }

  /** A known word is its own entry, even when its singular is known too. */
  lemma GetWordKnown(lex: Lexicon, w: string)
    requires w in lex
    ensures GetWord(lex, w) == Some(lex[w])
  {
  }

  /** An unknown plural falls back to its singular... */
  lemma GetWordPlural(lex: Lexicon, w: string)
    requires w in lex && w + "s" !in lex
    ensures GetWord(lex, w + "s") == Some(lex[w])
  {
    var p := w + "s";
    assert p !in lex && |p| > 0 && p[|p| - 1] == 's';
    assert p[..|p| - 1] == w;
  }

  /** ...but only one `s` is removed. */
  lemma GetWordOneS(lex: Lexicon, w: string)
    requires w + "ss" !in lex && w + "s" !in lex
    ensures GetWord(lex, w + "ss") == None
  {
    var p := w + "ss";
    assert p !in lex && |p| > 0 && p[|p| - 1] == 's';
    assert p[..|p| - 1] == w + "s";
  }

  /** ASCII `toLowerCase`. */
  function LowerChar(c: char): char {
    if 'A' <= c <= 'Z' then (c as int + 32) as char else c
  }

  function Lower(s: string): (r: string)
    ensures |r| == |s| && forall i :: 0 <= i < |s| ==> r[i] == LowerChar(s[i])
  {
    seq(|s|, i requires 0 <= i < |s| => LowerChar(s[i]))
  }

  predicate Kept(c: char) {
    ('a' <= c <= 'z') || ('0' <= c <= '9') || c == ' '
  }

  /** `.replace(/[^a-z0-9 ]/g, '')`: only letters, digits and spaces stay, in order. */
  function Normalize(s: string): (r: string)
    ensures forall i :: 0 <= i < |r| ==> Kept(r[i])
    ensures |r| <= |s|
    decreases |s|
  {
    if s == [] then [] else (if Kept(s[0]) then [s[0]] else []) + Normalize(s[1..])
  }

  /** A single character stays if it is kept and is dropped (not replaced) otherwise; with
      `NormalizeAppend` this fixes `Normalize` on every string. */
  lemma NormalizeChar(c: char)
    ensures Normalize([c]) == (if Kept(c) then [c] else [])
  {
    assert [c][1..] == [];
  }

  /** The space-separated tokens of the normalised message (`.split(/ /)`). */
  function Tokens(message: string): seq<string> {
    Text.Split(Normalize(Lower(message)), ' ')
  }

  /** `.map(word => word.length > 0 ? this.getWord(word) : null).filter(result => result !== null)`. */
  function Scored(lex: Lexicon, tokens: seq<string>): (r: seq<Entry>)
    ensures |r| <= |tokens|
    ensures forall i :: 0 <= i < |r| ==> r[i] in lex.Values
    ensures r == [] <==> forall i :: 0 <= i < |tokens| ==> ScoreToken(lex, tokens[i]) == []
    ensures |r| == |tokens| <==> forall i :: 0 <= i < |tokens| ==> |ScoreToken(lex, tokens[i])| == 1
    decreases |tokens|
  {
    if tokens == [] then []
    else
      var rest := Scored(lex, tokens[1..]);
      assert forall i :: 1 <= i < |tokens| ==> tokens[i] == tokens[1..][i - 1];
      ScoreToken(lex, tokens[0]) + rest
  }

  /** A single token scores as `ScoreToken` says; with `ScoredAppend` this fixes `Scored` on
      every token list. */
  lemma ScoredSingle(lex: Lexicon, t: string)
    ensures Scored(lex, [t]) == ScoreToken(lex, t)
  {
    assert [t][1..] == [];
  }

  /** One token's part of the result: its entry, if it is non-empty and has one. */
  function ScoreToken(lex: Lexicon, t: string): (r: seq<Entry>)
    ensures |r| <= 1 && forall i :: 0 <= i < |r| ==> r[i] in lex.Values
    ensures |t| > 0 && GetWord(lex, t).Some? ==> r == [GetWord(lex, t).value]
    ensures r != [] ==> |t| > 0 && GetWord(lex, t).Some?
  {
    if |t| > 0 && GetWord(lex, t).Some? then [GetWord(lex, t).value] else []
  }

  /** `getWords(message)`: the entries of the message's scored words, in order. */
  function GetWords(lex: Lexicon, message: string): seq<Entry> {
    Scored(lex, Tokens(message))
  }

  lemma {:induction false} ScoredAppend(lex: Lexicon, a: seq<string>, b: seq<string>)
    ensures Scored(lex, a + b) == Scored(lex, a) + Scored(lex, b)
    decreases |a|
  {
    if a != [] {
      assert (a + b)[0] == a[0] && (a + b)[1..] == a[1..] + b;
      ScoredAppend(lex, a[1..], b);
      assert Scored(lex, a + b) == ScoreToken(lex, a[0]) + (Scored(lex, a[1..]) + Scored(lex, b));
    } else {
      assert a + b == b;
    }
  }

  lemma {:induction false} NormalizeAppend(a: string, b: string)
    ensures Normalize(a + b) == Normalize(a) + Normalize(b)
    decreases |a|
  {
    if a != [] {
      assert (a + b)[0] == a[0] && (a + b)[1..] == a[1..] + b;
      NormalizeAppend(a[1..], b);
      var h := if Kept(a[0]) then [a[0]] else [];
      assert Normalize(a + b) == h + (Normalize(a[1..]) + Normalize(b));
    } else {
      assert a + b == b;
    }
  }

  /** Lower-casing and normalising the kept characters changes nothing more. */
  lemma {:induction false} NormalizeIdempotent(s: string)
    ensures Normalize(Lower(Normalize(Lower(s)))) == Normalize(Lower(s))
    decreases |s|
  {
    var n := Normalize(Lower(s));
    assert Lower(n) == n;
    NormalizeKept(n);
  }

  lemma {:induction false} NormalizeKept(s: string)
    requires forall i :: 0 <= i < |s| ==> Kept(s[i])
    ensures Normalize(s) == s
    decreases |s|
  {
    if s != [] {
      NormalizeKept(s[1..]);
    }
  }

  /** A message is scored as its own normal form would be. */
  lemma GetWordsNormal(lex: Lexicon, message: string)
    ensures GetWords(lex, Normalize(Lower(message))) == GetWords(lex, message)
  {
    NormalizeIdempotent(message);
  }

  /** Scoring two messages joined by a space gives the scores of the first, then those of the
      second. */
  lemma GetWordsConcat(lex: Lexicon, a: string, b: string)
    ensures GetWords(lex, a + " " + b) == GetWords(lex, a) + GetWords(lex, b)
  {
    assert Lower(a + " " + b) == Lower(a) + " " + Lower(b);
    NormalizeAppend(Lower(a) + " ", Lower(b));
    NormalizeAppend(Lower(a), " ");
    assert Normalize(" ") == " ";
    Text.SplitAround(Normalize(Lower(a)), Normalize(Lower(b)), ' ');
    ScoredAppend(lex, Tokens(a), Tokens(b));
  }

  /** An empty message has no scored words. */
  lemma GetWordsEmpty(lex: Lexicon)
    ensures GetWords(lex, "") == []
  {
  }

  // ---- combined score ------------------------------------------------------------------

  /** The keys that occur in any of the entries. */
  function KeysOf(words: seq<Entry>): set<string>
    decreases |words|
  {
    if words == [] then {} else KeysOf(words[..|words| - 1]) + words[|words| - 1].Keys
  }

  /** A key's score, with an absent key read as 0. */
  function ScoreOf(e: Entry, k: string): int {
    if k in e then e[k] else 0
  }

  /** The sum of one key's scores over the entries. */
  function SumKey(words: seq<Entry>, k: string): int
    decreases |words|
  {
    if words == [] then 0 else SumKey(words[..|words| - 1], k) + ScoreOf(words[|words| - 1], k)
  }

  /** What `combineScore` averages: the per-key sums and the number of entries they are
      divided by. */
  datatype Score = Score(sums: map<string, int>, count: nat)

  /** `combineScore(words)` before its division: null for no entries, otherwise each key that
      occurs with its sum. */
  function Combined(words: seq<Entry>): (r: Option<Score>)
    ensures r.None? <==> words == []
    ensures r.Some? ==> r.value.count == |words| && r.value.sums.Keys == KeysOf(words)
  {
    if words == [] then None
    else Some(Score(map k | k in KeysOf(words) :: SumKey(words, k), |words|))
  }

  lemma {:induction false} SumKeyAbsent(words: seq<Entry>, k: string)
    requires k !in KeysOf(words)
    ensures SumKey(words, k) == 0
    decreases |words|
  {
    if words != [] {
      SumKeyAbsent(words[..|words| - 1], k);
    }
  }

  lemma {:induction false} SumKeyAppend(a: seq<Entry>, b: seq<Entry>, k: string)
    ensures SumKey(a + b, k) == SumKey(a, k) + SumKey(b, k)
    ensures KeysOf(a + b) == KeysOf(a) + KeysOf(b)
    decreases |b|
  {
    if b != [] {
      assert (a + b)[..|a + b| - 1] == a + b[..|b| - 1];
      SumKeyAppend(a, b[..|b| - 1], k);
    } else {
      assert a + b == a;
    }
  }

  /** One entry combines to itself. */
  lemma CombinedSingle(w: Entry)
    ensures Combined([w]) == Some(Score(w, 1))
  {
    assert [w][..0] == [];
    assert KeysOf([w]) == w.Keys;
    assert forall k :: SumKey([w], k) == ScoreOf(w, k);
    assert (map k | k in KeysOf([w]) :: SumKey([w], k)) == w;
  }

  /** Gathering the entries of two months gives the per-key sums added up. */
  lemma CombinedAppend(a: seq<Entry>, b: seq<Entry>, k: string)
    requires a != [] && b != []
    ensures var ra, rb, r := Combined(a).value, Combined(b).value, Combined(a + b).value;
      && r.count == ra.count + rb.count
      && (k in r.sums <==> k in ra.sums || k in rb.sums)
      && (k in r.sums ==> r.sums[k] == ScoreOf(ra.sums, k) + ScoreOf(rb.sums, k))
  {
    SumKeyAppend(a, b, k);
    if k !in KeysOf(a) { SumKeyAbsent(a, k); }
    if k !in KeysOf(b) { SumKeyAbsent(b, k); }
  }

  /** `combineScore(words)` up to its division: a null result for no entries, else each key
      that occurs, with its scores added up (an absent key counting 0), and the number of
      entries. */
  method CombineScore(words: seq<Entry>) returns (r: Option<Score>)
    ensures r == Combined(words)
  {
    if |words| == 0 {
      return None;
    }
    var result: map<string, int> := map[];
    for i := 0 to |words|
      invariant result.Keys == KeysOf(words[..i])
      invariant forall k :: k in result ==> result[k] == SumKey(words[..i], k)
    {
      result := AddScores(result, words[..i], words[i]);
      assert words[..i + 1][..i] == words[..i];
    }
    assert words[..|words|] == words;
    assert result == map k | k in KeysOf(words) :: SumKey(words, k);
    r := Some(Score(result, |words|));
  }

  /** The inner `forEach` of `combineScore`: every key of `word` is added to the sums of the
      entries before it. */
  method AddScores(result: map<string, int>, before: seq<Entry>, word: Entry) returns (r: map<string, int>)
    requires result.Keys == KeysOf(before)
    requires forall k :: k in result ==> result[k] == SumKey(before, k)
    ensures r.Keys == KeysOf(before + [word])
    ensures forall k :: k in r ==> r[k] == SumKey(before + [word], k)
  {
    r := result;
    var keys := word.Keys;
    ghost var done: set<string> := {};
    while keys != {}
      invariant keys + done == word.Keys && keys !! done
      invariant r.Keys == KeysOf(before) + done
      invariant forall k :: k in r ==> r[k] == SumKey(before, k) + (if k in done then word[k] else 0)
      decreases keys
    {
      var key :| key in keys;
      if key !in r {
        SumKeyAbsent(before, key);
        r := r[key := word[key]];
      } else {
        r := r[key := r[key] + word[key]];
      }
      keys := keys - {key};
      done := done + {key};
    }
    assert (before + [word])[..|before|] == before;
  }

  // ---- per-month gathering -------------------------------------------------------------

  /** The entries gathered for a month, none if it has none yet. */
  function MonthWords(months: map<string, seq<Entry>>, month: string): seq<Entry> {
    if month in months then months[month] else []
  }

  /** `increment`'s effect: nothing when the message has no scored word, otherwise the
      month's list extended with them (created on first use). */
  function Record(months: map<string, seq<Entry>>, month: string, words: seq<Entry>): map<string, seq<Entry>> {
    if words == [] then months else months[month := MonthWords(months, month) + words]
  }

  /** A message: its month key and its text. */
  datatype Post = Post(month: string, text: string)

  /** The months after incrementing with each post in order, from no months. */
  function RecordAll(lex: Lexicon, posts: seq<Post>): map<string, seq<Entry>>
    decreases |posts|
  {
    if posts == [] then map[]
    else
      var p := posts[|posts| - 1];
      Record(RecordAll(lex, posts[..|posts| - 1]), p.month, GetWords(lex, p.text))
  }

  /** The scored words of the posts of one month, in order. */
  function WordsIn(lex: Lexicon, posts: seq<Post>, month: string): seq<Entry>
    decreases |posts|
  {
    if posts == [] then []
    else
      var p := posts[|posts| - 1];
      WordsIn(lex, posts[..|posts| - 1], month) + (if p.month == month then GetWords(lex, p.text) else [])
  }

  /** A month's list is the scored words of that month's posts, in order, and a month is
      present exactly when one of its posts had a scored word. */
  lemma {:induction false} RecordAllMonth(lex: Lexicon, posts: seq<Post>, month: string)
    ensures MonthWords(RecordAll(lex, posts), month) == WordsIn(lex, posts, month)
    ensures month in RecordAll(lex, posts) <==> WordsIn(lex, posts, month) != []
    decreases |posts|
  {
    if posts != [] {
      RecordAllMonth(lex, posts[..|posts| - 1], month);
    }
  }

  /** Config of the collector: the lexicon file's contents, when the `lexicon` key is given. */
  datatype Config = Config(lexicon: Option<string>)

  /** Why the collector could not be set up. */
  datatype SetupError =
    | MissingConfig   // 'Config object is required'
    | MissingLexicon  // 'Invalid config: \'lexicon\' is required'
    | EmptyLexicon    // 'Invalid lexicon: no valid lines found, ...'

  /** What `loadLexicon` reports once all lines are read. */
  function LoadOutcome(lex: Lexicon): Outcome<SetupError> {
    if |lex| == 0 then Fail(EmptyLexicon) else Pass
  }

  /** The lexicon the constructor ends with, or the error it throws. */
  function Setup(config: Option<Config>): (r: Result<Lexicon, SetupError>)
    ensures r.Ok? ==> r.value != map[] && WellScored(r.value)
  {
    if config.None? then Err(MissingConfig)
    else if config.value.lexicon.None? then Err(MissingLexicon)
    else
      var lex := LoadLines(map[], Text.Split(config.value.lexicon.value, '\n'));
      LoadMatchesWellScored(map[], Matches(Text.Split(config.value.lexicon.value, '\n')));
      if |lex| == 0 then Err(EmptyLexicon) else Ok(lex)
  }

  /** Set-up fails for an empty lexicon exactly when loading the file's lines leaves the
      lexicon empty, which by `LoadLinesEmpty` is when no line is accepted. */
  lemma SetupEmptyIff(contents: string)
    ensures Setup(Some(Config(Some(contents)))) == Err(EmptyLexicon) <==> LoadLines(map[], Text.Split(contents, '\n')) == map[]
  {
    var lines := Text.Split(contents, '\n');
    var lex := LoadLines(map[], lines);
    assert |lex| == 0 <==> lex == map[];
    assert Setup(Some(Config(Some(contents)))) == if |lex| == 0 then Err(EmptyLexicon) else Ok(lex);
  }

  // ---- examples ------------------------------------------------------------------------

  const Hug: Entry := map["sentiment" := 1, "joy" := 1]
  const Haunt: Entry := map["sentiment" := -1, "fear" := 1]
  const Intruder: Entry := map["sentiment" := -1, "fear" := 1, "anger" := 1]
  const Sample: Lexicon := map["hug" := Hug, "haunt" := Haunt, "intruder" := Intruder]

  /** Punctuation is dropped before the split, so "Let's" is looked up as "lets" (and "let"),
      "hug!" as "hug", and the empty token after the trailing space not at all. */
  lemma ExampleNormalised()
    ensures Tokens("Let's hug! :)") == ["lets", "hug", ""]
    ensures GetWords(Sample, "Let's hug! :)") == [Hug]
  {
    ExampleTokens();
    ExampleScored();
  }

  lemma ExampleScored()
    ensures Scored(Sample, ["lets", "hug", ""]) == [Hug]
  {
    assert "lets"[..3] == "let";
    assert ScoreToken(Sample, "lets") == [];
    assert ScoreToken(Sample, "hug") == [Hug];
    assert ["lets", "hug", ""][1..] == ["hug", ""] && ["hug", ""][1..] == [""] && [""][1..] == [];
  }

  lemma ExampleTokens()
    ensures Tokens("Let's hug! :)") == ["lets", "hug", ""]
  {
    ExampleLower();
    ExampleNormalize();
    ExampleSplit();
  }

  lemma ExampleLower()
    ensures Lower("Let's hug! :)") == "let" + "'" + "s" + " " + "hug" + "! :)"
  {
  }

  lemma ExampleNormalize()
    ensures Normalize("let" + "'" + "s" + " " + "hug" + "! :)") == "lets" + " " + ("hug" + " " + "")
  {
    NormalizeLets();
    NormalizeTail();
    assert "let" + "'" + "s" + " " + "hug" + "! :)" == ("let" + "'" + "s") + (" " + "hug" + "! :)");
    NormalizeAppend("let" + "'" + "s", " " + "hug" + "! :)");
  }

  lemma NormalizeLets()
    ensures Normalize("let" + "'" + "s") == "lets"
  {
    NormalizeKept("let");
    NormalizeKept("s");
    assert Normalize("'") == [];
    NormalizeAppend("let" + "'", "s");
    NormalizeAppend("let", "'");
  }

  lemma NormalizeTail()
    ensures Normalize(" " + "hug" + "! :)") == " " + ("hug" + " " + "")
  {
    NormalizeKept(" " + "hug");
    assert Normalize("! :)") == " ";
    NormalizeAppend(" " + "hug", "! :)");
  }

  lemma ExampleSplit()
    ensures Text.Split("lets" + " " + ("hug" + " " + ""), ' ') == ["lets", "hug", ""]
  {
    Text.SplitAround("lets", "hug" + " " + "", ' ');
    Text.SplitAround("hug", "", ' ');
    Text.SplitNoSep("lets", ' ');
    Text.SplitNoSep("hug", ' ');
  }

  /** A line with the word capitalised is rejected... */
  lemma ExampleCapital()
    ensures MatchLine("Hug\tjoy\t1") == None
  {
    ExampleLineParts("Hug", "joy", "1");
    assert "Hug" + "\t" + "joy" + "\t" + "1" == "Hug\tjoy\t1";
    assert !IsLetter("Hug"[0]);
  }

  /** ...so is one whose last field is not `1`... */
  lemma ExampleNotOne()
    ensures MatchLine("hug\tjoy\t0") == None
  {
    ExampleLineParts("hug", "joy", "0");
    assert "hug" + "\t" + "joy" + "\t" + "0" == "hug\tjoy\t0";
  }

  /** ...while a trailing carriage return is trimmed away. */
  lemma ExampleCarriageReturn()
    ensures MatchLine("hug\tjoy\t1\r") == Some(LexiconLine("hug", "joy"))
  {
    HugJoyWords();
    MatchLinePadded("hug", "joy", "", "\r");
    CarriageReturnLine();
  }

  lemma HugJoyWords()
    ensures IsWord("hug") && IsWord("joy") && AllSpace("") && AllSpace("\r")
  {
  }

  lemma CarriageReturnLine()
    ensures "" + ("hug" + "\t" + "joy" + "\t1") + "\r" == "hug\tjoy\t1\r"
  {
  }

  lemma ExampleLineParts(a: string, b: string, c: string)
    requires |a| > 0 && |c| > 0 && !IsSpace(a[0]) && !IsSpace(c[|c| - 1])
    requires '\t' !in a && '\t' !in b && '\t' !in c
    ensures Text.Split(Trim(a + "\t" + b + "\t" + c), '\t') == [a, b, c]
  {
    var t := a + "\t" + b + "\t" + c;
    TrimPadded("", t, "");
    assert "" + t + "" == t;
    JoinThree([a, b, c]);
    Text.SplitJoin([a, b, c], '\t');
  }

  /** The sums behind `combineScore`'s averages -1/3, 1/3, 2/3, 1/3 of three entries. */
  lemma ExampleCombined()
    ensures Combined([Hug, Haunt, Intruder]) == Some(Score(map["sentiment" := -1, "joy" := 1, "fear" := 2, "anger" := 1], 3))
  {
    var ws := [Hug, Haunt, Intruder];
    ExampleSums3();
    var sums := map["sentiment" := -1, "joy" := 1, "fear" := 2, "anger" := 1];
    assert (map k | k in KeysOf(ws) :: SumKey(ws, k)) == sums;
  }

  lemma ExampleSums3()
    ensures KeysOf([Hug, Haunt, Intruder]) == {"sentiment", "joy", "fear", "anger"}
    ensures SumKey([Hug, Haunt, Intruder], "sentiment") == -1 && SumKey([Hug, Haunt, Intruder], "joy") == 1
    ensures SumKey([Hug, Haunt, Intruder], "fear") == 2 && SumKey([Hug, Haunt, Intruder], "anger") == 1
  {
    assert [Hug, Haunt, Intruder][..2] == [Hug, Haunt];
    ExampleSums();
  }

  lemma ExampleSums()
    ensures KeysOf([Hug, Haunt]) == {"sentiment", "joy", "fear"}
    ensures SumKey([Hug, Haunt], "sentiment") == 0 && SumKey([Hug, Haunt], "joy") == 1
    ensures SumKey([Hug, Haunt], "fear") == 1 && SumKey([Hug, Haunt], "anger") == 0
  {
    assert [Hug, Haunt][..1] == [Hug] && [Hug][..0] == [];
    ExampleSum1();
  }

  lemma ExampleSum1()
    ensures KeysOf([Hug]) == {"sentiment", "joy"}
    ensures SumKey([Hug], "sentiment") == 1 && SumKey([Hug], "joy") == 1
    ensures SumKey([Hug], "fear") == 0 && SumKey([Hug], "anger") == 0
  {
    assert [Hug][..0] == [];
  }

  class SentimentCollector {
    var lexicon: Lexicon
    var months: map<string, seq<Entry>>

    /** The fields as `this.months = {}; this.lexicon = {};` leave them. */
    constructor Blank()
      ensures lexicon == map[] && months == map[]
    {
      lexicon := map[];
      months := map[];
    }

    /** `new SentimentCollector(config)`: checks the config, then loads the lexicon. */
    static method Create(config: Option<Config>) returns (r: Result<SentimentCollector, SetupError>)
      ensures r.Err? <==> Setup(config).Err?
      ensures r.Err? ==> r.error == Setup(config).error
      ensures r.Ok? ==> fresh(r.value) && r.value.lexicon == Setup(config).value && r.value.months == map[]
    {
      var c := new SentimentCollector.Blank();
      if config.None? {
        return Err(MissingConfig);
      }
      if config.value.lexicon.None? {
        return Err(MissingLexicon);
      }
      var o := c.LoadLexicon(config.value.lexicon.value);
      if o.Fail? {
        return Err(o.error);
      }
      return Ok(c);
    }

    /** `loadLexicon(file)` on the file's contents: every line is split off, trimmed and
        matched, and the accepted ones are recorded; an empty lexicon is an error. */
    method LoadLexicon(contents: string) returns (o: Outcome<SetupError>)
      modifies this
      ensures lexicon == LoadLines(old(lexicon), Text.Split(contents, '\n'))
      ensures months == old(months)
      ensures o == LoadOutcome(lexicon)
    {
      var lines := Text.Split(contents, '\n');
      for i := 0 to |lines|
        invariant lexicon == LoadMatches(old(lexicon), Matches(lines[..i]))
        invariant months == old(months)
      {
        LoadLinesStep(old(lexicon), lines, i);
        AddEntry(MatchLine(lines[i]));
      }
      assert lines[..|lines|] == lines;
      if |lexicon| == 0 {
        o := Fail(EmptyLexicon);
      } else {
        o := Pass;
      }
    }

    /** The body of `loadLexicon`'s `forEach` for one line's match. */
    method AddEntry(m: Option<LexiconLine>)
      modifies this
      ensures lexicon == AddMatch(old(lexicon), m) && months == old(months)
    {
      if m.Some? {
        var word := m.value.word;
        if word !in lexicon {
          lexicon := lexicon[word := map[]];
        }
        var entry := lexicon[word];
        if m.value.kind == "positive" {
          entry := entry["sentiment" := 1];
        } else if m.value.kind == "negative" {
          entry := entry["sentiment" := -1];
        } else {
          entry := entry[m.value.kind := 1];
        }
        lexicon := lexicon[word := entry];
      }
    }

    /** `increment(time, message)`: the message's scored words are appended to its month. */
    method Increment(month: string, message: string)
      modifies this
      ensures lexicon == old(lexicon)
      ensures months == Record(old(months), month, GetWords(lexicon, message))
    {
      var words := GetWords(lexicon, message);
      if |words| == 0 {
        return;
      }
      if month !in months {
        assert MonthWords(months, month) + words == words;
        months := months[month := words];
      } else {
        months := months[month := months[month] + words];
      }
    }

    /** `onAction`, `onMessage` and `onNotice` each score their text once. */
    method OnAction(month: string, nick: string, action: string)
      modifies this
      ensures lexicon == old(lexicon)
      ensures months == Record(old(months), month, GetWords(lexicon, action))
    {
      Increment(month, action);
    }

    method OnMessage(month: string, nick: string, message: string)
      modifies this
      ensures lexicon == old(lexicon)
      ensures months == Record(old(months), month, GetWords(lexicon, message))
    {
      Increment(month, message);
    }

    method OnNotice(month: string, nick: string, message: string)
      modifies this
      ensures lexicon == old(lexicon)
      ensures months == Record(old(months), month, GetWords(lexicon, message))
    {
      Increment(month, message);
    }

    /** The other handlers are the collector's inherited no-ops. */
    method OnJoin(month: string, nick: string)
      ensures lexicon == old(lexicon) && months == old(months)
    {
    }

    method OnKick(month: string, nick: string, victim: string, message: string)
      ensures lexicon == old(lexicon) && months == old(months)
    {
    }

    method OnMode(month: string, nick: string, mode: string)
      ensures lexicon == old(lexicon) && months == old(months)
    {
    }

    method OnNick(month: string, oldNick: string, newNick: string)
      ensures lexicon == old(lexicon) && months == old(months)
    {
    }

    method OnPart(month: string, nick: string, message: string)
      ensures lexicon == old(lexicon) && months == old(months)
    {
    }

    method OnQuit(month: string, nick: string, message: string)
      ensures lexicon == old(lexicon) && months == old(months)
    {
    }

    method OnTopic(month: string, nick: string, topic: string)
      ensures lexicon == old(lexicon) && months == old(months)
    {
    }
  }
}
