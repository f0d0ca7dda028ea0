/** JavaScript's `String.prototype.split` with a one-character separator, and its inverse. */
module Text {

  /** `s.split(sep)` for a one-character separator: the maximal runs between separators,
      with an empty token wherever two separators meet or the string starts or ends with one. */
  function Split(s: string, sep: char): (r: seq<string>)
    ensures |r| >= 1
    ensures forall i :: 0 <= i < |r| ==> sep !in r[i]
    decreases |s|
  {
    if s == [] then [""]
    else
      var rest := Split(s[1..], sep);
      if s[0] == sep then [""] + rest
      else [[s[0]] + rest[0]] + rest[1..]
  }

  /** `tokens.join(sep)`. */
  function Join(tokens: seq<string>, sep: char): string
    requires |tokens| >= 1
    decreases |tokens|
  {
    if |tokens| == 1 then tokens[0] else tokens[0] + [sep] + Join(tokens[1..], sep)
  }

  /** Splitting loses nothing: joining the tokens back gives the original string. */
  lemma {:induction false} JoinSplit(s: string, sep: char)
    ensures Join(Split(s, sep), sep) == s
    decreases |s|
  {
    if s != [] {
      var rest := Split(s[1..], sep);
      JoinSplit(s[1..], sep);
      if s[0] == sep {
        assert Split(s, sep) == [""] + rest;
        assert ([""] + rest)[1..] == rest;
      } else {
        var r := Split(s, sep);
        assert r == [[s[0]] + rest[0]] + rest[1..];
        if |rest| == 1 {
          assert r == [[s[0]] + rest[0]];
        } else {
          assert r[1..] == rest[1..];
          assert Join(rest, sep) == rest[0] + [sep] + Join(rest[1..], sep);
        }
      }
    }
  }

  /** Joining tokens that do not contain the separator and splitting again gives the tokens back. */
  lemma {:induction false} SplitJoin(tokens: seq<string>, sep: char)
    requires |tokens| >= 1
    requires forall i :: 0 <= i < |tokens| ==> sep !in tokens[i]
    ensures Split(Join(tokens, sep), sep) == tokens
    decreases |tokens|, |tokens[0]|
  {
    if |tokens| == 1 {
      SplitNoSep(tokens[0], sep);
    } else if tokens[0] == [] {
      var tail := tokens[1..];
      SplitJoin(tail, sep);
      assert Join(tokens, sep) == [sep] + Join(tail, sep);
      assert ([sep] + Join(tail, sep))[1..] == Join(tail, sep);
      assert [""] + tail == tokens;
    } else {
      var t0 := tokens[0];
      var shorter := [t0[1..]] + tokens[1..];
      assert shorter[1..] == tokens[1..];
      forall i | 0 <= i < |shorter| ensures sep !in shorter[i] {
        if i == 0 { assert t0 == [t0[0]] + t0[1..]; }
      }
      SplitJoin(shorter, sep);
      JoinFirst(tokens, shorter, sep);
      SplitCons(t0[0], Join(shorter, sep), sep);
      assert [t0[0]] + shorter[0] == t0;
      assert [t0] + tokens[1..] == tokens;
    }
  }

  /** A non-separator character in front joins the first token. */
  lemma SplitCons(c: char, s: string, sep: char)
    requires c != sep
    ensures Split([c] + s, sep) == [[c] + Split(s, sep)[0]] + Split(s, sep)[1..]
  {
    assert ([c] + s)[1..] == s;
  }

  /** Moving the first character of the first token out of the join. */
  lemma JoinFirst(tokens: seq<string>, shorter: seq<string>, sep: char)
    requires |tokens| >= 2 && tokens[0] != []
    requires shorter == [tokens[0][1..]] + tokens[1..]
    ensures Join(tokens, sep) == [tokens[0][0]] + Join(shorter, sep)
  {
    assert shorter[1..] == tokens[1..];
    assert tokens[0] == [tokens[0][0]] + tokens[0][1..];
  }

  /** A string without the separator is a single token. */
  lemma {:induction false} SplitNoSep(s: string, sep: char)
    requires sep !in s
    ensures Split(s, sep) == [s]
    decreases |s|
  {
    if s != [] {
      SplitNoSep(s[1..], sep);
      assert [s[0]] + s[1..] == s;
    }
  }

  /** Joining two non-empty token lists puts one separator between their joins. */
  lemma {:induction false} JoinAppend(a: seq<string>, b: seq<string>, sep: char)
    requires |a| >= 1 && |b| >= 1
    ensures Join(a + b, sep) == Join(a, sep) + [sep] + Join(b, sep)
    decreases |a|
  {
    if |a| == 1 {
      assert (a + b)[1..] == b;
    } else {
      assert (a + b)[1..] == a[1..] + b;
      JoinAppend(a[1..], b, sep);
    }
  }

  /** Splitting distributes over a separator: the tokens of `a sep b` are those of `a` then those of `b`. */
  lemma SplitAround(a: string, b: string, sep: char)
    ensures Split(a + [sep] + b, sep) == Split(a, sep) + Split(b, sep)
  {
    var ta, tb := Split(a, sep), Split(b, sep);
    JoinSplit(a, sep);
    JoinSplit(b, sep);
    JoinAppend(ta, tb, sep);
    forall i | 0 <= i < |ta + tb| ensures sep !in (ta + tb)[i] {
      if i < |ta| { assert (ta + tb)[i] == ta[i]; } else { assert (ta + tb)[i] == tb[i - |ta|]; }
    }
    SplitJoin(ta + tb, sep);
  }

  /** The string has exactly one token precisely when it contains no separator. */
  lemma SplitSingle(s: string, sep: char)
    ensures |Split(s, sep)| == 1 <==> sep !in s
  {
    if sep in s {
      var i :| 0 <= i < |s| && s[i] == sep;
      assert s == s[..i] + [sep] + s[i + 1..];
      SplitAround(s[..i], s[i + 1..], sep);
    } else {
      SplitNoSep(s, sep);
    }
  }
}
