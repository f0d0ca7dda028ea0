/** The mode-change splitter of the ZNC log parser (`ZncParser.parseModeChanges`). */
module Znc {
  import opened Text

  /** The parsed form of the text after "sets mode:": letters switched on, letters switched
      off, and the parameters that followed the letter run. */
  datatype ModeChanges = ModeChanges(params: seq<string>, added: seq<char>, removed: seq<char>)

  predicate IsSign(c: char) { c == '+' || c == '-' }

  /** The direction in force at index `i` of a letter run: adding unless the nearest sign
      before `i` is '-'. */
  function AddingAt(modes: string, i: nat): bool
    requires i <= |modes|
    decreases i
  {
    if i == 0 then true
    else if modes[i - 1] == '+' then true
    else if modes[i - 1] == '-' then false
    else AddingAt(modes, i - 1)
  }

  /** The letters among the first `n` characters of the run whose direction is `adding`,
      in the order they appear. */
  function Routed(modes: string, n: nat, adding: bool): seq<char>
    requires n <= |modes|
    decreases n
  {
    if n == 0 then []
    else
      Routed(modes, n - 1, adding)
        + (if !IsSign(modes[n - 1]) && AddingAt(modes, n - 1) == adding then [modes[n - 1]] else [])
  }

  /** The non-sign characters among the first `n` characters of the run, in order. */
  function Letters(modes: string, n: nat): seq<char>
    requires n <= |modes|
    decreases n
  {
    if n == 0 then [] else Letters(modes, n - 1) + (if IsSign(modes[n - 1]) then [] else [modes[n - 1]])
  }

  /** What `parseModeChanges` returns: the first space-separated token is the letter run,
      every later token is a parameter. */
  function ModeChangesOf(message: string): ModeChanges {
    var split := Split(message, ' ');
    var modes := split[0];
    ModeChanges(split[1..], Routed(modes, |modes|, true), Routed(modes, |modes|, false))
  }

  /** `parseModeChanges`: one left-to-right pass over the letter run, with a direction flag
      that the signs set. */
  method ParseModeChanges(message: string) returns (r: ModeChanges)
    ensures r == ModeChangesOf(message)
  {
    var split := Split(message, ' ');
    var modes := split[0];
    var params := if |split| > 1 then split[1..] else [];
    var added: seq<char> := [];
    var removed: seq<char> := [];
    var adding := true;
    for i := 0 to |modes|
      invariant adding == AddingAt(modes, i)
      invariant added == Routed(modes, i, true)
      invariant removed == Routed(modes, i, false)
    {
      var c := modes[i];
      if c == '+' {
        adding := true;
      } else if c == '-' {
        adding := false;
      } else if adding {
        added := added + [c];
      } else {
        removed := removed + [c];
      }
    }
    r := ModeChanges(params, added, removed);
  }

  /** The parameters are every token after the first, and there are none exactly when the
      message has no space. */
  lemma ParamsAreLaterTokens(message: string)
    ensures ModeChangesOf(message).params == Split(message, ' ')[1..]
    ensures ModeChangesOf(message).params == [] <==> ' ' !in message
  {
    SplitSingle(message, ' ');
  }

  /** `AddingAt` is false exactly when some '-' precedes `i` with no sign between them. */
  lemma {:induction false} RemovingIffLastSignMinus(modes: string, i: nat)
    requires i <= |modes|
    ensures !AddingAt(modes, i) <==>
      exists j :: 0 <= j < i && modes[j] == '-' && forall k :: j < k < i ==> !IsSign(modes[k])
    decreases i
  {
    if i > 0 && !IsSign(modes[i - 1]) {
      RemovingIffLastSignMinus(modes, i - 1);
      if !AddingAt(modes, i) {
        var j :| 0 <= j < i - 1 && modes[j] == '-' && forall k :: j < k < i - 1 ==> !IsSign(modes[k]);
        assert forall k :: j < k < i ==> !IsSign(modes[k]);
      }
    } else if i > 0 && modes[i - 1] == '-' {
      assert Governs(modes, i - 1, i);
    }
  }

  /** The '-' at index `j` is the nearest sign before index `i`. */
  ghost predicate Governs(modes: string, j: nat, i: nat)
    requires j < i <= |modes|
  {
    modes[j] == '-' && forall k :: j < k < i ==> !IsSign(modes[k])
  }

  /** Every letter of the run lands in exactly one of the two lists (repeats included). */
  lemma {:induction false} LettersPartitioned(modes: string, n: nat)
    requires n <= |modes|
    ensures multiset(Routed(modes, n, true)) + multiset(Routed(modes, n, false)) == multiset(Letters(modes, n))
    decreases n
  {
    if n > 0 {
      LettersPartitioned(modes, n - 1);
      var c := modes[n - 1];
      var a, r, l := Routed(modes, n - 1, true), Routed(modes, n - 1, false), Letters(modes, n - 1);
      if IsSign(c) {
        assert Routed(modes, n, true) == a && Routed(modes, n, false) == r && Letters(modes, n) == l;
      } else if AddingAt(modes, n - 1) {
        assert Routed(modes, n, true) == a + [c] && Routed(modes, n, false) == r && Letters(modes, n) == l + [c];
      } else {
        assert Routed(modes, n, true) == a && Routed(modes, n, false) == r + [c] && Letters(modes, n) == l + [c];
      }
    }
  }

  /** Signs only steer: no '+' or '-' is ever routed to either list. */
  lemma {:induction false} NoSignRouted(modes: string, n: nat, adding: bool)
    requires n <= |modes|
    ensures '+' !in Routed(modes, n, adding) && '-' !in Routed(modes, n, adding)
    decreases n
  {
    if n > 0 {
      NoSignRouted(modes, n - 1, adding);
    }
  }

  /** A run that starts with '-' and never switches back adds nothing and removes all its letters. */
  lemma {:induction false} OnlyRemoving(modes: string, n: nat)
    requires 1 <= n <= |modes|
    requires modes[0] == '-'
    requires forall k :: 0 <= k < n ==> modes[k] != '+'
    ensures Routed(modes, n, true) == []
    ensures Routed(modes, n, false) == Letters(modes, n)
    decreases n
  {
    if n > 1 {
      OnlyRemoving(modes, n - 1);
      assert !AddingAt(modes, n - 1) by { RemovingIffLastSign1(modes, n - 1); }
    }
  }

  /** Helper for `OnlyRemoving`: after a leading '-' with no '+' the direction is removing. */
  lemma {:induction false} RemovingIffLastSign1(modes: string, i: nat)
    requires 1 <= i <= |modes|
    requires modes[0] == '-'
    requires forall k :: 0 <= k < i ==> modes[k] != '+'
    ensures !AddingAt(modes, i)
    decreases i
  {
    if i > 1 {
      RemovingIffLastSign1(modes, i - 1);
    }
  }

  /** The parser's own test cases: single and repeated letters, a parameter, mixed signs. */
  lemma ExampleSingle()
    ensures ModeChangesOf("+m") == ModeChanges([], ['m'], [])
  {
    var m := "+m";
    SplitNoSep(m, ' ');
    assert Split(m, ' ') == [m];
    assert AddingAt(m, 1);
    assert Routed(m, 1, true) == [];
    assert Routed(m, 2, true) == ['m'];
    assert Routed(m, 1, false) == [];
    assert Routed(m, 2, false) == [];
    assert ModeChangesOf(m) == ModeChanges([], Routed(m, 2, true), Routed(m, 2, false));
  }

  lemma ExampleParameter()
    ensures ModeChangesOf("+v somebody") == ModeChanges(["somebody"], ['v'], [])
  {
    ParameterTokens();
    assert AddingAt("+v", 1);
    assert Routed("+v", 2, true) == ['v'] && Routed("+v", 2, false) == [];
    var sp := Split("+v somebody", ' ');
    assert sp[0] == "+v" && sp[1..] == ["somebody"];
  }

  lemma ParameterTokens()
    ensures Split("+v somebody", ' ') == ["+v", "somebody"]
  {
    assert Join(["+v", "somebody"], ' ') == "+v somebody";
    SplitJoin(["+v", "somebody"], ' ');
  }

  lemma ExampleMixed()
    ensures ModeChangesOf("-v+mv-o somebody else Dinnerbone")
         == ModeChanges(["somebody", "else", "Dinnerbone"], ['m', 'v'], ['v', 'o'])
  {
    MixedTokens();
    MixedRouting();
    var sp := Split("-v+mv-o somebody else Dinnerbone", ' ');
    assert sp[0] == "-v+mv-o" && sp[1..] == ["somebody", "else", "Dinnerbone"];
  }

  lemma MixedTokens()
    ensures Split("-v+mv-o somebody else Dinnerbone", ' ') == ["-v+mv-o", "somebody", "else", "Dinnerbone"]
  {
    var tokens := ["-v+mv-o", "somebody", "else", "Dinnerbone"];
    JoinExample();
    SplitJoin(tokens, ' ');
  }

  lemma JoinExample()
    ensures Join(["-v+mv-o", "somebody", "else", "Dinnerbone"], ' ') == "-v+mv-o somebody else Dinnerbone"
  {
    var tokens := ["-v+mv-o", "somebody", "else", "Dinnerbone"];
    assert tokens[1..][1..][1..] == ["Dinnerbone"];
    assert tokens[1..][1..] == ["else", "Dinnerbone"];
    assert tokens[1..] == ["somebody", "else", "Dinnerbone"];
  }

  lemma MixedRouting()
    ensures Routed("-v+mv-o", 7, true) == ['m', 'v'] && Routed("-v+mv-o", 7, false) == ['v', 'o']
  {
    var m := "-v+mv-o";
    assert !AddingAt(m, 1) && !AddingAt(m, 2) && AddingAt(m, 3) && AddingAt(m, 4) && AddingAt(m, 5);
    assert !AddingAt(m, 6);
    assert Routed(m, 1, true) == [] && Routed(m, 2, true) == [] && Routed(m, 3, true) == [];
    assert Routed(m, 4, true) == ['m'] && Routed(m, 5, true) == ['m', 'v'];
    assert Routed(m, 6, true) == ['m', 'v'] && Routed(m, 7, true) == ['m', 'v'];
    assert Routed(m, 1, false) == [] && Routed(m, 2, false) == ['v'] && Routed(m, 3, false) == ['v'];
    assert Routed(m, 4, false) == ['v'] && Routed(m, 5, false) == ['v'];
    assert Routed(m, 6, false) == ['v'] && Routed(m, 7, false) == ['v', 'o'];
  }

  lemma ExampleRepeated()
    ensures ModeChangesOf("+vmv somebody else") == ModeChanges(["somebody", "else"], ['v', 'm', 'v'], [])
  {
    RepeatedTokens();
    RepeatedRouting();
    var sp := Split("+vmv somebody else", ' ');
    assert sp[0] == "+vmv" && sp[1..] == ["somebody", "else"];
  }

  lemma RepeatedRouting()
    ensures Routed("+vmv", 4, true) == ['v', 'm', 'v'] && Routed("+vmv", 4, false) == []
  {
    var m := "+vmv";
    assert AddingAt(m, 1) && AddingAt(m, 2) && AddingAt(m, 3);
    assert Routed(m, 2, true) == ['v'] && Routed(m, 3, true) == ['v', 'm'];
    assert Routed(m, 2, false) == [] && Routed(m, 3, false) == [];
  }

  lemma RepeatedTokens()
    ensures Split("+vmv somebody else", ' ') == ["+vmv", "somebody", "else"]
  {
    var tokens := ["+vmv", "somebody", "else"];
    assert tokens[1..][1..] == ["else"];
    assert tokens[1..] == ["somebody", "else"];
    assert Join(tokens, ' ') == "+vmv somebody else";
    SplitJoin(tokens, ' ');
  }
}
