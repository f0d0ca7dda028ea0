/** The channel's mode table (`availableModes` and the three buckets of src/channel.js) as a
    value, with the pure meaning of `setMode`, `unsetMode`, `updateModes` and
    `setAvailableModes`. The `Channel` class updates its fields in place and is proved to
    agree with these functions. */
module Modes {
  import opened Wrappers
  import opened Text

  /** The five classes a mode letter can have: 'list', 'param', 'partial', 'channel', 'user'. */
  datatype ModeClass = ListMode | ParamMode | PartialMode | ChannelMode | UserMode

  /** A value in the shared `channelModes` map: a parameter string, `null`, or a boolean. */
  datatype ModeValue = Value(text: string) | Null | Flag(on: bool)

  /** `availableModes` (letter to class), `channelModes` (shared by the param, partial and
      channel letters), `userModes` and `lists` (letter to ordered list of strings). */
  datatype ModeTable = ModeTable(
    available: map<char, ModeClass>,
    channelModes: map<char, ModeValue>,
    userModes: map<char, seq<string>>,
    lists: map<char, seq<string>>)

  /** The table of a new channel: four empty objects. */
  const Empty := ModeTable(map[], map[], map[], map[])

  function ClassOf(t: ModeTable, m: char): Option<ModeClass> {
    if m in t.available then Some(t.available[m]) else None
  }

  /** No string occurs twice. */
  predicate NoRepeats(s: seq<string>) {
    forall i, j :: 0 <= i < j < |s| ==> s[i] != s[j]
  }

  /** What the list and user buckets hold: distinct, non-empty strings. */
  predicate Clean(s: seq<string>) {
    NoRepeats(s) && "" !in s
  }

  /** The letter's class has its storage: a list for 'list', a user list for 'user', an entry
      in `channelModes` for the other three. */
  predicate HasBucket(t: ModeTable, m: char)
    requires m in t.available
  {
    match t.available[m]
    case ListMode => m in t.lists
    case UserMode => m in t.userModes
    case _ => m in t.channelModes
  }

  /** The table invariant that every operation keeps: classified letters have their storage,
      and list buckets never hold a duplicate or an empty string. */
  predicate Valid(t: ModeTable) {
    && (forall m :: m in t.available ==> HasBucket(t, m))
    && (forall m :: m in t.lists ==> Clean(t.lists[m]))
    && (forall m :: m in t.userModes ==> Clean(t.userModes[m]))
  }

  /** Two maps agree on key `k`. */
  predicate SameAt<K, V(==)>(a: map<K, V>, b: map<K, V>, k: K) {
    (k in a <==> k in b) && (k in a ==> a[k] == b[k])
  }

  /** Nothing about letter `c` differs between the two tables. */
  predicate SameLetter(t: ModeTable, u: ModeTable, c: char) {
    && SameAt(t.available, u.available, c)
    && SameAt(t.channelModes, u.channelModes, c)
    && SameAt(t.userModes, u.userModes, c)
    && SameAt(t.lists, u.lists, c)
  }

  /** A parameter the code acts on: present and a non-empty string. */
  predicate Usable(p: Option<string>) {
    p.Some? && |p.value| > 0
  }

  /** `list.indexOf(x)` for a string that is present: the position of its first occurrence. */
  function IndexOf(s: seq<string>, x: string): (i: nat)
    requires x in s
    ensures i < |s| && s[i] == x && x !in s[..i]
  {
    if s[0] == x then 0
    else
      var j := IndexOf(s[1..], x);
      assert s[..j + 1] == [s[0]] + s[1..][..j];
      j + 1
  }

  /** `list.splice(list.indexOf(x), 1)` when `x` is present; an absent `x` leaves the list
      alone. */
  function RemoveFirst(s: seq<string>, x: string): (r: seq<string>)
    ensures x !in s ==> r == s
    ensures x in s ==> |r| == |s| - 1
    ensures forall y :: y in r ==> y in s
  {
    if s == [] then []
    else if s[0] == x then s[1..]
    else [s[0]] + RemoveFirst(s[1..], x)
  }

  /** The string removed is the first occurrence, and the others keep their order. */
  lemma {:induction false} RemoveFirstAt(s: seq<string>, x: string)
    requires x in s
    ensures RemoveFirst(s, x) == s[..IndexOf(s, x)] + s[IndexOf(s, x) + 1..]
  {
    if s[0] != x {
      var j := IndexOf(s[1..], x);
      RemoveFirstAt(s[1..], x);
      assert IndexOf(s, x) == j + 1;
      assert s[..j + 1] == [s[0]] + s[1..][..j];
      assert s[j + 2..] == s[1..][j + 1..];
    }
  }

  /** Removing from a clean list keeps it clean and removes the string entirely. */
  lemma {:induction false} RemoveFirstClean(s: seq<string>, x: string)
    requires Clean(s)
    ensures Clean(RemoveFirst(s, x)) && x !in RemoveFirst(s, x)
  {
    if s != [] {
      assert s[0] !in s[1..] by {
        forall k | 0 <= k < |s[1..]| ensures s[1..][k] != s[0] { assert s[1..][k] == s[k + 1]; }
      }
      var tail := s[1..];
      assert NoRepeats(tail) by {
        forall i, j | 0 <= i < j < |tail| ensures tail[i] != tail[j] { assert tail[i] == s[i + 1] && tail[j] == s[j + 1]; }
      }
      if s[0] != x {
        RemoveFirstClean(tail, x);
        var rest := RemoveFirst(tail, x);
        var r := [s[0]] + rest;
        forall i, j | 0 <= i < j < |r| ensures r[i] != r[j] {
          if i == 0 { assert r[j] == rest[j - 1]; } else { assert r[i] == rest[i - 1] && r[j] == rest[j - 1]; }
        }
      }
    }
  }

  /** Appending a usable parameter that is absent keeps a list clean. */
  lemma AppendClean(s: seq<string>, x: string)
    requires Clean(s) && x != "" && x !in s
    ensures Clean(s + [x])
  {
    var r := s + [x];
    forall i, j | 0 <= i < j < |r| ensures r[i] != r[j] {
      if j == |s| { assert r[i] == s[i]; }
    }
  }

  /** `setMode(mode, param)`: what enabling letter `m` does, by the letter's current class. */
  function SetMode(t: ModeTable, m: char, p: Option<string>): (r: ModeTable)
    requires Valid(t)
    ensures Valid(r)
    ensures m in r.available
    ensures m in t.available ==> r.available == t.available
    ensures m !in t.available ==> r.available == t.available[m := ChannelMode]
    ensures forall c :: c != m ==> SameLetter(t, r, c)
  {
    if m !in t.available then
      t.(available := t.available[m := ChannelMode], channelModes := t.channelModes[m := Flag(true)])
    else
      match t.available[m]
      case ListMode =>
        if Usable(p) && p.value !in t.lists[m] then
          AppendClean(t.lists[m], p.value);
          t.(lists := t.lists[m := t.lists[m] + [p.value]])
        else t
      case ParamMode => if Usable(p) then t.(channelModes := t.channelModes[m := Value(p.value)]) else t
      case PartialMode => if Usable(p) then t.(channelModes := t.channelModes[m := Value(p.value)]) else t
      case ChannelMode => t.(channelModes := t.channelModes[m := Flag(true)])
      case UserMode =>
        if Usable(p) && p.value !in t.userModes[m] then
          AppendClean(t.userModes[m], p.value);
          t.(userModes := t.userModes[m := t.userModes[m] + [p.value]])
        else t
  }

  /** `unsetMode(mode, param)`: what disabling letter `m` does, by the letter's current class. */
  function UnsetMode(t: ModeTable, m: char, p: Option<string>): (r: ModeTable)
    requires Valid(t)
    ensures Valid(r)
    ensures m in r.available
    ensures m in t.available ==> r.available == t.available
    ensures m !in t.available ==> r.available == t.available[m := ChannelMode]
    ensures forall c :: c != m ==> SameLetter(t, r, c)
  {
    if m !in t.available then
      t.(available := t.available[m := ChannelMode], channelModes := t.channelModes[m := Flag(false)])
    else
      match t.available[m]
      case ListMode =>
        if Usable(p) then
          RemoveFirstClean(t.lists[m], p.value);
          t.(lists := t.lists[m := RemoveFirst(t.lists[m], p.value)])
        else t
      case ParamMode => if Usable(p) then t.(channelModes := t.channelModes[m := Null]) else t
      case PartialMode => t.(channelModes := t.channelModes[m := Null])
      case ChannelMode => t.(channelModes := t.channelModes[m := Flag(false)])
      case UserMode =>
        if Usable(p) then
          RemoveFirstClean(t.userModes[m], p.value);
          t.(userModes := t.userModes[m := RemoveFirst(t.userModes[m], p.value)])
        else t
  }

  /** What letter `m` holds after `setMode`: a usable parameter that a 'list' or 'user'
      bucket lacks goes at its end, and the bucket is otherwise unchanged; a usable parameter
      is stored as the value of a 'param' or 'partial' letter; a 'channel' or unknown letter
      is on. */
  lemma SetModeEffect(t: ModeTable, m: char, p: Option<string>)
    requires Valid(t)
    ensures var r := SetMode(t, m, p);
      match ClassOf(t, m)
      case None => r.available[m] == ChannelMode && r.channelModes[m] == Flag(true)
      case Some(ListMode) =>
        && (Usable(p) ==> p.value in r.lists[m])
        && r.lists[m] == (if Usable(p) && p.value !in t.lists[m] then t.lists[m] + [p.value] else t.lists[m])
      case Some(UserMode) =>
        && (Usable(p) ==> p.value in r.userModes[m])
        && r.userModes[m] == (if Usable(p) && p.value !in t.userModes[m] then t.userModes[m] + [p.value] else t.userModes[m])
      case Some(ChannelMode) => r.channelModes[m] == Flag(true)
      case Some(_) => r.channelModes[m] == (if Usable(p) then Value(p.value) else t.channelModes[m])
  {
  }

  /** What letter `m` holds after `unsetMode`: a usable parameter loses its first
      occurrence in a 'list' or 'user' bucket and is then absent from it, the bucket being
      unchanged without one; a 'param' letter is cleared only by a usable parameter, a
      'partial' letter always; a 'channel' or unknown letter is off. */
  lemma UnsetModeEffect(t: ModeTable, m: char, p: Option<string>)
    requires Valid(t)
    ensures var r := UnsetMode(t, m, p);
      match ClassOf(t, m)
      case None => r.available[m] == ChannelMode && r.channelModes[m] == Flag(false)
      case Some(ListMode) =>
        && (Usable(p) ==> p.value !in r.lists[m])
        && r.lists[m] == (if Usable(p) then RemoveFirst(t.lists[m], p.value) else t.lists[m])
      case Some(UserMode) =>
        && (Usable(p) ==> p.value !in r.userModes[m])
        && r.userModes[m] == (if Usable(p) then RemoveFirst(t.userModes[m], p.value) else t.userModes[m])
      case Some(ChannelMode) => r.channelModes[m] == Flag(false)
      case Some(ParamMode) => r.channelModes[m] == (if Usable(p) then Null else t.channelModes[m])
      case Some(PartialMode) => r.channelModes[m] == Null
  {
    if m in t.available && Usable(p) {
      if t.available[m] == ListMode { RemoveFirstClean(t.lists[m], p.value); }
      if t.available[m] == UserMode { RemoveFirstClean(t.userModes[m], p.value); }
    }
  }

  /** Setting a letter twice with the same parameter is the same as setting it once. */
  lemma SetModeIdempotent(t: ModeTable, m: char, p: Option<string>)
    requires Valid(t)
    ensures SetMode(SetMode(t, m, p), m, p) == SetMode(t, m, p)
  {
  }

  /** Unsetting a letter twice with the same parameter is the same as unsetting it once. */
  lemma UnsetModeIdempotent(t: ModeTable, m: char, p: Option<string>)
    requires Valid(t)
    ensures UnsetMode(UnsetMode(t, m, p), m, p) == UnsetMode(t, m, p)
  {
    var u := UnsetMode(t, m, p);
    if m !in t.available {
      assert u.channelModes[m := Flag(false)] == u.channelModes;
    } else if t.available[m] == ListMode {
      if Usable(p) {
        RemoveFirstTwice(t.lists[m], p.value);
        assert u.lists[m := RemoveFirst(u.lists[m], p.value)] == u.lists;
      }
    } else if t.available[m] == UserMode {
      if Usable(p) {
        RemoveFirstTwice(t.userModes[m], p.value);
        assert u.userModes[m := RemoveFirst(u.userModes[m], p.value)] == u.userModes;
      }
    } else if t.available[m] == ChannelMode {
      assert u.channelModes[m := Flag(false)] == u.channelModes;
    } else if t.available[m] == PartialMode || Usable(p) {
      assert u.channelModes[m := Null] == u.channelModes;
    }
  }

  lemma RemoveFirstTwice(s: seq<string>, x: string)
    requires Clean(s)
    ensures RemoveFirst(RemoveFirst(s, x), x) == RemoveFirst(s, x)
  {
    RemoveFirstClean(s, x);
  }

  /** Removing the first occurrence of a string that was just appended to a list without it
      gives the list back. */
  lemma {:induction false} RemoveFirstAppended(s: seq<string>, x: string)
    requires x !in s
    ensures RemoveFirst(s + [x], x) == s
  {
    if s == [] {
      assert [] + [x] == [x];
    } else {
      assert (s + [x])[1..] == s[1..] + [x];
      RemoveFirstAppended(s[1..], x);
      assert [s[0]] + s[1..] == s;
    }
  }

  /** Adding a new usable parameter to a 'list' or 'user' bucket and removing it again leaves
      the table as it was. */
  lemma SetThenUnset(t: ModeTable, m: char, p: Option<string>)
    requires Valid(t) && Usable(p)
    requires ClassOf(t, m) == Some(ListMode) || ClassOf(t, m) == Some(UserMode)
    requires ClassOf(t, m) == Some(ListMode) ==> p.value !in t.lists[m]
    requires ClassOf(t, m) == Some(UserMode) ==> p.value !in t.userModes[m]
    ensures UnsetMode(SetMode(t, m, p), m, p) == t
  {
    if t.available[m] == ListMode {
      RemoveFirstAppended(t.lists[m], p.value);
      assert t.lists[m := t.lists[m]] == t.lists;
    } else {
      RemoveFirstAppended(t.userModes[m], p.value);
      assert t.userModes[m := t.userModes[m]] == t.userModes;
    }
  }

  // ---- updateModes --------------------------------------------------------------------

  /** Whether a letter of this class takes the next queued parameter: 'list', 'param' and
      'user' always do, 'partial' only while adding, 'channel' and unknown letters never. */
  predicate Consumes(cls: Option<ModeClass>, adding: bool) {
    cls == Some(ListMode) || cls == Some(ParamMode) || cls == Some(UserMode)
      || (cls == Some(PartialMode) && adding)
  }

  /** One `setMode` or `unsetMode` call: its direction, letter and parameter (`None` is
      `undefined`). */
  datatype Call = Call(adding: bool, mode: char, param: Option<string>)

  function Step(t: ModeTable, c: Call): (r: ModeTable)
    requires Valid(t)
    ensures Valid(r)
  {
    if c.adding then SetMode(t, c.mode, c.param) else UnsetMode(t, c.mode, c.param)
  }

  /** The `forEach` of `updateModes` over the letter run, from the current table, the
      remaining parameter queue and the current direction. The class that decides whether
      a parameter is taken is looked up before the call, in the table as it stands. */
  function Interpret(t: ModeTable, letters: seq<char>, queue: seq<string>, adding: bool): (r: ModeTable)
    requires Valid(t)
    ensures Valid(r)
    decreases |letters|
  {
    if letters == [] then t
    else if letters[0] == '+' then Interpret(t, letters[1..], queue, true)
    else if letters[0] == '-' then Interpret(t, letters[1..], queue, false)
    else
      var take := Consumes(ClassOf(t, letters[0]), adding) && |queue| > 0;
      var p := if take then Some(queue[0]) else None;
      Interpret(Step(t, Call(adding, letters[0], p)), letters[1..], if take then queue[1..] else queue, adding)
  }

  /** `updateModes(instructions)`: split on single spaces; the first token is the letter run,
      the others the parameter queue; the initial direction is adding. */
  function UpdateModes(t: ModeTable, instructions: string): (r: ModeTable)
    requires Valid(t)
    ensures Valid(r)
  {
    var tokens := Split(instructions, ' ');
    Interpret(t, tokens[0], tokens[1..], true)
  }

  /** The calls a letter run makes when every class is read from the fixed table `a`. */
  function Calls(a: map<char, ModeClass>, letters: seq<char>, queue: seq<string>, adding: bool): seq<Call>
    decreases |letters|
  {
    if letters == [] then []
    else if letters[0] == '+' then Calls(a, letters[1..], queue, true)
    else if letters[0] == '-' then Calls(a, letters[1..], queue, false)
    else
      var cls := if letters[0] in a then Some(a[letters[0]]) else None;
      var take := Consumes(cls, adding) && |queue| > 0;
      [Call(adding, letters[0], if take then Some(queue[0]) else None)]
        + Calls(a, letters[1..], if take then queue[1..] else queue, adding)
  }

  /** Performs the calls in order. */
  function RunCalls(t: ModeTable, calls: seq<Call>): (r: ModeTable)
    requires Valid(t)
    ensures Valid(r)
    decreases |calls|
  {
    if calls == [] then t else RunCalls(Step(t, calls[0]), calls[1..])
  }

  /** Two class tables make the same parameter decisions for every letter. */
  predicate ConsumeAlike(a: map<char, ModeClass>, b: map<char, ModeClass>) {
    forall c :: Consumes(if c in a then Some(a[c]) else None, true) == Consumes(if c in b then Some(b[c]) else None, true)
             && Consumes(if c in a then Some(a[c]) else None, false) == Consumes(if c in b then Some(b[c]) else None, false)
  }

  /** A call never changes which letters take parameters: it only ever classifies an unknown
      letter as 'channel', and neither takes one. */
  lemma StepConsumesAlike(t: ModeTable, c: Call)
    requires Valid(t)
    ensures ConsumeAlike(t.available, Step(t, c).available)
  {
  }

  lemma ConsumeAlikeTrans(a: map<char, ModeClass>, b: map<char, ModeClass>, c: map<char, ModeClass>)
    requires ConsumeAlike(a, b) && ConsumeAlike(b, c)
    ensures ConsumeAlike(a, c)
  {
  }

  /** `updateModes` is exactly the sequence of calls read off the table it started from:
      setting and unsetting letters never changes later parameter decisions. */
  lemma {:induction false} InterpretIsCalls(t: ModeTable, a: map<char, ModeClass>, letters: seq<char>, queue: seq<string>, adding: bool)
    requires Valid(t)
    requires ConsumeAlike(a, t.available)
    ensures Interpret(t, letters, queue, adding) == RunCalls(t, Calls(a, letters, queue, adding))
    decreases |letters|
  {
    if letters != [] && letters[0] != '+' && letters[0] != '-' {
      var cls := if letters[0] in a then Some(a[letters[0]]) else None;
      var take := Consumes(cls, adding) && |queue| > 0;
      var call := Call(adding, letters[0], if take then Some(queue[0]) else None);
      var rest := if take then queue[1..] else queue;
      assert Consumes(ClassOf(t, letters[0]), adding) == Consumes(cls, adding);
      assert Interpret(t, letters, queue, adding) == Interpret(Step(t, call), letters[1..], rest, adding);
      StepConsumesAlike(t, call);
      ConsumeAlikeTrans(a, t.available, Step(t, call).available);
      InterpretIsCalls(Step(t, call), a, letters[1..], rest, adding);
      var cs := Calls(a, letters, queue, adding);
      assert cs == [call] + Calls(a, letters[1..], rest, adding);
      assert cs[1..] == Calls(a, letters[1..], rest, adding);
      assert RunCalls(t, cs) == RunCalls(Step(t, call), cs[1..]);
    } else if letters != [] {
      InterpretIsCalls(t, a, letters[1..], queue, letters[0] == '+');
    }
  }

  /** The call sequence of `updateModes`, read from the table before the first call. */
  lemma UpdateModesIsCalls(t: ModeTable, instructions: string)
    requires Valid(t)
    ensures var tokens := Split(instructions, ' ');
      UpdateModes(t, instructions) == RunCalls(t, Calls(t.available, tokens[0], tokens[1..], true))
  {
    var tokens := Split(instructions, ' ');
    InterpretIsCalls(t, t.available, tokens[0], tokens[1..], true);
  }

  /** The parameters of the calls, dropping the missing ones. */
  function GivenParams(calls: seq<Call>): seq<string> {
    if calls == [] then []
    else (if calls[0].param.Some? then [calls[0].param.value] else []) + GivenParams(calls[1..])
  }

  /** The number of mode letters (non-sign characters) in a run. */
  function LetterCount(letters: seq<char>): nat {
    if letters == [] then 0
    else (if letters[0] == '+' || letters[0] == '-' then 0 else 1) + LetterCount(letters[1..])
  }

  /** Parameters are handed out from the front of the queue, in order: what the calls
      receive is a prefix of the queue; one call per letter, none for '+' and '-'. */
  lemma CallsTakeQueuePrefix(a: map<char, ModeClass>, letters: seq<char>, queue: seq<string>, adding: bool)
    ensures var calls := Calls(a, letters, queue, adding);
      && GivenParams(calls) <= queue
      && |calls| == LetterCount(letters)
      && forall k :: 0 <= k < |calls| ==> calls[k].mode != '+' && calls[k].mode != '-'
  {
    CallsParams(a, letters, queue, adding);
    CallsShape(a, letters, queue, adding);
  }

  lemma {:induction false} CallsParams(a: map<char, ModeClass>, letters: seq<char>, queue: seq<string>, adding: bool)
    ensures GivenParams(Calls(a, letters, queue, adding)) <= queue
    decreases |letters|
  {
    if letters != [] {
      if letters[0] == '+' || letters[0] == '-' {
        CallsParams(a, letters[1..], queue, letters[0] == '+');
      } else {
        var cls := if letters[0] in a then Some(a[letters[0]]) else None;
        var take := Consumes(cls, adding) && |queue| > 0;
        var rest := if take then queue[1..] else queue;
        CallsParams(a, letters[1..], rest, adding);
        var calls := Calls(a, letters, queue, adding);
        assert calls[1..] == Calls(a, letters[1..], rest, adding);
        assert GivenParams(calls) == (if take then [queue[0]] else []) + GivenParams(calls[1..]);
        if take { assert queue == [queue[0]] + queue[1..]; }
      }
    }
  }

  lemma {:induction false} CallsShape(a: map<char, ModeClass>, letters: seq<char>, queue: seq<string>, adding: bool)
    ensures var calls := Calls(a, letters, queue, adding);
      && |calls| == LetterCount(letters)
      && forall k :: 0 <= k < |calls| ==> calls[k].mode != '+' && calls[k].mode != '-'
    decreases |letters|
  {
    if letters != [] {
      if letters[0] == '+' || letters[0] == '-' {
        CallsShape(a, letters[1..], queue, letters[0] == '+');
      } else {
        var cls := if letters[0] in a then Some(a[letters[0]]) else None;
        var take := Consumes(cls, adding) && |queue| > 0;
        var rest := if take then queue[1..] else queue;
        CallsShape(a, letters[1..], rest, adding);
        var calls := Calls(a, letters, queue, adding);
        assert calls[1..] == Calls(a, letters[1..], rest, adding);
        assert forall k :: 1 <= k < |calls| ==> calls[k] == calls[1..][k - 1];
      }
    }
  }

  // ---- setAvailableModes --------------------------------------------------------------

  /** The five arguments of `setAvailableModes`: one string of letters per class. */
  datatype Classification = Classification(list: string, param: string, partial: string, channel: string, user: string)

  /** The argument string for class `k`. */
  function LettersFor(a: Classification, k: ModeClass): string {
    match k
    case ListMode => a.list
    case ParamMode => a.param
    case PartialMode => a.partial
    case ChannelMode => a.channel
    case UserMode => a.user
  }

  /** `added(type)`: the letters of the class's string, in order and with repeats, that do not
      already have that class. */
  function AddedOf(avail: map<char, ModeClass>, s: string, k: ModeClass): (r: seq<char>)
    ensures forall c :: c in r <==> c in s && !(c in avail && avail[c] == k)
  {
    if s == [] then []
    else (if s[0] in avail && avail[s[0]] == k then [] else [s[0]]) + AddedOf(avail, s[1..], k)
  }

  function Added(avail: map<char, ModeClass>, a: Classification, k: ModeClass): seq<char> {
    AddedOf(avail, LettersFor(a, k), k)
  }

  /** The letters of `Added` as a set. */
  function AddedSet(avail: map<char, ModeClass>, a: Classification, k: ModeClass): set<char> {
    set c | c in Added(avail, a, k)
  }

  /** `removed(type)`: the letters that have the class now and are missing from its string. */
  function Removed(avail: map<char, ModeClass>, a: Classification, k: ModeClass): set<char> {
    set c | c in avail && avail[c] == k && c !in LettersFor(a, k)
  }

  /** `allToAdd` as the validation loop fills it: the added letters of each class, in the
      order list, param, partial, channel, user. */
  function AllToAdd(avail: map<char, ModeClass>, a: Classification): seq<char> {
    Added(avail, a, ListMode) + Added(avail, a, ParamMode) + Added(avail, a, PartialMode)
      + Added(avail, a, ChannelMode) + Added(avail, a, UserMode)
  }

  /** No letter occurs twice. */
  predicate Distinct(s: seq<char>) {
    forall i, j :: 0 <= i < j < |s| ==> s[i] != s[j]
  }

  /** The first letter of `s` that is already in `seen` or earlier in `s`: the letter the
      validation loop throws on. */
  function FirstRepeat(s: seq<char>, seen: seq<char>): Option<char>
    decreases |s|
  {
    if s == [] then None
    else if s[0] in seen then Some(s[0])
    else FirstRepeat(s[1..], seen + [s[0]])
  }

  /** The loop finds no repeat exactly when the letters, after those already seen, are all distinct. */
  lemma {:induction false} FirstRepeatNoneIff(s: seq<char>, seen: seq<char>)
    requires Distinct(seen)
    ensures FirstRepeat(s, seen).None? <==> Distinct(seen + s)
    decreases |s|
  {
    if s == [] {
      assert seen + s == seen;
    } else if s[0] in seen {
      var i :| 0 <= i < |seen| && seen[i] == s[0];
      assert (seen + s)[i] == (seen + s)[|seen|];
    } else {
      var seen' := seen + [s[0]];
      forall i, j | 0 <= i < j < |seen'| ensures seen'[i] != seen'[j] {
        if j == |seen| { assert seen'[i] == seen[i]; }
      }
      FirstRepeatNoneIff(s[1..], seen');
      assert seen' + s[1..] == seen + s;
    }
  }

  /** The letter reported is one that occurs twice. */
  lemma {:induction false} FirstRepeatIsRepeated(s: seq<char>, seen: seq<char>, c: char)
    requires FirstRepeat(s, seen) == Some(c)
    ensures c in s && multiset(seen + s)[c] >= 2
    decreases |s|
  {
    assert s != [];
    assert s == [s[0]] + s[1..];
    if s[0] in seen {
      assert multiset(seen + s) == multiset(seen) + multiset{s[0]} + multiset(s[1..]);
    } else {
      FirstRepeatIsRepeated(s[1..], seen + [s[0]], c);
      assert seen + [s[0]] + s[1..] == seen + s;
    }
  }

  /** The three storage maps: `lists`, `userModes`, and the shared `channelModes`. */
  function Store(k: ModeClass): nat {
    match k
    case ListMode => 0
    case UserMode => 1
    case _ => 2
  }

  /** The letter's storage for class `k` is the same in both tables. */
  predicate SameBucket(t: ModeTable, u: ModeTable, c: char, k: ModeClass) {
    match k
    case ListMode => SameAt(t.lists, u.lists, c)
    case UserMode => SameAt(t.userModes, u.userModes, c)
    case _ => SameAt(t.channelModes, u.channelModes, c)
  }

  /** `initial()` of class `k`: `[]` for 'list' and 'user', `null` for 'param' and
      'partial', `false` for 'channel'. */
  predicate HoldsDefault(u: ModeTable, c: char, k: ModeClass) {
    match k
    case ListMode => c in u.lists && u.lists[c] == []
    case UserMode => c in u.userModes && u.userModes[c] == []
    case ChannelMode => c in u.channelModes && u.channelModes[c] == Flag(false)
    case _ => c in u.channelModes && u.channelModes[c] == Null
  }

  /** The letter is absent from the storage of class `k`. */
  predicate NoBucket(u: ModeTable, c: char, k: ModeClass) {
    match k
    case ListMode => c !in u.lists
    case UserMode => c !in u.userModes
    case _ => c !in u.channelModes
  }

  /** Deletes the letters `rs`, all of class `k`, with their storage. */
  function PurgeClass(t: ModeTable, rs: set<char>, k: ModeClass): (r: ModeTable)
    requires Valid(t)
    requires forall c :: c in rs ==> c in t.available && t.available[c] == k
    ensures Valid(r)
    ensures r.available == t.available - rs
    ensures forall c :: c !in rs ==> SameLetter(t, r, c)
    ensures forall c :: c in rs ==> NoBucket(r, c, k)
    ensures forall c, k' :: c in rs && Store(k') != Store(k) ==> SameBucket(t, r, c, k')
  {
    match k
    case ListMode => t.(available := t.available - rs, lists := t.lists - rs)
    case UserMode => t.(available := t.available - rs, userModes := t.userModes - rs)
    case _ => t.(available := t.available - rs, channelModes := t.channelModes - rs)
  }

  /** Gives each letter of `s` class `k` and the initial value of that class. */
  function InstallClass(t: ModeTable, s: set<char>, k: ModeClass): (r: ModeTable)
  {
    var av := t.available + (map c | c in s :: k);
    match k
    case ListMode => t.(available := av, lists := t.lists + (map c | c in s :: []))
    case UserMode => t.(available := av, userModes := t.userModes + (map c | c in s :: []))
    case ChannelMode => t.(available := av, channelModes := t.channelModes + (map c | c in s :: Flag(false)))
    case _ => t.(available := av, channelModes := t.channelModes + (map c | c in s :: Null))
  }

  lemma InstallClassValid(t: ModeTable, s: set<char>, k: ModeClass)
    requires Valid(t)
    ensures Valid(InstallClass(t, s, k))
  {
    var r := InstallClass(t, s, k);
    forall m | m in r.available ensures HasBucket(r, m) {
      if m in s {
        assert r.available[m] == k;
      } else {
        assert r.available[m] == t.available[m];
        assert HasBucket(t, m);
      }
    }
  }

  /** A letter outside `s` is untouched by installing `s`. */
  lemma InstallClassOther(t: ModeTable, s: set<char>, k: ModeClass, c: char)
    requires c !in s
    ensures SameLetter(t, InstallClass(t, s, k), c)
  {
    var r := InstallClass(t, s, k);
    assert SameAt(t.available, r.available, c);
    assert SameAt(t.lists, r.lists, c);
    assert SameAt(t.userModes, r.userModes, c);
    assert SameAt(t.channelModes, r.channelModes, c);
  }

  /** A letter of `s` gets class `k` and its initial value; the other storage maps keep it. */
  lemma InstallClassFresh(t: ModeTable, s: set<char>, k: ModeClass, c: char)
    requires c in s
    ensures var r := InstallClass(t, s, k);
      && c in r.available && r.available[c] == k && HoldsDefault(r, c, k)
      && forall k' :: Store(k') != Store(k) ==> SameBucket(t, r, c, k')
  {
  }

  /** The removal phase of `setAvailableModes`, class by class. */
  function Purge(t: ModeTable, a: Classification): (r: ModeTable)
    requires Valid(t)
    ensures Valid(r)
  {
    var av := t.available;
    var t1 := PurgeClass(t, Removed(av, a, ListMode), ListMode);
    var t2 := PurgeClass(t1, Removed(av, a, ParamMode), ParamMode);
    var t3 := PurgeClass(t2, Removed(av, a, PartialMode), PartialMode);
    var t4 := PurgeClass(t3, Removed(av, a, ChannelMode), ChannelMode);
    PurgeClass(t4, Removed(av, a, UserMode), UserMode)
  }

  /** The addition phase of `setAvailableModes`, class by class; `av` is the class table
      before the call. */
  function Install(t: ModeTable, av: map<char, ModeClass>, a: Classification): (r: ModeTable)
    requires Valid(t)
    ensures Valid(r)
  {
    var s1, s2, s3, s4, s5 := AddedSet(av, a, ListMode), AddedSet(av, a, ParamMode),
      AddedSet(av, a, PartialMode), AddedSet(av, a, ChannelMode),
      AddedSet(av, a, UserMode);
    InstallClassValid(t, s1, ListMode);
    var t1 := InstallClass(t, s1, ListMode);
    InstallClassValid(t1, s2, ParamMode);
    var t2 := InstallClass(t1, s2, ParamMode);
    InstallClassValid(t2, s3, PartialMode);
    var t3 := InstallClass(t2, s3, PartialMode);
    InstallClassValid(t3, s4, ChannelMode);
    var t4 := InstallClass(t3, s4, ChannelMode);
    InstallClassValid(t4, s5, UserMode);
    InstallClass(t4, s5, UserMode)
  }

  /** `setAvailableModes(list, param, partial, channel, user)`: throws (here `Err` with the
      letter it names) when a letter would be added twice, before changing anything;
      otherwise deletes every removed letter and its storage, then installs every added
      letter with its class and initial value. */
  function SetAvailable(t: ModeTable, a: Classification): (r: Result<ModeTable, char>)
    requires Valid(t)
    ensures r.Ok? ==> Valid(r.value)
  {
    match FirstRepeat(AllToAdd(t.available, a), [])
    case Some(c) => Err(c)
    case None => Ok(Install(Purge(t, a), t.available, a))
  }

  /** A letter occurs at most once in a sequence without repeats. */
  lemma {:induction false} DistinctCount(s: seq<char>, c: char)
    requires Distinct(s)
    ensures multiset(s)[c] <= 1
    decreases |s|
  {
    if s != [] {
      assert s == [s[0]] + s[1..];
      assert Distinct(s[1..]) by {
        forall i, j | 0 <= i < j < |s[1..]| ensures s[1..][i] != s[1..][j] {
          assert s[1..][i] == s[i + 1] && s[1..][j] == s[j + 1];
        }
      }
      DistinctCount(s[1..], c);
      if s[0] == c {
        assert c !in s[1..] by {
          forall i | 0 <= i < |s[1..]| ensures s[1..][i] != c {
            assert s[1..][i] == s[i + 1];
          }
        }
      }
    }
  }

  /** When validation passes, no letter is added under two classes. */
  lemma AddedExclusive(av: map<char, ModeClass>, a: Classification, c: char, k: ModeClass, k': ModeClass)
    requires Distinct(AllToAdd(av, a))
    requires c in Added(av, a, k) && k' != k
    ensures c !in Added(av, a, k')
  {
    DistinctCount(AllToAdd(av, a), c);
  }

  /** What the removal phase does to one letter. */
  lemma PurgeLetter(t: ModeTable, a: Classification, c: char)
    requires Valid(t)
    ensures var p, av := Purge(t, a), t.available;
      && ((c !in av || c in LettersFor(a, av[c])) ==> SameLetter(t, p, c))
      && (c in av && c !in LettersFor(a, av[c]) ==>
            && c !in p.available && NoBucket(p, c, av[c])
            && forall k' :: Store(k') != Store(av[c]) ==> SameBucket(t, p, c, k'))
  {
    var av := t.available;
    if c !in av || c in LettersFor(a, av[c]) {
      assert forall k :: c !in Removed(av, a, k);
    } else {
      assert c in Removed(av, a, av[c]);
      assert forall k :: k != av[c] ==> c !in Removed(av, a, k);
    }
  }

  /** Agreement on a letter is transitive. */
  lemma SameLetterTrans(t: ModeTable, u: ModeTable, w: ModeTable, c: char)
    requires SameLetter(t, u, c) && SameLetter(u, w, c)
    ensures SameLetter(t, w, c)
  {
  }

  /** What the addition phase does to a letter added under no class. */
  lemma InstallUntouched(t: ModeTable, av: map<char, ModeClass>, a: Classification, c: char)
    requires Valid(t)
    requires forall k :: c !in Added(av, a, k)
    ensures SameLetter(t, Install(t, av, a), c)
  {
    var s1, s2, s3, s4, s5 := AddedSet(av, a, ListMode), AddedSet(av, a, ParamMode),
      AddedSet(av, a, PartialMode), AddedSet(av, a, ChannelMode),
      AddedSet(av, a, UserMode);
    assert c !in s1 && c !in s2 && c !in s3 && c !in s4 && c !in s5;
    var t1 := InstallClass(t, s1, ListMode);
    var t2 := InstallClass(t1, s2, ParamMode);
    var t3 := InstallClass(t2, s3, PartialMode);
    var t4 := InstallClass(t3, s4, ChannelMode);
    InstallClassOther(t, s1, ListMode, c);
    InstallClassOther(t1, s2, ParamMode, c);
    InstallClassOther(t2, s3, PartialMode, c);
    InstallClassOther(t3, s4, ChannelMode, c);
    InstallClassOther(t4, s5, UserMode, c);
    SameLetterTrans(t, t1, t2, c);
    SameLetterTrans(t, t2, t3, c);
    SameLetterTrans(t, t3, t4, c);
    SameLetterTrans(t, t4, InstallClass(t4, s5, UserMode), c);
  }

  /** `u` gives letter `c` class `k` and its initial value and keeps what `t` stores for it
      in the other storage maps. */
  predicate Installed(t: ModeTable, u: ModeTable, c: char, k: ModeClass) {
    && c in u.available && u.available[c] == k && HoldsDefault(u, c, k)
    && forall k' :: Store(k') != Store(k) ==> SameBucket(t, u, c, k')
  }

  lemma SameThenInstalled(t: ModeTable, u: ModeTable, w: ModeTable, c: char, k: ModeClass)
    requires SameLetter(t, u, c) && Installed(u, w, c, k)
    ensures Installed(t, w, c, k)
  {
    forall k' | Store(k') != Store(k) ensures SameBucket(t, w, c, k') {
      assert SameBucket(u, w, c, k');
    }
  }

  lemma InstalledThenSame(t: ModeTable, u: ModeTable, w: ModeTable, c: char, k: ModeClass)
    requires Installed(t, u, c, k) && SameLetter(u, w, c)
    ensures Installed(t, w, c, k)
  {
    forall k' | Store(k') != Store(k) ensures SameBucket(t, w, c, k') {
      assert SameBucket(t, u, c, k');
    }
  }

  /** What the addition phase does to a letter added under exactly one class. */
  lemma InstallFresh(t: ModeTable, av: map<char, ModeClass>, a: Classification, c: char, k: ModeClass)
    requires Valid(t)
    requires c in Added(av, a, k)
    requires forall k' :: k' != k ==> c !in Added(av, a, k')
    ensures Installed(t, Install(t, av, a), c, k)
  {
    var s1, s2, s3, s4, s5 := AddedSet(av, a, ListMode), AddedSet(av, a, ParamMode),
      AddedSet(av, a, PartialMode), AddedSet(av, a, ChannelMode),
      AddedSet(av, a, UserMode);
    var t1 := InstallClass(t, s1, ListMode);
    var t2 := InstallClass(t1, s2, ParamMode);
    var t3 := InstallClass(t2, s3, PartialMode);
    var t4 := InstallClass(t3, s4, ChannelMode);
    var t5 := InstallClass(t4, s5, UserMode);
    match k
    case ListMode =>
      InstallClassFresh(t, s1, ListMode, c);
      InstallClassOther(t1, s2, ParamMode, c);
      InstallClassOther(t2, s3, PartialMode, c);
      InstallClassOther(t3, s4, ChannelMode, c);
      InstallClassOther(t4, s5, UserMode, c);
      InstalledThenSame(t, t1, t2, c, k);
      InstalledThenSame(t, t2, t3, c, k);
      InstalledThenSame(t, t3, t4, c, k);
      InstalledThenSame(t, t4, t5, c, k);
    case ParamMode =>
      InstallClassOther(t, s1, ListMode, c);
      InstallClassFresh(t1, s2, ParamMode, c);
      InstallClassOther(t2, s3, PartialMode, c);
      InstallClassOther(t3, s4, ChannelMode, c);
      InstallClassOther(t4, s5, UserMode, c);
      SameThenInstalled(t, t1, t2, c, k);
      InstalledThenSame(t, t2, t3, c, k);
      InstalledThenSame(t, t3, t4, c, k);
      InstalledThenSame(t, t4, t5, c, k);
    case PartialMode =>
      InstallClassOther(t, s1, ListMode, c);
      InstallClassOther(t1, s2, ParamMode, c);
      InstallClassFresh(t2, s3, PartialMode, c);
      InstallClassOther(t3, s4, ChannelMode, c);
      InstallClassOther(t4, s5, UserMode, c);
      SameLetterTrans(t, t1, t2, c);
      SameThenInstalled(t, t2, t3, c, k);
      InstalledThenSame(t, t3, t4, c, k);
      InstalledThenSame(t, t4, t5, c, k);
    case ChannelMode =>
      InstallClassOther(t, s1, ListMode, c);
      InstallClassOther(t1, s2, ParamMode, c);
      InstallClassOther(t2, s3, PartialMode, c);
      InstallClassFresh(t3, s4, ChannelMode, c);
      InstallClassOther(t4, s5, UserMode, c);
      SameLetterTrans(t, t1, t2, c);
      SameLetterTrans(t, t2, t3, c);
      SameThenInstalled(t, t3, t4, c, k);
      InstalledThenSame(t, t4, t5, c, k);
    case UserMode =>
      InstallClassOther(t, s1, ListMode, c);
      InstallClassOther(t1, s2, ParamMode, c);
      InstallClassOther(t2, s3, PartialMode, c);
      InstallClassOther(t3, s4, ChannelMode, c);
      InstallClassFresh(t4, s5, UserMode, c);
      SameLetterTrans(t, t1, t2, c);
      SameLetterTrans(t, t2, t3, c);
      SameLetterTrans(t, t3, t4, c);
      SameThenInstalled(t, t4, t5, c, k);
  }

  // ---- properties of setAvailableModes ----------------------------------------------

  /** The call throws exactly when the letters to add are not all distinct, and the letter it
      names is one that would be added twice. */
  lemma SetAvailableFailsIff(t: ModeTable, a: Classification)
    requires Valid(t)
    ensures SetAvailable(t, a).Err? <==> !Distinct(AllToAdd(t.available, a))
    ensures SetAvailable(t, a).Err? ==>
      multiset(AllToAdd(t.available, a))[SetAvailable(t, a).error] >= 2
  {
    var s := AllToAdd(t.available, a);
    FirstRepeatFromStart(s);
    match FirstRepeat(s, [])
    case None =>
      assert SetAvailable(t, a).Ok?;
    case Some(c) =>
      assert SetAvailable(t, a) == Err(c);
  }

  /** Scanning from an empty `seen` list finds a repeat exactly when `s` is not distinct,
      and the letter it finds occurs twice. */
  lemma FirstRepeatFromStart(s: seq<char>)
    ensures FirstRepeat(s, []).None? <==> Distinct(s)
    ensures FirstRepeat(s, []).Some? ==> multiset(s)[FirstRepeat(s, []).value] >= 2
  {
    FirstRepeatNoneIff(s, []);
    assert [] + s == s;
    if FirstRepeat(s, []).Some? {
      FirstRepeatIsRepeated(s, [], FirstRepeat(s, []).value);
    }
  }

  /** On success the letters to add were distinct. */
  lemma SetAvailableDistinct(t: ModeTable, a: Classification)
    requires Valid(t) && SetAvailable(t, a).Ok?
    ensures Distinct(AllToAdd(t.available, a))
  {
    SetAvailableFailsIff(t, a);
  }

  /** A letter listed under its current class and under no other keeps its class and its value. */
  lemma SetAvailableKeeps(t: ModeTable, a: Classification, c: char)
    requires Valid(t) && Distinct(AllToAdd(t.available, a))
    requires c in t.available && c in LettersFor(a, t.available[c])
    requires forall k :: k != t.available[c] ==> c !in LettersFor(a, k)
    ensures SetAvailable(t, a).Ok? && SameLetter(t, SetAvailable(t, a).value, c)
  {
    SetAvailableFailsIff(t, a);
    var p := Purge(t, a);
    PurgeLetter(t, a, c);
    InstallUntouched(p, t.available, a, c);
    SameLetterTrans(t, p, SetAvailable(t, a).value, c);
  }

  /** A letter that has a different class now, or none, and is listed under `k` gets class `k`
      with that class's initial value. */
  lemma SetAvailableInstalls(t: ModeTable, a: Classification, c: char, k: ModeClass)
    requires Valid(t) && Distinct(AllToAdd(t.available, a))
    requires c in Added(t.available, a, k)
    ensures SetAvailable(t, a).Ok? && var u := SetAvailable(t, a).value;
      c in u.available && u.available[c] == k && HoldsDefault(u, c, k)
  {
    SetAvailableFailsIff(t, a);
    SetAvailableDistinct(t, a);
    forall k' | k' != k ensures c !in Added(t.available, a, k') {
      AddedExclusive(t.available, a, c, k, k');
    }
    InstallFresh(Purge(t, a), t.available, a, c, k);
  }

  /** A letter listed under exactly one class has that class afterwards. */
  lemma SetAvailableClassifies(t: ModeTable, a: Classification, c: char, k: ModeClass)
    requires Valid(t) && Distinct(AllToAdd(t.available, a))
    requires c in LettersFor(a, k)
    requires forall k' :: k' != k ==> c !in LettersFor(a, k')
    ensures SetAvailable(t, a).Ok? && var u := SetAvailable(t, a).value; c in u.available && u.available[c] == k
  {
    SetAvailableFailsIff(t, a);
    if c in t.available && t.available[c] == k {
      SetAvailableKeeps(t, a, c);
    } else {
      SetAvailableInstalls(t, a, c, k);
    }
  }

  /** A letter listed under no class loses its class and its storage. */
  lemma SetAvailableDrops(t: ModeTable, a: Classification, c: char)
    requires Valid(t) && Distinct(AllToAdd(t.available, a))
    requires c in t.available
    requires forall k :: c !in LettersFor(a, k)
    ensures SetAvailable(t, a).Ok? && var u := SetAvailable(t, a).value;
      c !in u.available && NoBucket(u, c, t.available[c])
  {
    SetAvailableFailsIff(t, a);
    var p := Purge(t, a);
    PurgeLetter(t, a, c);
    InstallUntouched(p, t.available, a, c);
  }

  /** A letter without a class that is listed nowhere is left alone. */
  lemma SetAvailableIgnores(t: ModeTable, a: Classification, c: char)
    requires Valid(t) && Distinct(AllToAdd(t.available, a))
    requires c !in t.available
    requires forall k :: c !in LettersFor(a, k)
    ensures SetAvailable(t, a).Ok? && SameLetter(t, SetAvailable(t, a).value, c)
  {
    SetAvailableFailsIff(t, a);
    var p := Purge(t, a);
    PurgeLetter(t, a, c);
    InstallUntouched(p, t.available, a, c);
    SameLetterTrans(t, p, SetAvailable(t, a).value, c);
  }

  /** A letter listed under its current class and also under a class kept in another storage
      map is moved to the new class without an error, and its storage for the old class is
      left behind. */
  lemma SetAvailableReclassifies(t: ModeTable, a: Classification, c: char, k: ModeClass)
    requires Valid(t) && Distinct(AllToAdd(t.available, a))
    requires c in t.available && c in LettersFor(a, t.available[c])
    requires c in LettersFor(a, k) && k != t.available[c]
    requires Store(k) != Store(t.available[c])
    ensures SetAvailable(t, a).Ok? && var u := SetAvailable(t, a).value;
      && c in u.available && u.available[c] == k
      && SameBucket(t, u, c, t.available[c])
  {
    SetAvailableFailsIff(t, a);
    var p := Purge(t, a);
    PurgeLetter(t, a, c);
    SetAvailableDistinct(t, a);
    forall k' | k' != k ensures c !in Added(t.available, a, k') {
      AddedExclusive(t.available, a, c, k, k');
    }
    InstallFresh(p, t.available, a, c, k);
    assert SameBucket(p, SetAvailable(t, a).value, c, t.available[c]);
  }

  /** Listing the same new letter under two classes is refused, naming the letter. */
  lemma DuplicateExample()
    ensures SetAvailable(Empty, Classification("a", "a", "", "", "")) == Err('a')
  {
    var a := Classification("a", "a", "", "", "");
    DuplicateLetters(a);
    assert FirstRepeat(['a', 'a'], []) == Some('a');
  }

  lemma DuplicateLetters(a: Classification)
    requires a == Classification("a", "a", "", "", "")
    ensures AllToAdd(map[], a) == ['a', 'a']
  {
    assert Added(map[], a, ListMode) == ['a'];
    assert Added(map[], a, ParamMode) == ['a'];
  }
}
