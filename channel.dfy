/** The channel state machine: the actor registry, the event log, the mode table and the
    topic, updated in place. Every mode operation is proved to agree with its pure meaning in
    `Modes`, and every event's `apply` is a fixed sequence of registry and mode calls. */
module ChannelModel {
  import opened Wrappers
  import opened Text
  import opened Events
  import Modes

  class Channel {
    /** nick to the shared attribute record of that nick */
    var actors: map<string, UserRecord>
    /** the log of applied events, oldest first */
    var events: seq<Event>
    var availableModes: map<char, Modes.ModeClass>
    var channelModes: map<char, Modes.ModeValue>
    var userModes: map<char, seq<string>>
    var lists: map<char, seq<string>>
    /** `undefined` until the first `updateTopic` */
    var topic: Option<string>

    /** The four mode fields as one value. */
    function Table(): Modes.ModeTable
      reads this`availableModes, this`channelModes, this`userModes, this`lists
    {
      Modes.ModeTable(availableModes, channelModes, userModes, lists)
    }

    /** Every classified letter has its storage, buckets hold no repeats and no empty string,
        and no two nicks share a record. */
    ghost predicate Valid()
      reads this`actors, this`availableModes, this`channelModes, this`userModes, this`lists
    {
      && Modes.Valid(Table())
      && Injective()
    }

    /** No two nicks share a record. */
    ghost predicate Injective()
      reads this`actors
    {
      forall n, m :: n in actors && m in actors && n != m ==> actors[n] != actors[m]
    }

    /** The attributes currently recorded for nick `n` (none for an unknown nick). */
    ghost function Prior(n: string): map<string, string>
      reads this`actors, actors.Values
    {
      if n in actors then actors[n].attrs else map[]
    }

    /** `new Channel()`: every container empty, no topic. */
    constructor()
      ensures Valid()
      ensures actors == map[] && events == [] && Table() == Modes.Empty && topic == None
    {
      actors := map[];
      events := [];
      availableModes := map[];
      channelModes := map[];
      userModes := map[];
      lists := map[];
      topic := None;
    }

    function GetAvailableModes(): (r: map<char, Modes.ModeClass>)
      reads this
      ensures r == Table().available
    {
      availableModes
    }

    function GetUserModes(): (r: map<char, seq<string>>)
      reads this
      ensures r == Table().userModes
    {
      userModes
    }

    function GetChannelModes(): (r: map<char, Modes.ModeValue>)
      reads this
      ensures r == Table().channelModes
    {
      channelModes
    }

    function GetLists(): (r: map<char, seq<string>>)
      reads this
      ensures r == Table().lists
    {
      lists
    }

    // ---- the actor registry ----------------------------------------------------------

    /** `updateActor(actor)`: makes sure the nick has a record (reusing the one there, or a
        new empty one), merges the actor's own `user` attributes over it, and points
        `actor.user` at that very record. No other nick changes. */
    method UpdateActor(a: Actor)
      requires Valid()
      modifies this`actors, a`user, if a.nick in actors then {actors[a.nick]} else {}
      ensures Valid()
      ensures a.nick in actors && a.user == actors[a.nick]
      ensures old(a.nick in actors) ==> actors[a.nick] == old(actors[a.nick])
      ensures old(a.nick !in actors) ==> fresh(actors[a.nick])
      ensures actors[a.nick].attrs == old(Prior(a.nick)) + old(Incoming(a))
      ensures actors.Keys == old(actors.Keys) + {a.nick}
      ensures actors.Values == old(actors.Values) + {a.user}
      ensures forall n :: n != a.nick && n in actors ==> actors[n] == old(actors[n]) && actors[n].attrs == old(actors[n].attrs)
    {
      var user := Lookup(a.nick);
      if a.user != null {
        user.attrs := user.attrs + a.user.attrs;
      }
      a.user := user;
    }

    /** The first half of `updateActor`: the record filed under `nick`, filed as a new empty
        record when there was none; it is shared with no other nick. */
    method Lookup(nick: string) returns (user: UserRecord)
      requires Valid()
      modifies this`actors
      ensures Valid()
      ensures nick in actors && user == actors[nick]
      ensures old(nick in actors) ==> actors == old(actors)
      ensures old(nick !in actors) ==> fresh(user) && user.attrs == map[] && actors == old(actors)[nick := user]
      ensures forall n :: n in actors && n != nick ==> actors[n] != user
    {
      if nick in actors {
        user := actors[nick];
      } else {
        user := new UserRecord(map[]);
        actors := actors[nick := user];
      }
    }

    /** `removeActor(actor)`: forgets the actor's nick, if it was known. */
    method RemoveActor(a: Actor)
      requires Valid()
      modifies this`actors
      ensures Valid()
      ensures actors == old(actors) - {a.nick}
    {
      actors := actors - {a.nick};
    }

    /** `renameActor(nick, target)`: a known nick's record moves to `target` (replacing
        whatever was there) and `nick` is deleted, so renaming a nick to itself deletes it;
        for an unknown nick `target` gets a new empty record. */
    method RenameActor(nick: string, target: string)
      requires Valid()
      modifies this`actors
      ensures Valid()
      ensures old(nick in actors) ==> actors == (old(actors)[target := old(actors[nick])]) - {nick}
      ensures old(nick !in actors) ==>
        target in actors && fresh(actors[target]) && actors[target].attrs == map[]
        && actors - {target} == old(actors) - {target}
    {
      if nick in actors {
        actors := actors[target := actors[nick]];
        actors := actors - {nick};
      } else {
        var user := new UserRecord(map[]);
        actors := actors[target := user];
      }
    }

    // ---- modes ---------------------------------------------------------------------------

    /** `setMode(mode, param)`, dispatching on the letter's class. */
    method SetMode(m: char, p: Option<string>)
      requires Valid()
      modifies this`availableModes, this`channelModes, this`userModes, this`lists
      ensures Valid()
      ensures Table() == Modes.SetMode(old(Table()), m, p)
    {
      if m !in availableModes {
        availableModes := availableModes[m := Modes.ChannelMode];
        channelModes := channelModes[m := Modes.Flag(true)];
      } else {
        match availableModes[m]
        case ListMode =>
          var list := lists[m];
          if Modes.Usable(p) && p.value !in list {
            lists := lists[m := list + [p.value]];
          }
        case ParamMode =>
          if Modes.Usable(p) { channelModes := channelModes[m := Modes.Value(p.value)]; }
        case PartialMode =>
          if Modes.Usable(p) { channelModes := channelModes[m := Modes.Value(p.value)]; }
        case ChannelMode =>
          channelModes := channelModes[m := Modes.Flag(true)];
        case UserMode =>
          var list := userModes[m];
          if Modes.Usable(p) && p.value !in list {
            userModes := userModes[m := list + [p.value]];
          }
      }
    }

    /** `unsetMode(mode, param)`, dispatching on the letter's class. */
    method UnsetMode(m: char, p: Option<string>)
      requires Valid()
      modifies this`availableModes, this`channelModes, this`userModes, this`lists
      ensures Valid()
      ensures Table() == Modes.UnsetMode(old(Table()), m, p)
    {
      if m !in availableModes {
        availableModes := availableModes[m := Modes.ChannelMode];
        channelModes := channelModes[m := Modes.Flag(false)];
      } else {
        match availableModes[m]
        case ListMode =>
          if Modes.Usable(p) {
            Modes.RemoveFirstClean(lists[m], p.value);
            lists := lists[m := Modes.RemoveFirst(lists[m], p.value)];
          }
        case ParamMode =>
          if Modes.Usable(p) { channelModes := channelModes[m := Modes.Null]; }
        case PartialMode =>
          channelModes := channelModes[m := Modes.Null];
        case ChannelMode =>
          channelModes := channelModes[m := Modes.Flag(false)];
        case UserMode =>
          if Modes.Usable(p) {
            Modes.RemoveFirstClean(userModes[m], p.value);
            userModes := userModes[m := Modes.RemoveFirst(userModes[m], p.value)];
          }
      }
    }

    /** `updateModes(instructions)`: one left-to-right pass over the first space-separated
        token, with the remaining tokens as the parameter queue. */
    method UpdateModes(instructions: string)
      requires Valid()
      modifies this`availableModes, this`channelModes, this`userModes, this`lists
      ensures Valid()
      ensures Table() == Modes.UpdateModes(old(Table()), instructions)
    {
      var params := Split(instructions, ' ');
      var modes := params[0];
      var queue := params[1..];
      var adding := true;
      var i := 0;
      while i < |modes|
        invariant 0 <= i <= |modes|
        invariant Valid() && actors == old(actors)
        invariant Modes.Interpret(Table(), modes[i..], queue, adding) == Modes.UpdateModes(old(Table()), instructions)
      {
        var mode := modes[i];
        assert modes[i..] == [mode] + modes[i + 1..];
        if mode == '+' {
          adding := true;
        } else if mode == '-' {
          adding := false;
        } else {
          queue := ApplyLetter(mode, adding, queue, modes[i + 1..]);
        }
        i := i + 1;
      }
    }

    /** One letter of `updateModes`: takes a parameter from the queue when the letter's class
        consumes one in this direction, then sets or unsets the mode. */
    method ApplyLetter(mode: char, adding: bool, queue: seq<string>, ghost tail: seq<char>) returns (rest: seq<string>)
      requires Valid() && mode != '+' && mode != '-'
      modifies this`availableModes, this`channelModes, this`userModes, this`lists
      ensures Valid()
      ensures Modes.Interpret(old(Table()), [mode] + tail, queue, adding) == Modes.Interpret(Table(), tail, rest, adding)
    {
      ghost var before := Table();
      var cls := if mode in availableModes then Some(availableModes[mode]) else None;
      var param: Option<string> := None;
      rest := queue;
      if Modes.Consumes(cls, adding) && |queue| > 0 {
        param := Some(queue[0]);
        rest := queue[1..];
      }
      if adding {
        SetMode(mode, param);
      } else {
        UnsetMode(mode, param);
      }
      assert Table() == Modes.Step(before, Modes.Call(adding, mode, param));
      assert ([mode] + tail)[1..] == tail;
    }

    /** `updateTopic(topic)`. */
    method UpdateTopic(t: string)
      modifies this`topic
      ensures topic == Some(t)
    {
      topic := Some(t);
    }

    /** The validation loop of `setAvailableModes`: walks the letters to add, in class order,
        and reports the first one already collected. */
    static method FirstDuplicate(all: seq<char>) returns (r: Option<char>)
      ensures r == Modes.FirstRepeat(all, [])
    {
      var allToAdd: seq<char> := [];
      var i := 0;
      while i < |all|
        invariant 0 <= i <= |all| && allToAdd == all[..i]
        invariant Modes.FirstRepeat(all, []) == Modes.FirstRepeat(all[i..], allToAdd)
      {
        assert all[i..] == [all[i]] + all[i + 1..];
        if all[i] in allToAdd {
          return Some(all[i]);
        }
        allToAdd := allToAdd + [all[i]];
        assert all[..i + 1] == all[..i] + [all[i]];
        i := i + 1;
      }
      assert all[i..] == [];
      r := None;
    }

    /** The removal step for one class: deletes each letter and its storage entry, as one map
        update per field. */
    method RemoveClass(rs: set<char>, k: Modes.ModeClass)
      requires Valid()
      requires forall c :: c in rs ==> c in availableModes && availableModes[c] == k
      modifies this`availableModes, this`channelModes, this`userModes, this`lists
      ensures Valid()
      ensures Table() == Modes.PurgeClass(old(Table()), rs, k)
    {
      availableModes := availableModes - rs;
      match k
      case ListMode => lists := lists - rs;
      case UserMode => userModes := userModes - rs;
      case _ => channelModes := channelModes - rs;
    }

    /** The addition step for one class: gives each letter the class and its initial value, as
        one map update per field. */
    method AddClass(s: set<char>, k: Modes.ModeClass)
      requires Valid()
      modifies this`availableModes, this`channelModes, this`userModes, this`lists
      ensures Valid()
      ensures Table() == Modes.InstallClass(old(Table()), s, k)
    {
      Modes.InstallClassValid(Table(), s, k);
      availableModes := availableModes + (map c | c in s :: k);
      match k
      case ListMode => lists := lists + (map c | c in s :: []);
      case UserMode => userModes := userModes + (map c | c in s :: []);
      case ChannelMode => channelModes := channelModes + (map c | c in s :: Modes.Flag(false));
      case _ => channelModes := channelModes + (map c | c in s :: Modes.Null);
    }

    /** `setAvailableModes(list, param, partial, channel, user)`: finds the first letter that
        would be added twice and throws before changing anything; otherwise deletes the
        removed letters, then installs the added ones. */
    method SetAvailableModes(a: Modes.Classification) returns (r: Outcome<char>)
      requires Valid()
      modifies this`availableModes, this`channelModes, this`userModes, this`lists
      ensures Valid()
      ensures Modes.SetAvailable(old(Table()), a).Err? ==>
        r == Fail(Modes.SetAvailable(old(Table()), a).error) && Table() == old(Table())
      ensures Modes.SetAvailable(old(Table()), a).Ok? ==>
        r == Pass && Table() == Modes.SetAvailable(old(Table()), a).value
    {
      var av := availableModes;
      var dup := FirstDuplicate(Modes.AllToAdd(av, a));
      if dup.Some? {
        return Fail(dup.value);
      }
      RemoveClass(Modes.Removed(av, a, Modes.ListMode), Modes.ListMode);
      RemoveClass(Modes.Removed(av, a, Modes.ParamMode), Modes.ParamMode);
      RemoveClass(Modes.Removed(av, a, Modes.PartialMode), Modes.PartialMode);
      RemoveClass(Modes.Removed(av, a, Modes.ChannelMode), Modes.ChannelMode);
      RemoveClass(Modes.Removed(av, a, Modes.UserMode), Modes.UserMode);
      AddClass(Modes.AddedSet(av, a, Modes.ListMode), Modes.ListMode);
      AddClass(Modes.AddedSet(av, a, Modes.ParamMode), Modes.ParamMode);
      AddClass(Modes.AddedSet(av, a, Modes.PartialMode), Modes.PartialMode);
      AddClass(Modes.AddedSet(av, a, Modes.ChannelMode), Modes.ChannelMode);
      AddClass(Modes.AddedSet(av, a, Modes.UserMode), Modes.UserMode);
      r := Pass;
    }

    // ---- events --------------------------------------------------------------------------

    /** The author, and the victim of a kick: the actors whose `user` `apply` rewrites. */
    static function Participants(e: Event): set<Actor> {
      match e
      case Base(_) => {}
      case Kick(_, a, v) => {a, v}
      case _ => {e.author}
    }

    /** The attributes an actor brings with it. */
    static ghost function Incoming(a: Actor): map<string, string>
      reads a, a.user
    {
      if a.user == null then map[] else a.user.attrs
    }

    /** `SingleAuthorEvent.apply`: registers the author. */
    method ApplyAuthor(a: Actor)
      requires Valid()
      modifies this`actors, a`user, actors.Values
      ensures Valid()
      ensures Registered(a)
    {
      UpdateActor(a);
    }

    /** `Part.apply` and `Quit.apply`: registers the author, then forgets the nick; the author
        keeps the merged record. */
    method ApplyLeave(a: Actor)
      requires Valid()
      modifies this`actors, a`user, actors.Values
      ensures Valid()
      ensures Left(a)
    {
      UpdateActor(a);
      RemoveActor(a);
    }

    /** `Mode.apply`: registers the author, then runs the instructions. */
    method ApplyMode(a: Actor, instructions: string)
      requires Valid()
      modifies this`actors, this`availableModes, this`channelModes, this`userModes, this`lists, a`user, actors.Values
      ensures Valid() && events == old(events) && topic == old(topic)
      ensures Registered(a)
      ensures Table() == Modes.UpdateModes(old(Table()), instructions)
    {
      ApplyAuthor(a);
      UpdateModes(instructions);
    }

    /** `Topic.apply`: registers the author, then sets the topic. */
    method ApplyTopic(a: Actor, t: string)
      requires Valid()
      modifies this`actors, this`topic, a`user, actors.Values
      ensures Valid() && events == old(events) && Table() == old(Table())
      ensures Registered(a)
      ensures topic == Some(t)
    {
      ApplyAuthor(a);
      UpdateTopic(t);
    }

    /** `Kick.apply`: registers the author and the victim, then forgets the victim. */
    method ApplyKick(a: Actor, v: Actor)
      requires Valid()
      modifies this`actors, a`user, v`user, actors.Values
      ensures Valid()
      ensures Kicked(a, v)
    {
      ghost var separate := a != v && a.nick != v.nick && (a.nick !in actors || v.user != actors[a.nick]);
      ghost var victimPrior, victimIncoming := Prior(v.nick), Incoming(v);
      ghost var vu := v.user;
      UpdateActor(a);
      label mid:
      ghost var record, afterAuthor := a.user, a.user.attrs;
      if separate {
        assert v.user == vu && (vu != null ==> vu != record);
        assert Incoming(v) == victimIncoming;
        assert Prior(v.nick) == victimPrior;
      }
      ghost var keys1 := actors.Keys;
      ApplyLeave(v);
      if a.nick != v.nick {
        assert a.nick in actors && actors[a.nick] == record;
        assert a.user == record && record.attrs == afterAuthor;
      }
      assert actors.Keys == keys1 - {v.nick};
      forall n | n in actors && n != a.nick && n != v.nick
        ensures n in old(actors) && actors[n] == old(actors[n]) && actors[n].attrs == old(actors[n].attrs)
      {
        assert actors[n] == old@mid(actors[n]) && actors[n].attrs == old@mid(actors[n].attrs);
      }
    }

    /** `Nick.apply`: registers the author, then renames the author's nick to the new one. */
    method ApplyNick(a: Actor, n: string)
      requires Valid()
      modifies this`actors, a`user, actors.Values
      ensures Valid()
      ensures Renamed(a, n)
    {
      UpdateActor(a);
      ghost var mid, record := actors, a.user;
      RenameActor(a.nick, n);
      assert actors == mid[n := record] - {a.nick};
      assert a.user == record && record.attrs == old(Prior(a.nick)) + old(Incoming(a));
    }

    /** Every nick outside `changed` is still filed under the same record, whose attributes
        are as they were. */
    twostate predicate OthersKept(new changed: set<string>)
      reads this`actors, actors.Values
    {
      forall n :: n in actors && n !in changed ==>
        n in old(actors) && actors[n] == old(actors[n]) && actors[n].attrs == old(actors[n].attrs)
    }

    /** `actor.user` now is the record the nick was filed under before if it had one, and a
        newly allocated record otherwise. */
    twostate predicate Reused(a: Actor)
      reads a
    {
      && (old(a.nick in actors) ==> a.user == old(actors[a.nick]))
      && (old(a.nick !in actors) ==> fresh(a.user))
    }

    /** After `SingleAuthorEvent.apply`: the author's nick has a record (the one it had, if
        any), `author.user` is that very record, it holds the merged attributes, and no other
        nick appeared, vanished or changed. */
    twostate predicate Registered(a: Actor)
      requires old(Valid())
      reads this`actors, a, a.user, actors.Values
    {
      && a.nick in actors && a.user == actors[a.nick] && Reused(a)
      && a.user.attrs == old(Prior(a.nick)) + old(Incoming(a))
      && actors.Keys == old(actors.Keys) + {a.nick}
      && OthersKept({a.nick})
    }

    /** After a part or quit: the author keeps the merged record (the one the nick had, if
        any), the nick is gone, and every other nick is as it was. */
    twostate predicate Left(a: Actor)
      requires old(Valid())
      reads this`actors, a, a.user, actors.Values
    {
      && actors == old(actors) - {a.nick}
      && a.user != null && Reused(a) && a.user.attrs == old(Prior(a.nick)) + old(Incoming(a))
      && OthersKept({a.nick})
    }

    /** After a kick: the victim is gone, holding a record (its old one, if any); the author is
        registered unless it was the victim's nick; when author and victim do not share a
        record, the victim's record holds the victim's merged attributes; every other nick is
        as it was. */
    twostate predicate Kicked(a: Actor, v: Actor)
      requires old(Valid())
      reads this`actors, a, a.user, v, v.user, actors.Values
    {
      && v.nick !in actors && v.user != null && Reused(a) && Reused(v)
      && (a.nick != v.nick ==>
            && a.nick in actors && a.user == actors[a.nick]
            && a.user.attrs == old(Prior(a.nick)) + old(Incoming(a)))
      && actors.Keys == old(actors.Keys) + {a.nick} - {v.nick}
      && (a != v && a.nick != v.nick && (old(a.nick !in actors) || old(v.user) != old(actors[a.nick])) ==>
            v.user.attrs == old(Prior(v.nick)) + old(Incoming(v)))
      && OthersKept({a.nick, v.nick})
    }

    /** After a nick change: the old nick is gone, the author holds the merged record (the one
        the old nick had, if any), that record is now filed under the new nick (renaming a nick
        to itself deletes it), and every other nick is as it was. */
    twostate predicate Renamed(a: Actor, n: string)
      requires old(Valid())
      reads this`actors, a, a.user, actors.Values
    {
      && a.nick !in actors && a.user != null && Reused(a)
      && a.user.attrs == old(Prior(a.nick)) + old(Incoming(a))
      && (n != a.nick ==> n in actors && a.user == actors[n])
      && actors.Keys == old(actors.Keys) - {a.nick} + {n} - (if n == a.nick then {n} else {})
      && OthersKept({a.nick, n})
    }

    /** What `event.apply(channel)` leaves behind, for each variant, against the state before:
        Base changes nothing; Message, Notice, Action, Join, Mode and Topic register the
        author; Kick, Part, Quit and Nick do what their own `apply` does to the registry; Mode
        also updates the modes and Topic the topic, and nothing else changes. */
    twostate predicate Applied(e: Event)
      requires old(Valid())
      reads this`actors, this`availableModes, this`channelModes, this`userModes, this`lists, this`topic
      reads Participants(e), actors.Values, if e.Base? then {} else {e.author.user}
      reads if e.Kick? then {e.victim.user} else {}
    {
      && (match e
          case Base(_) => actors == old(actors) && OthersKept({})
          case Kick(_, a, v) => Kicked(a, v)
          case Part(_, a) => Left(a)
          case Quit(_, a) => Left(a)
          case Nick(_, a, n) => Renamed(a, n)
          case _ => Registered(e.author))
      && (if e.Mode? then Table() == Modes.UpdateModes(old(Table()), e.instructions) else Table() == old(Table()))
      && (if e.Topic? then topic == Some(e.topic) else topic == old(topic))
    }

    /** `event.apply(channel)`. */
    method Apply(e: Event)
      requires Valid()
      modifies this`actors, this`availableModes, this`channelModes, this`userModes, this`lists, this`topic, Participants(e)`user, actors.Values
      ensures Valid() && events == old(events)
      ensures Applied(e)
    {
      match e
      case Base(_) =>
      case Message(_, _, _) | Notice(_, _, _) | Action(_, _, _) | Join(_, _) => ApplyAuthor(e.author);
      case Kick(_, a, v) => ApplyKick(a, v);
      case Part(_, _) | Quit(_, _) => ApplyLeave(e.author);
      case Mode(_, a, instructions) => ApplyMode(a, instructions);
      case Topic(_, a, t) => ApplyTopic(a, t);
      case Nick(_, a, n) => ApplyNick(a, n);
    }

    /** `addEvent(event)`: applies the event, then appends it to the log. */
    method AddEvent(e: Event)
      requires Valid()
      modifies this, Participants(e)`user, actors.Values
      ensures Valid()
      ensures events == old(events) + [e]
      ensures Applied(e)
    {
      Apply(e);
      Log(e);
    }

    /** The second half of `addEvent`: the event goes at the end of the log. */
    method Log(e: Event)
      modifies this`events
      ensures events == old(events) + [e]
    {
      events := events + [e];
    }
  }
}
