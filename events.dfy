// The event taxonomy of a channel log: a closed set of variants, each with the fields its
// constructor stores, the tag `toJSON` writes and the reconstruction `fromJson` performs.
// What each variant's `apply` does to a channel is `ChannelModel.Channel.Apply`.

module Events {
  import opened Wrappers

  /** The shared attribute record of a nick (`ident`, `host` and the like). */
  class UserRecord {
    var attrs: map<string, string>

    constructor(attrs: map<string, string>)
      ensures this.attrs == attrs
    {
      this.attrs := attrs;
    }
  }

  /** An author or victim as an event carries it: a nick and, when present, a `user` record
      (`null` stands for an actor without a `user` key). `apply` rewrites `user`. */
  class Actor {
    var nick: string
    var user: UserRecord?

    constructor(nick: string, user: UserRecord?)
      ensures this.nick == nick && this.user == user
    {
      this.nick := nick;
      this.user := user;
    }
  }

  /** The event's timestamp, carried through unchanged. */
  type Time = int

  /** `Events.Base` and the ten concrete variants. Kick, Part and Quit have no message field:
      their constructors drop that argument. */
  datatype Event =
    | Base(time: Time)
    | Message(time: Time, author: Actor, message: string)
    | Notice(time: Time, author: Actor, message: string)
    | Action(time: Time, author: Actor, action: string)
    | Join(time: Time, author: Actor)
    | Kick(time: Time, author: Actor, victim: Actor)
    | Part(time: Time, author: Actor)
    | Quit(time: Time, author: Actor)
    | Mode(time: Time, author: Actor, instructions: string)
    | Topic(time: Time, author: Actor, topic: string)
    | Nick(time: Time, author: Actor, nick: string)

  /** `new Events.Kick(time, author, victim, message)`: the message is not stored. */
  function NewKick(time: Time, author: Actor, victim: Actor, message: string): (e: Event)
    ensures e.Kick? && e.time == time && e.author == author && e.victim == victim
    ensures "message" !in ToJson(e)
  {
    Kick(time, author, victim)
  }

  /** `new Events.Part(time, author, message)`: the message is not stored. */
  function NewPart(time: Time, author: Actor, message: string): (e: Event)
    ensures e.Part? && e.time == time && e.author == author
    ensures "message" !in ToJson(e)
  {
    Part(time, author)
  }

  /** `new Events.Quit(time, author, message)`: the message is not stored. */
  function NewQuit(time: Time, author: Actor, message: string): (e: Event)
    ensures e.Quit? && e.time == time && e.author == author
    ensures "message" !in ToJson(e)
  {
    Quit(time, author)
  }

  /** `this.constructor.name`: the class name, which is `Event` for the base class. */
  function ClassName(e: Event): string {
    match e
    case Base(_) => "Event"
    case Message(_, _, _) => "Message"
    case Notice(_, _, _) => "Notice"
    case Action(_, _, _) => "Action"
    case Join(_, _) => "Join"
    case Kick(_, _, _) => "Kick"
    case Part(_, _) => "Part"
    case Quit(_, _) => "Quit"
    case Mode(_, _, _) => "Mode"
    case Topic(_, _, _) => "Topic"
    case Nick(_, _, _) => "Nick"
  }

  /** A property value of a serialised event. */
  datatype JsonValue = JTime(time: Time) | JActor(actor: Actor) | JText(text: string)

  type JsonObject = map<string, JsonValue>

  /** `toJSON()`: the tag `type` followed by the event's own fields. */
  function ToJson(e: Event): (j: JsonObject)
    ensures "type" in j && j["type"] == JText(ClassName(e))
    ensures "time" in j && j["time"] == JTime(e.time)
    ensures !e.Base? ==> "author" in j && j["author"] == JActor(e.author)
  {
    var head := map["type" := JText(ClassName(e)), "time" := JTime(e.time)];
    match e
    case Base(_) => head
    case Message(_, a, m) => head["author" := JActor(a)]["message" := JText(m)]
    case Notice(_, a, m) => head["author" := JActor(a)]["message" := JText(m)]
    case Action(_, a, x) => head["author" := JActor(a)]["action" := JText(x)]
    case Join(_, a) => head["author" := JActor(a)]
    case Kick(_, a, v) => head["author" := JActor(a)]["victim" := JActor(v)]
    case Part(_, a) => head["author" := JActor(a)]
    case Quit(_, a) => head["author" := JActor(a)]
    case Mode(_, a, i) => head["author" := JActor(a)]["instructions" := JText(i)]
    case Topic(_, a, x) => head["author" := JActor(a)]["topic" := JText(x)]
    case Nick(_, a, n) => head["author" := JActor(a)]["nick" := JText(n)]
  }

  /** Why `fromJson` could not rebuild an event. */
  datatype JsonError =
    | NoSuchType(tag: Option<string>)  // `this[type]` is not an event class: the call throws
    | BadField(key: string)            // a field the class stores is missing or of another kind

  function TimeField(j: JsonObject, k: string): Result<Time, JsonError> {
    if k in j && j[k].JTime? then Ok(j[k].time) else Err(BadField(k))
  }

  function ActorField(j: JsonObject, k: string): Result<Actor, JsonError> {
    if k in j && j[k].JActor? then Ok(j[k].actor) else Err(BadField(k))
  }

  function TextField(j: JsonObject, k: string): Result<string, JsonError> {
    if k in j && j[k].JText? then Ok(j[k].text) else Err(BadField(k))
  }

  /** `Events[tag].Reconstruct(fields)`: a fresh instance of the class the tag names, with the
      fields copied over. */
  function Reconstruct(tag: string, j: JsonObject): Result<Event, JsonError> {
    var t := TimeField(j, "time");
    var a := ActorField(j, "author");
    if tag !in {"Base", "Message", "Notice", "Action", "Join", "Kick", "Part", "Quit", "Mode", "Topic", "Nick"} then
      Err(NoSuchType(Some(tag)))
    else if t.Err? then Err(t.error)
    else if tag == "Base" then Ok(Base(t.value))
    else if a.Err? then Err(a.error)
    else if tag == "Join" then Ok(Join(t.value, a.value))
    else if tag == "Part" then Ok(Part(t.value, a.value))
    else if tag == "Quit" then Ok(Quit(t.value, a.value))
    else if tag == "Kick" then
      var v := ActorField(j, "victim");
      if v.Err? then Err(v.error) else Ok(Kick(t.value, a.value, v.value))
    else
      var key := if tag in {"Message", "Notice"} then "message" else if tag == "Action" then "action"
        else if tag == "Mode" then "instructions" else if tag == "Topic" then "topic" else "nick";
      var x := TextField(j, key);
      if x.Err? then Err(x.error)
      else if tag == "Message" then Ok(Message(t.value, a.value, x.value))
      else if tag == "Notice" then Ok(Notice(t.value, a.value, x.value))
      else if tag == "Action" then Ok(Action(t.value, a.value, x.value))
      else if tag == "Mode" then Ok(Mode(t.value, a.value, x.value))
      else if tag == "Topic" then Ok(Topic(t.value, a.value, x.value))
      else Ok(Nick(t.value, a.value, x.value))
  }

  /** `fromJson(json)` on an object: dispatch on its `type` key, which the call deletes first. */
  function FromJsonSpec(j: JsonObject): Result<Event, JsonError> {
    if "type" in j && j["type"].JText? then Reconstruct(j["type"].text, j - {"type"})
    else Err(NoSuchType(None))
  }

  /** A JSON object as `fromJson` receives it: a mutable set of properties. */
  class JsonInput {
    var fields: JsonObject

    constructor(fields: JsonObject)
      ensures this.fields == fields
    {
      this.fields := fields;
    }

    /** `Events.fromJson(json)`: deletes `type` from the object, then rebuilds the event. */
    method FromJson() returns (r: Result<Event, JsonError>)
      modifies this
      ensures fields == old(fields) - {"type"}
      ensures r == FromJsonSpec(old(fields))
    {
      var tag := if "type" in fields then Some(fields["type"]) else None;
      fields := fields - {"type"};
      if tag.Some? && tag.value.JText? {
        r := Reconstruct(tag.value.text, fields);
      } else {
        r := Err(NoSuchType(None));
      }
    }
  }

  /** Serialising and rebuilding gives back the same variant with the same fields, for every
      variant but the base class. */
  lemma RoundTrip(e: Event)
    requires !e.Base?
    ensures FromJsonSpec(ToJson(e)) == Ok(e)
  {
    var j := ToJson(e) - {"type"};
    assert "time" in j && j["time"] == JTime(e.time);
    assert "author" in j && j["author"] == JActor(e.author);
    match e
    case Kick(_, _, v) => assert "victim" in j && j["victim"] == JActor(v);
    case Message(_, _, m) => assert "message" in j && j["message"] == JText(m);
    case Notice(_, _, m) => assert "message" in j && j["message"] == JText(m);
    case Action(_, _, x) => assert "action" in j && j["action"] == JText(x);
    case Mode(_, _, x) => assert "instructions" in j && j["instructions"] == JText(x);
    case Topic(_, _, x) => assert "topic" in j && j["topic"] == JText(x);
    case Nick(_, _, x) => assert "nick" in j && j["nick"] == JText(x);
    case _ =>
  }

  /** The base class writes the tag `Event`, which names no class of `Events`, so its JSON
      form cannot be read back. */
  lemma BaseDoesNotRoundTrip(t: Time)
    ensures FromJsonSpec(ToJson(Base(t))) == Err(NoSuchType(Some("Event")))
  {
    assert ToJson(Base(t)) - {"type"} == map["time" := JTime(t)];
  }

  /** The key set `toJSON` writes: the tag, the time and exactly the fields the class stores. */
  lemma ToJsonKeys(e: Event)
    ensures ToJson(e).Keys == {"type", "time"} + FieldNames(e)
  {
  }

  /** The names of the fields each class stores beyond its time. */
  function FieldNames(e: Event): set<string> {
    match e
    case Base(_) => {}
    case Message(_, _, _) => {"author", "message"}
    case Notice(_, _, _) => {"author", "message"}
    case Action(_, _, _) => {"author", "action"}
    case Join(_, _) => {"author"}
    case Kick(_, _, _) => {"author", "victim"}
    case Part(_, _) => {"author"}
    case Quit(_, _) => {"author"}
    case Mode(_, _, _) => {"author", "instructions"}
    case Topic(_, _, _) => {"author", "topic"}
    case Nick(_, _, _) => {"author", "nick"}
  }
}
