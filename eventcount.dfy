/** The event-count collector: per event name, a tally of occurrences in total, by nick, by
    day and by hour within the day. The day and hour keys (`YYYY-MM-DD` and `H` renderings
    of the event time) are inputs. */
module EventCount {
  import opened Wrappers

  datatype HourTally = HourTally(total: nat, byNick: map<string, nat>)
  datatype DayTally = DayTally(total: nat, byNick: map<string, nat>, byHour: map<string, HourTally>)
  datatype Tally = Tally(total: nat, byNick: map<string, nat>, byDay: map<string, DayTally>)

  /** One call of `increment`: the event name, the day and hour keys and the nick. */
  datatype Hit = Hit(event: string, day: string, hour: string, nick: string)

  /** A count, with an absent key read as 0. */
  function Lookup(m: map<string, nat>, k: string): nat {
    if k in m then m[k] else 0
  }

  /** The `=== undefined ? = 1 : ++` pattern: add one to the key's count. */
  function Bump(m: map<string, nat>, k: string): map<string, nat> {
    m[k := Lookup(m, k) + 1]
  }

  /** The tally of event `e`, or the fresh `{total: 0, byNick: {}, byDay: {}}` the first
      increment creates. */
  function TallyAt(c: map<string, Tally>, e: string): Tally {
    if e in c then c[e] else Tally(0, map[], map[])
  }

  function DayAt(m: map<string, DayTally>, d: string): DayTally {
    if d in m then m[d] else DayTally(0, map[], map[])
  }

  function HourAt(m: map<string, HourTally>, h: string): HourTally {
    if h in m then m[h] else HourTally(0, map[])
  }

  function HourInc(t: HourTally, nick: string): HourTally {
    HourTally(t.total + 1, Bump(t.byNick, nick))
  }

  function DayInc(t: DayTally, hour: string, nick: string): DayTally {
    DayTally(t.total + 1, Bump(t.byNick, nick), t.byHour[hour := HourInc(HourAt(t.byHour, hour), nick)])
  }

  function TallyInc(t: Tally, day: string, hour: string, nick: string): Tally {
    Tally(t.total + 1, Bump(t.byNick, nick), t.byDay[day := DayInc(DayAt(t.byDay, day), hour, nick)])
  }

  /** The counter after `increment(time, event, nick)`. */
  function Inc(c: map<string, Tally>, x: Hit): map<string, Tally> {
    c[x.event := TallyInc(TallyAt(c, x.event), x.day, x.hour, x.nick)]
  }

  /** The counter built by a sequence of increments from the empty counter. */
  function Replay(h: seq<Hit>): map<string, Tally>
    decreases |h|
  {
    if h == [] then map[] else Inc(Replay(h[..|h| - 1]), h[|h| - 1])
  }

  /** Replaying one more increment is that increment applied to the replayed counter. */
  lemma ReplaySnoc(h: seq<Hit>, x: Hit)
    ensures Replay(h + [x]) == Inc(Replay(h), x)
  {
    assert (h + [x])[..|h|] == h;
  }

  /** What a collector's invariant needs of one more increment. */
  lemma IncValid(c: map<string, Tally>, h: seq<Hit>, x: Hit)
    requires c == Replay(h) && Consistent(c) && Positive(c)
    ensures Inc(c, x) == Replay(h + [x]) && Consistent(Inc(c, x)) && Positive(Inc(c, x))
  {
    ReplaySnoc(h, x);
    IncConsistent(c, x);
    IncPositive(c, x);
  }

  /** One figure of the counter: the total (`n` = None) or one nick's count, of the whole
      event (`d` = None), of one day (`hr` = None) or of one hour of that day. Absent
      entries read as 0. */
  function Figure(c: map<string, Tally>, e: string, d: Option<string>, hr: Option<string>, n: Option<string>): nat {
    if e !in c then 0
    else
      var t := c[e];
      match d
      case None => if n.None? then t.total else Lookup(t.byNick, n.value)
      case Some(dd) =>
        if dd !in t.byDay then 0
        else
          var dt := t.byDay[dd];
          match hr
          case None => if n.None? then dt.total else Lookup(dt.byNick, n.value)
          case Some(hh) =>
            if hh !in dt.byHour then 0
            else
              var ht := dt.byHour[hh];
              if n.None? then ht.total else Lookup(ht.byNick, n.value)
  }

  /** Whether an increment is counted by that figure. */
  predicate Matches(x: Hit, e: string, d: Option<string>, hr: Option<string>, n: Option<string>) {
    && x.event == e
    && (d.Some? ==> x.day == d.value && (hr.Some? ==> x.hour == hr.value))
    && (n.Some? ==> x.nick == n.value)
  }

  /** The number of increments a figure counts. */
  function Count(h: seq<Hit>, e: string, d: Option<string>, hr: Option<string>, n: Option<string>): nat
    decreases |h|
  {
    if h == [] then 0
    else Count(h[..|h| - 1], e, d, hr, n) + (if Matches(h[|h| - 1], e, d, hr, n) then 1 else 0)
  }

  /** An increment raises exactly the figures it matches, each by one, and leaves every
      other figure, including those of other events, as it was. */
  lemma IncFigure(c: map<string, Tally>, x: Hit, e: string, d: Option<string>, hr: Option<string>, n: Option<string>)
    ensures Figure(Inc(c, x), e, d, hr, n) == Figure(c, e, d, hr, n) + (if Matches(x, e, d, hr, n) then 1 else 0)
  {
  }

  /** Every figure of the counter is the number of increments it counts. */
  lemma {:induction false} ReplayCounts(h: seq<Hit>, e: string, d: Option<string>, hr: Option<string>, n: Option<string>)
    ensures Figure(Replay(h), e, d, hr, n) == Count(h, e, d, hr, n)
    decreases |h|
  {
    if h != [] {
      ReplayCounts(h[..|h| - 1], e, d, hr, n);
      IncFigure(Replay(h[..|h| - 1]), h[|h| - 1], e, d, hr, n);
    }
  }

  // ---- keys exist only when used -------------------------------------------------------

  predicate PositiveCounts(m: map<string, nat>) {
    forall k :: k in m ==> m[k] >= 1
  }

  predicate PositiveHour(t: HourTally) {
    t.total >= 1 && PositiveCounts(t.byNick)
  }

  predicate PositiveDay(t: DayTally) {
    t.total >= 1 && PositiveCounts(t.byNick) && forall h :: h in t.byHour ==> PositiveHour(t.byHour[h])
  }

  predicate PositiveTally(t: Tally) {
    t.total >= 1 && PositiveCounts(t.byNick) && forall d :: d in t.byDay ==> PositiveDay(t.byDay[d])
  }

  /** Every entry present in the counter is at least 1. */
  predicate Positive(c: map<string, Tally>) {
    forall e :: e in c ==> PositiveTally(c[e])
  }

  lemma IncPositive(c: map<string, Tally>, x: Hit)
    requires Positive(c)
    ensures Positive(Inc(c, x))
  {
    var t := TallyAt(c, x.event);
    var dt := DayAt(t.byDay, x.day);
    var ht := HourAt(dt.byHour, x.hour);
    assert PositiveHour(HourInc(ht, x.nick));
    assert PositiveDay(DayInc(dt, x.hour, x.nick));
    assert PositiveTally(TallyInc(t, x.day, x.hour, x.nick));
  }

  lemma {:induction false} ReplayPositive(h: seq<Hit>)
    ensures Positive(Replay(h))
    decreases |h|
  {
    if h != [] {
      ReplayPositive(h[..|h| - 1]);
      IncPositive(Replay(h[..|h| - 1]), h[|h| - 1]);
    }
  }

  /** An event, nick, day or hour key is present exactly when some increment used it. */
  lemma KeysAreUsed(h: seq<Hit>, e: string, d: Option<string>, hr: Option<string>, n: Option<string>)
    ensures Figure(Replay(h), e, d, hr, n) >= 1 <==> Count(h, e, d, hr, n) >= 1
    ensures e in Replay(h) <==> Count(h, e, None, None, None) >= 1
    ensures e in Replay(h) && n.Some? ==> (n.value in Replay(h)[e].byNick <==> Count(h, e, None, None, n) >= 1)
    ensures e in Replay(h) && d.Some? ==> (d.value in Replay(h)[e].byDay <==> Count(h, e, d, None, None) >= 1)
  {
    ReplayCounts(h, e, d, hr, n);
    ReplayCounts(h, e, None, None, None);
    ReplayCounts(h, e, None, None, n);
    ReplayCounts(h, e, d, None, None);
    ReplayPositive(h);
  }

  // ---- sum invariants ------------------------------------------------------------------

  /** The sum of a map's values. */
  ghost function Sum(m: map<string, nat>): nat
    decreases |m|
  {
    if m == map[] then 0
    else
      var k :| k in m;
      m[k] + Sum(m - {k})
  }

  /** The sum does not depend on which key is taken first. */
  lemma {:induction false} SumRemove(m: map<string, nat>, k: string)
    requires k in m
    ensures Sum(m) == m[k] + Sum(m - {k})
    decreases |m|
  {
    var j :| j in m && Sum(m) == m[j] + Sum(m - {j});
    if j != k {
      SumRemove(m - {j}, k);
      SumRemove(m - {k}, j);
      assert m - {j} - {k} == m - {k} - {j};
    }
  }

  /** Replacing one value changes the sum by the difference. */
  lemma SumUpdate(m: map<string, nat>, k: string, v: nat)
    ensures Sum(m[k := v]) + Lookup(m, k) == Sum(m) + v
  {
    SumRemove(m[k := v], k);
    assert m[k := v] - {k} == m - {k};
    if k in m {
      SumRemove(m, k);
    } else {
      assert m - {k} == m;
    }
  }

  function DayTotals(m: map<string, DayTally>): map<string, nat> {
    map d | d in m :: m[d].total
  }

  function HourTotals(m: map<string, HourTally>): map<string, nat> {
    map h | h in m :: m[h].total
  }

  ghost predicate ConsistentHour(t: HourTally) {
    t.total == Sum(t.byNick)
  }

  ghost predicate ConsistentDay(t: DayTally) {
    && t.total == Sum(t.byNick) && t.total == Sum(HourTotals(t.byHour))
    && forall h :: h in t.byHour ==> ConsistentHour(t.byHour[h])
  }

  /** `total` = the sum of `byNick` = the sum of the day totals; each day total = the sum of
      its `byNick` = the sum of its hour totals; each hour total = the sum of its `byNick`. */
  ghost predicate ConsistentTally(t: Tally) {
    && t.total == Sum(t.byNick) && t.total == Sum(DayTotals(t.byDay))
    && forall d :: d in t.byDay ==> ConsistentDay(t.byDay[d])
  }

  ghost predicate Consistent(c: map<string, Tally>) {
    forall e :: e in c ==> ConsistentTally(c[e])
  }

  lemma BumpSum(m: map<string, nat>, k: string)
    ensures Sum(Bump(m, k)) == Sum(m) + 1
  {
    SumUpdate(m, k, Lookup(m, k) + 1);
  }

  lemma HourIncConsistent(t: HourTally, n: string)
    requires ConsistentHour(t)
    ensures ConsistentHour(HourInc(t, n))
  {
    BumpSum(t.byNick, n);
  }

  lemma DayIncConsistent(t: DayTally, hour: string, n: string)
    requires ConsistentDay(t)
    ensures ConsistentDay(DayInc(t, hour, n))
  {
    BumpSum(t.byNick, n);
    var old_ := HourAt(t.byHour, hour);
    HourIncConsistent(old_, n);
    var nh := HourInc(old_, n);
    HoursConsistent(t.byHour, hour, nh, t.byHour[hour := nh]);
    HourTotalsSum(t.byHour, hour, nh);
  }

  lemma HoursConsistent(m: map<string, HourTally>, hour: string, nh: HourTally, hours: map<string, HourTally>)
    requires forall h :: h in m ==> ConsistentHour(m[h])
    requires ConsistentHour(nh) && hours == m[hour := nh]
    ensures forall h :: h in hours ==> ConsistentHour(hours[h])
  {
  }

  lemma HourTotalsSum(m: map<string, HourTally>, hour: string, nh: HourTally)
    requires nh.total == HourAt(m, hour).total + 1
    ensures Sum(HourTotals(m[hour := nh])) == Sum(HourTotals(m)) + 1
  {
    assert HourTotals(m[hour := nh]) == HourTotals(m)[hour := nh.total];
    assert Lookup(HourTotals(m), hour) == HourAt(m, hour).total;
    SumUpdate(HourTotals(m), hour, nh.total);
  }

  lemma DayTotalsUpdate(m: map<string, DayTally>, k: string, v: DayTally)
    ensures DayTotals(m[k := v]) == DayTotals(m)[k := v.total]
    ensures Lookup(DayTotals(m), k) == DayAt(m, k).total
  {
  }

  lemma TallyIncConsistent(t: Tally, day: string, hour: string, n: string)
    requires ConsistentTally(t)
    ensures ConsistentTally(TallyInc(t, day, hour, n))
  {
    BumpSum(t.byNick, n);
    var old_ := DayAt(t.byDay, day);
    if day !in t.byDay {
      assert HourTotals(old_.byHour) == map[];
    }
    DayIncConsistent(old_, hour, n);
    var nd := DayInc(old_, hour, n);
    DaysConsistent(t.byDay, day, nd, t.byDay[day := nd]);
    DayTotalsSum(t.byDay, day, nd);
  }

  lemma DaysConsistent(m: map<string, DayTally>, day: string, nd: DayTally, days: map<string, DayTally>)
    requires forall d :: d in m ==> ConsistentDay(m[d])
    requires ConsistentDay(nd) && days == m[day := nd]
    ensures forall d :: d in days ==> ConsistentDay(days[d])
  {
  }

  lemma DayTotalsSum(m: map<string, DayTally>, day: string, nd: DayTally)
    requires nd.total == DayAt(m, day).total + 1
    ensures Sum(DayTotals(m[day := nd])) == Sum(DayTotals(m)) + 1
  {
    DayTotalsUpdate(m, day, nd);
    SumUpdate(DayTotals(m), day, nd.total);
  }

  /** Increments keep every sum invariant. */
  lemma IncConsistent(c: map<string, Tally>, x: Hit)
    requires Consistent(c)
    ensures Consistent(Inc(c, x))
  {
    TallyIncConsistent(TallyAt(c, x.event), x.day, x.hour, x.nick);
  }

  lemma {:induction false} ReplayConsistent(h: seq<Hit>)
    ensures Consistent(Replay(h))
    decreases |h|
  {
    if h != [] {
      ReplayConsistent(h[..|h| - 1]);
      IncConsistent(Replay(h[..|h| - 1]), h[|h| - 1]);
    }
  }

  // ---- the collector -------------------------------------------------------------------

  class EventCountCollector {
    var counter: map<string, Tally>
    /** the increments made so far */
    ghost var hits: seq<Hit>

    ghost predicate Valid()
      reads this
    {
      counter == Replay(hits) && Consistent(counter) && Positive(counter)
    }

    constructor()
      ensures Valid() && counter == map[] && hits == []
    {
      counter := map[];
      hits := [];
    }

    /** `increment(time, event, nick)`: creates the event's tally on first use, then raises
        the total and the nick's count of the event, of its day and of its hour. */
    method Increment(day: string, hour: string, event: string, nick: string)
      requires Valid()
      modifies this
      ensures Valid()
      ensures hits == old(hits) + [Hit(event, day, hour, nick)]
      ensures counter == Inc(old(counter), Hit(event, day, hour, nick))
    {
      ghost var x := Hit(event, day, hour, nick);
      IncValid(counter, hits, x);
      var t := Tally(0, map[], map[]);
      if event in counter {
        t := counter[event];
      }
      var tally := IncrementTally(t, day, hour, nick);
      counter := counter[event := tally];
      hits := hits + [x];
    }

    /** The event level of `increment`: its total, the nick's count, and the day's tally,
        created on first use. */
    static method IncrementTally(t: Tally, day: string, hour: string, nick: string) returns (r: Tally)
      ensures r == TallyInc(t, day, hour, nick)
    {
      var byNick := BumpCount(t.byNick, nick);
      var byDay := t.byDay;
      if day !in byDay {
        byDay := byDay[day := DayTally(0, map[], map[])];
      }
      var dayTally := IncrementDay(byDay[day], hour, nick);
      r := Tally(t.total + 1, byNick, byDay[day := dayTally]);
    }

    /** The day level of `increment`: its total, the nick's count, and the hour's tally,
        created on first use. */
    static method IncrementDay(t: DayTally, hour: string, nick: string) returns (r: DayTally)
      ensures r == DayInc(t, hour, nick)
    {
      var byHour := t.byHour;
      if hour !in byHour {
        byHour := byHour[hour := HourTally(0, map[])];
      }
      var hourTally := byHour[hour];
      var hourNicks := BumpCount(hourTally.byNick, nick);
      var dayNicks := BumpCount(t.byNick, nick);
      r := DayTally(t.total + 1, dayNicks, byHour[hour := HourTally(hourTally.total + 1, hourNicks)]);
    }

    /** `if (m[k] === undefined) m[k] = 1; else m[k]++;` */
    static method BumpCount(m: map<string, nat>, k: string) returns (r: map<string, nat>)
      ensures r == Bump(m, k)
    {
      if k !in m {
        r := m[k := 1];
      } else {
        r := m[k := m[k] + 1];
      }
    }

    /** `onAction`: counted as `action`. */
    method OnAction(day: string, hour: string, nick: string, action: string)
      requires Valid()
      modifies this
      ensures Valid() && counter == Inc(old(counter), Hit("action", day, hour, nick))
    {
      Increment(day, hour, "action", nick);
    }

    /** `onMessage`: counted as `message`. */
    method OnMessage(day: string, hour: string, nick: string, message: string)
      requires Valid()
      modifies this
      ensures Valid() && counter == Inc(old(counter), Hit("message", day, hour, nick))
    {
      Increment(day, hour, "message", nick);
    }

    /** `onNotice`: notices are counted as messages. */
    method OnNotice(day: string, hour: string, nick: string, message: string)
      requires Valid()
      modifies this
      ensures Valid() && counter == Inc(old(counter), Hit("message", day, hour, nick))
    {
      Increment(day, hour, "message", nick);
    }

    /** `onKick`: counted as `kick`, credited to the kicker. */
    method OnKick(day: string, hour: string, nick: string, victim: string, message: string)
      requires Valid()
      modifies this
      ensures Valid() && counter == Inc(old(counter), Hit("kick", day, hour, nick))
    {
      Increment(day, hour, "kick", nick);
    }

    /** `onMode`: counted as `mode`. */
    method OnMode(day: string, hour: string, nick: string, mode: string)
      requires Valid()
      modifies this
      ensures Valid() && counter == Inc(old(counter), Hit("mode", day, hour, nick))
    {
      Increment(day, hour, "mode", nick);
    }

    /** `onTopic`: counted as `topic`. */
    method OnTopic(day: string, hour: string, nick: string, topic: string)
      requires Valid()
      modifies this
      ensures Valid() && counter == Inc(old(counter), Hit("topic", day, hour, nick))
    {
      Increment(day, hour, "topic", nick);
    }

    /** `onJoin`, `onNick`, `onPart` and `onQuit` are the collector's inherited no-ops. */
    method OnJoin(day: string, hour: string, nick: string)
      ensures counter == old(counter)
    {
    }

    method OnNick(day: string, hour: string, oldNick: string, newNick: string)
      ensures counter == old(counter)
    {
    }

    method OnPart(day: string, hour: string, nick: string, message: string)
      ensures counter == old(counter)
    {
    }

    method OnQuit(day: string, hour: string, nick: string, message: string)
      ensures counter == old(counter)
    {
    }
  }
}
