/**
 * The analytics record of StorageManager (storage.js): an event list that
 * keeps the hundred newest events and a per-action counter.
 */
module Analytics {
  import opened Wrappers
  import opened Json
  import opened Project

  const MaxEvents := 100

  /** What getAnalytics returns when nothing is stored. */
  function Fresh(now: Timestamp): (a: Value)
    ensures WellFormed(a) && Get(a, "events") == Arr([]) && Get(a, "stats") == EmptyObject
    ensures Get(a, "lastUpdated") == Str(now)
  {
    Obj(["events", "stats", "created", "lastUpdated"],
        map["events" := Arr([]), "stats" := EmptyObject, "created" := Str(now), "lastUpdated" := Str(now)])
  }

  /** What getAnalytics returns when the stored text does not parse: no `lastUpdated`. */
  function Recovered(now: Timestamp): (a: Value)
    ensures WellFormed(a) && Get(a, "events") == Arr([]) && Get(a, "stats") == EmptyObject
    ensures Get(a, "lastUpdated") == Undefined
  {
    Obj(["events", "stats", "created"], map["events" := Arr([]), "stats" := EmptyObject, "created" := Str(now)])
  }

  /** The event updateAnalytics appends: `{action, timestamp, metadata}`. */
  function Event(action: string, now: Timestamp, metadata: Value): (e: Value)
    ensures WellFormed(e) && Get(e, "action") == Str(action) && Get(e, "timestamp") == Str(now)
    ensures Get(e, "metadata") == metadata
  {
    Obj(["action", "timestamp", "metadata"],
        map["action" := Str(action), "timestamp" := Str(now), "metadata" := metadata])
  }

  /**
   * `(counter || 0) + 1`: a falsy counter becomes 1, a number is
   * incremented, `true` counts as 1 and a string gets "1" appended. `None`
   * marks an array or object counter, which the model does not evaluate.
   */
  function Bump(counter: Value): (r: Option<Value>)
    ensures !Truthy(counter) ==> r == Some(Num(1))
    ensures counter.Num? ==> r == Some(Num(counter.n + 1))
    ensures r.None? <==> counter.Arr? || counter.Obj?
  {
    if !Truthy(counter) then Some(Num(1))
    else match counter
      case Num(n) => Some(Num(n + 1))
      case Bool(_) => Some(Num(2))
      case Str(s) => Some(Str(s + "1"))
      case _ => None
  }

  /** `events.slice(-n)` for a list longer than `n`, the list itself otherwise. */
  function Newest(events: seq<Value>, n: nat): (r: seq<Value>)
    ensures |r| == if |events| <= n then |events| else n
    ensures r == events[|events| - |r|..]
  {
    if |events| <= n then events else events[|events| - n..]
  }

  /**
   * The body of updateAnalytics once analytics are enabled: push the event,
   * bump the action's counter, stamp `lastUpdated` and keep the hundred
   * newest events. `None` is an error the method swallows: the record has
   * no `events` array or no `stats` object, or the counter cannot be bumped.
   */
  function Record(a: Value, action: string, metadata: Value, now: Timestamp): (r: Option<Value>)
    ensures r.Some? <==> Get(a, "events").Arr? && Get(a, "stats").Obj? && Bump(Get(Get(a, "stats"), action)).Some?
  {
    var events := Get(a, "events");
    var stats := Get(a, "stats");
    if !events.Arr? || !stats.Obj? then None
    else match Bump(Get(stats, action))
      case None => None
      case Some(count) =>
        // `push` and the later `slice(-100)` both assign the existing
        // `events` key, so together they are one assignment of the kept list.
        var kept := Newest(events.items + [Event(action, now, metadata)], MaxEvents);
        var withEvents := Set(a, "events", Arr(kept));
        var counted := Set(withEvents, "stats", Set(stats, action, count));
        Some(Set(counted, "lastUpdated", Str(now)))
  }

  /**
   * A recorded event is the newest one kept, at most a hundred events are
   * kept, and before it come the newest of the old ones, in order.
   */
  lemma RecordEvents(a: Value, action: string, metadata: Value, now: Timestamp)
    requires Record(a, action, metadata, now).Some?
    ensures var old_events := Get(a, "events").items;
      var events := Get(Record(a, action, metadata, now).value, "events");
      && events.Arr?
      && |events.items| == (if |old_events| < MaxEvents then |old_events| + 1 else MaxEvents)
      && events.items[|events.items| - 1] == Event(action, now, metadata)
      && events.items[..|events.items| - 1] == old_events[|old_events| + 1 - |events.items|..]
  {
    var old_events := Get(a, "events").items;
    var e := Event(action, now, metadata);
    assert Get(Record(a, action, metadata, now).value, "events") == Arr(Newest(old_events + [e], MaxEvents));
    NewestAppend(old_events, e, MaxEvents);
  }

  lemma NewestAppend(old_events: seq<Value>, e: Value, n: nat)
    requires n > 0
    ensures var kept := Newest(old_events + [e], n);
      && |kept| == (if |old_events| < n then |old_events| + 1 else n)
      && kept[|kept| - 1] == e
      && kept[..|kept| - 1] == old_events[|old_events| + 1 - |kept|..]
  {
    var all := old_events + [e];
    var kept := Newest(all, n);
    assert kept[..|kept| - 1] == all[|all| - |kept|..|all| - 1];
  }

  /**
   * Recording bumps the action's counter and stamps `lastUpdated`; every
   * other counter and every other field is left as it was.
   */
  lemma RecordCounters(a: Value, action: string, metadata: Value, now: Timestamp)
    requires Record(a, action, metadata, now).Some?
    ensures var r := Record(a, action, metadata, now).value;
      && Get(Get(r, "stats"), action) == Bump(Get(Get(a, "stats"), action)).value
      && (forall k | k != action :: Get(Get(r, "stats"), k) == Get(Get(a, "stats"), k))
      && Get(r, "lastUpdated") == Str(now)
      && (forall k | k != "events" && k != "stats" && k != "lastUpdated" :: Get(r, k) == Get(a, k))
  {
  }

  /** Counting the same action twice from nothing gives 2. */
  lemma CountTwice(a: Value, action: string, metadata: Value, now: Timestamp, later: Timestamp)
    requires Record(a, action, metadata, now).Some? && !Truthy(Get(Get(a, "stats"), action))
    ensures Record(Record(a, action, metadata, now).value, action, metadata, later).Some?
    ensures Get(Get(Record(Record(a, action, metadata, now).value, action, metadata, later).value, "stats"), action) == Num(2)
  {
    RecordCounters(a, action, metadata, now);
    var r := Record(a, action, metadata, now).value;
    RecordCounters(r, action, metadata, later);
  }

  /**
   * updateAnalytics performs its assignments one at a time: push, count,
   * stamp, then trim `events` to the hundred newest. The trim assigns the
   * same key as the push, so the result is the record Record describes.
   */
  lemma RecordStepwise(a: Value, action: string, metadata: Value, now: Timestamp)
    requires Record(a, action, metadata, now).Some?
    ensures var events := Get(a, "events").items + [Event(action, now, metadata)];
      var stats := Get(a, "stats");
      var stamped := Set(Set(Set(a, "events", Arr(events)), "stats", Set(stats, action, Bump(Get(stats, action)).value)), "lastUpdated", Str(now));
      Record(a, action, metadata, now).value == if |events| > MaxEvents then Set(stamped, "events", Arr(events[|events| - MaxEvents..])) else stamped
  {
    var events := Get(a, "events").items + [Event(action, now, metadata)];
    var stats := Get(a, "stats");
    var count := Set(stats, action, Bump(Get(stats, action)).value);
    if |events| > MaxEvents {
      var kept := Arr(events[|events| - MaxEvents..]);
      var pushed := Set(a, "events", Arr(events));
      var p := Set(pushed, "stats", count);
      SetSwap(p, "events", "lastUpdated", kept, Str(now));
      SetSwap(pushed, "events", "stats", kept, count);
      SetTwice(a, "events", Arr(events), kept);
    }
  }
}
