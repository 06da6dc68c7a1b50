/** The versioned codec cache: a configuration text that other threads replace, and a codec built
    from it on demand.  Text and version are written and read in separate steps.

    Each method is one atomic step of one thread; every interleaving of setters and codec calls
    is some sequence of method calls.  `calls` and `writing` hold the threads' positions. */
module CodecCache {
  import opened Wrappers

  type Text(==, !new)
  type Codec(==, !new)
  type CallId = nat

  datatype Cached = Cached(version: nat, codec: Codec)

  /** A codec call: it has read version `v`; found the cache stale; read the text; or holds the
      cache with a codec for `v` in it. */
  datatype Call = Began(v: nat) | Missed(v: nat) | Building(v: nat, text: Text) | Using(v: nat)

  function Evolve(codec: Codec, uses: seq<Codec -> Codec>): Codec {
    if uses == [] then codec else uses[|uses| - 1](Evolve(codec, uses[..|uses| - 1]))
  }

  /** What happened under the lock of the cache: a build for version `v` succeeded, or a call that
      had read version `v` ran `f` on `codec`. */
  datatype Event =
    | Built(v: nat, codec: Codec)
    | Used(v: nat, codec: Codec, f: Codec -> Codec)

  function CacheAfter(events: seq<Event>): Option<Cached> {
    if events == [] then None
    else match events[|events| - 1]
      case Built(v, codec) => Some(Cached(v, codec))
      case Used(v, codec, f) => Some(Cached(v, f(codec)))
  }

  /** A build only happens if the cache holds nothing for that version, and a call uses what the
      cache holds for its version. */
  ghost predicate Fits(cache: Option<Cached>, event: Event) {
    match event
    case Built(v, _) => cache.None? || cache.value.version != v
    case Used(v, codec, _) => cache == Some(Cached(v, codec))
  }

  ghost predicate EventsOk(events: seq<Event>) {
    forall i {:trigger events[i]} :: 0 <= i < |events| ==> Fits(CacheAfter(events[..i]), events[i])
  }

  /** The events explain what the cache holds. */
  ghost predicate Recorded(events: seq<Event>, cache: Option<Cached>) {
    EventsOk(events) && cache == CacheAfter(events)
  }

  lemma OneMoreEvent(events: seq<Event>, event: Event, cache: Option<Cached>)
    requires Recorded(events, cache) && Fits(cache, event)
    ensures Recorded(events + [event], CacheAfter([event]))
    ensures forall first :: AllOfVersion(events, first, event.v) ==> AllOfVersion(events + [event], first, event.v)
  {
    var more := events + [event];
    forall i | 0 <= i < |more|
      ensures Fits(CacheAfter(more[..i]), more[i])
    {
      if i < |events| {
        assert more[..i] == events[..i] && more[i] == events[i];
      } else {
        assert more[..i] == events;
      }
    }
  }

  /** The functions that the first `n` calls from event `first` on ran. */
  function Runs(events: seq<Event>, first: nat, n: nat): seq<Codec -> Codec>
    requires first <= n <= |events|
  {
    if n == first then []
    else Runs(events, first, n - 1) + if events[n - 1].Used? then [events[n - 1].f] else []
  }

  ghost predicate AllOfVersion(events: seq<Event>, first: nat, v: nat) {
    forall i :: first <= i < |events| ==> events[i].v == v
  }

  /** In a stretch in which all calls read the same version, only the first event can be a build,
      and each call uses the codec the stretch began with, evolved by all the calls before it. */
  lemma {:induction false} OneBuildServesTheStretch(events: seq<Event>, first: nat, v: nat, n: nat)
    requires EventsOk(events) && first < n < |events| && AllOfVersion(events, first, v)
    ensures events[n].Used? && events[n].codec == Evolve(events[first].codec, Runs(events, first, n))
  {
    assert Fits(CacheAfter(events[..n]), events[n]);
    assert events[..n][|events[..n]| - 1] == events[n - 1];
    var runs := Runs(events, first, n - 1);
    if first < n - 1 { OneBuildServesTheStretch(events, first, v, n - 1); }
    if events[n - 1].Used? { assert (runs + [events[n - 1].f])[..|runs|] == runs; }
  }

  /** Text number `j` is at least as new as that of every set that had returned when the version
      read `v`: `bumped[k]` is the number of the text whose setter made version `k + 2`. */
  ghost predicate Fresh(bumped: seq<nat>, v: nat, j: nat) {
    forall k :: 0 <= k < |bumped| && k < v - 1 ==> bumped[k] <= j
  }

  /** A set that had returned when a call read its version wrote no later text than the one the
      call's codec was built from. */
  lemma ReturnedSetsAreSeen(before: seq<nat>, now: seq<nat>, w: nat, j: nat)
    requires before <= now && w in before && Fresh(now, 1 + |before|, j)
    ensures w <= j
  {
    var k :| 0 <= k < |before| && before[k] == w;
    assert now[k] == w;
  }

  class ConfiguredCodec {
    const build: Text -> Option<Codec>
    // EffectiveConfigEntry
    var version: nat
    var ron: Text
    // CodecState
    var inner: Option<Cached>
    var lockedBy: Option<CallId>
    // The threads' positions; `writing` are the texts of the setters that have yet to bump.
    var calls: map<CallId, Call>
    ghost var writing: set<nat>
    // History: all texts in the order they were written, the texts behind each version, the text
    // each building call has read, and where the cached codec comes from.
    ghost var texts: seq<Text>
    ghost var bumped: seq<nat>
    ghost var read: map<CallId, nat>
    ghost var origin: nat
    ghost var uses: seq<Codec -> Codec>
    ghost var events: seq<Event>
    // Where an observer began to watch: the event and the version of that moment.
    ghost var mark: nat
    ghost var markVersion: nat

    ghost predicate ConfigOk()
      reads this
    {
      version == 1 + |bumped| && texts != [] && ron == texts[|texts| - 1] &&
      (forall k :: 0 <= k < |bumped| ==> bumped[k] < |texts|) && forall w :: w in writing ==> w < |texts|
    }

    ghost predicate CacheOk()
      reads this
    {
      inner.Some? ==>
        inner.value.version <= version && origin < |texts| &&
        Fresh(bumped, inner.value.version, origin) && build(texts[origin]).Some? &&
        inner.value.codec == Evolve(build(texts[origin]).value, uses)
    }

    ghost predicate HistoryOk()
      reads this
    {
      Recorded(events, inner) && mark <= |events| && markVersion <= version &&
      (version == markVersion ==>
         AllOfVersion(events, mark, version) && forall id :: id in calls ==> calls[id].v == version)
    }

    ghost predicate CallOk(id: CallId)
      requires id in calls
      reads this
    {
      calls[id].v <= version && (!calls[id].Began? ==> lockedBy == Some(id)) &&
      match calls[id]
      case Building(v, text) =>
        id in read && read[id] < |texts| && text == texts[read[id]] && Fresh(bumped, v, read[id])
        && Stale(v)
      case Missed(v) => Stale(v)
      case Using(v) => inner.Some? && inner.value.version == v
      case Began(_) => true
    }

    predicate Stale(v: nat)
      reads this
    {
      inner.None? || inner.value.version != v
    }

    ghost predicate Valid()
      reads this
    {
      ConfigOk() && CacheOk() && HistoryOk() && (forall id :: id in calls ==> CallOk(id)) &&
      (lockedBy.Some? ==> lockedBy.value in calls && !calls[lockedBy.value].Began?)
    }

    constructor (build: Text -> Option<Codec>, ron: Text)
      ensures Valid() && this.build == build && texts == [ron] && calls == map[]
      ensures inner.None? && lockedBy.None? && events == [] && mark == 0 && version == markVersion == 1
    {
      this.build := build;
      version, this.ron, inner, lockedBy, calls, writing := 1, ron, None, None, map[], {};
      texts, bumped, read, origin, uses := [ron], [], map[], 0, [];
      events, mark, markVersion := [], 0, 1;
    }

    /** An observer may begin to watch whenever no call in progress has read an older version. */
    ghost method Watch()
      requires Valid() && forall id :: id in calls ==> calls[id].v == version
      modifies `mark, `markVersion
      ensures Valid() && mark == |events| && markVersion == version
    {
      mark, markVersion := |events|, version;
    }

    /** As long as no set bumps the version, at most one build has succeeded since the observer
        began to watch, and every later call has used the same codec, evolved by the calls before. */
    lemma OneBuildWhileWatching(n: nat)
      requires Valid() && version == markVersion && mark < n < |events|
      ensures events[n].Used? && events[n].codec == Evolve(events[mark].codec, Runs(events, mark, n))
    {
      OneBuildServesTheStretch(events, mark, version, n);
    }

    /** First half of `set`: replace the text under its lock. */
    method WriteText(text: Text) returns (ghost w: nat)
      requires Valid()
      modifies `ron, `writing, `texts
      ensures Valid() && w == |old(texts)| && texts == old(texts) + [text]
      ensures writing == old(writing) + {w} && ron == text
    {
      w := |texts|;
      ron, texts, writing := text, texts + [text], writing + {w};
    }

    /** Second half of `set`: bump the version.  The set returns. */
    method BumpVersion(ghost w: nat)
      requires Valid() && w in writing
      modifies `version, `writing, `bumped
      ensures Valid() && version == old(version) + 1
      ensures bumped == old(bumped) + [w] && writing == old(writing) - {w}
    {
      version, bumped, writing := version + 1, bumped + [w], writing - {w};
    }

    /** A codec call begins by reading the version. */
    method Begin(id: CallId)
      requires Valid() && id !in calls
      modifies `calls
      ensures Valid() && calls == old(calls)[id := Began(version)]
    {
      calls := calls[id := Began(version)];
    }

    /** It takes the lock of the cache and compares. */
    method Lookup(id: CallId)
      requires Valid() && id in calls && calls[id].Began? && lockedBy.None?
      modifies `calls, `lockedBy
      ensures Valid() && lockedBy == Some(id)
      ensures calls == old(calls)[id := if inner.Some? && inner.value.version == old(calls[id].v)
                                        then Using(old(calls[id].v)) else Missed(old(calls[id].v))]
    {
      var v := calls[id].v;
      lockedBy := Some(id);
      calls := calls[id := if inner.Some? && inner.value.version == v then Using(v) else Missed(v)];
    }

    method ReadText(id: CallId)
      requires Valid() && id in calls && calls[id].Missed?
      modifies `calls, `read
      ensures Valid() && calls == old(calls)[id := Building(old(calls[id].v), ron)]
    {
      read := read[id := |texts| - 1];
      calls := calls[id := Building(calls[id].v, ron)];
    }

    /** Build the codec and store it, or give up and leave the cache as it is. */
    method BuildAndStore(id: CallId) returns (ok: bool)
      requires Valid() && id in calls && calls[id].Building?
      modifies `calls, `inner, `lockedBy, `origin, `uses, `events
      ensures Valid() && ok == build(old(calls[id].text)).Some?
      ensures !ok ==> inner == old(inner) && lockedBy.None? && calls == old(calls) - {id} && events == old(events)
      ensures ok ==> lockedBy == Some(id) && calls == old(calls)[id := Using(old(calls[id].v))] &&
                     inner == Some(Cached(old(calls[id].v), build(old(calls[id].text)).value)) &&
                     events == old(events) + [Built(inner.value.version, inner.value.codec)]
    {
      var call := calls[id];
      match build(call.text)
      case None =>
        calls, lockedBy := calls - {id}, None;
        return false;
      case Some(codec) =>
        Store(id, codec);
        return true;
    }

    method Store(id: CallId, codec: Codec)
      requires Valid() && id in calls && calls[id].Building? && build(calls[id].text) == Some(codec)
      modifies `calls, `inner, `origin, `uses, `events
      ensures Valid() && calls == old(calls)[id := Using(old(calls[id].v))]
      ensures inner == Some(Cached(old(calls[id].v), codec))
      ensures events == old(events) + [Built(inner.value.version, codec)]
    {
      var v := calls[id].v;
      assert CallOk(id) && lockedBy == Some(id);
      OneMoreEvent(events, Built(v, codec), inner);
      inner, events := Some(Cached(v, codec)), events + [Built(v, codec)];
      origin, uses := read[id], [];
      calls := calls[id := Using(v)];
      forall k | k in calls
        ensures CallOk(k)
      {
        assert old(CallOk(k));
      }
    }

    /** The call runs `f` on the cached codec and lets go of it.  The codec was built from a text
        at least as new as that of every set that returned before the call began, and has since
        only been used. */
    method Use(id: CallId, f: Codec -> Codec)
      requires Valid() && id in calls && calls[id].Using?
      modifies `calls, `inner, `lockedBy, `uses, `events
      ensures Valid() && lockedBy.None? && calls == old(calls) - {id}
      ensures origin < |texts| && Fresh(bumped, old(calls[id].v), origin)
      ensures build(texts[origin]).Some? && old(inner).Some? && inner.Some?
      ensures old(inner.value.codec) == Evolve(build(texts[origin]).value, old(uses))
      ensures inner == Some(Cached(old(inner.value.version), f(old(inner.value.codec))))
      ensures events == old(events) + [Used(old(calls[id].v), old(inner.value.codec), f)]
    {
      ghost var used := Used(calls[id].v, inner.value.codec, f);
      OneMoreEvent(events, used, inner);
      events := events + [used];
      assert (uses + [f])[..|uses|] == uses;
      inner := Some(inner.value.(codec := f(inner.value.codec)));
      uses := uses + [f];
      calls, lockedBy := calls - {id}, None;
    }
  }

  /** A call that finds nothing for its version reads the text. */
  method MissingCall(cache: ConfiguredCodec, id: CallId)
    requires cache.Valid() && id in cache.calls && cache.calls[id].Began? && cache.lockedBy.None?
    requires cache.Stale(cache.calls[id].v)
    modifies cache
    ensures cache.Valid() && cache.lockedBy == Some(id)
    ensures cache.calls == old(cache.calls)[id := Building(old(cache.calls[id].v), cache.ron)]
    ensures cache.ron == old(cache.ron) && cache.version == old(cache.version)
  {
    cache.Lookup(id);
    cache.ReadText(id);
  }

  /** One whole call that finds nothing for its version and builds. */
  method BuildingCall(cache: ConfiguredCodec, id: CallId, f: Codec -> Codec)
    requires cache.Valid() && id in cache.calls && cache.calls[id].Began? && cache.lockedBy.None?
    requires cache.Stale(cache.calls[id].v) && cache.build(cache.ron).Some?
    modifies cache
    ensures cache.Valid() && cache.lockedBy.None? && cache.calls == old(cache.calls) - {id}
    ensures cache.ron == old(cache.ron) && cache.version == old(cache.version)
    ensures cache.inner == Some(Cached(old(cache.calls[id].v), f(cache.build(cache.ron).value)))
  {
    MissingCall(cache, id);
    var built := cache.BuildAndStore(id);
    cache.Use(id, f);
  }

  /** Two calls, one of which read the version before a set and one after it. */
  method CallsAroundASet(build: Text -> Option<Codec>, before: Text, after: Text)
    returns (cache: ConfiguredCodec)
    ensures fresh(cache) && cache.Valid() && cache.build == build && cache.ron == after && cache.version == 2
    ensures cache.calls == map[0 := Began(1), 1 := Began(2)] && cache.inner.None? && cache.lockedBy.None?
  {
    cache := new ConfiguredCodec(build, before);
    cache.Begin(0);
    var w := cache.WriteText(after);
    cache.BumpVersion(w);
    cache.Begin(1);
  }

  /** A call that read the version before a set replaces the codec already built for the new
      version: the next call has to build again, and what the first one left in its codec is
      lost. */
  method LateCallEvicts(build: Text -> Option<Codec>, before: Text, after: Text, f: Codec -> Codec)
    returns (first: Option<Cached>, second: Option<Cached>, third: Option<Cached>)
    requires build(after).Some?
    ensures first == Some(Cached(2, f(build(after).value)))
    ensures second == Some(Cached(1, f(build(after).value)))
    ensures third == Some(Cached(2, f(build(after).value)))
  {
    var cache := CallsAroundASet(build, before, after);
    BuildingCall(cache, 1, f);
    first := cache.inner;
    BuildingCall(cache, 0, f);
    second := cache.inner;
    cache.Begin(2);
    BuildingCall(cache, 2, f);
    third := cache.inner;
  }
}
