/**
 The gateway's cache of verified tokens.  A call reads the clock, then the cache, then perhaps asks the
 auth-service, then perhaps reads the clock again and stores the answer; calls, sweeps and invalidations
 interleave between any two of these steps.  Times are in milliseconds and never run backwards.

 The hash that turns a token into a key is a parameter.  `verified`, `stored` and `served` are history.
 */
module VerifyCache {
  import opened Option

  const FRESH := 60_000
  const STALE := 300_000
  const MAX_SIZE := 4096

  datatype Claims = Claims(uid: int, user: string, role: string, scope: string)

  datatype Entry = Entry(claims: Claims, expiry: nat, stale: nat)

  type Cache = map<string, Entry>

  /** What the auth-service's answer amounts to: claims, a failure to reach it, or anything else. */
  datatype Answer = Verified(claims: Claims) | Unreachable | Refused

  // ---------------------------------------------------------------- the cache

  function Lookup(cache: Cache, key: string): Option<Entry> {
    if key in cache then Some(cache[key]) else None
  }

  function NewEntry(claims: Claims, now: nat): Entry {
    Entry(claims, now + FRESH, now + STALE)
  }

  /** Usable without asking. */
  predicate IsFresh(e: Option<Entry>, now: nat) {
    e.Some? && now < e.value.expiry
  }

  /** Usable when the auth-service cannot be reached. */
  predicate IsFallback(e: Option<Entry>, now: nat) {
    e.Some? && now < e.value.stale
  }

  function Expired(cache: Cache, now: nat): set<string> {
    set k | k in cache && cache[k].expiry < now
  }

  /** What a full cache may evict: expired entries, in whatever order the map gives them, a quarter of the cap at most. */
  predicate MayEvict(cache: Cache, now: nat, evicted: set<string>) {
    && evicted <= Expired(cache, now)
    && |evicted| == if |Expired(cache, now)| < MAX_SIZE / 4 then |Expired(cache, now)| else MAX_SIZE / 4
  }

  function MakeRoom(cache: Cache, evicted: set<string>): Cache {
    if |cache| < MAX_SIZE then cache
    else if |cache - evicted| >= MAX_SIZE then map[]
    else cache - evicted
  }

  function Put(cache: Cache, evicted: set<string>, key: string, claims: Claims, now: nat): Cache {
    MakeRoom(cache, evicted)[key := NewEntry(claims, now)]
  }

  /** The sweep drops what is past its last deadline. */
  function Swept(cache: Cache, now: nat): Cache {
    map k | k in cache && !(cache[k].stale < now) :: cache[k]
  }

  lemma SizeOfAdded(cache: Cache, key: string, e: Entry)
    ensures |cache[key := e]| <= |cache| + 1
  {
    var bigger := cache[key := e];
    assert bigger.Keys == cache.Keys + {key};
    assert |cache.Keys + {key}| <= |cache.Keys| + 1 by {
      if key in cache.Keys {
        assert cache.Keys + {key} == cache.Keys;
      }
    }
  }

  lemma PutKeepsSize(cache: Cache, evicted: set<string>, key: string, claims: Claims, now: nat)
    ensures |Put(cache, evicted, key, claims, now)| <= MAX_SIZE
  {
    SizeOfAdded(MakeRoom(cache, evicted), key, NewEntry(claims, now));
  }

  lemma SweptIsSmaller(cache: Cache, now: nat)
    ensures |Swept(cache, now)| <= |cache|
  {
    SubsetSize(Swept(cache, now).Keys, cache.Keys);
  }

  lemma {:induction false} SubsetSize(a: set<string>, b: set<string>)
    requires a <= b
    ensures |a| <= |b|
    decreases a
  {
    if x :| x in a {
      SubsetSize(a - {x}, b - {x});
    }
  }

  /** No call that reads the clock at or after the sweep's reading could tell the swept cache from the full one. */
  lemma SweepIsInvisible(cache: Cache, key: string, sweep: nat, now: nat)
    requires sweep <= now
    requires forall k | k in cache :: cache[k].expiry <= cache[k].stale
    ensures IsFresh(Lookup(cache, key), now) == IsFresh(Lookup(Swept(cache, sweep), key), now)
    ensures IsFallback(Lookup(cache, key), now) == IsFallback(Lookup(Swept(cache, sweep), key), now)
    ensures IsFallback(Lookup(cache, key), now) ==> Lookup(cache, key) == Lookup(Swept(cache, sweep), key)
  {
  }

  /** Storing one token's claims keeps every unexpired entry of the others, exactly unless the cache is full of
      unexpired entries: then it drops them all. */
  lemma PutKeepsUnexpired(cache: Cache, evicted: set<string>, key: string, claims: Claims, now: nat)
    requires MayEvict(cache, now, evicted) && |cache| <= MAX_SIZE
    ensures (forall k | k in cache && k != key && cache[k].expiry >= now ::
               Lookup(Put(cache, evicted, key, claims, now), k) == Some(cache[k]))
            <==> |cache| < 4096 || exists k :: k in cache && cache[k].expiry < now
  {
    assert Expired(cache, now) != {} <==> exists k :: k in cache && cache[k].expiry < now by {
      if k :| k in cache && cache[k].expiry < now {
        assert k in Expired(cache, now);
      }
    }
    if |cache| == MAX_SIZE {
      if Expired(cache, now) != {} {
        SomethingEvicted(cache, now, evicted);
      } else {
        assert cache - evicted == cache;
        assert |{key}| == 1;
        if cache.Keys <= {key} { SubsetSize(cache.Keys, {key}); }
        var k :| k in cache.Keys && k != key;
        assert k in cache && k !in Put(cache, evicted, key, claims, now);
      }
    }
  }

  lemma SomethingEvicted(cache: Cache, now: nat, evicted: set<string>)
    requires MayEvict(cache, now, evicted) && Expired(cache, now) != {}
    ensures |cache - evicted| < |cache|
  {
    var x :| x in Expired(cache, now);
    SubsetSize({x}, Expired(cache, now));
    assert evicted != {};
    var y :| y in evicted;
    assert (cache - evicted).Keys <= cache.Keys - {y};
    SubsetSize((cache - evicted).Keys, cache.Keys - {y});
  }

  /** A sweep keeps exactly the entries whose last deadline is not past. */
  lemma SweptMeans(cache: Cache, now: nat)
    ensures forall k :: k in Swept(cache, now) <==> k in cache && cache[k].stale >= now
    ensures forall k | k in Swept(cache, now) :: Swept(cache, now)[k] == cache[k]
  {
  }

  // ---------------------------------------------------------------- calls in flight

  /** Where a call stands: the cache is still to be read; the auth-service is being asked; it has verified the
      token; the clock has been read for the new entry. */
  datatype Phase =
    | Reading
    | Asking(entry: Option<Entry>)
    | Answered(claims: Claims)
    | Storing(claims: Claims, at: nat)

  /** `now` is the clock the call read first. */
  datatype Call = Call(token: string, now: nat, phase: Phase)

  /** Why claims were served. */
  datatype Reason = Own | Fresh | Fallback

  datatype VerifyEvent = VerifyEvent(number: nat, token: string, claims: Claims)
  datatype StoreEvent = StoreEvent(number: nat, token: string, claims: Claims, at: nat)
  datatype ServeEvent = ServeEvent(number: nat, token: string, now: nat, claims: Claims, reason: Reason)

  datatype Gateway = Gateway(
    clock: nat,
    cache: Cache,
    calls: map<nat, Call>,   // in flight, numbered in the order they began
    sweeping: Option<nat>,
    begun: nat,
    unreachable: set<nat>,   // calls that could not reach the auth-service
    verified: seq<VerifyEvent>,
    stored: seq<StoreEvent>,
    served: seq<ServeEvent>)

  const START := Gateway(0, map[], map[], None, 0, {}, [], [], [])

  datatype Action =
    | Tick(ms: nat)
    | Begin(token: string)
    | Read(id: nat)
    | Reply(id: nat, answer: Answer)
    | ReadClock(id: nat)
    | Store(id: nat, evicted: set<string>)
    | BeginSweep
    | Sweep
    | Invalidate

  function Without(calls: map<nat, Call>, id: nat): map<nat, Call> {
    map k | k in calls && k != id :: calls[k]
  }

  function Serve(s: Gateway, id: nat, claims: Claims, reason: Reason): Gateway
    requires id in s.calls
  {
    var c := s.calls[id];
    s.(calls := Without(s.calls, id), served := s.served + [ServeEvent(id, c.token, c.now, claims, reason)])
  }

  function StepRead(hash: string -> string, s: Gateway, id: nat): Gateway
    requires id in s.calls
  {
    var c := s.calls[id];
    var entry := Lookup(s.cache, hash(c.token));
    if IsFresh(entry, c.now) then Serve(s, id, entry.value.claims, Fresh)
    else s.(calls := s.calls[id := c.(phase := Asking(entry))])
  }

  function StepReply(s: Gateway, id: nat, answer: Answer): Gateway
    requires id in s.calls && s.calls[id].phase.Asking?
  {
    var c := s.calls[id];
    match answer
    case Verified(claims) =>
      s.(calls := s.calls[id := c.(phase := Answered(claims))],
         verified := s.verified + [VerifyEvent(id, c.token, claims)])
    case Unreachable =>
      var s1 := s.(unreachable := s.unreachable + {id});
      if IsFallback(c.phase.entry, c.now) then Serve(s1, id, c.phase.entry.value.claims, Fallback)
      else s1.(calls := Without(s.calls, id))
    case Refused => s.(calls := Without(s.calls, id))
  }

  function StepStore(hash: string -> string, s: Gateway, id: nat, evicted: set<string>): Gateway
    requires id in s.calls && s.calls[id].phase.Storing?
  {
    var c := s.calls[id];
    var claims, at := c.phase.claims, c.phase.at;
    if |s.cache| >= MAX_SIZE && !MayEvict(s.cache, at, evicted) then s
    else
      Serve(s.(cache := Put(s.cache, evicted, hash(c.token), claims, at),
               stored := s.stored + [StoreEvent(id, c.token, claims, at)]),
            id, claims, Own)
  }

  /** One atomic step; an action whose turn it is not does nothing. */
  function Apply(hash: string -> string, s: Gateway, a: Action): Gateway {
    match a
    case Tick(ms) => s.(clock := s.clock + ms)
    case Begin(token) =>
      s.(calls := s.calls[s.begun := Call(token, s.clock, Reading)], begun := s.begun + 1)
    case Read(id) => if id in s.calls && s.calls[id].phase.Reading? then StepRead(hash, s, id) else s
    case Reply(id, answer) => if id in s.calls && s.calls[id].phase.Asking? then StepReply(s, id, answer) else s
    case ReadClock(id) =>
      if id in s.calls && s.calls[id].phase.Answered?
      then s.(calls := s.calls[id := s.calls[id].(phase := Storing(s.calls[id].phase.claims, s.clock))])
      else s
    case Store(id, evicted) =>
      if id in s.calls && s.calls[id].phase.Storing? then StepStore(hash, s, id, evicted) else s
    case BeginSweep => s.(sweeping := Some(s.clock))
    case Sweep => if s.sweeping.Some? then s.(cache := Swept(s.cache, s.sweeping.value), sweeping := None) else s
    case Invalidate => s.(cache := map[])
  }

  function Run(hash: string -> string, s: Gateway, actions: seq<Action>): Gateway
    decreases |actions|
  {
    if actions == [] then s else Run(hash, Apply(hash, s, actions[0]), actions[1..])
  }
}
