/**
 The cache as the gateway holds it, a map updated in place, and what one call does to it when nothing else is
 going on.  The methods are proved against the functions the steps of `VerifyCache` are made of.
 */
module TokenCache {
  import opened Option
  import opened VerifyCache
  import opened VerifyCacheTheorems

  class TokenCache {
    const hash: Hash
    var entries: Cache

    constructor (hash: Hash)
      ensures this.hash == hash && entries == map[]
    {
      this.hash := hash;
      entries := map[];
    }

    /** Drop expired entries, in the map's own order, up to a quarter of the cap. */
    method Evict(now: nat) returns (ghost evicted: set<string>)
      modifies `entries
      ensures MayEvict(old(entries), now, evicted) && entries == old(entries) - evicted
    {
      evicted := {};
      var count := 0;
      var unseen := entries.Keys;
      ghost var all := entries;
      NothingSeen(all, now);
      while unseen != {} && count < MAX_SIZE / 4
        invariant EvictInv(all, now, entries, evicted, unseen)
        invariant |evicted| == count <= MAX_SIZE / 4
        decreases unseen
      {
        var k :| k in unseen;
        OneMoreSeen(all, now, entries, evicted, unseen, k);
        unseen := unseen - {k};
        if entries[k].expiry < now {
          entries := entries - {k};
          evicted := evicted + {k};
          count := count + 1;
        }
      }
      EvictedEnough(all, now, entries, evicted, unseen);
    }

    method VerifyCachePut(key: string, claims: Claims, now: nat) returns (ghost evicted: set<string>)
      modifies `entries
      ensures |old(entries)| >= MAX_SIZE ==> MayEvict(old(entries), now, evicted)
      ensures entries == Put(old(entries), evicted, key, claims, now)
    {
      evicted := {};
      if |entries| >= MAX_SIZE {
        evicted := Evict(now);
        if |entries| >= MAX_SIZE {
          entries := map[];
        }
      }
      entries := entries[key := NewEntry(claims, now)];
    }

    method InvalidateVerifyCache()
      modifies `entries
      ensures entries == map[]
    {
      entries := map[];
    }

    /** The sweep's loop over the map. */
    method DropStale(now: nat)
      modifies `entries
      ensures entries == Swept(old(entries), now)
      ensures forall k :: k in entries <==> k in old(entries) && old(entries)[k].stale >= now
    {
      var unseen := entries.Keys;
      while unseen != {}
        invariant unseen <= entries.Keys <= old(entries).Keys
        invariant forall k | k in entries :: entries[k] == old(entries)[k]
        invariant forall k | k in old(entries) && k !in unseen :: k in entries <==> !(old(entries)[k].stale < now)
        decreases unseen
      {
        var k :| k in unseen;
        unseen := unseen - {k};
        if entries[k].stale < now {
          entries := entries - {k};
        }
      }
    }

    /** One call while nothing else happens: the clock reads `now`, then `later` if an answer is stored. */
    method VerifyTokenCached(token: string, answer: Answer, now: nat, later: nat)
      returns (claims: Option<Claims>, ghost evicted: set<string>)
      modifies `entries
      ensures claims == ClaimsOf(Lookup(old(entries), hash(token)), now, answer)
      ensures entries == CacheAfter(old(entries), hash(token), answer, now, later, evicted)
      ensures Evictable(old(entries), hash(token), answer, now, later, evicted)
      ensures var key, was := hash(token), old(entries);
              if key in was && now < was[key].expiry then claims == Some(was[key].claims) && entries == was
              else match answer
                case Verified(c) =>
                  && claims == Some(c)
                  && key in entries && entries[key] == Entry(c, later + 60_000, later + 300_000)
                  && forall k | k in entries && k != key :: k in was && entries[k] == was[k]
                case Unreachable =>
                  entries == was && claims == if key in was && now < was[key].stale then Some(was[key].claims) else None
                case Refused => entries == was && claims == None
    {
      var key := hash(token);
      var entry := Lookup(entries, key);
      evicted := {};
      claims := None;
      if entry.Some? && now < entry.value.expiry {
        claims := Some(entry.value.claims);
      } else if answer.Verified? {
        evicted := VerifyCachePut(key, answer.claims, later);
        claims := Some(answer.claims);
      } else if answer.Unreachable? && entry.Some? && now < entry.value.stale {
        claims := Some(entry.value.claims);
      }
    }
  }

  // ---------------------------------------------------------------- the eviction loop

  /** The evicted entries are gone, and the expired ones are evicted or still to be seen. */
  ghost predicate EvictInv(all: Cache, now: nat, left: Cache, evicted: set<string>, unseen: set<string>) {
    && left == all - evicted
    && unseen <= left.Keys
    && evicted <= Expired(all, now) <= evicted + unseen
  }

  lemma NothingSeen(all: Cache, now: nat)
    ensures EvictInv(all, now, all, {}, all.Keys)
  {
    assert all - {} == all;
  }

  lemma OneMoreSeen(all: Cache, now: nat, left: Cache, evicted: set<string>, unseen: set<string>, k: string)
    requires EvictInv(all, now, left, evicted, unseen) && k in unseen
    ensures if left[k].expiry < now then EvictInv(all, now, left - {k}, evicted + {k}, unseen - {k})
            else EvictInv(all, now, left, evicted, unseen - {k})
    ensures |evicted + {k}| == |evicted| + 1
  {
    assert (all - evicted) - {k} == all - (evicted + {k});
  }

  lemma EvictedEnough(all: Cache, now: nat, left: Cache, evicted: set<string>, unseen: set<string>)
    requires EvictInv(all, now, left, evicted, unseen) && |evicted| <= MAX_SIZE / 4
    requires unseen == {} || |evicted| == MAX_SIZE / 4
    ensures MayEvict(all, now, evicted)
  {
    SubsetSize(evicted, Expired(all, now));
    if unseen == {} {
      assert evicted == Expired(all, now);
    }
  }

  // ---------------------------------------------------------------- one call alone

  function ClaimsOf(entry: Option<Entry>, now: nat, answer: Answer): Option<Claims> {
    if IsFresh(entry, now) then Some(entry.value.claims)
    else match answer
      case Verified(claims) => Some(claims)
      case Unreachable => if IsFallback(entry, now) then Some(entry.value.claims) else None
      case Refused => None
  }

  function CacheAfter(cache: Cache, key: string, answer: Answer, now: nat, later: nat, evicted: set<string>): Cache {
    if !IsFresh(Lookup(cache, key), now) && answer.Verified? then Put(cache, evicted, key, answer.claims, later) else cache
  }

  predicate Evictable(cache: Cache, key: string, answer: Answer, now: nat, later: nat, evicted: set<string>) {
    |cache| >= MAX_SIZE && answer.Verified? && !IsFresh(Lookup(cache, key), now) ==> MayEvict(cache, later, evicted)
  }

  /** The event, if any, with which the call ends. */
  function Outcome(id: nat, token: string, now: nat, entry: Option<Entry>, answer: Answer): seq<ServeEvent> {
    var claims := ClaimsOf(entry, now, answer);
    if claims.None? then []
    else
      var reason := if IsFresh(entry, now) then Fresh else if answer.Verified? then Own else Fallback;
      [ServeEvent(id, token, now, claims.value, reason)]
  }

  /** The call has taken its place among those in flight. */
  function Begun(s: Gateway, token: string, now: nat): Gateway {
    s.(clock := now, begun := s.begun + 1, calls := s.calls[s.begun := Call(token, now, Reading)])
  }

  /** The call has been answered, and reads the clock for the new entry. */
  function Clocked(s: Gateway, id: nat, later: nat): Gateway
    requires id in s.calls && s.calls[id].phase.Answered?
  {
    s.(clock := later, calls := s.calls[id := s.calls[id].(phase := Storing(s.calls[id].phase.claims, later))])
  }

  /** The steps of one call, one after the other. */
  function CallAlone(hash: Hash, s: Gateway, token: string, answer: Answer, now: nat, later: nat, evicted: set<string>): Gateway {
    var id := s.begun;
    var s1 := StepRead(hash, Begun(s, token, now), id);
    if id !in s1.calls then s1
    else
      var s2 := StepReply(s1, id, answer);
      if id !in s2.calls then s2 else StepStore(hash, Clocked(s2, id, later), id, evicted)
  }

  lemma WithoutAdded(calls: map<nat, Call>, id: nat, c: Call)
    ensures id !in Without(calls[id := c], id)
    ensures id !in calls ==> Without(calls[id := c], id) == calls
  {
  }

  lemma ReadAlone(hash: Hash, s: Gateway, token: string, now: nat)
    ensures var s1 := StepRead(hash, Begun(s, token, now), s.begun);
            var entry := Lookup(s.cache, hash(token));
            && s1.cache == s.cache
            && if IsFresh(entry, now)
               then s.begun !in s1.calls && s1.served == s.served + [ServeEvent(s.begun, token, now, entry.value.claims, Fresh)]
               else s.begun in s1.calls && s1.calls[s.begun] == Call(token, now, Asking(entry)) && s1.served == s.served
  {
    WithoutAdded(s.calls, s.begun, Call(token, now, Reading));
  }

  lemma ReplyAlone(s: Gateway, id: nat, answer: Answer)
    requires id in s.calls && s.calls[id].phase.Asking?
    ensures var s' := StepReply(s, id, answer);
            var c := s.calls[id];
            && s'.cache == s.cache
            && match answer
               case Verified(claims) =>
                 id in s'.calls && s'.calls[id] == Call(c.token, c.now, Answered(claims)) && s'.served == s.served
               case Unreachable =>
                 && id !in s'.calls
                 && s'.served == s.served + if IsFallback(c.phase.entry, c.now)
                                            then [ServeEvent(id, c.token, c.now, c.phase.entry.value.claims, Fallback)] else []
               case Refused => id !in s'.calls && s'.served == s.served
  {
  }

  lemma StoreAlone(hash: Hash, s: Gateway, id: nat, evicted: set<string>)
    requires id in s.calls && s.calls[id].phase.Storing?
    requires |s.cache| >= MAX_SIZE ==> MayEvict(s.cache, s.calls[id].phase.at, evicted)
    ensures var s' := StepStore(hash, s, id, evicted);
            var c := s.calls[id];
            && s'.cache == Put(s.cache, evicted, hash(c.token), c.phase.claims, c.phase.at)
            && s'.served == s.served + [ServeEvent(id, c.token, c.now, c.phase.claims, Own)]
  {
  }

  /** A call that nothing interrupts serves what the method returns, and leaves the cache the method leaves. */
  lemma MethodIsCallAlone(hash: Hash, s: Gateway, token: string, answer: Answer, now: nat, later: nat, evicted: set<string>)
    requires Evictable(s.cache, hash(token), answer, now, later, evicted)
    ensures var s' := CallAlone(hash, s, token, answer, now, later, evicted);
            && s'.cache == CacheAfter(s.cache, hash(token), answer, now, later, evicted)
            && s'.served == s.served + Outcome(s.begun, token, now, Lookup(s.cache, hash(token)), answer)
  {
    var id := s.begun;
    var s1 := StepRead(hash, Begun(s, token, now), id);
    ReadAlone(hash, s, token, now);
    if id in s1.calls {
      ReplyAlone(s1, id, answer);
      var s2 := StepReply(s1, id, answer);
      if id in s2.calls {
        StoreAlone(hash, Clocked(s2, id, later), id, evicted);
      }
    }
  }
}
