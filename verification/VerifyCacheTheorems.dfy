/** What every run of the verify cache guarantees about the claims it serves. */
module VerifyCacheTheorems {
  import opened Option
  import opened VerifyCache

  type Hash = string -> string

  // ---------------------------------------------------------------- where claims come from

  /** The entry was written by this store. */
  predicate Wrote(hash: Hash, st: StoreEvent, key: string, e: Entry) {
    hash(st.token) == key && e == NewEntry(st.claims, st.at)
  }

  predicate Sourced(hash: Hash, stored: seq<StoreEvent>, key: string, e: Entry) {
    exists i | 0 <= i < |stored| :: Wrote(hash, stored[i], key, e)
  }

  /** The claims served are those of this store, made by the call itself or recent enough when the call began. */
  predicate Backs(hash: Hash, st: StoreEvent, sv: ServeEvent) {
    && hash(st.token) == hash(sv.token) && st.claims == sv.claims
    && match sv.reason
       case Own => st.number == sv.number && st.token == sv.token
       case Fresh => sv.now < st.at + FRESH
       case Fallback => sv.now < st.at + STALE
  }

  predicate Backed(hash: Hash, stored: seq<StoreEvent>, sv: ServeEvent) {
    exists i | 0 <= i < |stored| :: Backs(hash, stored[i], sv)
  }

  predicate CacheInv(hash: Hash, cache: Cache, stored: seq<StoreEvent>) {
    && |cache| <= MAX_SIZE
    && forall k | k in cache :: Sourced(hash, stored, k, cache[k])
  }

  predicate CallInv(hash: Hash, id: nat, c: Call, clock: nat, verified: seq<VerifyEvent>, stored: seq<StoreEvent>) {
    match c.phase
    case Reading => true
    case Asking(entry) => entry.Some? ==> Sourced(hash, stored, hash(c.token), entry.value)
    case Answered(claims) => VerifyEvent(id, c.token, claims) in verified
    case Storing(claims, at) => at <= clock && VerifyEvent(id, c.token, claims) in verified
  }

  predicate CallsInv(hash: Hash, s: Gateway) {
    forall id | id in s.calls :: id < s.begun && CallInv(hash, id, s.calls[id], s.clock, s.verified, s.stored)
  }

  predicate StoredInv(clock: nat, verified: seq<VerifyEvent>, stored: seq<StoreEvent>) {
    forall i | 0 <= i < |stored| ::
      stored[i].at <= clock && VerifyEvent(stored[i].number, stored[i].token, stored[i].claims) in verified
  }

  predicate ServedInv(hash: Hash, s: Gateway) {
    forall i | 0 <= i < |s.served| ::
      && s.served[i].number < s.begun
      && Backed(hash, s.stored, s.served[i])
      && (s.served[i].reason.Fallback? ==> s.served[i].number in s.unreachable)
  }

  predicate Inv(hash: Hash, s: Gateway) {
    && CacheInv(hash, s.cache, s.stored)
    && CallsInv(hash, s)
    && StoredInv(s.clock, s.verified, s.stored)
    && ServedInv(hash, s)
    && (s.sweeping.Some? ==> s.sweeping.value <= s.clock)
  }

  // ---------------------------------------------------------------- more history hurts nothing

  lemma SourcedGrows(hash: Hash, stored: seq<StoreEvent>, st: StoreEvent, key: string, e: Entry)
    requires Sourced(hash, stored, key, e)
    ensures Sourced(hash, stored + [st], key, e)
  {
    var i :| 0 <= i < |stored| && Wrote(hash, stored[i], key, e);
    assert Wrote(hash, (stored + [st])[i], key, e);
  }

  lemma BackedGrows(hash: Hash, stored: seq<StoreEvent>, st: StoreEvent, sv: ServeEvent)
    requires Backed(hash, stored, sv)
    ensures Backed(hash, stored + [st], sv)
  {
    var i :| 0 <= i < |stored| && Backs(hash, stored[i], sv);
    assert Backs(hash, (stored + [st])[i], sv);
  }

  lemma ServingKeeps(hash: Hash, s: Gateway, id: nat, claims: Claims, reason: Reason)
    requires Inv(hash, s) && id in s.calls
    requires Backed(hash, s.stored, ServeEvent(id, s.calls[id].token, s.calls[id].now, claims, reason))
    requires reason.Fallback? ==> id in s.unreachable
    ensures Inv(hash, Serve(s, id, claims, reason))
  {
  }

  /** An entry at hand backs what is served from it. */
  lemma SourcedBacks(hash: Hash, stored: seq<StoreEvent>, e: Entry, sv: ServeEvent)
    requires Sourced(hash, stored, hash(sv.token), e) && sv.claims == e.claims
    requires (sv.reason.Fresh? && sv.now < e.expiry) || (sv.reason.Fallback? && sv.now < e.stale)
    ensures Backed(hash, stored, sv)
  {
    var i :| 0 <= i < |stored| && Wrote(hash, stored[i], hash(sv.token), e);
    assert Backs(hash, stored[i], sv);
  }

  lemma ReadKeeps(hash: Hash, s: Gateway, id: nat)
    requires Inv(hash, s) && id in s.calls && s.calls[id].phase.Reading?
    ensures Inv(hash, StepRead(hash, s, id))
  {
    var c := s.calls[id];
    var entry := Lookup(s.cache, hash(c.token));
    if IsFresh(entry, c.now) {
      SourcedBacks(hash, s.stored, entry.value, ServeEvent(id, c.token, c.now, entry.value.claims, Fresh));
      ServingKeeps(hash, s, id, entry.value.claims, Fresh);
    }
  }

  lemma MoreVerified(hash: Hash, s: Gateway, v: VerifyEvent)
    requires Inv(hash, s)
    ensures Inv(hash, s.(verified := s.verified + [v]))
  {
  }

  lemma MoreUnreachable(hash: Hash, s: Gateway, id: nat)
    requires Inv(hash, s)
    ensures Inv(hash, s.(unreachable := s.unreachable + {id}))
  {
  }

  lemma ReplyKeeps(hash: Hash, s: Gateway, id: nat, answer: Answer)
    requires Inv(hash, s) && id in s.calls && s.calls[id].phase.Asking?
    ensures Inv(hash, StepReply(s, id, answer))
  {
    var c := s.calls[id];
    match answer
    case Verified(claims) => MoreVerified(hash, s, VerifyEvent(id, c.token, claims));
    case Refused =>
    case Unreachable =>
      MoreUnreachable(hash, s, id);
      if IsFallback(c.phase.entry, c.now) {
        var e := c.phase.entry.value;
        SourcedBacks(hash, s.stored, e, ServeEvent(id, c.token, c.now, e.claims, Fallback));
        ServingKeeps(hash, s.(unreachable := s.unreachable + {id}), id, e.claims, Fallback);
      }
  }

  lemma PutKeepsSourced(hash: Hash, s: Gateway, id: nat, evicted: set<string>)
    requires Inv(hash, s) && id in s.calls && s.calls[id].phase.Storing?
    ensures var c := s.calls[id];
            var st := StoreEvent(id, c.token, c.phase.claims, c.phase.at);
            CacheInv(hash, Put(s.cache, evicted, hash(c.token), st.claims, st.at), s.stored + [st])
  {
    var c := s.calls[id];
    var st := StoreEvent(id, c.token, c.phase.claims, c.phase.at);
    var cache := Put(s.cache, evicted, hash(c.token), st.claims, st.at);
    PutKeepsSize(s.cache, evicted, hash(c.token), st.claims, st.at);
    forall k | k in cache ensures Sourced(hash, s.stored + [st], k, cache[k]) {
      if k == hash(c.token) {
        assert Wrote(hash, (s.stored + [st])[|s.stored|], k, cache[k]);
      } else {
        SourcedGrows(hash, s.stored, st, k, cache[k]);
      }
    }
  }

  lemma MoreStored(hash: Hash, s: Gateway, st: StoreEvent)
    requires Inv(hash, s) && st.at <= s.clock && VerifyEvent(st.number, st.token, st.claims) in s.verified
    ensures Inv(hash, s.(stored := s.stored + [st]))
  {
    var s' := s.(stored := s.stored + [st]);
    forall k | k in s.cache ensures Sourced(hash, s'.stored, k, s.cache[k]) {
      SourcedGrows(hash, s.stored, st, k, s.cache[k]);
    }
    forall id | id in s.calls ensures CallInv(hash, id, s.calls[id], s.clock, s.verified, s'.stored) {
      var c := s.calls[id];
      if c.phase.Asking? && c.phase.entry.Some? {
        SourcedGrows(hash, s.stored, st, hash(c.token), c.phase.entry.value);
      }
    }
    forall i | 0 <= i < |s.served| ensures Backed(hash, s'.stored, s.served[i]) {
      BackedGrows(hash, s.stored, st, s.served[i]);
    }
  }

  lemma StoreKeeps(hash: Hash, s: Gateway, id: nat, evicted: set<string>)
    requires Inv(hash, s) && id in s.calls && s.calls[id].phase.Storing?
    ensures Inv(hash, StepStore(hash, s, id, evicted))
  {
    var c := s.calls[id];
    var claims, at := c.phase.claims, c.phase.at;
    if |s.cache| < MAX_SIZE || MayEvict(s.cache, at, evicted) {
      var st := StoreEvent(id, c.token, claims, at);
      MoreStored(hash, s, st);
      PutKeepsSourced(hash, s, id, evicted);
      var s' := s.(cache := Put(s.cache, evicted, hash(c.token), claims, at), stored := s.stored + [st]);
      assert Backs(hash, s'.stored[|s.stored|], ServeEvent(id, c.token, c.now, claims, Own));
      ServingKeeps(hash, s', id, claims, Own);
    }
  }

  lemma StepKeeps(hash: Hash, s: Gateway, a: Action)
    requires Inv(hash, s)
    ensures Inv(hash, Apply(hash, s, a))
  {
    match a
    case Read(id) => if id in s.calls && s.calls[id].phase.Reading? { ReadKeeps(hash, s, id); }
    case Reply(id, answer) => if id in s.calls && s.calls[id].phase.Asking? { ReplyKeeps(hash, s, id, answer); }
    case Store(id, evicted) => if id in s.calls && s.calls[id].phase.Storing? { StoreKeeps(hash, s, id, evicted); }
    case Sweep => if s.sweeping.Some? { SweptIsSmaller(s.cache, s.sweeping.value); }
    case _ =>
  }

  lemma {:induction false} RunKeeps(hash: Hash, s: Gateway, actions: seq<Action>)
    requires Inv(hash, s)
    ensures Inv(hash, Run(hash, s, actions))
    decreases |actions|
  {
    if actions != [] {
      StepKeeps(hash, s, actions[0]);
      RunKeeps(hash, Apply(hash, s, actions[0]), actions[1..]);
    }
  }

  /** In every run: claims served were verified by the auth-service for a token of the same hash, in this call,
      or stored less than 60 s before this call began, or, when this call could not reach the service, stored
      less than 5 min before it began; and the cache never outgrows its cap. */
  lemma BoundedStaleness(hash: Hash, actions: seq<Action>)
    ensures var s := Run(hash, START, actions);
            && |s.cache| <= 4096
            && forall i | 0 <= i < |s.served| :: exists j | 0 <= j < |s.stored| ::
                 var st, sv := s.stored[j], s.served[i];
                 && hash(st.token) == hash(sv.token) && st.claims == sv.claims
                 && VerifyEvent(st.number, st.token, st.claims) in s.verified
                 && match sv.reason
                    case Own => st.number == sv.number && st.token == sv.token
                    case Fresh => sv.now < st.at + 60_000
                    case Fallback => sv.now < st.at + 300_000 && sv.number in s.unreachable
  {
    RunKeeps(hash, START, actions);
    var s := Run(hash, START, actions);
    forall i | 0 <= i < |s.served|
      ensures exists j | 0 <= j < |s.stored| ::
                 var st, sv := s.stored[j], s.served[i];
                 && hash(st.token) == hash(sv.token) && st.claims == sv.claims
                 && VerifyEvent(st.number, st.token, st.claims) in s.verified
                 && match sv.reason
                    case Own => st.number == sv.number && st.token == sv.token
                    case Fresh => sv.now < st.at + 60_000
                    case Fallback => sv.now < st.at + 300_000 && sv.number in s.unreachable
    {
      assert Backed(hash, s.stored, s.served[i]);
    }
  }

  // ---------------------------------------------------------------- what is served, and when

  /** A call that reads a fresh entry is served it and asks nobody; any other goes on to ask. */
  lemma FreshIsServedExactly(hash: Hash, s: Gateway, id: nat)
    requires id in s.calls && s.calls[id].phase.Reading?
    ensures var c, s' := s.calls[id], Apply(hash, s, Read(id));
            if hash(c.token) in s.cache && c.now < s.cache[hash(c.token)].expiry then
              id !in s'.calls && s'.served == s.served + [ServeEvent(id, c.token, c.now, s.cache[hash(c.token)].claims, Fresh)]
            else
              id in s'.calls && s'.calls[id].phase.Asking? && s'.served == s.served
  {
  }

  /** A call that cannot reach the auth-service is served the entry it has read before its last deadline, and nothing
      otherwise; a refusal is final. */
  lemma FallbackIsServedExactly(hash: Hash, s: Gateway, id: nat, answer: Answer)
    requires id in s.calls && s.calls[id].phase.Asking? && !answer.Verified?
    ensures var c, s' := s.calls[id], Apply(hash, s, Reply(id, answer));
            var entry := c.phase.entry;
            && id !in s'.calls
            && s'.served == s.served + if answer == Unreachable && entry.Some? && c.now < entry.value.stale
                                       then [ServeEvent(id, c.token, c.now, entry.value.claims, Fallback)] else []
  {
  }

  /** Right after claims were stored, the next call for a token of that hash is served them from the cache exactly if the
      clock was read for them less than 60 s ago. */
  lemma NextCallIsServed(hash: Hash, s: Gateway, id: nat, evicted: set<string>, token: string)
    requires id in s.calls && s.calls[id].phase.Storing? && hash(s.calls[id].token) == hash(token)
    requires |s.cache| < 4096 || MayEvict(s.cache, s.calls[id].phase.at, evicted)
    ensures var claims, at := s.calls[id].phase.claims, s.calls[id].phase.at;
            var s1 := Apply(hash, s, Store(id, evicted));
            var s2 := Apply(hash, Apply(hash, s1, Begin(token)), Read(s1.begun));
            s2.served == s1.served + if s.clock < at + 60_000 then [ServeEvent(s1.begun, token, s.clock, claims, Fresh)] else []
  {
    var s1 := Apply(hash, s, Store(id, evicted));
    FreshIsServedExactly(hash, Apply(hash, s1, Begin(token)), s1.begun);
  }

  // ---------------------------------------------------------------- sweeps

  /** Whatever run comes before it, a sweep changes nothing for any call that begins once its clock was read. */
  lemma SweepRemovesOnlyTheUseless(hash: Hash, actions: seq<Action>, key: string, now: nat)
    requires Run(hash, START, actions).sweeping.Some? && Run(hash, START, actions).sweeping.value <= now
    ensures var s := Run(hash, START, actions);
            var s' := Apply(hash, s, Sweep);
            && IsFresh(Lookup(s.cache, key), now) == IsFresh(Lookup(s'.cache, key), now)
            && IsFallback(Lookup(s.cache, key), now) == IsFallback(Lookup(s'.cache, key), now)
            && (IsFallback(Lookup(s.cache, key), now) ==> Lookup(s.cache, key) == Lookup(s'.cache, key))
  {
    var s := Run(hash, START, actions);
    RunKeeps(hash, START, actions);
    forall k | k in s.cache ensures s.cache[k].expiry <= s.cache[k].stale {
      assert Sourced(hash, s.stored, k, s.cache[k]);
    }
    SweepIsInvisible(s.cache, key, s.sweeping.value, now);
  }

  // ---------------------------------------------------------------- invalidation

  /** The call has claims it has not stored yet, and the entry would still be of use. */
  predicate Holding(s: Gateway, id: nat) {
    id in s.calls && (s.calls[id].phase.Answered? || (s.calls[id].phase.Storing? && s.clock < s.calls[id].phase.at + STALE))
  }

  /** Every answer of the auth-service in these actions passes the test. */
  predicate Confirms(actions: seq<Action>, ok: Claims -> bool) {
    actions != [] ==>
      && (actions[0].Reply? && actions[0].answer.Verified? ==> ok(actions[0].answer.claims))
      && Confirms(actions[1..], ok)
  }

  /** Everything served to calls number n and later passes the test. */
  predicate ServesOnly(s: Gateway, n: nat, ok: Claims -> bool) {
    forall i | 0 <= i < |s.served| && s.served[i].number >= n :: ok(s.served[i].claims)
  }

  /** Claims that pass, or that no call beginning from time t on can use. */
  predicate Harmless(e: Entry, t: nat, ok: Claims -> bool) {
    ok(e.claims) || (e.expiry <= t && e.stale <= t)
  }

  predicate CallHarmless(c: Call, later: bool, t: nat, ok: Claims -> bool) {
    && (later ==> c.now >= t)
    && match c.phase
       case Reading => true
       case Asking(entry) => later && entry.Some? ==> Harmless(entry.value, t, ok)
       case Answered(claims) => ok(claims)
       case Storing(claims, at) => ok(claims) || (!later && at + STALE <= t)
  }

  predicate PurgedInv(s: Gateway, n: nat, t: nat, ok: Claims -> bool) {
    && n <= s.begun && t <= s.clock
    && (forall k | k in s.cache :: Harmless(s.cache[k], t, ok))
    && (forall id | id in s.calls :: id < s.begun && CallHarmless(s.calls[id], id >= n, t, ok))
    && ServesOnly(s, n, ok)
  }

  lemma PurgedRead(hash: Hash, s: Gateway, id: nat, n: nat, t: nat, ok: Claims -> bool)
    requires PurgedInv(s, n, t, ok) && id in s.calls && s.calls[id].phase.Reading?
    ensures PurgedInv(StepRead(hash, s, id), n, t, ok)
  {
  }

  lemma PurgedReply(s: Gateway, id: nat, answer: Answer, n: nat, t: nat, ok: Claims -> bool)
    requires PurgedInv(s, n, t, ok) && id in s.calls && s.calls[id].phase.Asking?
    requires answer.Verified? ==> ok(answer.claims)
    ensures PurgedInv(StepReply(s, id, answer), n, t, ok)
  {
  }

  lemma PurgedStore(hash: Hash, s: Gateway, id: nat, evicted: set<string>, n: nat, t: nat, ok: Claims -> bool)
    requires PurgedInv(s, n, t, ok) && id in s.calls && s.calls[id].phase.Storing?
    ensures PurgedInv(StepStore(hash, s, id, evicted), n, t, ok)
  {
    assert Harmless(NewEntry(s.calls[id].phase.claims, s.calls[id].phase.at), t, ok);
  }

  lemma PurgedStep(hash: Hash, s: Gateway, a: Action, n: nat, t: nat, ok: Claims -> bool)
    requires PurgedInv(s, n, t, ok) && (a.Reply? && a.answer.Verified? ==> ok(a.answer.claims))
    ensures PurgedInv(Apply(hash, s, a), n, t, ok)
  {
    match a
    case Read(id) => if id in s.calls && s.calls[id].phase.Reading? { PurgedRead(hash, s, id, n, t, ok); }
    case Reply(id, answer) => if id in s.calls && s.calls[id].phase.Asking? { PurgedReply(s, id, answer, n, t, ok); }
    case Store(id, evicted) => if id in s.calls && s.calls[id].phase.Storing? { PurgedStore(hash, s, id, evicted, n, t, ok); }
    case _ =>
  }

  lemma {:induction false} PurgedRun(hash: Hash, s: Gateway, actions: seq<Action>, n: nat, t: nat, ok: Claims -> bool)
    requires PurgedInv(s, n, t, ok) && Confirms(actions, ok)
    ensures ServesOnly(Run(hash, s, actions), n, ok)
    decreases |actions|
  {
    if actions != [] {
      PurgedStep(hash, s, actions[0], n, t, ok);
      PurgedRun(hash, Apply(hash, s, actions[0]), actions[1..], n, t, ok);
    }
  }

  /** Whatever follows, calls begun after an invalidation get only claims the auth-service verified after it. */
  ghost predicate InvalidationHolds(hash: Hash, s: Gateway) {
    forall actions, ok: Claims -> bool | Confirms(actions, ok) ::
      ServesOnly(Run(hash, Apply(hash, s, Invalidate), actions), s.begun, ok)
  }

  lemma {:induction false} RunOne(hash: Hash, s: Gateway, a: Action, rest: seq<Action>)
    ensures Run(hash, s, [a] + rest) == Run(hash, Apply(hash, s, a), rest)
  {
    assert ([a] + rest)[0] == a && ([a] + rest)[1..] == rest;
  }

  /** A call that was storing puts its claims back, and the next call for the token is served them. */
  lemma StoredAgain(hash: Hash, s: Gateway, id: nat) returns (actions: seq<Action>)
    requires id in s.calls && id < s.begun && s.calls[id].phase.Storing?
    requires s.cache == map[] && s.clock < s.calls[id].phase.at + STALE
    ensures Confirms(actions, _ => false) && !ServesOnly(Run(hash, s, actions), s.begun, _ => false)
  {
    var token, n := s.calls[id].token, s.begun;
    var store, begin, read, reply := Store(id, {}), Begin(token), Read(n), Reply(n, Unreachable);
    actions := [store] + ([begin] + ([read] + ([reply] + [])));
    var s1 := Apply(hash, s, store);
    var s2 := Apply(hash, s1, begin);
    var s3 := Apply(hash, s2, read);
    var s4 := Apply(hash, s3, reply);
    RunOne(hash, s, store, [begin] + ([read] + ([reply] + [])));
    RunOne(hash, s1, begin, [read] + ([reply] + []));
    RunOne(hash, s2, read, [reply] + []);
    RunOne(hash, s3, reply, []);
    assert s1.cache == map[hash(token) := NewEntry(s.calls[id].phase.claims, s.calls[id].phase.at)];
    assert s2.calls[n] == Call(token, s.clock, Reading);
    assert s4.served[|s4.served| - 1].number == n;
    ConfirmsNothing(store, [begin] + ([read] + ([reply] + [])));
    ConfirmsNothing(begin, [read] + ([reply] + []));
    ConfirmsNothing(read, [reply] + []);
    ConfirmsNothing(reply, []);
  }

  lemma ConfirmsNothing(a: Action, rest: seq<Action>)
    ensures Confirms([a] + rest, _ => false) <==> !(a.Reply? && a.answer.Verified?) && Confirms(rest, _ => false)
  {
    assert ([a] + rest)[0] == a && ([a] + rest)[1..] == rest;
  }

  /** Invalidating is final for later calls, exactly when no call in flight holds verified claims that it has yet
      to store and whose entry would still be of use. */
  lemma InvalidationIsFinal(hash: Hash, actions: seq<Action>)
    ensures var s := Run(hash, START, actions);
            InvalidationHolds(hash, s) <==> forall id | id in s.calls :: !Holding(s, id)
  {
    var s := Run(hash, START, actions);
    RunKeeps(hash, START, actions);
    if id :| id in s.calls && Holding(s, id) {
      HoldingBreaksIt(hash, s, id);
    } else {
      forall more, ok: Claims -> bool | Confirms(more, ok)
        ensures ServesOnly(Run(hash, Apply(hash, s, Invalidate), more), s.begun, ok)
      {
        PurgedRun(hash, Apply(hash, s, Invalidate), more, s.begun, s.clock, ok);
      }
    }
  }

  lemma HoldingBreaksIt(hash: Hash, s: Gateway, id: nat)
    requires Inv(hash, s) && Holding(s, id)
    ensures !InvalidationHolds(hash, s)
  {
    var s1 := Apply(hash, s, Invalidate);
    if s.calls[id].phase.Storing? {
      var more := StoredAgain(hash, s1, id);
    } else {
      var s2 := Apply(hash, s1, ReadClock(id));
      var more := StoredAgain(hash, s2, id);
      RunOne(hash, s1, ReadClock(id), more);
      ConfirmsNothing(ReadClock(id), more);
      assert Confirms([ReadClock(id)] + more, _ => false);
    }
  }
}
