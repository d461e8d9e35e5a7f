/**
 The two ends as one step system. Many queries are in flight at once; each moves
 through the steps of the agent's handler, central's handler runs in between, and
 pods, the registry and the clock change at any point.
 */
module System {
  import opened Wrappers
  import opened Text
  import opened Dns
  import opened Zonecache
  import Ednszone
  import Podzone
  import Registry
  import Central
  import opened Agent

  datatype Mode = K8s(zoneLabel: string) | Vm(zone: string)

  /** The configuration of one agent and of central, and the agent's connection to it. */
  datatype Setup = Setup(mode: Mode, nodeIP: Option<Addr>, code: nat, transport: Central.Transport, central: Central.Config)

  /** What the agent's startup checks: a VM's zone is well formed. */
  predicate Configured(c: Setup) {
    c.mode.Vm? ==> Ednszone.ValidZone(c.mode.zone)
  }

  /** Where a query is in the agent's handler. */
  datatype Phase =
    | Resolved(req: Msg, zone: Option<string>)
    | Clocked(req: Msg, zone: Option<string>, now: Time)
    | Sent(req: Msg, zone: Option<string>, now: Time)
    | Replied(req: Msg, zone: Option<string>, now: Time, reply: Msg)

  datatype State = State(
    now: Time,
    pods: Podzone.Index,
    ready: bool,
    registry: Option<Registry.Snapshot>,
    cache: map<Key, Entry>,
    inflight: map<nat, Phase>)

  datatype Step =
    | Tick(elapsed: nat)
    | PodEvent(event: Podzone.Event)
    | Sync(ready: bool)
    | Poll(snap: Registry.Snapshot)
    | Arrive(id: nat, req: Msg, src: Option<Addr>)
    | ReadClock(id: nat)
    | LookUp(id: nat)
    | Decide(id: nat, downstream: Msg)
    | Fail(id: nat)
    | Deliver(id: nat, evicted: set<Key>)

  function ZoneAt(c: Setup, s: State, src: Option<Addr>): Option<string> {
    ZoneOf(if c.mode.K8s? then PodView(s.pods, s.ready) else StaticView(c.mode.zone), c.nodeIP, src)
  }

  /** What the agent sends for a query in flight. */
  function Query(c: Setup, p: Phase): Msg {
    Ednszone.Outbound(p.req, c.code, p.zone)
  }

  /** What the cache gives a query whose clock has been read. */
  function CacheAnswer(s: State, p: Phase): Option<Msg>
    requires p.Clocked?
  {
    Lookup(s.cache, KeyFor(p.req, p.zone), p.now)
  }

  /** What is written to the client on a hit. */
  function Written(s: State, p: Phase): Msg
    requires p.Clocked? && CacheAnswer(s, p).Some?
  {
    ReplyKeepingRcode(CacheAnswer(s, p).value, p.req)
  }

  function CentralReply(c: Setup, s: State, p: Phase, downstream: Msg): Msg {
    Central.Reply(c.central, c.transport, Query(c, p), s.registry, downstream)
  }

  predicate Enabled(s: State, step: Step) {
    match step
    case Tick(_) => true
    case PodEvent(_) => true
    case Sync(_) => true
    case Poll(_) => true
    case Arrive(id, _, _) => id !in s.inflight
    case ReadClock(id) => id in s.inflight && s.inflight[id].Resolved?
    case LookUp(id) => id in s.inflight && s.inflight[id].Clocked?
    case Decide(id, _) => id in s.inflight && s.inflight[id].Sent?
    case Fail(id) => id in s.inflight && s.inflight[id].Sent?
    case Deliver(id, _) => id in s.inflight && s.inflight[id].Replied?
  }

  function Next(c: Setup, s: State, step: Step): State
    requires Enabled(s, step)
  {
    match step
    case Tick(elapsed) => s.(now := s.now + elapsed)
    case PodEvent(e) => s.(pods := if c.mode.K8s? then Podzone.Apply(s.pods, e, c.mode.zoneLabel) else s.pods)
    case Sync(ready) => s.(ready := ready)
    case Poll(snap) => s.(registry := Some(snap))
    case Arrive(id, req, src) => s.(inflight := s.inflight[id := Resolved(req, ZoneAt(c, s, src))])
    case ReadClock(id) =>
      var p := s.inflight[id];
      s.(inflight := s.inflight[id := Clocked(p.req, p.zone, s.now)])
    case LookUp(id) =>
      var p := s.inflight[id];
      if CacheAnswer(s, p).Some? then s.(inflight := s.inflight - {id})
      else s.(inflight := s.inflight[id := Sent(p.req, p.zone, p.now)])
    case Decide(id, downstream) =>
      var p := s.inflight[id];
      s.(inflight := s.inflight[id := Replied(p.req, p.zone, p.now, CentralReply(c, s, p, downstream))])
    case Fail(id) => s.(inflight := s.inflight - {id})
    case Deliver(id, evicted) => s.(inflight := s.inflight - {id}, cache := CacheAfter(c, s, s.inflight[id], evicted))
  }

  function CacheAfter(c: Setup, s: State, p: Phase, evicted: set<Key>): map<Key, Entry>
    requires p.Replied?
  {
    if AnswersQuestion(Query(c, p), p.reply) && Cacheable(p.reply)
    then Stored(s.cache, KeyFor(p.req, p.zone), p.reply, p.now) - evicted
    else s.cache
  }

  predicate Initial(s: State) {
    && s.pods == Podzone.EMPTY && !s.ready && s.registry == None
    && s.cache == map[] && s.inflight == map[]
  }

  /** A run: any number of steps from an initial state, in any order they are enabled. */
  ghost predicate Run(c: Setup, states: seq<State>, steps: seq<Step>) {
    && |states| == |steps| + 1
    && Initial(states[0])
    && forall i :: 0 <= i < |steps| ==> Stepped(c, states, steps, i)
  }

  ghost predicate Stepped(c: Setup, states: seq<State>, steps: seq<Step>, i: nat)
    requires |states| == |steps| + 1 && i < |steps|
  {
    Enabled(states[i], steps[i]) && states[i + 1] == Next(c, states[i], steps[i])
  }

  /** Runs exist and go on: an empty system is one, and any enabled step extends one. */
  lemma RunExtends(c: Setup, states: seq<State>, steps: seq<Step>, step: Step, start: Time)
    ensures Run(c, [State(start, Podzone.EMPTY, false, None, map[], map[])], [])
    ensures Run(c, states, steps) && Enabled(states[|steps|], step) ==>
      Run(c, states + [Next(c, states[|steps|], step)], steps + [step])
  {
    if Run(c, states, steps) && Enabled(states[|steps|], step) {
      var states', steps' := states + [Next(c, states[|steps|], step)], steps + [step];
      forall i | 0 <= i < |steps'| ensures Stepped(c, states', steps', i) {
        assert i < |steps| ==> Stepped(c, states, steps, i);
      }
    }
  }

  /** Before step `n`, step `i` is the last poll. */
  ghost predicate LastPoll(steps: seq<Step>, i: nat, n: nat)
    requires n <= |steps|
  {
    i < n && steps[i].Poll? && forall j :: i < j < n ==> !steps[j].Poll?
  }

  /** Before step `n`, step `i` is the last time the watcher's readiness was set. */
  ghost predicate LastSync(steps: seq<Step>, i: nat, n: nat)
    requires n <= |steps|
  {
    i < n && steps[i].Sync? && forall j :: i < j < n ==> !steps[j].Sync?
  }

  function Elapsed(steps: seq<Step>): nat {
    if steps == [] then 0
    else
      var n := |steps| - 1;
      Elapsed(steps[..n]) + if steps[n].Tick? then steps[n].elapsed else 0
  }

  lemma NextInputs(c: Setup, s: State, step: Step)
    requires Enabled(s, step)
    ensures var s' := Next(c, s, step);
      && s'.registry == (if step.Poll? then Some(step.snap) else s.registry)
      && s'.ready == (if step.Sync? then step.ready else s.ready)
      && s'.now == s.now + if step.Tick? then step.elapsed else 0
  {
  }

  /** The snapshot in force is that of the last poll, and none before the first. */
  lemma {:induction false} RegistryIsLastPoll(c: Setup, states: seq<State>, steps: seq<Step>, n: nat)
    requires Run(c, states, steps) && n < |states|
    ensures forall i: nat :: LastPoll(steps, i, n) ==> states[n].registry == Some(steps[i].snap)
    ensures (forall i :: 0 <= i < n ==> !steps[i].Poll?) ==> states[n].registry == None
  {
    if n > 0 {
      var m := n - 1;
      RegistryIsLastPoll(c, states, steps, m);
      assert Stepped(c, states, steps, m);
      NextInputs(c, states[m], steps[m]);
      forall i: nat | LastPoll(steps, i, n) ensures states[n].registry == Some(steps[i].snap) {
        assert i == m || LastPoll(steps, i, m);
      }
    }
  }

  /** The watcher is ready as last set, and not before. */
  lemma {:induction false} ReadyIsLastSync(c: Setup, states: seq<State>, steps: seq<Step>, n: nat)
    requires Run(c, states, steps) && n < |states|
    ensures forall i: nat :: LastSync(steps, i, n) ==> states[n].ready == steps[i].ready
    ensures (forall i :: 0 <= i < n ==> !steps[i].Sync?) ==> !states[n].ready
  {
    if n > 0 {
      var m := n - 1;
      ReadyIsLastSync(c, states, steps, m);
      assert Stepped(c, states, steps, m);
      NextInputs(c, states[m], steps[m]);
      forall i: nat | LastSync(steps, i, n) ensures states[n].ready == steps[i].ready {
        assert i == m || LastSync(steps, i, m);
      }
    }
  }

  /** The clock shows the time that has elapsed. */
  lemma {:induction false} ClockIsElapsed(c: Setup, states: seq<State>, steps: seq<Step>, n: nat)
    requires Run(c, states, steps) && n < |states|
    ensures states[n].now == states[0].now + Elapsed(steps[..n])
  {
    if n > 0 {
      ClockIsElapsed(c, states, steps, n - 1);
      assert Stepped(c, states, steps, n - 1);
      NextInputs(c, states[n - 1], steps[n - 1]);
      assert steps[..n][..n - 1] == steps[..n - 1];
    }
  }

  // ---------------------------------------------------------------------
  // Provenance
  // ---------------------------------------------------------------------

  /** Step `i` is central's answer `reply` to the query `id`, in flight as (req, zone, now), decided no earlier than `now`. */
  ghost predicate AnsweredAt(c: Setup, states: seq<State>, steps: seq<Step>, i: nat, id: nat,
                             req: Msg, zone: Option<string>, now: Time, reply: Msg)
    requires |states| == |steps| + 1
  {
    && i < |steps| && steps[i].Decide? && steps[i].id == id && Enabled(states[i], steps[i])
    && states[i].inflight[id] == Sent(req, zone, now)
    && reply == CentralReply(c, states[i], Sent(req, zone, now), steps[i].downstream)
    && now <= states[i].now
  }

  /** Step `i` is where the cached entry came from. */
  ghost predicate CachedFrom(c: Setup, states: seq<State>, steps: seq<Step>, i: nat, k: Key, e: Entry)
    requires |states| == |steps| + 1
  {
    && i < |steps| && steps[i].Decide? && Enabled(states[i], steps[i])
    && var p := states[i].inflight[steps[i].id];
       && k == KeyFor(p.req, p.zone)
       && ZoneOk(p.zone)
       && e.msg == CentralReply(c, states[i], p, steps[i].downstream)
       && AnswersQuestion(Query(c, p), e.msg)
       && Cacheable(e.msg)
       && e.expiry <= states[i].now + MAX_TTL
  }

  predicate ZoneOk(zone: Option<string>) {
    zone.Some? ==> Ednszone.ValidZone(zone.value)
  }

  /** The query `id` has been in flight ever since step `a`, so an arrival of `id` at `a` is its own. */
  ghost predicate InFlight(states: seq<State>, a: nat, n: nat, id: nat)
    requires n < |states|
  {
    forall i :: a < i <= n ==> id in states[i].inflight
  }

  /** Step `a` is the arrival of the query `id` itself, resolved to `zone` from the index as it was then. */
  ghost predicate ArrivedAt(c: Setup, states: seq<State>, steps: seq<Step>, a: nat, n: nat, id: nat,
                            req: Msg, zone: Option<string>)
    requires |states| == |steps| + 1 && n < |states|
  {
    && a < n && steps[a].Arrive? && steps[a].id == id && steps[a].req == req
    && zone == ZoneAt(c, states[a], steps[a].src)
    && InFlight(states, a, n, id)
  }

  /** Step `r` is where the query `id` read the clock, and central's answer, if it has one, was given after that. */
  ghost predicate ClockedAt(c: Setup, states: seq<State>, steps: seq<Step>, r: nat, n: nat, id: nat, p: Phase)
    requires |states| == |steps| + 1 && n < |states| && !p.Resolved?
  {
    && r < n && steps[r] == ReadClock(id) && p.now == states[r].now
    && (p.Replied? ==>
          exists i :: r < i < n && AnsweredAt(c, states, steps, i, id, p.req, p.zone, p.now, p.reply))
  }

  /** What has happened to the query `id` since its arrival at step `a`. */
  ghost predicate Tracked(c: Setup, states: seq<State>, steps: seq<Step>, a: nat, n: nat, id: nat, p: Phase)
    requires |states| == |steps| + 1 && n < |states|
  {
    && ArrivedAt(c, states, steps, a, n, id, p.req, p.zone)
    && (!p.Resolved? ==> exists r :: a < r < n && ClockedAt(c, states, steps, r, n, id, p))
  }

  ghost predicate PhaseOk(c: Setup, states: seq<State>, steps: seq<Step>, n: nat, id: nat, p: Phase)
    requires |states| == |steps| + 1 && n < |states|
  {
    && ZoneOk(p.zone)
    && (!p.Resolved? ==> p.now <= states[n].now)
    && exists a :: 0 <= a < n && Tracked(c, states, steps, a, n, id, p)
  }

  ghost predicate EntryOk(c: Setup, states: seq<State>, steps: seq<Step>, n: nat, k: Key, e: Entry)
    requires |states| == |steps| + 1
  {
    exists i :: 0 <= i < n && CachedFrom(c, states, steps, i, k, e)
  }

  ghost predicate PodsOk(x: Podzone.Index) {
    forall ip :: ip in x.byIP ==> Ednszone.ValidZone(x.byIP[ip])
  }

  /** What every state of a run satisfies. */
  ghost predicate Inv(c: Setup, states: seq<State>, steps: seq<Step>, n: nat)
    requires |states| == |steps| + 1 && n < |states|
  {
    && PodsOk(states[n].pods)
    && (forall id :: id in states[n].inflight ==> PhaseOk(c, states, steps, n, id, states[n].inflight[id]))
    && (forall k :: k in states[n].cache ==> EntryOk(c, states, steps, n, k, states[n].cache[k]))
  }

  lemma PodsStep(c: Setup, s: State, step: Step)
    requires Enabled(s, step) && PodsOk(s.pods)
    ensures PodsOk(Next(c, s, step).pods)
  {
  }

  lemma ZoneAtOk(c: Setup, s: State, src: Option<Addr>)
    requires Configured(c) && PodsOk(s.pods)
    ensures ZoneOk(ZoneAt(c, s, src))
  {
  }

  /** What has happened to a query stays true of it, while it stays in flight. */
  lemma TrackedLater(c: Setup, states: seq<State>, steps: seq<Step>, a: nat, n: nat, id: nat, p: Phase)
    requires |states| == |steps| + 1 && n + 1 < |states| && id in states[n + 1].inflight
    requires Tracked(c, states, steps, a, n, id, p)
    ensures Tracked(c, states, steps, a, n + 1, id, p)
  {
    if !p.Resolved? {
      var r :| a < r < n && ClockedAt(c, states, steps, r, n, id, p);
      ClockedLater(c, states, steps, r, n, id, p);
    }
  }

  lemma ClockedLater(c: Setup, states: seq<State>, steps: seq<Step>, r: nat, n: nat, id: nat, p: Phase)
    requires |states| == |steps| + 1 && n + 1 < |states| && !p.Resolved?
    requires ClockedAt(c, states, steps, r, n, id, p)
    ensures ClockedAt(c, states, steps, r, n + 1, id, p)
  {
    if p.Replied? {
      var i :| r < i < n && AnsweredAt(c, states, steps, i, id, p.req, p.zone, p.now, p.reply);
      assert r < i < n + 1;
    }
  }

  /** How a query in flight after a step relates to the state before it. */
  ghost predicate Moves(c: Setup, s: State, step: Step, id: nat, p': Phase) {
    || (id in s.inflight && s.inflight[id] == p')
    || (step.Arrive? && step.id == id && p' == Resolved(step.req, ZoneAt(c, s, step.src)))
    || (id in s.inflight && p'.req == s.inflight[id].req && p'.zone == s.inflight[id].zone
        && match p'
           case Resolved(_, _) => false
           case Clocked(_, _, now) => step == ReadClock(id) && now == s.now
           case Sent(_, _, now) => s.inflight[id].Clocked? && now == s.inflight[id].now
           case Replied(_, _, now, reply) =>
             && step.Decide? && step.id == id && s.inflight[id] == Sent(p'.req, p'.zone, now)
             && reply == CentralReply(c, s, s.inflight[id], step.downstream))
  }

  lemma NextMoves(c: Setup, s: State, step: Step, id: nat)
    requires Enabled(s, step) && id in Next(c, s, step).inflight
    ensures Moves(c, s, step, id, Next(c, s, step).inflight[id])
    ensures s.now <= Next(c, s, step).now
  {
  }

  lemma PhaseStep(c: Setup, states: seq<State>, steps: seq<Step>, n: nat, id: nat)
    requires Configured(c) && |states| == |steps| + 1 && n < |steps| && Stepped(c, states, steps, n)
    requires Inv(c, states, steps, n)
    requires id in states[n + 1].inflight
    ensures PhaseOk(c, states, steps, n + 1, id, states[n + 1].inflight[id])
  {
    var p' := states[n + 1].inflight[id];
    NextMoves(c, states[n], steps[n], id);
    if id in states[n].inflight {
      var p := states[n].inflight[id];
      assert PhaseOk(c, states, steps, n, id, p);
      var a :| 0 <= a < n && Tracked(c, states, steps, a, n, id, p);
      TrackedMoves(c, states, steps, a, n, id, p, p');
    } else {
      ZoneAtOk(c, states[n], steps[n].src);
      assert Tracked(c, states, steps, n, n + 1, id, p');
    }
  }

  lemma TrackedMoves(c: Setup, states: seq<State>, steps: seq<Step>, a: nat, n: nat, id: nat, p: Phase, p': Phase)
    requires |states| == |steps| + 1 && n < |steps| && Enabled(states[n], steps[n])
    requires id in states[n].inflight && p == states[n].inflight[id] && id in states[n + 1].inflight
    requires states[n].now <= states[n + 1].now && ZoneOk(p.zone) && (!p.Resolved? ==> p.now <= states[n].now)
    requires Tracked(c, states, steps, a, n, id, p)
    requires Moves(c, states[n], steps[n], id, p')
    ensures PhaseOk(c, states, steps, n + 1, id, p')
  {
    TrackedLater(c, states, steps, a, n, id, p);
    if p' != p {
      assert ArrivedAt(c, states, steps, a, n + 1, id, p'.req, p'.zone);
      if p'.Clocked? {
        assert ClockedAt(c, states, steps, n, n + 1, id, p');
      } else {
        var r :| a < r < n && ClockedAt(c, states, steps, r, n, id, p);
        if p'.Replied? {
          assert AnsweredAt(c, states, steps, n, id, p'.req, p'.zone, p'.now, p'.reply);
        }
        assert ClockedAt(c, states, steps, r, n + 1, id, p');
      }
    }
    assert Tracked(c, states, steps, a, n + 1, id, p');
  }

  /** An entry after a step was there before, or is the one a delivery put there. */
  lemma NextEntries(c: Setup, s: State, step: Step, k: Key)
    requires Enabled(s, step) && k in Next(c, s, step).cache
    ensures var e := Next(c, s, step).cache[k];
      || (k in s.cache && s.cache[k] == e)
      || (step.Deliver? && var p := s.inflight[step.id];
          && k == KeyFor(p.req, p.zone) && Cacheable(p.reply) && e == EntryFor(p.reply, p.now)
          && AnswersQuestion(Query(c, p), p.reply))
  {
  }

  lemma EntryStep(c: Setup, states: seq<State>, steps: seq<Step>, n: nat, k: Key)
    requires |states| == |steps| + 1 && n < |steps| && Stepped(c, states, steps, n)
    requires Inv(c, states, steps, n)
    requires k in states[n + 1].cache
    ensures EntryOk(c, states, steps, n + 1, k, states[n + 1].cache[k])
  {
    var s, e := states[n], states[n + 1].cache[k];
    NextEntries(c, s, steps[n], k);
    if k in s.cache && s.cache[k] == e {
      var i :| 0 <= i < n && CachedFrom(c, states, steps, i, k, e);
      assert 0 <= i < n + 1;
    } else {
      var p := s.inflight[steps[n].id];
      assert PhaseOk(c, states, steps, n, steps[n].id, p);
      DeliveredEntry(c, states, steps, n, steps[n].id, p);
    }
  }

  /** The decision behind a query's reply is one made for that query, after its arrival. */
  lemma ReplyOrigin(c: Setup, states: seq<State>, steps: seq<Step>, n: nat, id: nat, p: Phase) returns (a: nat, i: nat)
    requires |states| == |steps| + 1 && n < |states|
    requires p.Replied? && PhaseOk(c, states, steps, n, id, p)
    ensures a < i < n && Tracked(c, states, steps, a, n, id, p)
    ensures AnsweredAt(c, states, steps, i, id, p.req, p.zone, p.now, p.reply)
  {
    a :| 0 <= a < n && Tracked(c, states, steps, a, n, id, p);
    var r :| a < r < n && ClockedAt(c, states, steps, r, n, id, p);
    i :| r < i < n && AnsweredAt(c, states, steps, i, id, p.req, p.zone, p.now, p.reply);
  }

  lemma DeliveredEntry(c: Setup, states: seq<State>, steps: seq<Step>, n: nat, id: nat, p: Phase)
    requires |states| == |steps| + 1 && n < |steps|
    requires p.Replied? && PhaseOk(c, states, steps, n, id, p)
    requires Cacheable(p.reply) && AnswersQuestion(Query(c, p), p.reply)
    ensures EntryOk(c, states, steps, n + 1, KeyFor(p.req, p.zone), EntryFor(p.reply, p.now))
  {
    var a, i := ReplyOrigin(c, states, steps, n, id, p);
    assert Query(c, Sent(p.req, p.zone, p.now)) == Query(c, p);
    assert CachedFrom(c, states, steps, i, KeyFor(p.req, p.zone), EntryFor(p.reply, p.now));
    assert 0 <= i < n + 1;
  }

  lemma InvStep(c: Setup, states: seq<State>, steps: seq<Step>, n: nat)
    requires Configured(c) && |states| == |steps| + 1 && n < |steps| && Stepped(c, states, steps, n)
    requires Inv(c, states, steps, n)
    ensures Inv(c, states, steps, n + 1)
  {
    PodsStep(c, states[n], steps[n]);
    var s' := states[n + 1];
    forall id | id in s'.inflight ensures PhaseOk(c, states, steps, n + 1, id, s'.inflight[id]) {
      PhaseStep(c, states, steps, n, id);
    }
    forall k | k in s'.cache ensures EntryOk(c, states, steps, n + 1, k, s'.cache[k]) {
      EntryStep(c, states, steps, n, k);
    }
  }

  /** Every state of every run satisfies the invariant. */
  lemma {:induction false} RunInv(c: Setup, states: seq<State>, steps: seq<Step>, n: nat)
    requires Configured(c) && Run(c, states, steps) && n < |states|
    ensures Inv(c, states, steps, n)
  {
    if n > 0 {
      RunInv(c, states, steps, n - 1);
      assert Stepped(c, states, steps, n - 1);
      InvStep(c, states, steps, n - 1);
    }
  }

  // ---------------------------------------------------------------------
  // What a cache hit can be
  // ---------------------------------------------------------------------

  /** Queries share a cache key exactly when they ask for the same name and type from the same zone. */
  lemma SameKeyIff(a: Msg, za: Option<string>, b: Msg, zb: Option<string>)
    requires ZoneOk(za) && ZoneOk(zb)
    ensures KeyFor(a, za) == KeyFor(b, zb) <==> SameAsked(a, b) && za == zb
  {
    KeyIff(QName(a), QType(a), Bucket(za), QName(b), QType(b), Bucket(zb));
    EqualFoldIsEqualLower(QName(a), QName(b));
    NameIsLower(a);
    NameIsLower(b);
    SameAskedIff(a, b);
  }

  lemma NameIsLower(m: Msg)
    ensures ToLower(QName(m)) == QName(m)
  {
    if m.question != [] {
      LowerIdempotent(m.question[0].name);
    } else {
      assert ToLower(".") == ".";
    }
  }

  /**
   Step `i` is a decision behind the message `m` for query `p`: central's reply of that
   step, given less than 30 seconds before `p` read the clock or later, to a query of
   this agent for the same name and type, declaring exactly the zone of `p`.
   */
  ghost predicate Decided(c: Setup, states: seq<State>, steps: seq<Step>, i: nat, p: Phase, m: Msg)
    requires |states| == |steps| + 1 && !p.Resolved?
  {
    && i < |steps| && steps[i].Decide? && Enabled(states[i], steps[i])
    && var q := states[i].inflight[steps[i].id];
       && SameAsked(q.req, p.req) && q.zone == p.zone
       && Ednszone.GetZone(Query(c, q), c.code) == p.zone
       && states[i].now > p.now - MAX_TTL
       && SameContent(m, CentralReply(c, states[i], q, steps[i].downstream))
  }

  /**
   Step `i` explains the message `m` written for query `p` on a hit: it is the decision
   behind it, the message answers the question, and a client that honours the TTLs drops
   it within 30 seconds of that decision.
   */
  ghost predicate Explains(c: Setup, states: seq<State>, steps: seq<Step>, i: nat, p: Phase, m: Msg)
    requires |states| == |steps| + 1 && p.Clocked?
  {
    && Decided(c, states, steps, i, p, m)
    && SameAsked(m, p.req) && m.answer != []
    && forall rr :: rr in m.answer ==> p.now + rr.ttl * SECOND <= states[i].now + MAX_TTL
  }

  /** Where the entry of a hit came from. */
  lemma HitOrigin(c: Setup, states: seq<State>, steps: seq<Step>, j: nat) returns (i: nat)
    requires Configured(c) && Run(c, states, steps)
    requires j < |steps| && steps[j].LookUp? && Enabled(states[j], steps[j])
    requires CacheAnswer(states[j], states[j].inflight[steps[j].id]).Some?
    ensures var p := states[j].inflight[steps[j].id];
      var k := KeyFor(p.req, p.zone);
      && i < j && CachedFrom(c, states, steps, i, k, states[j].cache[k])
      && Explains(c, states, steps, i, p, Written(states[j], p))
  {
    RunInv(c, states, steps, j);
    var p := states[j].inflight[steps[j].id];
    var k := KeyFor(p.req, p.zone);
    var e := states[j].cache[k];
    assert PhaseOk(c, states, steps, j, steps[j].id, p);
    assert EntryOk(c, states, steps, j, k, e);
    i :| 0 <= i < j && CachedFrom(c, states, steps, i, k, e);
    EntryExplains(c, states, steps, i, p, k, e);
    assert Written(states[j], p) == ReplyKeepingRcode(Served(e, p.now), p.req);
  }

  /** In every run, every cache hit is explained by an earlier decision of central. */
  lemma HitExplained(c: Setup, states: seq<State>, steps: seq<Step>, j: nat)
    requires Configured(c) && Run(c, states, steps)
    requires j < |steps| && steps[j].LookUp? && Enabled(states[j], steps[j])
    requires CacheAnswer(states[j], states[j].inflight[steps[j].id]).Some?
    ensures var p := states[j].inflight[steps[j].id];
      exists i :: 0 <= i < j && Explains(c, states, steps, i, p, Written(states[j], p))
  {
    var i := HitOrigin(c, states, steps, j);
  }

  lemma EntryExplains(c: Setup, states: seq<State>, steps: seq<Step>, i: nat, p: Phase, k: Key, e: Entry)
    requires |states| == |steps| + 1 && p.Clocked? && ZoneOk(p.zone) && k == KeyFor(p.req, p.zone)
    requires CachedFrom(c, states, steps, i, k, e) && Fresh(e, p.now)
    ensures Explains(c, states, steps, i, p, ReplyKeepingRcode(Served(e, p.now), p.req))
  {
    var q := states[i].inflight[steps[i].id];
    SameKeyIff(q.req, q.zone, p.req, p.zone);
    Ednszone.OutboundRoundTrip(q.req, c.code, q.zone);
    QueryKeepsQuestion(c, q);
    AnswerMatchesKey(Query(c, q), e.msg);
    SameAskedIff(Query(c, q), e.msg);
    SameAskedIff(Query(c, q), p.req);
    SameAskedIff(ReplyKeepingRcode(Served(e, p.now), p.req), p.req);
    ServedContent(e, p.now);
    ServedTtlWithinExpiry(e, p.now);
    ReplyKeepsContent(Served(e, p.now), p.req);
  }

  lemma QueryKeepsQuestion(c: Setup, p: Phase)
    ensures Query(c, p).question == p.req.question
  {
    Ednszone.OutboundKeepsRest(p.req, c.code, p.zone);
  }

  // ---------------------------------------------------------------------
  // When there is a hit
  // ---------------------------------------------------------------------

  /** The step delivers an answer that is accepted and can be kept. */
  predicate Accepts(c: Setup, s: State, step: Step) {
    && step.Deliver? && Enabled(s, step)
    && var p := s.inflight[step.id];
       AnswersQuestion(Query(c, p), p.reply) && Cacheable(p.reply)
  }

  /** The step replaces what is cached under `k`, or evicts it. */
  predicate Displaces(c: Setup, s: State, step: Step, k: Key) {
    Accepts(c, s, step) && (k == KeyFor(s.inflight[step.id].req, s.inflight[step.id].zone) || k in step.evicted)
  }

  /** The delivery at step `d` put `e` under `k`. */
  predicate PutAt(c: Setup, s: State, step: Step, k: Key, e: Entry) {
    && Accepts(c, s, step) && k !in step.evicted
    && var p := s.inflight[step.id];
       k == KeyFor(p.req, p.zone) && e == EntryFor(p.reply, p.now)
  }

  /** The delivery at step `d` put `e` under `k`, and nothing has replaced or evicted it before step `n`. */
  ghost predicate Stands(c: Setup, states: seq<State>, steps: seq<Step>, d: nat, n: nat, k: Key, e: Entry)
    requires |states| == |steps| + 1 && n < |states|
  {
    && d < n && PutAt(c, states[d], steps[d], k, e)
    && forall i :: d < i < n ==> !Displaces(c, states[i], steps[i], k)
  }

  ghost predicate StandsBy(c: Setup, states: seq<State>, steps: seq<Step>, n: nat, k: Key, e: Entry)
    requires |states| == |steps| + 1 && n < |states|
  {
    exists d: nat :: Stands(c, states, steps, d, n, k, e)
  }

  /** One step: an entry is there by a delivery of this step, or was there and has not been displaced. */
  lemma NextEntryIff(c: Setup, s: State, step: Step, k: Key, e: Entry)
    requires Enabled(s, step)
    ensures var s' := Next(c, s, step);
      k in s'.cache && s'.cache[k] == e <==>
        PutAt(c, s, step, k, e) || (!Displaces(c, s, step, k) && k in s.cache && s.cache[k] == e)
  {
  }

  /** In every run the cache holds exactly the entries that stand. */
  lemma {:induction false} CacheIff(c: Setup, states: seq<State>, steps: seq<Step>, n: nat, k: Key, e: Entry)
    requires Run(c, states, steps) && n < |states|
    ensures k in states[n].cache && states[n].cache[k] == e <==> StandsBy(c, states, steps, n, k, e)
  {
    if n > 0 {
      CacheIff(c, states, steps, n - 1, k, e);
      assert Stepped(c, states, steps, n - 1);
      NextEntryIff(c, states[n - 1], steps[n - 1], k, e);
      StandsStep(c, states, steps, n - 1, n, k, e);
    }
  }

  lemma StandsStep(c: Setup, states: seq<State>, steps: seq<Step>, n: nat, next: nat, k: Key, e: Entry)
    requires |states| == |steps| + 1 && n < |steps| && next == n + 1
    ensures StandsBy(c, states, steps, next, k, e) <==>
      || PutAt(c, states[n], steps[n], k, e)
      || (!Displaces(c, states[n], steps[n], k) && StandsBy(c, states, steps, n, k, e))
  {
    if d: nat :| Stands(c, states, steps, d, next, k, e) {
      StandsBefore(c, states, steps, d, n, next, k, e);
    }
    if PutAt(c, states[n], steps[n], k, e) {
      assert Stands(c, states, steps, n, next, k, e);
    }
    if d: nat :| Stands(c, states, steps, d, n, k, e) {
      StandsAfter(c, states, steps, d, n, next, k, e);
    }
  }

  lemma StandsBefore(c: Setup, states: seq<State>, steps: seq<Step>, d: nat, n: nat, next: nat, k: Key, e: Entry)
    requires |states| == |steps| + 1 && n < |steps| && next == n + 1
    requires Stands(c, states, steps, d, next, k, e)
    ensures if d == n then PutAt(c, states[n], steps[n], k, e)
      else !Displaces(c, states[n], steps[n], k) && Stands(c, states, steps, d, n, k, e)
  {
  }

  lemma StandsAfter(c: Setup, states: seq<State>, steps: seq<Step>, d: nat, n: nat, next: nat, k: Key, e: Entry)
    requires |states| == |steps| + 1 && n < |steps| && next == n + 1
    requires Stands(c, states, steps, d, n, k, e)
    ensures !Displaces(c, states[n], steps[n], k) ==> Stands(c, states, steps, d, next, k, e)
  {
  }

  /**
   The delivery at step `d` supplies the query `q` at step `j`: it brought an answer for the
   same name, type and zone that was kept and has been neither replaced nor evicted since.
   */
  ghost predicate Supplies(c: Setup, states: seq<State>, steps: seq<Step>, d: nat, j: nat, q: Phase)
    requires |states| == |steps| + 1 && j < |states|
  {
    && d < j && Accepts(c, states[d], steps[d]) && KeyFor(q.req, q.zone) !in steps[d].evicted
    && SameAsked(states[d].inflight[steps[d].id].req, q.req) && states[d].inflight[steps[d].id].zone == q.zone
    && forall i :: d < i < j ==> !Displaces(c, states[i], steps[i], KeyFor(q.req, q.zone))
  }

  /**
   Exactly when a lookup hits, in every run: if and only if some delivery supplies the query
   and its answer still lasts, counted from the clock reading of the query it was brought
   for. A hit has the content of the reply of any delivery that supplies it.
   */
  lemma HitIff(c: Setup, states: seq<State>, steps: seq<Step>, j: nat)
    requires Configured(c) && Run(c, states, steps)
    requires j < |steps| && steps[j].LookUp? && Enabled(states[j], steps[j])
    ensures var q := states[j].inflight[steps[j].id];
      && (CacheAnswer(states[j], q).Some? <==> exists d: nat :: SuppliesNow(c, states, steps, d, j, q))
      && (forall d: nat :: Supplies(c, states, steps, d, j, q) ==> GivesHit(states, steps, d, j, q))
  {
    var q := states[j].inflight[steps[j].id];
    assert ZoneOk(q.zone) by {
      RunInv(c, states, steps, j);
      assert PhaseOk(c, states, steps, j, steps[j].id, q);
    }
    forall d: nat | Supplies(c, states, steps, d, j, q) ensures GivesHit(states, steps, d, j, q) {
      SuppliedIsFound(c, states, steps, d, j, q);
    }
    if CacheAnswer(states[j], q).Some? {
      var d := Supplier(c, states, steps, j, q);
      assert SuppliesNow(c, states, steps, d, j, q);
    }
  }

  /** The delivery at step `d` supplies `q`, and its answer still lasts. */
  ghost predicate SuppliesNow(c: Setup, states: seq<State>, steps: seq<Step>, d: nat, j: nat, q: Phase)
    requires |states| == |steps| + 1 && j < |states| && !q.Resolved?
  {
    Supplies(c, states, steps, d, j, q) && LastsFor(states, steps, d, q)
  }

  /** Whether the answer of step `d` lasts decides whether `q` hits, and its content is what the hit has. */
  ghost predicate GivesHit(states: seq<State>, steps: seq<Step>, d: nat, j: nat, q: Phase)
    requires d < |steps| < |states| && steps[d].Deliver? && Enabled(states[d], steps[d]) && q.Clocked? && j < |states|
  {
    var hit := CacheAnswer(states[j], q);
    && (hit.Some? <==> LastsFor(states, steps, d, q))
    && (hit.Some? ==> SameContent(hit.value, states[d].inflight[steps[d].id].reply))
  }

  /** What is found in the cache was supplied. */
  lemma Supplier(c: Setup, states: seq<State>, steps: seq<Step>, j: nat, q: Phase) returns (d: nat)
    requires Configured(c) && Run(c, states, steps) && j < |states| && ZoneOk(q.zone)
    requires KeyFor(q.req, q.zone) in states[j].cache
    ensures Supplies(c, states, steps, d, j, q)
  {
    var k := KeyFor(q.req, q.zone);
    CacheIff(c, states, steps, j, k, states[j].cache[k]);
    d :| Stands(c, states, steps, d, j, k, states[j].cache[k]);
    StandsSupplies(c, states, steps, d, j, q, states[j].cache[k]);
  }

  /** The answer delivered at step `d` still lasts for a query that read the clock when `q` did. */
  ghost predicate LastsFor(states: seq<State>, steps: seq<Step>, d: nat, q: Phase)
    requires d < |steps| < |states| && steps[d].Deliver? && Enabled(states[d], steps[d]) && !q.Resolved?
  {
    var p := states[d].inflight[steps[d].id];
    Lasts(p.reply, q.now - p.now)
  }

  lemma SuppliedIsFound(c: Setup, states: seq<State>, steps: seq<Step>, d: nat, j: nat, q: Phase)
    requires Configured(c) && Run(c, states, steps) && j < |states| && q.Clocked? && ZoneOk(q.zone)
    requires Supplies(c, states, steps, d, j, q)
    ensures GivesHit(states, steps, d, j, q)
  {
    var p, k := states[d].inflight[steps[d].id], KeyFor(q.req, q.zone);
    SameKeyIff(p.req, p.zone, q.req, q.zone);
    var e := EntryFor(p.reply, p.now);
    assert Stands(c, states, steps, d, j, k, e);
    CacheIff(c, states, steps, j, k, e);
    FoundIff(map[], k, p.reply, p.now, q.now);
    assert Stored(map[], k, p.reply, p.now)[k] == e;
  }

  lemma StandsSupplies(c: Setup, states: seq<State>, steps: seq<Step>, d: nat, j: nat, q: Phase, e: Entry)
    requires Configured(c) && Run(c, states, steps) && j < |states| && ZoneOk(q.zone)
    requires Stands(c, states, steps, d, j, KeyFor(q.req, q.zone), e)
    ensures Supplies(c, states, steps, d, j, q)
  {
    RunInv(c, states, steps, d);
    var p := states[d].inflight[steps[d].id];
    assert PhaseOk(c, states, steps, d, steps[d].id, p);
    SameKeyIff(p.req, p.zone, q.req, q.zone);
  }

  // ---------------------------------------------------------------------
  // How fast a change of topology reaches the cache
  // ---------------------------------------------------------------------

  /** What central decides about a query as the agent sends it. */
  function Policy(c: Setup, reg: Option<Registry.Snapshot>, p: Phase): Central.Decision {
    Central.Action(c.central, c.transport, Query(c, p), reg)
  }

  /** With the same option code at both ends, the decision depends on name, type and zone alone. */
  lemma PolicyDependsOn(c: Setup, reg: Option<Registry.Snapshot>, p: Phase, q: Phase)
    requires c.code == c.central.identity.code
    requires ZoneOk(p.zone) && p.zone == q.zone
    requires SameAsked(p.req, q.req)
    ensures Policy(c, reg, p) == Policy(c, reg, q)
  {
    SameAskedIff(p.req, q.req);
    QueryKeepsQuestion(c, p);
    QueryKeepsQuestion(c, q);
    Ednszone.OutboundRoundTrip(p.req, c.code, p.zone);
    Ednszone.OutboundRoundTrip(q.req, c.code, q.zone);
    Central.ActionReads(c.central, c.transport, Query(c, p), Query(c, q), reg);
  }

  /** From 30 seconds before the clock reading of `p` on, every snapshot in force decided `d` for it. */
  ghost predicate Settled(c: Setup, states: seq<State>, j: nat, p: Phase, d: Central.Decision)
    requires j <= |states| && !p.Resolved?
  {
    forall i :: 0 <= i < j && states[i].now > p.now - MAX_TTL ==> Policy(c, states[i].registry, p) == d
  }

  /** The one record of the answer is the gateway's address, owned by the name asked for, case aside. */
  predicate IsGatewayAnswer(m: Msg, asked: Question, gw: Addr) {
    && m.rcode == 0
    && |m.answer| == 1 && m.answer[0].Record?
    && EqualFold(m.answer[0].name, asked.name)
    && m.answer[0].rrtype == asked.qtype && m.answer[0].rclass == 1 && m.answer[0].rdata == Ip(gw)
  }

  /** An A question and an IPv4 gateway, or AAAA and IPv6. */
  predicate FamilyFits(asked: Question, gw: Addr) {
    (asked.qtype == 1 && gw.V4?) || (asked.qtype == 28 && gw.V6?)
  }

  /** Neither authority nor additional records, OPT aside. */
  predicate NoSideRecords(m: Msg) {
    m.ns == [] && forall i :: 0 <= i < |m.extra| ==> m.extra[i].Opt?
  }

  /** A failure: SERVFAIL and no record of any kind, OPT aside. */
  predicate IsServFail(m: Msg) {
    m.rcode == 2 && m.answer == [] && NoSideRecords(m)
  }

  /** Nothing but the gateway's address, or no data if its family is not the one asked for. */
  predicate OnlyGateway(m: Msg, asked: Question, gw: Addr) {
    && NoSideRecords(m)
    && if FamilyFits(asked, gw) then IsGatewayAnswer(m, asked, gw) else m.rcode == 0 && m.answer == []
  }

  /** `m` is what decision `d` calls for, `downstream` being the next handler's answer. */
  predicate CalledFor(d: Central.Decision, asked: Question, downstream: Msg, m: Msg) {
    match d
    case ServFail => IsServFail(m)
    case PassThrough => SameContent(m, downstream)
    case AnswerGateway(gw) => OnlyGateway(m, asked, gw)
  }

  /** What is called for does not depend on the case of the name. */
  lemma CalledForAnyCase(d: Central.Decision, a: Question, b: Question, downstream: Msg, m: Msg)
    requires EqualFold(a.name, b.name) && a.qtype == b.qtype
    requires CalledFor(d, a, downstream, m)
    ensures CalledFor(d, b, downstream, m)
  {
    if d.AnswerGateway? && FamilyFits(a, d.gateway) {
      FoldTransitive(m.answer[0].name, a.name, b.name);
    }
  }

  lemma SameSides(m: Msg, reply: Msg)
    requires SameContent(m, reply) && NoSideRecords(reply)
    ensures NoSideRecords(m)
  {
    forall i | 0 <= i < |m.extra| ensures m.extra[i].Opt? {
      assert SameData(m.extra[i], reply.extra[i]);
    }
  }

  /** A message of the content of a gateway reply holds nothing but the gateway. */
  lemma SameGateway(c: Setup, query: Msg, gw: Addr, m: Msg)
    requires SameContent(m, Central.GatewayReply(c.central, query, gw))
    ensures OnlyGateway(m, Asked(query), gw)
  {
    var reply := Central.GatewayReply(c.central, query, gw);
    Central.GatewayReplyContent(c.central, query, gw);
    SameSides(m, reply);
    if FamilyFits(Asked(query), gw) {
      assert SameData(m.answer[0], reply.answer[0]);
    }
  }

  /** Central's reply, and any message of the same content, is what the decision calls for. */
  lemma ReplyForPolicy(c: Setup, s: State, q: Phase, downstream: Msg, m: Msg)
    requires SameContent(m, CentralReply(c, s, q, downstream))
    ensures CalledFor(Policy(c, s.registry, q), Asked(q.req), downstream, m)
  {
    QueryKeepsQuestion(c, q);
    match Policy(c, s.registry, q)
    case AnswerGateway(gw) => SameGateway(c, Query(c, q), gw, m);
    case ServFail => SameSides(m, CentralReply(c, s, q, downstream));
    case PassThrough =>
  }

  lemma DecidedFollows(c: Setup, states: seq<State>, steps: seq<Step>, i: nat, j: nat, p: Phase,
                       d: Central.Decision, m: Msg)
    requires |states| == |steps| + 1 && i < j <= |steps| && !p.Resolved? && ZoneOk(p.zone)
    requires c.code == c.central.identity.code && Settled(c, states, j, p, d)
    requires Decided(c, states, steps, i, p, m)
    ensures CalledFor(d, Asked(p.req), steps[i].downstream, m)
  {
    var q := states[i].inflight[steps[i].id];
    PolicyDependsOn(c, states[i].registry, p, q);
    assert Policy(c, states[i].registry, p) == d;
    ReplyForPolicy(c, states[i], q, steps[i].downstream, m);
    CalledForAnyCase(d, Asked(q.req), Asked(p.req), steps[i].downstream, m);
  }

  /** On a hit, `m` is the answer to `p` that decision `d` calls for. */
  ghost predicate FollowsDecision(c: Setup, states: seq<State>, steps: seq<Step>, j: nat, p: Phase,
                                  d: Central.Decision, m: Msg)
    requires |states| == |steps| + 1 && j <= |steps| && p.Clocked?
  {
    match d
    case ServFail => false
    case PassThrough => exists i :: 0 <= i < j && Explains(c, states, steps, i, p, m) && SameContent(m, steps[i].downstream)
    case AnswerGateway(gw) => IsGatewayAnswer(m, Asked(p.req), gw) && NoSideRecords(m)
  }

  /**
   The propagation bound, for both branches: once the decision for a query has
   been settled for 30 seconds, a hit is that decision's answer. A gateway is
   served as that gateway's address, SERVFAIL is never served from the cache, and
   pass-through is the next handler's answer to the query that explains the hit.
   */
  lemma HitFollowsPolicy(c: Setup, states: seq<State>, steps: seq<Step>, j: nat, d: Central.Decision)
    requires Configured(c) && Run(c, states, steps) && c.code == c.central.identity.code
    requires j < |steps| && steps[j].LookUp? && Enabled(states[j], steps[j])
    requires CacheAnswer(states[j], states[j].inflight[steps[j].id]).Some?
    requires Settled(c, states, j, states[j].inflight[steps[j].id], d)
    ensures var p := states[j].inflight[steps[j].id];
      FollowsDecision(c, states, steps, j, p, d, Written(states[j], p))
  {
    var p := states[j].inflight[steps[j].id];
    RunInv(c, states, steps, j);
    assert PhaseOk(c, states, steps, j, steps[j].id, p);
    HitExplained(c, states, steps, j);
    var i :| 0 <= i < j && Explains(c, states, steps, i, p, Written(states[j], p));
    DecidedFollows(c, states, steps, i, j, p, d, Written(states[j], p));
  }

  // ---------------------------------------------------------------------
  // The class asked for
  // ---------------------------------------------------------------------

  /**
   The key has no class, so a hit may carry an answer for another class than asked. The
   class of a hit is the class asked for at the step its entry came from, whichever step
   that is; so it is the class asked exactly when that step's query asked for it too.
   */
  lemma HitClassIff(c: Setup, states: seq<State>, steps: seq<Step>, j: nat)
    requires Configured(c) && Run(c, states, steps)
    requires j < |steps| && steps[j].LookUp? && Enabled(states[j], steps[j])
    requires CacheAnswer(states[j], states[j].inflight[steps[j].id]).Some?
    ensures var p := states[j].inflight[steps[j].id];
      var k := KeyFor(p.req, p.zone);
      && EntryOk(c, states, steps, j, k, states[j].cache[k])
      && forall i :: 0 <= i < j && CachedFrom(c, states, steps, i, k, states[j].cache[k]) ==>
           var hit := Asked(CacheAnswer(states[j], p).value).qclass;
           && hit == ClassAsked(states, steps, i)
           && (hit == Asked(p.req).qclass <==> ClassAsked(states, steps, i) == Asked(p.req).qclass)
  {
    var origin := HitOrigin(c, states, steps, j);
    var p := states[j].inflight[steps[j].id];
    var k := KeyFor(p.req, p.zone);
    var e := states[j].cache[k];
    ServedContent(e, p.now);
    forall i | 0 <= i < j && CachedFrom(c, states, steps, i, k, e)
      ensures Asked(CacheAnswer(states[j], p).value).qclass == ClassAsked(states, steps, i)
    {
      EntryClass(c, states, steps, i, k, e);
    }
  }

  /** The class asked for by the query central decides on at step `i`. */
  function ClassAsked(states: seq<State>, steps: seq<Step>, i: nat): nat
    requires i < |steps| <= |states| && steps[i].Decide? && Enabled(states[i], steps[i])
  {
    Asked(states[i].inflight[steps[i].id].req).qclass
  }

  lemma EntryClass(c: Setup, states: seq<State>, steps: seq<Step>, i: nat, k: Key, e: Entry)
    requires |states| == |steps| + 1 && CachedFrom(c, states, steps, i, k, e)
    ensures Asked(e.msg).qclass == ClassAsked(states, steps, i)
  {
    var q := states[i].inflight[steps[i].id];
    QueryKeepsQuestion(c, q);
    AnswerMatchesKey(Query(c, q), e.msg);
  }

  // ---------------------------------------------------------------------
  // The miss path, and whose zone it was
  // ---------------------------------------------------------------------

  /**
   In every run, an answer passed on after an exchange is central's own to this very query:
   decided after the query arrived and read the clock, with exactly its zone declared.
   */
  lemma DeliveryExplained(c: Setup, states: seq<State>, steps: seq<Step>, j: nat)
    requires Configured(c) && Run(c, states, steps)
    requires j < |steps| && steps[j].Deliver? && Enabled(states[j], steps[j])
    ensures var id := steps[j].id;
      var p := states[j].inflight[id];
      && Ednszone.GetZone(Query(c, p), c.code) == p.zone
      && exists a, i :: 0 <= a < i < j && Tracked(c, states, steps, a, j, id, p)
           && AnsweredAt(c, states, steps, i, id, p.req, p.zone, p.now, p.reply)
  {
    RunInv(c, states, steps, j);
    var p := states[j].inflight[steps[j].id];
    assert PhaseOk(c, states, steps, j, steps[j].id, p);
    Ednszone.OutboundRoundTrip(p.req, c.code, p.zone);
    var a, i := ReplyOrigin(c, states, steps, j, steps[j].id, p);
  }

  /** Since the clock reading of `p`, every snapshot in force decided `d` for it. */
  ghost predicate SettledSince(c: Setup, states: seq<State>, j: nat, p: Phase, d: Central.Decision)
    requires j <= |states| && !p.Resolved?
  {
    forall i :: 0 <= i < j && states[i].now >= p.now ==> Policy(c, states[i].registry, p) == d
  }

  /** The reply of step `i` to the query of `p` is exactly what decision `d` produces. */
  ghost predicate ProducedBy(c: Setup, steps: seq<Step>, i: nat, p: Phase, d: Central.Decision)
    requires i < |steps| && steps[i].Decide? && p.Replied?
  {
    match d
    case PassThrough => p.reply == steps[i].downstream
    case AnswerGateway(gw) => p.reply == Central.GatewayReply(c.central, Query(c, p), gw)
    case ServFail => IsServFail(p.reply)
  }

  /** The miss path follows the policy without delay: only decisions since the clock reading matter. */
  lemma DeliveryFollowsPolicy(c: Setup, states: seq<State>, steps: seq<Step>, j: nat, d: Central.Decision)
    requires Configured(c) && Run(c, states, steps)
    requires j < |steps| && steps[j].Deliver? && Enabled(states[j], steps[j])
    requires SettledSince(c, states, j, states[j].inflight[steps[j].id], d)
    ensures var id := steps[j].id;
      var p := states[j].inflight[id];
      exists i :: 0 <= i < j && AnsweredAt(c, states, steps, i, id, p.req, p.zone, p.now, p.reply)
        && ProducedBy(c, steps, i, p, d)
  {
    RunInv(c, states, steps, j);
    var p := states[j].inflight[steps[j].id];
    assert PhaseOk(c, states, steps, j, steps[j].id, p);
    var a, i := ReplyOrigin(c, states, steps, j, steps[j].id, p);
    var q := Sent(p.req, p.zone, p.now);
    assert Query(c, q) == Query(c, p);
    assert Policy(c, states[i].registry, q) == d;
    assert ProducedBy(c, steps, i, p, d);
  }

  /** The reply the server makes of the handler's SERVFAIL return code. */
  function ServFailTo(req: Msg): Msg {
    SetReply(EMPTY_MSG, req).(rcode := RCODE_SERVFAIL)
  }

  /** The step ends a query without an answer: its exchange failed, or brought one to another question. */
  predicate Fails(c: Setup, s: State, step: Step)
    requires Enabled(s, step)
  {
    || step.Fail?
    || (step.Deliver? && var p := s.inflight[step.id]; !AnswersQuestion(Query(c, p), p.reply))
  }

  /** What a step writes to a client: a hit, an answer delivered after an exchange, or SERVFAIL. */
  function Answer(c: Setup, s: State, step: Step): Option<Msg>
    requires Enabled(s, step)
  {
    match step
    case LookUp(id) =>
      var p := s.inflight[id];
      if CacheAnswer(s, p).Some? then Some(Written(s, p)) else None
    case Deliver(id, _) =>
      var p := s.inflight[id];
      Some(if Fails(c, s, step) then ServFailTo(p.req) else ReplyKeepingRcode(p.reply, p.req))
    case Fail(id) => Some(ServFailTo(s.inflight[id].req))
    case _ => None
  }

  /** Everything written to a client is a reply to its own query: its id and question, and the response flag. */
  lemma AnswerAddressed(c: Setup, s: State, step: Step)
    requires Enabled(s, step) && Answer(c, s, step).Some?
    ensures var req, m := s.inflight[step.id].req, Answer(c, s, step).value;
      && m.response && m.id == req.id && m.opcode == req.opcode
      && (req.question != [] ==> m.question == [req.question[0]])
  {
  }

  /** Step `j` writes something for the query `id`. */
  ghost predicate AnswersTo(c: Setup, states: seq<State>, steps: seq<Step>, j: nat, id: nat)
    requires j < |steps| < |states|
  {
    Enabled(states[j], steps[j]) && Answer(c, states[j], steps[j]).Some? && steps[j].id == id
  }

  /** Something is written for a query exactly when the query leaves. */
  lemma LeavesWhenAnswered(c: Setup, s: State, step: Step, id: nat)
    requires Enabled(s, step) && id in s.inflight
    ensures id !in Next(c, s, step).inflight <==> Answer(c, s, step).Some? && step.id == id
  {
  }

  /** In every run, a query stays in flight exactly as long as nothing has been written for it. */
  lemma {:induction false} AnsweredOnce(c: Setup, states: seq<State>, steps: seq<Step>, a: nat, n: nat, id: nat)
    requires Run(c, states, steps) && a < n < |states| && steps[a].Arrive? && steps[a].id == id
    ensures InFlight(states, a, n, id) <==> forall j :: a < j < n ==> !AnswersTo(c, states, steps, j, id)
  {
    assert Stepped(c, states, steps, a);
    if n > a + 1 {
      AnsweredOnce(c, states, steps, a, n - 1, id);
      assert Stepped(c, states, steps, n - 1);
      if id in states[n - 1].inflight {
        LeavesWhenAnswered(c, states[n - 1], steps[n - 1], id);
      }
      assert InFlight(states, a, n, id) <==> InFlight(states, a, n - 1, id) && id in states[n].inflight;
      assert AnswersTo(c, states, steps, n - 1, id) ==> id in states[n - 1].inflight;
    }
  }

  lemma DeliveryDecided(c: Setup, states: seq<State>, steps: seq<Step>, i: nat, id: nat, p: Phase)
    requires |states| == |steps| + 1 && p.Replied? && ZoneOk(p.zone)
    requires AnsweredAt(c, states, steps, i, id, p.req, p.zone, p.now, p.reply)
    ensures Decided(c, states, steps, i, p, ReplyKeepingRcode(p.reply, p.req))
  {
    Ednszone.OutboundRoundTrip(p.req, c.code, p.zone);
    ReplyKeepsContent(p.reply, p.req);
  }

  /** A delivery that does not fail writes the content of central's reply to that query. */
  lemma DeliveryRests(c: Setup, states: seq<State>, steps: seq<Step>, j: nat)
    requires Configured(c) && Run(c, states, steps)
    requires j < |steps| && steps[j].Deliver? && Enabled(states[j], steps[j])
    ensures var p := states[j].inflight[steps[j].id];
      exists i :: 0 <= i < j && Decided(c, states, steps, i, p, ReplyKeepingRcode(p.reply, p.req))
  {
    RunInv(c, states, steps, j);
    var p := states[j].inflight[steps[j].id];
    assert PhaseOk(c, states, steps, j, steps[j].id, p);
    var a, i := ReplyOrigin(c, states, steps, j, steps[j].id, p);
    DeliveryDecided(c, states, steps, i, steps[j].id, p);
  }

  lemma HitRests(c: Setup, states: seq<State>, steps: seq<Step>, j: nat)
    requires Configured(c) && Run(c, states, steps)
    requires j < |steps| && steps[j].LookUp? && Enabled(states[j], steps[j])
    requires CacheAnswer(states[j], states[j].inflight[steps[j].id]).Some?
    ensures var p := states[j].inflight[steps[j].id];
      exists i :: 0 <= i < j && Decided(c, states, steps, i, p, Written(states[j], p))
  {
    HitExplained(c, states, steps, j);
  }

  /**
   In every run, everything written to a client is a failure without records, or rests on a
   decision of central for its name, type and zone.
   */
  lemma AnswerDecided(c: Setup, states: seq<State>, steps: seq<Step>, j: nat)
    requires Configured(c) && Run(c, states, steps)
    requires j < |steps| && Enabled(states[j], steps[j]) && Answer(c, states[j], steps[j]).Some?
    ensures var p, m := states[j].inflight[steps[j].id], Answer(c, states[j], steps[j]).value;
      && !p.Resolved? && ZoneOk(p.zone)
      && if Fails(c, states[j], steps[j]) then IsServFail(m)
         else (exists i :: 0 <= i < j && Decided(c, states, steps, i, p, m))
  {
    var p := states[j].inflight[steps[j].id];
    assert ZoneOk(p.zone) by {
      RunInv(c, states, steps, j);
      assert PhaseOk(c, states, steps, j, steps[j].id, p);
    }
    match steps[j]
    case LookUp(_) => HitRests(c, states, steps, j);
    case Deliver(_, _) => DeliveryRests(c, states, steps, j);
    case _ =>
  }

  /**
   Every answer of a run, cached or not, is what central's decision calls for once that
   decision has been settled for 30 seconds, or SERVFAIL without records if the exchange
   failed.
   */
  lemma EveryAnswerFollowsPolicy(c: Setup, states: seq<State>, steps: seq<Step>, j: nat, d: Central.Decision)
    requires Configured(c) && Run(c, states, steps) && c.code == c.central.identity.code
    requires j < |steps| && Enabled(states[j], steps[j]) && Answer(c, states[j], steps[j]).Some?
    requires !states[j].inflight[steps[j].id].Resolved?
    requires Settled(c, states, j, states[j].inflight[steps[j].id], d)
    ensures var p, m := states[j].inflight[steps[j].id], Answer(c, states[j], steps[j]).value;
      if Fails(c, states[j], steps[j]) then IsServFail(m)
      else (exists i :: 0 <= i < j && Decided(c, states, steps, i, p, m)
              && CalledFor(d, Asked(p.req), steps[i].downstream, m))
  {
    AnswerDecided(c, states, steps, j);
    var p, m := states[j].inflight[steps[j].id], Answer(c, states[j], steps[j]).value;
    if !Fails(c, states[j], steps[j]) {
      var i :| 0 <= i < j && Decided(c, states, steps, i, p, m);
      DecidedFollows(c, states, steps, i, j, p, d, m);
    }
  }

  function PodEvents(steps: seq<Step>): seq<Podzone.Event> {
    if steps == [] then []
    else
      var n := |steps| - 1;
      PodEvents(steps[..n]) + if steps[n].PodEvent? then [steps[n].event] else []
  }

  /** The index of a run is the replay of its pod events. */
  lemma {:induction false} RunPods(c: Setup, states: seq<State>, steps: seq<Step>, n: nat)
    requires Run(c, states, steps) && n < |states| && c.mode.K8s?
    ensures states[n].pods == Podzone.Replay(PodEvents(steps[..n]), c.mode.zoneLabel)
  {
    if n > 0 {
      RunPods(c, states, steps, n - 1);
      assert Stepped(c, states, steps, n - 1);
      assert steps[..n][..n - 1] == steps[..n - 1];
      var before := PodEvents(steps[..n - 1]);
      if steps[n - 1].PodEvent? {
        assert (before + [steps[n - 1].event])[..|before|] == before;
      } else {
        assert PodEvents(steps[..n]) == before;
      }
    }
  }

  /** Before step `a`, step `e` is the latest report about the pod: nothing is heard about it after. */
  ghost predicate LatestStep(steps: seq<Step>, a: nat, e: nat, pod: Podzone.Pod)
    requires a <= |steps|
  {
    && e < a && steps[e] == PodEvent(Podzone.Upserted(Podzone.PodObj(pod)))
    && forall f :: e < f < a && steps[f].PodEvent? ==> !Podzone.About(steps[f].event, pod.key)
  }

  ghost predicate LastReported(steps: seq<Step>, a: nat, pod: Podzone.Pod)
    requires a <= |steps|
  {
    exists e: nat :: LatestStep(steps, a, e, pod)
  }

  /** The reports known from a run's pod events are the latest ones among its steps. */
  lemma {:induction false} KnownInRun(steps: seq<Step>, a: nat, key: Podzone.PodKey, pod: Podzone.Pod)
    requires a <= |steps|
    ensures var known := Podzone.Known(PodEvents(steps[..a]));
      key in known && known[key] == pod <==> pod.key == key && LastReported(steps, a, pod)
  {
    if a > 0 {
      var before, step := PodEvents(steps[..a - 1]), steps[a - 1];
      KnownInRun(steps, a - 1, key, pod);
      LastReportedStep(steps, a - 1, a, pod);
      assert steps[..a][..a - 1] == steps[..a - 1];
      if step.PodEvent? {
        assert (before + [step.event])[..|before|] == before;
      } else {
        assert PodEvents(steps[..a]) == before;
      }
    }
  }

  lemma LastReportedStep(steps: seq<Step>, n: nat, next: nat, pod: Podzone.Pod)
    requires n < |steps| && next == n + 1
    ensures LastReported(steps, next, pod) <==>
      || steps[n] == PodEvent(Podzone.Upserted(Podzone.PodObj(pod)))
      || (LastReported(steps, n, pod) && (steps[n].PodEvent? ==> !Podzone.About(steps[n].event, pod.key)))
  {
    if e: nat :| LatestStep(steps, next, e, pod) {
      if e != n {
        assert LatestStep(steps, n, e, pod);
      }
    }
    if steps[n] == PodEvent(Podzone.Upserted(Podzone.PodObj(pod))) {
      assert LatestStep(steps, next, n, pod);
    }
    if e: nat :| LatestStep(steps, n, e, pod) {
      assert (steps[n].PodEvent? ==> !Podzone.About(steps[n].event, pod.key)) ==> LatestStep(steps, next, e, pod);
    }
  }

  /** The query that arrived at step `a` came from the address of a pod whose latest report is eligible for zone `z`. */
  ghost predicate CameFrom(c: Setup, steps: seq<Step>, a: nat, z: string)
    requires c.mode.K8s? && a < |steps|
  {
    && steps[a].Arrive? && steps[a].src.Some?
    && exists pod :: LastReported(steps, a, pod) && Podzone.Eligible(pod, c.mode.zoneLabel, steps[a].src.value, z)
  }

  /**
   Whose zone it was: in every run on Kubernetes, a query in flight with a zone came
   from an address which, when that query itself arrived, some pod's latest report held
   under exactly that zone.
   */
  lemma ZoneIsSources(c: Setup, states: seq<State>, steps: seq<Step>, n: nat, id: nat)
    requires Configured(c) && Run(c, states, steps) && n < |states| && c.mode.K8s?
    requires id in states[n].inflight && states[n].inflight[id].zone.Some?
    ensures var p := states[n].inflight[id];
      exists a :: 0 <= a < n && ArrivedAt(c, states, steps, a, n, id, p.req, p.zone)
        && CameFrom(c, steps, a, p.zone.value)
  {
    RunInv(c, states, steps, n);
    var p := states[n].inflight[id];
    assert PhaseOk(c, states, steps, n, id, p);
    var a :| 0 <= a < n && Tracked(c, states, steps, a, n, id, p);
    RunPods(c, states, steps, a);
    IndexedCameFrom(c, steps, a, p.zone.value);
  }

  lemma IndexedCameFrom(c: Setup, steps: seq<Step>, a: nat, z: string)
    requires c.mode.K8s? && a < |steps| && steps[a].Arrive? && steps[a].src.Some?
    requires var byIP := Podzone.Replay(PodEvents(steps[..a]), c.mode.zoneLabel).byIP;
      steps[a].src.value in byIP && byIP[steps[a].src.value] == z
    ensures CameFrom(c, steps, a, z)
  {
    var events := PodEvents(steps[..a]);
    Podzone.NoDepartedTenant(events, c.mode.zoneLabel, steps[a].src.value);
    var i: nat, pod :| Podzone.Latest(events, i, pod) && Podzone.Eligible(pod, c.mode.zoneLabel, steps[a].src.value, z);
    Podzone.KnownIsLatest(events, pod.key, pod);
    KnownInRun(steps, a, pod.key, pod);
  }

  /** Of two arrivals of one id, the query of the first is no longer in flight at the second. */
  lemma OneArrival(c: Setup, states: seq<State>, steps: seq<Step>, a: nat, b: nat, n: nat, id: nat)
    requires Run(c, states, steps) && a < n < |states| && b < n
    requires steps[a].Arrive? && steps[a].id == id && InFlight(states, a, n, id)
    requires steps[b].Arrive? && steps[b].id == id
    ensures b <= a
  {
    assert Stepped(c, states, steps, b);
  }

  /** A query has one arrival, and its zone is what the index said then. */
  lemma ZoneFromArrival(c: Setup, states: seq<State>, steps: seq<Step>, a: nat, n: nat, id: nat)
    requires Configured(c) && Run(c, states, steps) && a < n < |states|
    requires steps[a].Arrive? && steps[a].id == id && InFlight(states, a, n, id)
    ensures id in states[n].inflight
    ensures ArrivedAt(c, states, steps, a, n, id, states[n].inflight[id].req, states[n].inflight[id].zone)
  {
    RunInv(c, states, steps, n);
    var p := states[n].inflight[id];
    assert PhaseOk(c, states, steps, n, id, p);
    var b :| 0 <= b < n && Tracked(c, states, steps, b, n, id, p);
    OneArrival(c, states, steps, a, b, n, id);
    OneArrival(c, states, steps, b, a, n, id);
  }

  /**
   In VM mode a query carries the machine's own zone exactly when its source is an address
   other than the node's, and none otherwise.
   */
  lemma VmZone(c: Setup, states: seq<State>, steps: seq<Step>, n: nat, id: nat)
    requires Configured(c) && Run(c, states, steps) && n < |states| && c.mode.Vm? && id in states[n].inflight
    ensures var p := states[n].inflight[id];
      exists a :: 0 <= a < n && ArrivedAt(c, states, steps, a, n, id, p.req, p.zone)
        && p.zone == if steps[a].src.Some? && steps[a].src != c.nodeIP then Some(c.mode.zone) else None
  {
    RunInv(c, states, steps, n);
    var p := states[n].inflight[id];
    assert PhaseOk(c, states, steps, n, id, p);
    var a :| 0 <= a < n && Tracked(c, states, steps, a, n, id, p);
    assert ArrivedAt(c, states, steps, a, n, id, p.req, p.zone);
  }

  /**
   In both modes, a query whose source is unparseable or the node's own address carries no
   zone, nor does one that arrives before the watcher is ready; central reads no declaration
   from it and passes it through.
   */
  lemma UnknownIsUndeclared(c: Setup, states: seq<State>, steps: seq<Step>, a: nat, n: nat, id: nat)
    requires Configured(c) && Run(c, states, steps) && a < n < |states|
    requires steps[a].Arrive? && steps[a].id == id && InFlight(states, a, n, id)
    requires steps[a].src.None? || steps[a].src == c.nodeIP || (c.mode.K8s? && !states[a].ready)
    ensures var p := states[n].inflight[id];
      && p.zone == None
      && Ednszone.GetZone(Query(c, p), c.code) == None
      && (c.code == c.central.identity.code ==> forall reg :: Policy(c, reg, p) == Central.PassThrough)
  {
    ZoneFromArrival(c, states, steps, a, n, id);
    var p := states[n].inflight[id];
    Ednszone.OutboundRoundTrip(p.req, c.code, p.zone);
  }

  // ---------------------------------------------------------------------
  // The steps are those of the handler
  // ---------------------------------------------------------------------

  /** The state once a query has arrived and read the clock, with nothing in between. */
  function Begun(c: Setup, s: State, id: nat, req: Msg, src: Option<Addr>): State
    requires id !in s.inflight
  {
    Next(c, Next(c, s, Arrive(id, req, src)), ReadClock(id))
  }

  lemma BegunIs(c: Setup, s: State, id: nat, req: Msg, src: Option<Addr>)
    requires id !in s.inflight
    ensures Begun(c, s, id, req, src) == s.(inflight := s.inflight[id := Clocked(req, ZoneAt(c, s, src), s.now)])
  {
    var p := Resolved(req, ZoneAt(c, s, src));
    var q := Clocked(req, ZoneAt(c, s, src), s.now);
    assert s.inflight[id := p][id := q] == s.inflight[id := q];
  }

  /**
   Run without interference, a query's steps do what the agent's ServeDNS does. On a
   hit: the same answer, and nothing else changes.
   */
  lemma HitStepsAreServeDNS(c: Setup, s: State, id: nat, req: Msg, src: Option<Addr>, upstream: Upstream,
                            lru: Lru.Lru<Key, Slot>)
    requires id !in s.inflight
    requires Lookup(s.cache, KeyFor(req, ZoneAt(c, s, src)), s.now).Some?
    ensures var begun := Begun(c, s, id, req, src);
      && AnswerFor(req, ZoneAt(c, s, src), s.now, c.code, upstream, s.cache) == CacheAnswer(begun, begun.inflight[id])
      && Next(c, begun, LookUp(id)) == s
      && KeptAfter(req, ZoneAt(c, s, src), s.now, c.code, upstream, s.cache, lru) == s.cache
  {
    BegunIs(c, s, id, req, src);
    var p := Clocked(req, ZoneAt(c, s, src), s.now);
    assert s.inflight[id := p] - {id} == s.inflight;
  }

  /** On a miss: the state once central has answered. */
  lemma MissReplied(c: Setup, s: State, id: nat, req: Msg, src: Option<Addr>, downstream: Msg)
    requires id !in s.inflight
    requires Lookup(s.cache, KeyFor(req, ZoneAt(c, s, src)), s.now).None?
    ensures var sent := Next(c, Begun(c, s, id, req, src), LookUp(id));
      Enabled(sent, Decide(id, downstream)) && Next(c, sent, Decide(id, downstream)) ==
        s.(inflight := s.inflight[id := MissPhase(c, s, req, src, downstream)])
  {
    MissSent(c, s, id, req, src);
    var p, q := Sent(req, ZoneAt(c, s, src), s.now), MissPhase(c, s, req, src, downstream);
    assert s.inflight[id := p][id := q] == s.inflight[id := q];
  }

  function MissPhase(c: Setup, s: State, req: Msg, src: Option<Addr>, downstream: Msg): Phase {
    var zone := ZoneAt(c, s, src);
    var query := Ednszone.Outbound(req, c.code, zone);
    Replied(req, zone, s.now, Central.Reply(c.central, c.transport, query, s.registry, downstream))
  }

  /**
   On a miss the four steps up to central's answer lead to it, and its delivery gives the
   client central's reply if it answers the question, and the cache as the LRU leaves it.
   */
  lemma MissStepsAreServeDNS(c: Setup, s: State, id: nat, req: Msg, src: Option<Addr>, downstream: Msg,
                             lru: Lru.Lru<Key, Slot>)
    requires id !in s.inflight
    requires Lookup(s.cache, KeyFor(req, ZoneAt(c, s, src)), s.now).None?
    ensures
      var p := MissPhase(c, s, req, src, downstream);
      var upstream := map[Query(c, p) := p.reply];
      var sent := Next(c, Begun(c, s, id, req, src), LookUp(id));
      && Enabled(sent, Decide(id, downstream))
      && var replied := Next(c, sent, Decide(id, downstream));
         && replied == s.(inflight := s.inflight[id := p])
         && AnswerFor(req, p.zone, s.now, c.code, upstream, s.cache) ==
              (if AnswersQuestion(Query(c, p), p.reply) then Some(p.reply) else None)
         && Next(c, replied, Deliver(id, Lru.Evicted(lru, KeyFor(req, p.zone)))) ==
              s.(cache := KeptAfter(req, p.zone, s.now, c.code, upstream, s.cache, lru))
  {
    MissReplied(c, s, id, req, src, downstream);
    MissDelivered(c, s, id, MissPhase(c, s, req, src, downstream), lru);
  }

  /** When the exchange fails: no answer, and the state as it was. */
  lemma FailStepsAreServeDNS(c: Setup, s: State, id: nat, req: Msg, src: Option<Addr>, upstream: Upstream,
                             lru: Lru.Lru<Key, Slot>)
    requires id !in s.inflight
    requires Lookup(s.cache, KeyFor(req, ZoneAt(c, s, src)), s.now).None?
    requires Ednszone.Outbound(req, c.code, ZoneAt(c, s, src)) !in upstream
    ensures var sent := Next(c, Begun(c, s, id, req, src), LookUp(id));
      && Enabled(sent, Fail(id)) && Next(c, sent, Fail(id)) == s
      && AnswerFor(req, ZoneAt(c, s, src), s.now, c.code, upstream, s.cache) == None
      && KeptAfter(req, ZoneAt(c, s, src), s.now, c.code, upstream, s.cache, lru) == s.cache
  {
    MissSent(c, s, id, req, src);
    assert s.inflight[id := Sent(req, ZoneAt(c, s, src), s.now)] - {id} == s.inflight;
  }

  lemma MissDelivered(c: Setup, s: State, id: nat, p: Phase, lru: Lru.Lru<Key, Slot>)
    requires id !in s.inflight && p.Replied? && p.now == s.now
    requires Lookup(s.cache, KeyFor(p.req, p.zone), s.now).None?
    ensures var upstream := map[Query(c, p) := p.reply];
      && AnswerFor(p.req, p.zone, s.now, c.code, upstream, s.cache) ==
           (if AnswersQuestion(Query(c, p), p.reply) then Some(p.reply) else None)
      && Next(c, s.(inflight := s.inflight[id := p]), Deliver(id, Lru.Evicted(lru, KeyFor(p.req, p.zone)))) ==
           s.(cache := KeptAfter(p.req, p.zone, s.now, c.code, upstream, s.cache, lru))
  {
    CacheAfterIsKept(c, s, p, lru);
    assert s.inflight[id := p] - {id} == s.inflight;
  }

  lemma MissSent(c: Setup, s: State, id: nat, req: Msg, src: Option<Addr>)
    requires id !in s.inflight
    requires Lookup(s.cache, KeyFor(req, ZoneAt(c, s, src)), s.now).None?
    ensures Next(c, Begun(c, s, id, req, src), LookUp(id)) ==
      s.(inflight := s.inflight[id := Sent(req, ZoneAt(c, s, src), s.now)])
  {
    BegunIs(c, s, id, req, src);
    var zone := ZoneAt(c, s, src);
    assert s.inflight[id := Clocked(req, zone, s.now)][id := Sent(req, zone, s.now)] ==
      s.inflight[id := Sent(req, zone, s.now)];
  }

  lemma CacheAfterIsKept(c: Setup, s: State, p: Phase, lru: Lru.Lru<Key, Slot>)
    requires p.Replied? && Lookup(s.cache, KeyFor(p.req, p.zone), p.now).None?
    ensures var upstream := map[Query(c, p) := p.reply];
      && CacheAfter(c, s, p, Lru.Evicted(lru, KeyFor(p.req, p.zone))) ==
           KeptAfter(p.req, p.zone, p.now, c.code, upstream, s.cache, lru)
      && AnswerFor(p.req, p.zone, p.now, c.code, upstream, s.cache) ==
           (if AnswersQuestion(Query(c, p), p.reply) then Some(p.reply) else None)
  {
    UsableIsReply(c, p);
    var k := KeyFor(p.req, p.zone);
    assert AnswersQuestion(Query(c, p), p.reply) && Cacheable(p.reply) ==>
      Stored(s.cache, k, p.reply, p.now) - Lru.Evicted(lru, k) == LruStored(s.cache, lru, k, EntryFor(p.reply, p.now));
  }

  lemma UsableIsReply(c: Setup, p: Phase)
    requires p.Replied?
    ensures Usable(p.req, p.zone, c.code, map[Query(c, p) := p.reply]) ==
      if AnswersQuestion(Query(c, p), p.reply) then Some(p.reply) else None
  {
  }
}
