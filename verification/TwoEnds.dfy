/** The two ends agree: on which zone names exist, and on what a query is answered with. */
module TwoEnds {
  import opened Wrappers
  import opened Text
  import opened Dns
  import Ednszone
  import Podzone
  import Spiffezone
  import Registry
  import Central
  import opened Agent
  import opened Zonecache
  import opened System

  /**
   A label value is accepted by the watcher exactly when the registry accepts a
   SPIFFE ID path built from it, and then both take it for the same zone.
   */
  lemma LabelAgreement(pod: Podzone.Pod, zoneLabel: string, rest: string, names: seq<string>)
    requires !pod.hostNetwork && pod.podIP.Parsed? && zoneLabel in pod.labels
    requires '/' !in pod.labels[zoneLabel] && (rest == "" || rest[0] == '/')
    ensures var entry := Registry.Entry("/zone/" + pod.labels[zoneLabel] + rest, names);
      var claim := Podzone.Qualify(pod, zoneLabel);
      Registry.EntryZone(entry) == if claim.Some? then Some(claim.value.zone) else None
  {
    var z := pod.labels[zoneLabel];
    var path := "/zone/" + z + rest;
    assert TrimPrefixChar(path, '/') == "zone/" + z + rest;
    Spiffezone.SplitShape(z, rest);
  }

  /** A query spells a registered name in any case and with the trailing dot; both normalize alike. */
  lemma QueryMeetsRegistration(registered: string, asked: string)
    requires registered == "" || registered[|registered| - 1] != '.'
    requires ToLower(asked) == ToLower(registered) + "."
    ensures Registry.Normalize(asked) == Registry.Normalize(registered)
  {
    var n := |asked| - 1;
    assert ToLower(asked)[n] == '.';
    assert LowerChar(asked[n]) == '.';
    assert ToLower(asked[..n]) == ToLower(asked)[..n];
    assert TrimSuffixChar(asked, '.') == asked[..n];
  }

  /** The name is registered, under zone z' and no other. */
  ghost predicate RegisteredOnlyIn(entries: seq<Registry.Entry>, name: string, z': string) {
    && (exists e :: e in entries && Registry.Registers(e, name, z'))
    && (forall e, y :: e in entries && Registry.Registers(e, name, y) ==> y == z')
  }

  /**
   End to end: a pod labelled z asks for a name registered only under z'. With equal
   codes and an authorized agent the query passes through exactly when z == z', and
   otherwise it gets the gateway of z', or SERVFAIL if z' has none.
   */
  lemma EndToEnd(c: Setup, s: State, events: seq<Podzone.Event>, key: Podzone.PodKey, src: Addr, z: string,
                 req: Msg, entries: seq<Registry.Entry>, z': string)
    requires c.mode.K8s? && c.code == c.central.identity.code
    requires Central.AuthorizedPeer(c.central.identity, c.transport)
    requires s.ready && s.pods == Podzone.Replay(events, c.mode.zoneLabel)
    requires key in Podzone.Known(events)
    requires Podzone.Eligible(Podzone.Known(events)[key], c.mode.zoneLabel, src, z)
    requires key in s.pods.byPod && Podzone.Finds(s.pods, Podzone.Known(events), c.mode.zoneLabel, key)
    requires c.nodeIP != Some(src)
    requires s.registry.Some? && Registry.IsSnapshot(entries, s.registry.value)
    requires Asked(req).qtype in {1, 28} && RegisteredOnlyIn(entries, Asked(req).name, z')
    ensures ZoneAt(c, s, Some(src)) == Some(z)
    ensures Policy(c, s.registry, Resolved(req, ZoneAt(c, s, Some(src)))) ==
      if z == z' then Central.PassThrough
      else if z' in c.central.zones then Central.AnswerGateway(c.central.zones[z'])
      else Central.ServFail
  {
    PodFindsItsZone(c, s, events, key, src, z);
    Registry.LookupMeaning(entries, s.registry.value, Asked(req).name, z');
    PolicyBetween(c, s.registry, req, z, z');
  }

  lemma PodFindsItsZone(c: Setup, s: State, events: seq<Podzone.Event>, key: Podzone.PodKey, src: Addr, z: string)
    requires c.mode.K8s? && c.nodeIP != Some(src)
    requires s.ready && s.pods == Podzone.Replay(events, c.mode.zoneLabel)
    requires key in Podzone.Known(events)
    requires Podzone.Eligible(Podzone.Known(events)[key], c.mode.zoneLabel, src, z)
    requires key in s.pods.byPod && Podzone.Finds(s.pods, Podzone.Known(events), c.mode.zoneLabel, key)
    ensures ZoneAt(c, s, Some(src)) == Some(z) && Ednszone.ValidZone(z)
  {
    assert Podzone.ClaimOf(Podzone.Known(events), key, c.mode.zoneLabel) == Some(Podzone.Claim(src, z));
  }

  /** What central does with an authorized agent's query from zone z for a name in z'. */
  lemma PolicyBetween(c: Setup, reg: Option<Registry.Snapshot>, req: Msg, z: string, z': string)
    requires c.code == c.central.identity.code && Ednszone.ValidZone(z)
    requires Central.AuthorizedPeer(c.central.identity, c.transport)
    requires Asked(req).qtype in {1, 28}
    requires Registry.StoreLookup(reg, Asked(req).name) == Some(z')
    ensures Policy(c, reg, Resolved(req, Some(z))) ==
      if z == z' then Central.PassThrough
      else if z' in c.central.zones then Central.AnswerGateway(c.central.zones[z'])
      else Central.ServFail
  {
    var p := Resolved(req, Some(z));
    QueryKeepsQuestion(c, p);
    Ednszone.OutboundRoundTrip(req, c.code, Some(z));
    Central.PeerIff(c.central.identity, c.transport);
    Central.ActionBetween(c.central, c.transport, Query(c, p), reg, z, z');
  }

  /** From 30 seconds before the clock reading of `p` on, the registry placed its name in zone z'. */
  ghost predicate PlacedIn(states: seq<State>, j: nat, p: Phase, z': string)
    requires j <= |states| && !p.Resolved?
  {
    forall i :: 0 <= i < j && states[i].now > p.now - MAX_TTL ==>
      Registry.StoreLookup(states[i].registry, Asked(p.req).name) == Some(z')
  }

  /** `m` gives away nothing of zone z' but its gateway; without a gateway it is a failure. */
  predicate Isolated(c: Setup, asked: Question, z': string, m: Msg) {
    if z' in c.central.zones then OnlyGateway(m, asked, c.central.zones[z']) else IsServFail(m)
  }

  /**
   Zone isolation over every answer of a run. A query carrying zone z asks for an address
   of a name that the registry has placed in another zone z' for 30 seconds. Whatever is
   then written to the client, from the cache or after an exchange, holds no record but
   the gateway of z', and is SERVFAIL without records if z' has none or the exchange
   failed. On Kubernetes the query came from an address that a pod labelled z held when
   that query arrived.
   */
  lemma Isolation(c: Setup, states: seq<State>, steps: seq<Step>, j: nat, z: string, z': string)
    requires Configured(c) && Run(c, states, steps) && c.code == c.central.identity.code
    requires Central.AuthorizedPeer(c.central.identity, c.transport)
    requires j < |steps| && Enabled(states[j], steps[j]) && Answer(c, states[j], steps[j]).Some?
    requires !states[j].inflight[steps[j].id].Resolved? && states[j].inflight[steps[j].id].zone == Some(z)
    requires Asked(states[j].inflight[steps[j].id].req).qtype in {1, 28}
    requires z != z' && PlacedIn(states, j, states[j].inflight[steps[j].id], z')
    ensures var p, m := states[j].inflight[steps[j].id], Answer(c, states[j], steps[j]).value;
      if Fails(c, states[j], steps[j]) then IsServFail(m) else Isolated(c, Asked(p.req), z', m)
    ensures c.mode.K8s? ==> var id := steps[j].id;
      var p := states[j].inflight[id];
      exists a :: 0 <= a < j && ArrivedAt(c, states, steps, a, j, id, p.req, p.zone) && CameFrom(c, steps, a, z)
  {
    var p := states[j].inflight[steps[j].id];
    AnswerDecided(c, states, steps, j);
    var d := if z' in c.central.zones then Central.AnswerGateway(c.central.zones[z']) else Central.ServFail;
    forall i | 0 <= i < j && states[i].now > p.now - MAX_TTL ensures Policy(c, states[i].registry, p) == d {
      PolicyBetween(c, states[i].registry, p.req, z, z');
      SameAskedIff(p.req, p.req);
      PolicyDependsOn(c, states[i].registry, p, Resolved(p.req, p.zone));
    }
    EveryAnswerFollowsPolicy(c, states, steps, j, d);
    if c.mode.K8s? {
      ZoneIsSources(c, states, steps, j, steps[j].id);
    }
  }

  /**
   At step `a` a query arrives from the address in the latest report of a pod eligible for
   zone z; the index has synced and the address is not the node's.
   */
  ghost predicate ArrivesFromPod(c: Setup, states: seq<State>, steps: seq<Step>, a: nat, pod: Podzone.Pod, z: string)
    requires c.mode.K8s? && |states| == |steps| + 1 && a < |steps|
  {
    && steps[a].Arrive? && steps[a].src.Some? && steps[a].src != c.nodeIP && states[a].ready
    && LastReported(steps, a, pod) && Podzone.Eligible(pod, c.mode.zoneLabel, steps[a].src.value, z)
  }

  /**
   Isolation of a pod: no assumption on what the query carries. In every run whose pod
   events were harmless up to the arrival, whatever is written for the query of a pod
   labelled z, about a name the registry has placed in another zone z' for 30 seconds, is
   isolated.
   */
  lemma PodIsolation(c: Setup, states: seq<State>, steps: seq<Step>, a: nat, j: nat,
                     pod: Podzone.Pod, z: string, z': string)
    requires Configured(c) && Run(c, states, steps) && c.mode.K8s? && c.code == c.central.identity.code
    requires Central.AuthorizedPeer(c.central.identity, c.transport)
    requires a < j < |steps| && ArrivesFromPod(c, states, steps, a, pod, z)
    requires Podzone.AllHarmless(PodEvents(steps[..a]), c.mode.zoneLabel)
    requires Enabled(states[j], steps[j]) && Answer(c, states[j], steps[j]).Some?
    requires steps[j].id == steps[a].id && InFlight(states, a, j, steps[a].id)
    requires !states[j].inflight[steps[j].id].Resolved? && Asked(steps[a].req).qtype in {1, 28}
    requires z != z' && PlacedIn(states, j, states[j].inflight[steps[j].id], z')
    ensures var m := Answer(c, states[j], steps[j]).value;
      if Fails(c, states[j], steps[j]) then IsServFail(m) else Isolated(c, Asked(steps[a].req), z', m)
  {
    ZoneFromArrival(c, states, steps, a, j, steps[a].id);
    ArrivalFinds(c, states, steps, a, pod, z);
    Isolation(c, states, steps, j, z, z');
  }

  /** After harmless events the index gives an arriving pod its own zone. */
  lemma ArrivalFinds(c: Setup, states: seq<State>, steps: seq<Step>, a: nat, pod: Podzone.Pod, z: string)
    requires Configured(c) && Run(c, states, steps) && c.mode.K8s? && a < |steps|
    requires ArrivesFromPod(c, states, steps, a, pod, z)
    requires Podzone.AllHarmless(PodEvents(steps[..a]), c.mode.zoneLabel)
    ensures ZoneAt(c, states[a], steps[a].src) == Some(z)
  {
    var events := PodEvents(steps[..a]);
    var zoneLabel := c.mode.zoneLabel;
    RunPods(c, states, steps, a);
    Podzone.AlwaysCompleteIff(events, zoneLabel);
    assert Podzone.CompleteAt(events, zoneLabel, |events|) && events[..|events|] == events;
    Podzone.ReplaySafe(events, zoneLabel);
    Podzone.CompleteIsRecomputed(states[a].pods, Podzone.Known(events), zoneLabel);
    KnownInRun(steps, a, pod.key, pod);
    assert Podzone.ClaimOf(Podzone.Known(events), pod.key, zoneLabel) == Some(Podzone.Claim(steps[a].src.value, z));
    assert Podzone.ClaimIn(states[a].pods.byIP, Podzone.Claim(steps[a].src.value, z));
  }

  /** Nothing a client attaches changes what central does for it. */
  lemma ClientCannotSteer(c: Setup, reg: Option<Registry.Snapshot>, zone: Option<string>, req: Msg, forged: Msg)
    requires c.code == c.central.identity.code && ZoneOk(zone)
    requires forged == req.(extra := forged.extra)
    ensures Policy(c, reg, Resolved(req, zone)) == Policy(c, reg, Resolved(forged, zone))
  {
    SameAskedIff(req, forged);
    PolicyDependsOn(c, reg, Resolved(req, zone), Resolved(forged, zone));
  }
}
