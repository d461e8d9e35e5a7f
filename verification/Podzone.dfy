/**
 The node's pod index: which zone each local pod IP belongs to (internal/podzone).
 Events arrive in any order, so a reused IP can be added before its old holder is
 deleted.
 */
module Podzone {
  import opened Wrappers
  import opened Dns
  import Ednszone

  datatype PodKey = PodKey(namespace: string, name: string)

  /** The status field holding the pod's IP: empty, unparseable, or an address. */
  datatype PodIP = NoIP | BadIP | Parsed(addr: Addr)

  datatype Pod = Pod(key: PodKey, hostNetwork: bool, podIP: PodIP, labels: map<string, string>)

  /** What the informer may hand to a handler. */
  datatype Obj = PodObj(pod: Pod) | Tombstone(last: Obj) | OtherObj

  datatype Event = Upserted(obj: Obj) | Removed(obj: Obj)

  datatype Claim = Claim(ip: Addr, zone: string)

  /** The mapping a pod's report asks for, if it is one that can be indexed. */
  function Qualify(pod: Pod, zoneLabel: string): (c: Option<Claim>)
    ensures c.Some? ==> Ednszone.ValidZone(c.value.zone)
  {
    if pod.hostNetwork || pod.podIP.NoIP? then None
    else if zoneLabel !in pod.labels || pod.labels[zoneLabel] == "" || !Ednszone.ValidZone(pod.labels[zoneLabel]) then None
    else if pod.podIP.BadIP? then None
    else Some(Claim(pod.podIP.addr, pod.labels[zoneLabel]))
  }

  /** The report of a pod that is to be indexed: off the host network, with `ip`, labelled with the well-formed zone. */
  predicate Eligible(pod: Pod, zoneLabel: string, ip: Addr, zone: string) {
    && !pod.hostNetwork && pod.podIP == Parsed(ip)
    && zoneLabel in pod.labels && pod.labels[zoneLabel] == zone && Ednszone.ValidZone(zone)
  }

  /** The checks of the handler let exactly those reports through, and take address and zone from them. */
  lemma QualifyIff(pod: Pod, zoneLabel: string, ip: Addr, zone: string)
    ensures Qualify(pod, zoneLabel) == Some(Claim(ip, zone)) <==> Eligible(pod, zoneLabel, ip, zone)
  {
  }

  datatype Index = Index(byPod: map<PodKey, Addr>, byIP: map<Addr, string>)

  const EMPTY := Index(map[], map[])

  /** The index after a report that qualifies with `c`, or does not. */
  function Reported(x: Index, key: PodKey, c: Option<Claim>): Index {
    if c.None? then Forgotten(x, key)
    else
      var kept := if key in x.byPod && x.byPod[key] != c.value.ip then x.byIP - {x.byPod[key]} else x.byIP;
      Index(x.byPod[key := c.value.ip], kept[c.value.ip := c.value.zone])
  }

  function Forgotten(x: Index, key: PodKey): Index {
    if key in x.byPod then Index(x.byPod - {key}, x.byIP - {x.byPod[key]}) else x
  }

  /** The pod a delete event names: directly, or inside a tombstone. */
  function RemovedPod(obj: Obj): Option<PodKey> {
    match obj
    case PodObj(pod) => Some(pod.key)
    case Tombstone(PodObj(pod)) => Some(pod.key)
    case _ => None
  }

  function Apply(x: Index, e: Event, zoneLabel: string): Index {
    match e
    case Upserted(PodObj(pod)) => Reported(x, pod.key, Qualify(pod, zoneLabel))
    case Upserted(_) => x
    case Removed(obj) => if RemovedPod(obj).Some? then Forgotten(x, RemovedPod(obj).value) else x
  }

  /** The delete event of a pod: the pod itself, or a tombstone with its last known state. */
  predicate Deletes(obj: Obj, pod: Pod) {
    obj == PodObj(pod) || obj == Tombstone(PodObj(pod))
  }

  /** A delete of either form drops the pod, its entry and its address; anything else changes nothing. */
  lemma DeleteForgets(x: Index, known: map<PodKey, Pod>, zoneLabel: string, obj: Obj)
    ensures var x', known' := Apply(x, Removed(obj), zoneLabel), Learn(known, Removed(obj));
      && (forall pod :: Deletes(obj, pod) ==> known' == known - {pod.key} && Dropped(x, pod.key, x'))
      && ((forall pod :: !Deletes(obj, pod)) ==> known' == known && x' == x)
    ensures !obj.PodObj? ==> Apply(x, Upserted(obj), zoneLabel) == x && Learn(known, Upserted(obj)) == known
  {
    if obj.PodObj? {
      assert Deletes(obj, obj.pod);
    } else if obj.Tombstone? && obj.last.PodObj? {
      assert Deletes(obj, obj.last.pod);
    }
  }

  /** `x'` is `x` without the pod `key` and without the address it was indexed under. */
  predicate Dropped(x: Index, key: PodKey, x': Index) {
    && x'.byPod == x.byPod - {key}
    && (key !in x.byPod ==> x'.byIP == x.byIP)
    && (key in x.byPod ==> x'.byIP == x.byIP - {x.byPod[key]})
  }

  // ---------------------------------------------------------------------
  // Latest reports, and what the index owes them
  // ---------------------------------------------------------------------

  /** Each known pod's latest report: what a reader of the event stream would believe. */
  function Learn(known: map<PodKey, Pod>, e: Event): map<PodKey, Pod> {
    match e
    case Upserted(PodObj(pod)) => known[pod.key := pod]
    case Upserted(_) => known
    case Removed(obj) => if RemovedPod(obj).Some? then known - {RemovedPod(obj).value} else known
  }

  function Known(events: seq<Event>): map<PodKey, Pod> {
    if events == [] then map[] else Learn(Known(events[..|events| - 1]), events[|events| - 1])
  }

  /** The event is about the pod `key`: a report, or a delete in either form. */
  predicate About(e: Event, key: PodKey) {
    || (e.obj.PodObj? && e.obj.pod.key == key)
    || (e.Removed? && e.obj.Tombstone? && e.obj.last.PodObj? && e.obj.last.pod.key == key)
  }

  /** Event `i` is the report `pod`, and no later event is about that pod. */
  ghost predicate Latest(events: seq<Event>, i: nat, pod: Pod) {
    && i < |events| && events[i] == Upserted(PodObj(pod))
    && forall j :: i < j < |events| ==> !About(events[j], pod.key)
  }

  /** What is known of a pod is its latest report, and nothing once it has been deleted. */
  lemma {:induction false} KnownIsLatest(events: seq<Event>, key: PodKey, pod: Pod)
    ensures key in Known(events) && Known(events)[key] == pod <==> pod.key == key && exists i: nat :: Latest(events, i, pod)
  {
    if events != [] {
      var n := |events| - 1;
      KnownIsLatest(events[..n], key, pod);
      if About(events[n], key) {
        assert pod.key == key ==> forall i: nat :: Latest(events, i, pod) ==> i == n;
        assert events[n] == Upserted(PodObj(pod)) ==> Latest(events, n, pod);
      } else {
        assert pod.key == key ==> forall i: nat :: Latest(events, i, pod) <==> Latest(events[..n], i, pod);
      }
    }
  }

  function Replay(events: seq<Event>, zoneLabel: string): Index {
    if events == [] then EMPTY else Apply(Replay(events[..|events| - 1], zoneLabel), events[|events| - 1], zoneLabel)
  }

  /** The claim in a pod's latest report. */
  function ClaimOf(known: map<PodKey, Pod>, key: PodKey, zoneLabel: string): Option<Claim> {
    if key in known then Qualify(known[key], zoneLabel) else None
  }

  /** `byPod` is exactly the IPs in the qualifying latest reports. */
  ghost predicate PodsExact(x: Index, known: map<PodKey, Pod>, zoneLabel: string) {
    forall key ::
      && (key in x.byPod <==> ClaimOf(known, key, zoneLabel).Some?)
      && (key in x.byPod ==> x.byPod[key] == ClaimOf(known, key, zoneLabel).value.ip)
  }

  /** Pod `key`, indexed now, has (ip, zone) as its latest report. */
  ghost predicate Backs(x: Index, known: map<PodKey, Pod>, zoneLabel: string, key: PodKey, ip: Addr, zone: string) {
    && key in x.byPod && x.byPod[key] == ip
    && ClaimOf(known, key, zoneLabel) == Some(Claim(ip, zone))
  }

  /** No entry without a current pod behind it. */
  ghost predicate IPsBacked(x: Index, known: map<PodKey, Pod>, zoneLabel: string) {
    forall ip :: ip in x.byIP ==> exists key :: Backs(x, known, zoneLabel, key, ip, x.byIP[ip])
  }

  ghost predicate Safe(x: Index, known: map<PodKey, Pod>, zoneLabel: string) {
    PodsExact(x, known, zoneLabel) && IPsBacked(x, known, zoneLabel)
  }

  /** A report keeps the index safe, whatever it says. */
  lemma SafeReported(x: Index, known: map<PodKey, Pod>, zoneLabel: string, pod: Pod)
    requires Safe(x, known, zoneLabel)
    ensures Safe(Reported(x, pod.key, Qualify(pod, zoneLabel)), known[pod.key := pod], zoneLabel)
  {
    var c := Qualify(pod, zoneLabel);
    var x', known' := Reported(x, pod.key, c), known[pod.key := pod];
    forall ip | ip in x'.byIP ensures exists key :: Backs(x', known', zoneLabel, key, ip, x'.byIP[ip]) {
      if c.Some? && ip == c.value.ip {
        assert Backs(x', known', zoneLabel, pod.key, ip, x'.byIP[ip]);
      } else {
        var key :| Backs(x, known, zoneLabel, key, ip, x.byIP[ip]);
        assert Backs(x', known', zoneLabel, key, ip, x'.byIP[ip]);
      }
    }
  }

  /** So does forgetting a pod. */
  lemma SafeForgotten(x: Index, known: map<PodKey, Pod>, zoneLabel: string, gone: PodKey)
    requires Safe(x, known, zoneLabel)
    ensures Safe(Forgotten(x, gone), known - {gone}, zoneLabel)
  {
    var x', known' := Forgotten(x, gone), known - {gone};
    forall ip | ip in x'.byIP ensures exists key :: Backs(x', known', zoneLabel, key, ip, x'.byIP[ip]) {
      var key :| Backs(x, known, zoneLabel, key, ip, x.byIP[ip]);
      assert Backs(x', known', zoneLabel, key, ip, x'.byIP[ip]);
    }
  }

  /** Every event keeps the index safe. */
  lemma SafeApply(x: Index, known: map<PodKey, Pod>, zoneLabel: string, e: Event)
    requires Safe(x, known, zoneLabel)
    ensures Safe(Apply(x, e, zoneLabel), Learn(known, e), zoneLabel)
  {
    match e
    case Upserted(PodObj(pod)) => SafeReported(x, known, zoneLabel, pod);
    case Upserted(_) =>
    case Removed(obj) =>
      if RemovedPod(obj).Some? {
        SafeForgotten(x, known, zoneLabel, RemovedPod(obj).value);
      }
  }

  /**
   Safety in every run, whatever the event order: an IP maps to a zone only while
   some indexed pod's latest report says so.
   */
  lemma {:induction false} ReplaySafe(events: seq<Event>, zoneLabel: string)
    ensures Safe(Replay(events, zoneLabel), Known(events), zoneLabel)
  {
    if events != [] {
      var n := |events| - 1;
      ReplaySafe(events[..n], zoneLabel);
      SafeApply(Replay(events[..n], zoneLabel), Known(events[..n]), zoneLabel, events[n]);
    }
  }

  /**
   Never a departed tenant's zone: an address in the table is there by the report of an
   eligible pod with that address and that zone label, and nothing has been heard about that
   pod since, no later report and no delete.
   */
  lemma NoDepartedTenant(events: seq<Event>, zoneLabel: string, ip: Addr)
    requires ip in Replay(events, zoneLabel).byIP
    ensures exists i: nat, pod ::
      Latest(events, i, pod) && Eligible(pod, zoneLabel, ip, Replay(events, zoneLabel).byIP[ip])
  {
    ReplaySafe(events, zoneLabel);
    var x, known := Replay(events, zoneLabel), Known(events);
    var key :| Backs(x, known, zoneLabel, key, ip, x.byIP[ip]);
    QualifyIff(known[key], zoneLabel, ip, x.byIP[ip]);
    KnownIsLatest(events, key, known[key]);
    var i: nat :| Latest(events, i, known[key]);
  }

  // ---------------------------------------------------------------------
  // Completeness, and when it is lost
  // ---------------------------------------------------------------------

  /** Every indexed pod finds its own zone under its own IP. */
  ghost predicate Complete(x: Index, known: map<PodKey, Pod>, zoneLabel: string) {
    forall key :: key in x.byPod ==> Finds(x, known, zoneLabel, key)
  }

  ghost predicate Finds(x: Index, known: map<PodKey, Pod>, zoneLabel: string, key: PodKey)
    requires key in x.byPod
  {
    x.byPod[key] in x.byIP && ClaimOf(known, key, zoneLabel) == Some(Claim(x.byPod[key], x.byIP[x.byPod[key]]))
  }

  /** Another indexed pod holds `ip`. */
  ghost predicate SharedWith(x: Index, key: PodKey, other: PodKey, ip: Addr) {
    other != key && other in x.byPod && x.byPod[other] == ip
  }

  /**
   What a pod's next claim must respect for the index to stay complete: the IP it
   gives up is nobody else's, and the IP it takes is held by others only under the
   same zone.
   */
  ghost predicate Harmless(x: Index, known: map<PodKey, Pod>, zoneLabel: string, key: PodKey, c: Option<Claim>) {
    && (key in x.byPod && (c.None? || c.value.ip != x.byPod[key]) ==>
          forall other :: !SharedWith(x, key, other, x.byPod[key]))
    && (c.Some? ==> forall other :: SharedWith(x, key, other, c.value.ip) ==>
          ClaimOf(known, other, zoneLabel) == c)
  }

  /** One event seen as a pod and its new claim; `None` for events that are ignored. */
  function Effect(e: Event, zoneLabel: string): Option<(PodKey, Option<Claim>)> {
    match e
    case Upserted(PodObj(pod)) => Some((pod.key, Qualify(pod, zoneLabel)))
    case Upserted(_) => None
    case Removed(obj) => if RemovedPod(obj).Some? then Some((RemovedPod(obj).value, None)) else None
  }

  /** An event changes the index and the claims through its effect alone. */
  lemma EffectDescribes(x: Index, known: map<PodKey, Pod>, zoneLabel: string, e: Event)
    ensures var f := Effect(e, zoneLabel);
      if f.None? then Apply(x, e, zoneLabel) == x && Learn(known, e) == known
      else
        && Apply(x, e, zoneLabel) == Reported(x, f.value.0, f.value.1)
        && ClaimOf(Learn(known, e), f.value.0, zoneLabel) == f.value.1
        && forall other :: other != f.value.0 ==>
            ClaimOf(Learn(known, e), other, zoneLabel) == ClaimOf(known, other, zoneLabel)
  {
  }

  /**
   Exactly when one event keeps a complete index complete: if and only if it is
   harmless, a test on the state before the event.
   */
  lemma CompleteStepIff(x: Index, known: map<PodKey, Pod>, zoneLabel: string, e: Event)
    requires Safe(x, known, zoneLabel) && Complete(x, known, zoneLabel)
    ensures Complete(Apply(x, e, zoneLabel), Learn(known, e), zoneLabel) <==>
      var f := Effect(e, zoneLabel);
      f.None? || Harmless(x, known, zoneLabel, f.value.0, f.value.1)
  {
    var f := Effect(e, zoneLabel);
    EffectDescribes(x, known, zoneLabel, e);
    if f.Some? {
      var x', known' := Apply(x, e, zoneLabel), Learn(known, e);
      if Harmless(x, known, zoneLabel, f.value.0, f.value.1) {
        HarmlessSufficient(x, known, x', known', zoneLabel, f.value.0, f.value.1);
      }
      if Complete(x', known', zoneLabel) {
        HarmlessNecessary(x, known, x', known', zoneLabel, f.value.0, f.value.1);
      }
    }
  }

  lemma HarmlessSufficient(x: Index, known: map<PodKey, Pod>, x': Index, known': map<PodKey, Pod>, zoneLabel: string,
                           key: PodKey, c: Option<Claim>)
    requires Complete(x, known, zoneLabel) && Harmless(x, known, zoneLabel, key, c)
    requires x' == Reported(x, key, c)
    requires ClaimOf(known', key, zoneLabel) == c
    requires forall other :: other != key ==> ClaimOf(known', other, zoneLabel) == ClaimOf(known, other, zoneLabel)
    ensures Complete(x', known', zoneLabel)
  {
    forall other | other in x'.byPod ensures Finds(x', known', zoneLabel, other) {
      if other != key {
        OtherStillFound(x, known, zoneLabel, key, c, other);
      }
    }
  }

  /** A harmless claim of one pod leaves every other pod's entry as it was. */
  lemma OtherStillFound(x: Index, known: map<PodKey, Pod>, zoneLabel: string, key: PodKey, c: Option<Claim>, other: PodKey)
    requires Harmless(x, known, zoneLabel, key, c)
    requires other != key && other in x.byPod && Finds(x, known, zoneLabel, other)
    ensures var x' := Reported(x, key, c);
      && other in x'.byPod && x'.byPod[other] == x.byPod[other]
      && x.byPod[other] in x'.byIP && x'.byIP[x.byPod[other]] == x.byIP[x.byPod[other]]
  {
    var ip := x.byPod[other];
    assert c.Some? && ip == c.value.ip ==> SharedWith(x, key, other, c.value.ip);
    assert key in x.byPod && ip == x.byPod[key] ==> SharedWith(x, key, other, x.byPod[key]);
  }

  lemma HarmlessNecessary(x: Index, known: map<PodKey, Pod>, x': Index, known': map<PodKey, Pod>, zoneLabel: string,
                          key: PodKey, c: Option<Claim>)
    requires PodsExact(x, known, zoneLabel) && x' == Reported(x, key, c) && Complete(x', known', zoneLabel)
    requires ClaimOf(known', key, zoneLabel) == c
    requires forall other :: other != key ==> ClaimOf(known', other, zoneLabel) == ClaimOf(known, other, zoneLabel)
    ensures Harmless(x, known, zoneLabel, key, c)
  {
    forall other | key in x.byPod && SharedWith(x, key, other, x.byPod[key])
      ensures c.Some? && c.value.ip == x.byPod[key]
    {
      assert Finds(x', known', zoneLabel, other);
    }
    forall other | c.Some? && SharedWith(x, key, other, c.value.ip)
      ensures ClaimOf(known, other, zoneLabel) == c
    {
      assert Finds(x', known', zoneLabel, other);
    }
  }

  /** Every event of the history was harmless when it arrived. */
  ghost predicate AllHarmless(events: seq<Event>, zoneLabel: string) {
    forall i :: 0 <= i < |events| ==> HarmlessAt(events, zoneLabel, i)
  }

  ghost predicate HarmlessAt(events: seq<Event>, zoneLabel: string, i: nat)
    requires i < |events|
  {
    var f := Effect(events[i], zoneLabel);
    f.None? || Harmless(Replay(events[..i], zoneLabel), Known(events[..i]), zoneLabel, f.value.0, f.value.1)
  }

  ghost predicate CompleteAt(events: seq<Event>, zoneLabel: string, i: nat)
    requires i <= |events|
  {
    Complete(Replay(events[..i], zoneLabel), Known(events[..i]), zoneLabel)
  }

  ghost predicate AlwaysComplete(events: seq<Event>, zoneLabel: string) {
    forall i :: 0 <= i <= |events| ==> CompleteAt(events, zoneLabel, i)
  }

  /** The index was complete after every event if and only if every event was harmless. */
  lemma {:induction false} AlwaysCompleteIff(events: seq<Event>, zoneLabel: string)
    ensures AlwaysComplete(events, zoneLabel) <==> AllHarmless(events, zoneLabel)
  {
    if events == [] {
      assert events[..0] == [];
    } else {
      var n := |events| - 1;
      var before := events[..n];
      AlwaysCompleteIff(before, zoneLabel);
      HistoryPrefix(events, zoneLabel);
      if CompleteAt(events, zoneLabel, n) {
        ReplaySafe(before, zoneLabel);
        CompleteStepIff(Replay(before, zoneLabel), Known(before), zoneLabel, events[n]);
        assert events[..n + 1] == events;
      }
    }
  }

  lemma HistoryPrefix(events: seq<Event>, zoneLabel: string)
    requires events != []
    ensures var n := |events| - 1;
      && (AlwaysComplete(events, zoneLabel) <==>
            AlwaysComplete(events[..n], zoneLabel) && CompleteAt(events, zoneLabel, n + 1))
      && (AllHarmless(events, zoneLabel) <==>
            AllHarmless(events[..n], zoneLabel) && HarmlessAt(events, zoneLabel, n))
      && (AlwaysComplete(events[..n], zoneLabel) ==> CompleteAt(events, zoneLabel, n))
  {
    var n := |events| - 1;
    var before := events[..n];
    forall i | 0 <= i <= n ensures CompleteAt(before, zoneLabel, i) <==> CompleteAt(events, zoneLabel, i) {
      assert before[..i] == events[..i];
    }
    forall i | 0 <= i < n ensures HarmlessAt(before, zoneLabel, i) <==> HarmlessAt(events, zoneLabel, i) {
      assert before[..i] == events[..i];
    }
  }

  /** No event gives a pod an IP that another indexed pod holds. */
  ghost predicate NoSharing(events: seq<Event>, zoneLabel: string) {
    forall i :: 0 <= i < |events| ==> NoSharingAt(events, zoneLabel, i)
  }

  ghost predicate NoSharingAt(events: seq<Event>, zoneLabel: string, i: nat)
    requires i < |events|
  {
    var f := Effect(events[i], zoneLabel);
    f.None? || f.value.1.None? ||
    forall other :: !SharedWith(Replay(events[..i], zoneLabel), f.value.0, other, f.value.1.value.ip)
  }

  /** The table recomputed from the latest reports: the image of the qualifying claims. */
  ghost predicate Recomputed(byIP: map<Addr, string>, known: map<PodKey, Pod>, zoneLabel: string) {
    && (forall key :: ClaimOf(known, key, zoneLabel).Some? ==> ClaimIn(byIP, ClaimOf(known, key, zoneLabel).value))
    && (forall ip :: ip in byIP ==> exists key :: ClaimOf(known, key, zoneLabel) == Some(Claim(ip, byIP[ip])))
  }

  ghost predicate ClaimIn(byIP: map<Addr, string>, c: Claim) {
    c.ip in byIP && byIP[c.ip] == c.zone
  }

  /** A safe and complete index is exactly the recomputed one. */
  lemma CompleteIsRecomputed(x: Index, known: map<PodKey, Pod>, zoneLabel: string)
    requires Safe(x, known, zoneLabel)
    ensures Complete(x, known, zoneLabel) <==> Recomputed(x.byIP, known, zoneLabel)
  {
  }

  /** All indexed pods hold different IPs. */
  ghost predicate DistinctIPs(byPod: map<PodKey, Addr>) {
    forall a, b :: a in byPod && b in byPod && a != b ==> byPod[a] != byPod[b]
  }

  /**
   Without address sharing the incremental index is the recomputed one after every
   event of every run.
   */
  lemma {:induction false} IncrementalIsRecomputed(events: seq<Event>, zoneLabel: string)
    requires NoSharing(events, zoneLabel)
    ensures Recomputed(Replay(events, zoneLabel).byIP, Known(events), zoneLabel)
    ensures DistinctIPs(Replay(events, zoneLabel).byPod)
  {
    ReplaySafe(events, zoneLabel);
    CompleteIsRecomputed(Replay(events, zoneLabel), Known(events), zoneLabel);
    if events != [] {
      var n := |events| - 1;
      var before := events[..n];
      forall i | 0 <= i < n ensures NoSharingAt(before, zoneLabel, i) {
        assert before[..i] == events[..i];
        assert NoSharingAt(events, zoneLabel, i);
      }
      IncrementalIsRecomputed(before, zoneLabel);
      ReplaySafe(before, zoneLabel);
      var x := Replay(before, zoneLabel);
      CompleteIsRecomputed(x, Known(before), zoneLabel);
      CompleteStepIff(x, Known(before), zoneLabel, events[n]);
      EffectDescribes(x, Known(before), zoneLabel, events[n]);
      assert NoSharingAt(events, zoneLabel, n);
      var f := Effect(events[n], zoneLabel);
      if f.Some? {
        DistinctAfter(x, f.value.0, f.value.1);
      }
    }
  }

  lemma DistinctAfter(x: Index, key: PodKey, c: Option<Claim>)
    requires DistinctIPs(x.byPod)
    requires c.None? || forall other :: !SharedWith(x, key, other, c.value.ip)
    ensures DistinctIPs(Reported(x, key, c).byPod)
    ensures key in x.byPod ==> forall other :: !SharedWith(x, key, other, x.byPod[key])
  {
    var after := Reported(x, key, c).byPod;
    forall a, b | a in after && b in after && a != b ensures after[a] != after[b] {
      assert c.Some? && a == key ==> !SharedWith(x, key, b, c.value.ip);
      assert c.Some? && b == key ==> !SharedWith(x, key, a, c.value.ip);
    }
  }

  /** The reuse race: the new holder's add before the old holder's delete leaves the new one unfound. */
  lemma ReuseRace(zoneLabel: string, a: Pod, b: Pod, ca: Claim, cb: Claim)
    requires a.key != b.key && ca.ip == cb.ip
    requires Qualify(a, zoneLabel) == Some(ca) && Qualify(b, zoneLabel) == Some(cb)
    ensures var events := [Upserted(PodObj(a)), Upserted(PodObj(b)), Removed(PodObj(a))];
      && Replay(events, zoneLabel) == Index(map[b.key := cb.ip], map[])
      && Known(events) == map[b.key := b]
      && !Complete(Replay(events, zoneLabel), Known(events), zoneLabel)
  {
    var e1, e2, e3 := Upserted(PodObj(a)), Upserted(PodObj(b)), Removed(PodObj(a));
    var events := [e1, e2, e3];
    assert [e1][..0] == [] && [e1, e2][..1] == [e1] && events[..2] == [e1, e2];
    assert Replay([e1], zoneLabel) == Index(map[a.key := ca.ip], map[ca.ip := ca.zone]);
    assert Known([e1]) == map[a.key := a];
    assert Replay([e1, e2], zoneLabel) == Index(map[a.key := ca.ip, b.key := cb.ip], map[cb.ip := cb.zone]);
    assert Known([e1, e2]) == map[a.key := a, b.key := b];
    assert Replay(events, zoneLabel).byPod == map[b.key := cb.ip];
    assert !Finds(Replay(events, zoneLabel), Known(events), zoneLabel, b.key);
  }

  // ---------------------------------------------------------------------
  // The resync pass
  // ---------------------------------------------------------------------

  /** The updates a resync delivers: each listed pod's latest report. */
  function ResyncEvents(known: map<PodKey, Pod>, order: seq<PodKey>): seq<Event>
    requires forall k :: k in order ==> k in known
  {
    if order == [] then []
    else
      var n := |order| - 1;
      ResyncEvents(known, order[..n]) + [Upserted(PodObj(known[order[n]]))]
  }

  /** The index after redelivering those reports on top of `x`. */
  function Redeliver(x: Index, known: map<PodKey, Pod>, order: seq<PodKey>, zoneLabel: string): Index {
    if order == [] then x
    else
      var n := |order| - 1;
      Reported(Redeliver(x, known, order[..n], zoneLabel), order[n], ClaimOf(known, order[n], zoneLabel))
  }

  /** The claims of the listed pods, later ones winning. */
  function Table(known: map<PodKey, Pod>, order: seq<PodKey>, zoneLabel: string): map<Addr, string> {
    if order == [] then map[]
    else
      var n := |order| - 1;
      var t, c := Table(known, order[..n], zoneLabel), ClaimOf(known, order[n], zoneLabel);
      if c.Some? then t[c.value.ip := c.value.zone] else t
  }

  /** Known pods are filed under their own names. */
  lemma {:induction false} KnownKeyed(events: seq<Event>, k: PodKey)
    requires k in Known(events)
    ensures Known(events)[k].key == k
  {
    var n := |events| - 1;
    if k in Known(events[..n]) {
      KnownKeyed(events[..n], k);
    }
  }

  lemma {:induction false} ReplayResync(x: seq<Event>, known: map<PodKey, Pod>, order: seq<PodKey>, zoneLabel: string)
    requires forall k :: k in order ==> k in known && known[k].key == k
    ensures Replay(x + ResyncEvents(known, order), zoneLabel) == Redeliver(Replay(x, zoneLabel), known, order, zoneLabel)
  {
    var events := x + ResyncEvents(known, order);
    if order == [] {
      assert events == x;
    } else {
      var n := |order| - 1;
      ReplayResync(x, known, order[..n], zoneLabel);
      assert events[..|events| - 1] == x + ResyncEvents(known, order[..n]);
    }
  }

  /** No pod is indexed under an IP other than the one in its latest report. */
  ghost predicate PodsCurrent(x: Index, known: map<PodKey, Pod>, zoneLabel: string) {
    forall key :: key in x.byPod ==> PodCurrent(x, known, zoneLabel, key)
  }

  ghost predicate PodCurrent(x: Index, known: map<PodKey, Pod>, zoneLabel: string, key: PodKey)
    requires key in x.byPod
  {
    var c := ClaimOf(known, key, zoneLabel);
    c.Some? && c.value.ip == x.byPod[key]
  }

  /** Redelivering one latest report deletes nothing: it only writes that pod's claim. */
  lemma RedeliverOne(x: Index, known: map<PodKey, Pod>, key: PodKey, zoneLabel: string)
    requires PodsCurrent(x, known, zoneLabel)
    ensures var c := ClaimOf(known, key, zoneLabel);
      var x' := Reported(x, key, c);
      && PodsCurrent(x', known, zoneLabel)
      && x'.byIP == if c.Some? then x.byIP[c.value.ip := c.value.zone] else x.byIP
  {
  }

  /** A pass of redeliveries lays the pods' claims over the table. */
  lemma {:induction false} RedeliverOverlays(x: Index, known: map<PodKey, Pod>, order: seq<PodKey>, zoneLabel: string)
    requires PodsCurrent(x, known, zoneLabel)
    ensures PodsCurrent(Redeliver(x, known, order, zoneLabel), known, zoneLabel)
    ensures Redeliver(x, known, order, zoneLabel).byIP == x.byIP + Table(known, order, zoneLabel)
  {
    if order == [] {
      assert x.byIP + map[] == x.byIP;
    } else {
      var n := |order| - 1;
      RedeliverOverlays(x, known, order[..n], zoneLabel);
      RedeliverOne(Redeliver(x, known, order[..n], zoneLabel), known, order[n], zoneLabel);
    }
  }

  /** The table holds exactly the listed pods' IPs, each under the claim of a listed pod. */
  lemma {:induction false} TableContents(known: map<PodKey, Pod>, order: seq<PodKey>, zoneLabel: string, ip: Addr)
    ensures var t := Table(known, order, zoneLabel);
      && (forall k :: k in order && ClaimOf(known, k, zoneLabel).Some? ==> ClaimOf(known, k, zoneLabel).value.ip in t)
      && (ip in t ==> exists k :: k in order && ClaimOf(known, k, zoneLabel) == Some(Claim(ip, t[ip])))
  {
    if order != [] {
      var n := |order| - 1;
      TableContents(known, order[..n], zoneLabel, ip);
      assert order == order[..n] + [order[n]];
      var c := ClaimOf(known, order[n], zoneLabel);
      if c.Some? && c.value.ip == ip {
        assert order[n] in order;
      }
    }
  }

  /** No two qualifying latest reports claim one IP for different zones. */
  ghost predicate NoDispute(known: map<PodKey, Pod>, zoneLabel: string) {
    forall a, b :: ClaimOf(known, a, zoneLabel).Some? && ClaimOf(known, b, zoneLabel).Some? ==>
      ClaimOf(known, a, zoneLabel).value.ip == ClaimOf(known, b, zoneLabel).value.ip ==>
      ClaimOf(known, a, zoneLabel) == ClaimOf(known, b, zoneLabel)
  }

  /**
   A resync forgets the past: from the state left by any history, redelivering the
   latest reports in any order gives the index built from nothing in that order.
   */
  lemma ResyncForgetsHistory(events: seq<Event>, order: seq<PodKey>, zoneLabel: string)
    requires forall k :: k in order <==> k in Known(events)
    ensures var pass := ResyncEvents(Known(events), order);
      Replay(events + pass, zoneLabel).byIP == Replay(pass, zoneLabel).byIP == Table(Known(events), order, zoneLabel)
  {
    var known := Known(events);
    var pass := ResyncEvents(known, order);
    forall k | k in order ensures known[k].key == k {
      KnownKeyed(events, k);
    }
    ReplayResync(events, known, order, zoneLabel);
    ReplayResync([], known, order, zoneLabel);
    assert [] + pass == pass;
    ReplaySafe(events, zoneLabel);
    RedeliverCovers(Replay(events, zoneLabel), known, order, zoneLabel);
    RedeliverOverlays(EMPTY, known, order, zoneLabel);
    assert map[] + Table(known, order, zoneLabel) == Table(known, order, zoneLabel);
  }

  lemma RedeliverCovers(x: Index, known: map<PodKey, Pod>, order: seq<PodKey>, zoneLabel: string)
    requires Safe(x, known, zoneLabel)
    requires forall k :: k in known ==> k in order
    ensures Redeliver(x, known, order, zoneLabel).byIP == Table(known, order, zoneLabel)
  {
    forall key | key in x.byPod ensures PodCurrent(x, known, zoneLabel, key) {
    }
    RedeliverOverlays(x, known, order, zoneLabel);
    var t := Table(known, order, zoneLabel);
    forall ip | ip in x.byIP ensures ip in t {
      TableContents(known, order, zoneLabel, ip);
      var key :| Backs(x, known, zoneLabel, key, ip, x.byIP[ip]);
    }
    assert x.byIP + t == t;
  }

  /**
   What a resync heals: afterwards the table is the recomputed one, whatever
   happened before and in whatever order the reports came, exactly when the
   reports themselves do not dispute an IP.
   */
  lemma ResyncHealsIff(events: seq<Event>, order: seq<PodKey>, zoneLabel: string)
    requires forall k :: k in order <==> k in Known(events)
    ensures var pass := ResyncEvents(Known(events), order);
      Recomputed(Replay(events + pass, zoneLabel).byIP, Known(events), zoneLabel) <==> NoDispute(Known(events), zoneLabel)
  {
    var known := Known(events);
    var t := Table(known, order, zoneLabel);
    ResyncForgetsHistory(events, order, zoneLabel);
    if NoDispute(known, zoneLabel) {
      forall k | ClaimOf(known, k, zoneLabel).Some? ensures ClaimIn(t, ClaimOf(known, k, zoneLabel).value) {
        TableContents(known, order, zoneLabel, ClaimOf(known, k, zoneLabel).value.ip);
      }
      forall ip | ip in t ensures exists k :: ClaimOf(known, k, zoneLabel) == Some(Claim(ip, t[ip])) {
        TableContents(known, order, zoneLabel, ip);
      }
    }
    if Recomputed(t, known, zoneLabel) {
      forall a, b | ClaimOf(known, a, zoneLabel).Some? && ClaimOf(known, b, zoneLabel).Some?
                    && ClaimOf(known, a, zoneLabel).value.ip == ClaimOf(known, b, zoneLabel).value.ip
        ensures ClaimOf(known, a, zoneLabel) == ClaimOf(known, b, zoneLabel)
      {
        assert ClaimIn(t, ClaimOf(known, a, zoneLabel).value);
        assert ClaimIn(t, ClaimOf(known, b, zoneLabel).value);
      }
    }
  }

  // ---------------------------------------------------------------------
  // Len
  // ---------------------------------------------------------------------

  function IPs(byPod: map<PodKey, Addr>): set<Addr> {
    set k | k in byPod :: byPod[k]
  }

  /** A map has at most as many values as keys, and as many exactly when none repeats. */
  lemma {:induction false} CountIPs(byPod: map<PodKey, Addr>)
    ensures |IPs(byPod)| <= |byPod|
    ensures |IPs(byPod)| == |byPod| <==> DistinctIPs(byPod)
    decreases |byPod|
  {
    if byPod == map[] {
      assert IPs(byPod) == {};
    } else {
      var k :| k in byPod;
      var rest := byPod - {k};
      assert rest.Keys == byPod.Keys - {k};
      CountIPs(rest);
      assert IPs(byPod) == IPs(rest) + {byPod[k]} by {
        assert forall j :: j in byPod && j != k ==> j in rest && rest[j] == byPod[j];
        assert forall j :: j in rest ==> j in byPod && byPod[j] == rest[j];
      }
      if byPod[k] in IPs(rest) {
        var j :| j in rest && rest[j] == byPod[k];
        assert IPs(byPod) == IPs(rest);
        assert j in byPod && j != k && byPod[j] == byPod[k];
      } else {
        DistinctExtend(byPod, k);
      }
    }
  }

  /** Adding a pod with an IP of its own keeps IPs distinct, and taking one away does too. */
  lemma DistinctExtend(byPod: map<PodKey, Addr>, k: PodKey)
    requires k in byPod && byPod[k] !in IPs(byPod - {k})
    ensures DistinctIPs(byPod) <==> DistinctIPs(byPod - {k})
  {
    var rest := byPod - {k};
    forall j | j in byPod && j != k ensures j in rest && byPod[j] != byPod[k] {
      assert rest[j] in IPs(rest);
    }
  }

  /**
   The reported size never exceeds the number of indexed pods, and equals it
   exactly when their IPs are distinct and none is missing.
   */
  lemma LenBound(x: Index, known: map<PodKey, Pod>, zoneLabel: string)
    requires Safe(x, known, zoneLabel)
    ensures |x.byIP| <= |x.byPod|
    ensures |x.byIP| == |x.byPod| <==>
      DistinctIPs(x.byPod) && forall key :: key in x.byPod ==> x.byPod[key] in x.byIP
  {
    var ips := IPs(x.byPod);
    CountIPs(x.byPod);
    forall ip | ip in x.byIP.Keys ensures ip in ips {
      var key :| Backs(x, known, zoneLabel, key, ip, x.byIP[ip]);
    }
    SubsetSize(x.byIP.Keys, ips);
    assert (forall key :: key in x.byPod ==> x.byPod[key] in x.byIP) <==> ips <= x.byIP.Keys;
  }

  lemma SubsetSize(a: set<Addr>, b: set<Addr>)
    requires a <= b
    ensures |a| <= |b|
    ensures |a| == |b| <==> b <= a
  {
    assert b == a + (b - a);
    if |a| == |b| {
      assert b - a == {};
    }
    if b <= a {
      assert a == b;
    }
  }

  // ---------------------------------------------------------------------
  // The watcher
  // ---------------------------------------------------------------------

  class Watcher {
    const zoneLabel: string
    var byPod: map<PodKey, Addr>
    var byIP: map<Addr, string>
    var ready: bool
    /** Each known pod's latest report. */
    ghost var known: map<PodKey, Pod>

    ghost predicate Valid()
      reads this
    {
      Safe(Table(), known, zoneLabel)
    }

    function Table(): Index
      reads this
    {
      Index(byPod, byIP)
    }

    constructor (zoneLabel: string)
      ensures Valid() && !ready && Table() == EMPTY && known == map[] && this.zoneLabel == zoneLabel
    {
      this.zoneLabel := zoneLabel;
      byPod, byIP, ready, known := map[], map[], false, map[];
    }

    method Upsert(obj: Obj)
      requires Valid()
      modifies this`byPod, this`byIP, this`known
      ensures Valid()
      ensures Table() == Apply(old(Table()), Upserted(obj), zoneLabel)
      ensures known == Learn(old(known), Upserted(obj))
      ensures !obj.PodObj? ==> Table() == old(Table())
      ensures obj.PodObj? ==> forall ip, zone :: Eligible(obj.pod, zoneLabel, ip, zone) ==>
        obj.pod.key in byPod && byPod[obj.pod.key] == ip && ip in byIP && byIP[ip] == zone
      ensures obj.PodObj? && (forall ip, zone :: !Eligible(obj.pod, zoneLabel, ip, zone)) ==>
        Dropped(old(Table()), obj.pod.key, Table())
    {
      if !obj.PodObj? {
        return;
      }
      SafeApply(Table(), known, zoneLabel, Upserted(obj));
      var pod := obj.pod;
      var c := Qualify(pod, zoneLabel);
      assert c.Some? ==> Eligible(pod, zoneLabel, c.value.ip, c.value.zone);
      var hadOld := pod.key in byPod;
      known := known[pod.key := pod];
      if c.None? {
        if hadOld {
          byIP := byIP - {byPod[pod.key]};
          byPod := byPod - {pod.key};
        }
        return;
      }
      if hadOld && byPod[pod.key] != c.value.ip {
        byIP := byIP - {byPod[pod.key]};
      }
      byIP := byIP[c.value.ip := c.value.zone];
      byPod := byPod[pod.key := c.value.ip];
    }

    method Remove(obj: Obj)
      requires Valid()
      modifies this`byPod, this`byIP, this`known
      ensures Valid()
      ensures Table() == Apply(old(Table()), Removed(obj), zoneLabel)
      ensures known == Learn(old(known), Removed(obj))
      ensures forall pod :: Deletes(obj, pod) ==>
        known == old(known) - {pod.key} && Dropped(old(Table()), pod.key, Table())
      ensures (forall pod :: !Deletes(obj, pod)) ==> known == old(known) && Table() == old(Table())
    {
      DeleteForgets(Table(), known, zoneLabel, obj);
      var pod := obj;
      if !pod.PodObj? {
        if !pod.Tombstone? {
          return;
        }
        pod := pod.last;
        if !pod.PodObj? {
          return;
        }
      }
      SafeApply(Table(), known, zoneLabel, Removed(obj));
      var key := pod.pod.key;
      known := known - {key};
      if key in byPod {
        byIP := byIP - {byPod[key]};
        byPod := byPod - {key};
      }
    }

    /** What a lookup may answer: nothing before the first sync, and never a zone no current pod has. */
    method Zone(ip: Addr) returns (zone: Option<string>)
      requires Valid()
      ensures zone == Resolve(Table(), ready, ip)
      ensures zone.Some? ==> ready && Ednszone.ValidZone(zone.value)
      ensures zone.Some? ==> exists key :: Backs(Table(), known, zoneLabel, key, ip, zone.value)
    {
      if !ready || ip !in byIP {
        return None;
      }
      zone := Some(byIP[ip]);
      ghost var key :| Backs(Table(), known, zoneLabel, key, ip, byIP[ip]);
      assert Qualify(known[key], zoneLabel).Some?;
    }

    method Len() returns (n: nat)
      requires Valid()
      ensures n == |byIP| <= |byPod|
      ensures n == |byPod| <==> DistinctIPs(byPod) && forall key :: key in byPod ==> byPod[key] in byIP
    {
      LenBound(Table(), known, zoneLabel);
      n := |byIP|;
    }

    /** The two writes of Run: after the first sync, and once the informer has stopped. */
    method SetReady(b: bool)
      modifies this`ready
      ensures ready == b
    {
      ready := b;
    }
  }

  function Resolve(x: Index, ready: bool, ip: Addr): Option<string> {
    if ready && ip in x.byIP then Some(x.byIP[ip]) else None
  }
}
