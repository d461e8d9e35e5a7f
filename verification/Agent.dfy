/**
 The node side's handler (plugin/zonedns_agent/agent.go): find the source's zone,
 answer from the cache, or ask central with the zone declared.
 */
module Agent {
  import opened Wrappers
  import opened Text
  import opened Dns
  import Ednszone
  import Podzone
  import opened Zonecache

  /** The bucket of the cache key for a source with, or without, a zone. */
  function Bucket(zone: Option<string>): string {
    if zone.Some? then zone.value else ""
  }

  function KeyFor(r: Msg, zone: Option<string>): Key {
    MakeKey(QName(r), QType(r), Bucket(zone))
  }

  predicate SameQuestion(q: Question, a: Question) {
    EqualFold(q.name, a.name) && q.qtype == a.qtype && q.qclass == a.qclass
  }

  /** The answer's question section is the query's, up to the case of names. */
  predicate AnswersQuestion(outbound: Msg, answer: Msg) {
    && |answer.question| == |outbound.question|
    && forall i :: 0 <= i < |outbound.question| ==> SameQuestion(outbound.question[i], answer.question[i])
  }

  method CheckQuestion(outbound: Msg, answer: Msg) returns (ok: bool)
    ensures ok <==> AnswersQuestion(outbound, answer)
  {
    if |answer.question| != |outbound.question| {
      return false;
    }
    for i := 0 to |outbound.question|
      invariant forall j :: 0 <= j < i ==> SameQuestion(outbound.question[j], answer.question[j])
    {
      if !SameQuestion(outbound.question[i], answer.question[i]) {
        return false;
      }
    }
    return true;
  }

  /** Exactly the answers whose questions have the same names once lower-cased, types and classes are accepted. */
  lemma AcceptedIff(outbound: Msg, answer: Msg)
    ensures AnswersQuestion(outbound, answer) <==>
      && |answer.question| == |outbound.question|
      && forall i :: 0 <= i < |outbound.question| ==>
           && ToLower(answer.question[i].name) == ToLower(outbound.question[i].name)
           && answer.question[i].qtype == outbound.question[i].qtype
           && answer.question[i].qclass == outbound.question[i].qclass
  {
    forall s: string, t: string ensures EqualFold(s, t) <==> ToLower(s) == ToLower(t) {
      EqualFoldIsEqualLower(s, t);
    }
  }

  /** An answer that passes the check is about the name, type and class asked for. */
  lemma AnswerMatchesKey(outbound: Msg, answer: Msg)
    requires AnswersQuestion(outbound, answer)
    ensures SameAsked(outbound, answer) && Asked(answer).qclass == Asked(outbound).qclass
  {
    if outbound.question != [] {
      assert SameQuestion(outbound.question[0], answer.question[0]);
    }
  }

  /** The same request with its first question in another class. */
  function InClass(r: Msg, qclass: nat): Msg {
    if r.question == [] then r else r.(question := [r.question[0].(qclass := qclass)] + r.question[1..])
  }

  /** The cache key does not depend on the class asked for. */
  lemma KeyIgnoresClass(r: Msg, zone: Option<string>, qclass: nat)
    ensures KeyFor(InClass(r, qclass), zone) == KeyFor(r, zone)
  {
  }

  /** An instance: after an IN query the cache serves its answer to a CH query for the same name and type. */
  lemma OtherClassServed()
    ensures
      var asked := EMPTY_MSG.(question := [Question("a.", TYPE_A, CLASS_INET)]);
      var answer := asked.(answer := [Record("a.", TYPE_A, CLASS_INET, 30, Raw(""))]);
      && AnswersQuestion(asked, answer) && Cacheable(answer)
      && var hit := Lookup(Stored(map[], KeyFor(asked, None), answer, 0), KeyFor(InClass(asked, 3), None), 0);
         hit.Some? && Asked(hit.value).qclass == 1 && Asked(InClass(asked, 3)).qclass == 3
  {
    var asked := EMPTY_MSG.(question := [Question("a.", TYPE_A, CLASS_INET)]);
    KeyIgnoresClass(asked, None, 3);
    EqualFoldIsEqualLower("a.", "a.");
  }

  /** What the resolver says about an address: the pod index, or one zone for the whole machine. */
  datatype Resolver = Pods(watcher: Podzone.Watcher) | Static(zone: string)

  function StaticZone(zone: string): Option<string> {
    if zone == "" then None else Some(zone)
  }

  /** What a resolver knows when it is asked. */
  datatype ZoneView = PodView(pods: Podzone.Index, ready: bool) | StaticView(zone: string)

  /** The source's zone. An unparseable source and the node's own address have none. */
  function ZoneOf(view: ZoneView, nodeIP: Option<Addr>, src: Option<Addr>): Option<string> {
    if src.None? || src == nodeIP then None
    else
      match view
      case PodView(pods, ready) => Podzone.Resolve(pods, ready, src.value)
      case StaticView(zone) => StaticZone(zone)
  }

  /** The exchange with central: its answer to each message it would answer; any other fails. */
  type Upstream = map<Msg, Msg>

  class Agent {
    const resolver: Resolver
    const cache: Cache
    const code: nat
    const nodeIP: Option<Addr>

    constructor (resolver: Resolver, cache: Cache, code: nat, nodeIP: Option<Addr>)
      ensures this.resolver == resolver && this.cache == cache && this.code == code && this.nodeIP == nodeIP
    {
      this.resolver, this.cache, this.code, this.nodeIP := resolver, cache, code, nodeIP;
    }

    ghost predicate Valid()
      reads this, cache, cache.Owned, if resolver.Pods? then {resolver.watcher} else {}
    {
      && cache.Valid()
      && match resolver
         case Pods(w) => w.Valid()
         case Static(z) => z == "" || Ednszone.ValidZone(z)
    }

    function View(): ZoneView
      reads this, if resolver.Pods? then {resolver.watcher} else {}
    {
      match resolver
      case Pods(w) => PodView(w.Table(), w.ready)
      case Static(z) => StaticView(z)
    }

    /** The zone declared for this source. */
    function SourceZone(src: Option<Addr>): Option<string>
      reads this, if resolver.Pods? then {resolver.watcher} else {}
    {
      ZoneOf(View(), nodeIP, src)
    }

    method ResolveZone(src: Option<Addr>) returns (zone: Option<string>)
      requires Valid()
      ensures zone == SourceZone(src)
      ensures zone.Some? ==> Ednszone.ValidZone(zone.value)
    {
      if src.None? {
        return None;
      }
      if nodeIP.Some? && src.value == nodeIP.value {
        return None;
      }
      match resolver {
        case Pods(w) =>
          zone := w.Zone(src.value);
        case Static(z) =>
          zone := StaticZone(z);
      }
    }

    /**
     One query. `upstream` is the exchange with central for this query; it may
     fail. `now` is read once, before the exchange.
     */
    method ServeDNS(r: Message, src: Option<Addr>, now: Time, upstream: Upstream)
      returns (rcode: nat, reply: Message?)
      requires Valid()
      modifies cache
      ensures cache.Valid()
      ensures reply != null ==> fresh(reply) && reply !in cache.Owned
      ensures Responds(AnswerFor(r.v, old(SourceZone(src)), now, code, upstream, old(cache.Entries)), r.v, rcode, reply)
      ensures cache.Entries ==
        KeptAfter(r.v, old(SourceZone(src)), now, code, upstream, old(cache.Entries), old(cache.l))
    {
      var zone := ResolveZone(src);
      rcode, reply := Respond(r, zone, now, upstream);
    }

    /** The query of a source with this zone: an answer as a reply to it, or SERVFAIL. */
    method Respond(r: Message, zone: Option<string>, now: Time, upstream: Upstream)
      returns (rcode: nat, reply: Message?)
      requires cache.Valid()
      modifies cache
      ensures cache.Valid()
      ensures reply != null ==> fresh(reply) && reply !in cache.Owned
      ensures Responds(AnswerFor(r.v, zone, now, code, upstream, old(cache.Entries)), r.v, rcode, reply)
      ensures cache.Entries == KeptAfter(r.v, zone, now, code, upstream, old(cache.Entries), old(cache.l))
    {
      reply := Find(r, zone, now, upstream);
      if reply == null {
        return RCODE_SERVFAIL, null;
      }
      Restamp(reply, r);
      rcode := RCODE_SUCCESS;
    }

    /** The answer to send: from the cache, or else from central, in which case it is remembered. */
    method Find(r: Message, zone: Option<string>, now: Time, upstream: Upstream) returns (answer: Message?)
      requires cache.Valid()
      modifies cache
      ensures cache.Valid()
      ensures answer != null ==> fresh(answer) && answer !in cache.Owned
      ensures AnswerFor(r.v, zone, now, code, upstream, old(cache.Entries)) ==
        if answer == null then None else Some(answer.v)
      ensures cache.Entries == KeptAfter(r.v, zone, now, code, upstream, old(cache.Entries), old(cache.l))
    {
      answer := Recall(r, zone, now);
      if answer == null {
        answer := Forward(r, zone, now, upstream);
      }
    }

    /** The cache's answer, if it has one; what it holds and would evict for this key stays the same. */
    method Recall(r: Message, zone: Option<string>, now: Time) returns (answer: Message?)
      requires cache.Valid()
      modifies cache`l
      ensures cache.Valid()
      ensures answer != null ==> fresh(answer)
      ensures Lookup(cache.Entries, KeyFor(r.v, zone), now) == if answer == null then None else Some(answer.v)
      ensures Lru.Evicted(cache.l, KeyFor(r.v, zone)) == Lru.Evicted(old(cache.l), KeyFor(r.v, zone))
    {
      answer := cache.Get(QName(r.v), QType(r.v), Bucket(zone), now);
    }

    /** The miss path: central's answer, kept as it came. */
    method Forward(r: Message, zone: Option<string>, now: Time, upstream: Upstream) returns (answer: Message?)
      requires cache.Valid()
      modifies cache
      ensures cache.Valid()
      ensures answer != null ==> fresh(answer) && answer !in cache.Owned
      ensures Usable(r.v, zone, code, upstream) == if answer == null then None else Some(answer.v)
      ensures cache.Entries ==
        Remembered(old(cache.Entries), old(cache.l), KeyFor(r.v, zone), Usable(r.v, zone, code, upstream), now)
    {
      answer := Exchange(r, zone, upstream);
      cache.Put(QName(r.v), QType(r.v), Bucket(zone), answer, now);
    }

    /** Makes `m` a reply to `r`, keeping its own rcode. */
    method Restamp(m: Message, r: Message)
      requires m != r
      modifies m
      ensures m.v == ReplyKeepingRcode(old(m.v), r.v)
    {
      var rcode := m.v.rcode;
      m.ToReply(r);
      m.SetRcode(rcode);
    }

    /** Sends the query on and takes back an answer to it, or nothing. */
    method Exchange(r: Message, zone: Option<string>, upstream: Upstream) returns (answer: Message?)
      ensures answer != null ==> fresh(answer)
      ensures Usable(r.v, zone, code, upstream) == if answer == null then None else Some(answer.v)
    {
      var outbound := Ednszone.StripZone(r.v, code);
      if zone.Some? {
        outbound := Ednszone.SetZone(outbound, code, zone.value);
      }
      if outbound !in upstream {
        return null;
      }
      var ok := CheckQuestion(outbound, upstream[outbound]);
      if !ok {
        return null;
      }
      answer := new Message(upstream[outbound]);
    }
  }

  /** What the handler returns and writes: the answer under the client's header, or only the code SERVFAIL. */
  predicate Responds(answer: Option<Msg>, r: Msg, rcode: nat, reply: Message?)
    reads reply
  {
    if answer.None? then rcode == 2 && reply == null
    else rcode == 0 && reply != null && reply.v == ReplyKeepingRcode(answer.value, r)
  }

  /** The answer central gives to the query as the agent sends it, if it is one the agent accepts. */
  function Usable(r: Msg, zone: Option<string>, code: nat, upstream: Upstream): Option<Msg> {
    var out := Ednszone.Outbound(r, code, zone);
    if out in upstream && AnswersQuestion(out, upstream[out]) then Some(upstream[out]) else None
  }

  /** What the client gets, apart from the reply header: the cached answer, else central's. */
  function AnswerFor(r: Msg, zone: Option<string>, now: Time, code: nat, upstream: Upstream,
                     entries: map<Key, Entry>): Option<Msg> {
    var hit := Lookup(entries, KeyFor(r, zone), now);
    if hit.Some? then hit else Usable(r, zone, code, upstream)
  }

  /** What the cache holds afterwards: central's answer as it came, timed from before the exchange. */
  function KeptAfter(r: Msg, zone: Option<string>, now: Time, code: nat, upstream: Upstream,
                     before: map<Key, Entry>, lru: Lru.Lru<Key, Slot>): map<Key, Entry> {
    if Lookup(before, KeyFor(r, zone), now).Some? then before
    else Remembered(before, lru, KeyFor(r, zone), Usable(r, zone, code, upstream), now)
  }

  /** The contents once an answer, if there is one that can be kept, has been put under `k`. */
  function Remembered(before: map<Key, Entry>, lru: Lru.Lru<Key, Slot>, k: Key, answer: Option<Msg>, now: Time):
    map<Key, Entry>
  {
    if answer.Some? && Cacheable(answer.value) then LruStored(before, lru, k, EntryFor(answer.value, now)) else before
  }
}
