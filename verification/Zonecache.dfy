/**
 The node-side answer cache keyed by (name, type, zone) (internal/zonecache).
 Times are nanoseconds since some origin.
 */
module Zonecache {
  import opened Wrappers
  import opened Text
  import opened Dns
  import Ednszone
  import Lru

  type Time = int

  const SECOND := 1_000_000_000
  const MAX_TTL: Time := 30 * SECOND
  const MAX_INT64 := 0x7fff_ffff_ffff_ffff
  const MIN_INT64 := -0x8000_0000_0000_0000
  const TWO_32 := 0x1_0000_0000

  datatype Key = Key(qname: string, qtype: nat, zone: string)

  function MakeKey(qname: string, qtype: nat, zone: string): Key {
    Key(ToLower(qname), qtype, zone)
  }

  /** Two lookups share a key exactly when they agree on the name, case aside, the type and the zone. */
  lemma KeyIff(a: string, ta: nat, za: string, b: string, tb: nat, zb: string)
    ensures MakeKey(a, ta, za) == MakeKey(b, tb, zb) <==> EqualFold(a, b) && ta == tb && za == zb
  {
    EqualFoldIsEqualLower(a, b);
  }

  datatype Entry = Entry(msg: Msg, expiry: Time)

  // ---------------------------------------------------------------------
  // Lifetimes
  // ---------------------------------------------------------------------

  /** The smallest TTL among the records. */
  function MinTtl(rrs: seq<RR>): Uint32
    requires rrs != []
  {
    var n := |rrs| - 1;
    if n == 0 then rrs[0].ttl
    else
      var t := MinTtl(rrs[..n]);
      if rrs[n].ttl < t then rrs[n].ttl else t
  }

  lemma {:induction false} MinTtlIsLeast(rrs: seq<RR>)
    requires rrs != []
    ensures forall i :: 0 <= i < |rrs| ==> MinTtl(rrs) <= rrs[i].ttl
    ensures exists i :: 0 <= i < |rrs| && MinTtl(rrs) == rrs[i].ttl
  {
    var n := |rrs| - 1;
    if n == 0 {
      assert MinTtl(rrs) == rrs[0].ttl;
    } else {
      MinTtlIsLeast(rrs[..n]);
      var i :| 0 <= i < n && MinTtl(rrs[..n]) == rrs[..n][i].ttl;
      assert MinTtl(rrs) == rrs[i].ttl || MinTtl(rrs) == rrs[n].ttl;
    }
  }

  predicate Cacheable(m: Msg) {
    m.answer != [] && MinTtl(m.answer) != 0
  }

  /** How long an answer may live here: its smallest Answer TTL, capped. */
  function Lifetime(m: Msg): (d: Time)
    requires Cacheable(m)
    ensures 0 < d <= MAX_TTL
  {
    var ttl := MinTtl(m.answer) * SECOND;
    if ttl > MAX_TTL then MAX_TTL else ttl
  }

  /** An answer is kept exactly if it has Answer records and none of them has TTL 0. */
  lemma CacheableIff(m: Msg)
    ensures Cacheable(m) <==> m.answer != [] && forall i :: 0 <= i < |m.answer| ==> m.answer[i].ttl > 0
  {
    if m.answer != [] {
      MinTtlIsLeast(m.answer);
    }
  }

  /** The lifetime is the longest one that outlasts neither the cap nor any Answer record. */
  lemma LifetimeIsLongest(m: Msg, d: Time)
    requires Cacheable(m)
    ensures d <= Lifetime(m) <==> d <= MAX_TTL && forall i :: 0 <= i < |m.answer| ==> d <= m.answer[i].ttl * SECOND
  {
    MinTtlIsLeast(m.answer);
    var k :| 0 <= k < |m.answer| && MinTtl(m.answer) == m.answer[k].ttl;
    assert MinTtl(m.answer) * SECOND == m.answer[k].ttl * SECOND;
  }

  function EntryFor(m: Msg, now: Time): Entry
    requires Cacheable(m)
  {
    Entry(m, now + Lifetime(m))
  }

  /** Subtraction of times, which saturates at the ends of a 64-bit duration. */
  function Sub(a: Time, b: Time): Time {
    if a - b > MAX_INT64 then MAX_INT64 else if a - b < MIN_INT64 then MIN_INT64 else a - b
  }

  predicate Fresh(e: Entry, now: Time) {
    Sub(e.expiry, now) > 0
  }

  /** Whole seconds left, converted to 32 bits by dropping the high bits. */
  function ServedTtl(e: Entry, now: Time): Uint32
    requires Fresh(e, now)
  {
    (Sub(e.expiry, now) / SECOND) % TWO_32
  }

  function SetAllTtl(rrs: seq<RR>, ttl: Uint32): (r: seq<RR>)
    ensures |r| == |rrs|
  {
    seq(|rrs|, i requires 0 <= i < |rrs| => WithTtl(rrs[i], ttl))
  }

  function SetDataTtl(rrs: seq<RR>, ttl: Uint32): (r: seq<RR>)
    ensures |r| == |rrs|
  {
    seq(|rrs|, i requires 0 <= i < |rrs| => WithTtlUnlessOpt(rrs[i], ttl))
  }

  /** `m` with `ttl` in every Answer, authority and non-OPT additional record. */
  function WithTtls(m: Msg, ttl: Uint32): Msg {
    m.(answer := SetAllTtl(m.answer, ttl), ns := SetAllTtl(m.ns, ttl), extra := SetDataTtl(m.extra, ttl))
  }

  /** The message a hit hands out. */
  function Served(e: Entry, now: Time): Msg
    requires Fresh(e, now)
  {
    WithTtls(e.msg, ServedTtl(e, now))
  }

  /** Looking a key up in a cache's contents. */
  function Lookup(entries: map<Key, Entry>, k: Key, now: Time): Option<Msg> {
    if k in entries && Fresh(entries[k], now) then Some(Served(entries[k], now)) else None
  }

  /** A hit carries the stored answer's rcode and record data; OPT flags included. */
  lemma ServedContent(e: Entry, now: Time)
    requires Fresh(e, now)
    ensures SameContent(Served(e, now), e.msg)
    ensures Served(e, now).question == e.msg.question
    ensures forall i :: 0 <= i < |e.msg.extra| && e.msg.extra[i].Opt? ==> Served(e, now).extra[i] == e.msg.extra[i]
  {
  }

  /** Converting the capped TTL to a duration and the remainder to 32 bits loses nothing. */
  lemma TtlExact(m: Msg, put: Time, now: Time)
    requires Cacheable(m) && put <= now
    ensures MinTtl(m.answer) * SECOND <= MAX_INT64
    ensures Fresh(EntryFor(m, put), now) <==> now < put + Lifetime(m)
    ensures now < put + Lifetime(m) ==>
      ServedTtl(EntryFor(m, put), now) == (put + Lifetime(m) - now) / SECOND <= 30
  {
  }

  /** Every record of a hit but the OPT record carries the seconds left, be that less or more than it was given. */
  lemma ServedTtls(m: Msg, put: Time, now: Time)
    requires Cacheable(m) && put <= now && Fresh(EntryFor(m, put), now)
    ensures var out := Served(EntryFor(m, put), now);
      var left := (put + Lifetime(m) - now) / 1_000_000_000;
      && (forall i :: 0 <= i < |m.answer| ==> out.answer[i].ttl == left)
      && (forall i :: 0 <= i < |m.ns| ==> out.ns[i].ttl == left)
      && (forall i :: 0 <= i < |m.extra| && !m.extra[i].Opt? ==> out.extra[i].ttl == left)
      && (forall i :: 0 <= i < |m.extra| && m.extra[i].Opt? ==> out.extra[i] == m.extra[i])
  {
    TtlExact(m, put, now);
  }

  /**
   The bounds a client can rely on for Answer records: no served TTL exceeds its
   original or 30, and the moment it runs out is no later than the stored answer's
   own end of life.
   */
  lemma AnswerTtlBounds(m: Msg, put: Time, now: Time, i: nat)
    requires Cacheable(m) && put <= now && Fresh(EntryFor(m, put), now)
    requires i < |m.answer|
    ensures var ttl := Served(EntryFor(m, put), now).answer[i].ttl;
      && ttl <= m.answer[i].ttl
      && ttl <= 30
      && now + ttl * SECOND <= put + MinTtl(m.answer) * SECOND
      && now + ttl * SECOND <= put + MAX_TTL
      && (now - put) + ttl * SECOND <= m.answer[i].ttl * SECOND
  {
    TtlExact(m, put, now);
    MinTtlIsLeast(m.answer);
  }

  /** Whenever the clock was read, the served TTLs run out no later than the entry. */
  lemma ServedTtlWithinExpiry(e: Entry, now: Time)
    requires Fresh(e, now)
    ensures forall rr :: rr in Served(e, now).answer ==> now + rr.ttl * SECOND <= e.expiry
  {
    var secs := Sub(e.expiry, now) / SECOND;
    assert ServedTtl(e, now) <= secs;
    assert secs * SECOND <= Sub(e.expiry, now);
  }

  /** As time passes the served TTL never grows, and a miss stays a miss. */
  lemma ServedTtlNeverGrows(m: Msg, put: Time, now: Time, later: Time)
    requires Cacheable(m) && put <= now <= later
    requires Fresh(EntryFor(m, put), later)
    ensures Fresh(EntryFor(m, put), now)
    ensures ServedTtl(EntryFor(m, put), later) <= ServedTtl(EntryFor(m, put), now)
  {
    TtlExact(m, put, now);
    TtlExact(m, put, later);
    DivMonotone(put + Lifetime(m) - later, put + Lifetime(m) - now);
  }

  lemma DivMonotone(a: int, b: int)
    requires 0 <= a <= b
    ensures a / SECOND <= b / SECOND
  {
  }

  /** A clock read before another goroutine's Put can yield a TTL above the cap. */
  lemma EarlierClockRaisesTtl()
    ensures var m := EMPTY_MSG.(answer := [Record("a.", TYPE_A, CLASS_INET, 30, Raw(""))]);
      && Cacheable(m)
      && Fresh(EntryFor(m, 5 * SECOND), 3 * SECOND)
      && ServedTtl(EntryFor(m, 5 * SECOND), 3 * SECOND) == 32
  {
  }

  /** Every Answer record of a hit keeps the promise: at most its original TTL and at most 30. */
  predicate AnswersInBounds(m: Msg, put: Time, now: Time)
    requires Cacheable(m) && Fresh(EntryFor(m, put), now)
  {
    var out := Served(EntryFor(m, put), now);
    forall i :: 0 <= i < |m.answer| ==> out.answer[i].ttl <= m.answer[i].ttl && out.answer[i].ttl <= 30
  }

  /** All Answer records carry the one TTL, so the promise is a bound on it: the lifetime in seconds. */
  lemma InBoundsIffTtl(m: Msg, put: Time, now: Time)
    requires Cacheable(m) && Fresh(EntryFor(m, put), now)
    ensures AnswersInBounds(m, put, now) <==> ServedTtl(EntryFor(m, put), now) <= Lifetime(m) / SECOND
  {
    var ttl := ServedTtl(EntryFor(m, put), now);
    LifetimeSeconds(m);
    LifetimeIsLongest(m, ttl * SECOND);
    assert forall i :: 0 <= i < |m.answer| ==> Served(EntryFor(m, put), now).answer[i].ttl == ttl;
  }

  /**
   How the clock reading may relate to the put time. A reading up to a second early
   does no harm. An earlier one shows the seconds it is early by on top of the
   lifetime, unless dropping the high bits of that number happens to undo it.
   */
  predicate ReadingHarmless(m: Msg, put: Time, now: Time)
    requires Cacheable(m)
  {
    var early := (put - now) / SECOND;
    && put + Lifetime(m) - now <= MAX_INT64
    && (early < 0 || early % TWO_32 == 0 || early % TWO_32 >= TWO_32 - Lifetime(m) / SECOND)
  }

  /** The promise about Answer TTLs holds for a hit if and only if its clock reading is harmless. */
  lemma AnswersInBoundsIff(m: Msg, put: Time, now: Time)
    requires Cacheable(m) && Fresh(EntryFor(m, put), now)
    ensures AnswersInBounds(m, put, now) <==> ReadingHarmless(m, put, now)
  {
    var secs, early := Lifetime(m) / SECOND, (put - now) / SECOND;
    InBoundsIffTtl(m, put, now);
    LifetimeSeconds(m);
    assert 0 < secs <= 30;
    if put + Lifetime(m) - now <= MAX_INT64 {
      DivShift(put - now, secs);
      assert ServedTtl(EntryFor(m, put), now) == (early + secs) % TWO_32;
      ShiftedRemainder(early, secs);
    }
  }

  /** Within 136 years of the put time: exactly the readings less than a second early. */
  lemma NearReadingInBoundsIff(m: Msg, put: Time, now: Time)
    requires Cacheable(m) && Fresh(EntryFor(m, put), now)
    requires put - now < (TWO_32 - 31) * SECOND
    ensures AnswersInBounds(m, put, now) <==> put - now < SECOND
  {
    AnswersInBoundsIff(m, put, now);
    LifetimeSeconds(m);
  }

  lemma DivShift(x: int, k: int)
    ensures (x + k * SECOND) / SECOND == x / SECOND + k
  {
  }

  lemma ShiftedRemainder(early: int, secs: int)
    requires 0 < secs <= 30 && early + secs >= 0
    ensures (early + secs) % TWO_32 <= secs <==>
      early < 0 || early % TWO_32 == 0 || early % TWO_32 >= TWO_32 - secs
  {
    if early >= 0 {
      var r := early % TWO_32;
      assert (early + secs) % TWO_32 == if r + secs < TWO_32 then r + secs else r + secs - TWO_32;
    }
  }

  // ---------------------------------------------------------------------
  // "The elapsed time subtracted from every record's TTL"
  // ---------------------------------------------------------------------

  /** No record of a hit at `now` lives longer than it was given. */
  predicate NoTtlRaised(m: Msg, put: Time, now: Time)
    requires Cacheable(m) && Fresh(EntryFor(m, put), now)
  {
    var out := Served(EntryFor(m, put), now);
    && (forall i :: 0 <= i < |m.answer| ==> out.answer[i].ttl <= m.answer[i].ttl)
    && (forall i :: 0 <= i < |m.ns| ==> out.ns[i].ttl <= m.ns[i].ttl)
    && (forall i :: 0 <= i < |m.extra| ==> out.extra[i].ttl <= m.extra[i].ttl)
  }

  /** Every authority and additional record (OPT aside) was given at least the cached lifetime. */
  predicate SideRecordsOutlive(m: Msg)
    requires Cacheable(m)
  {
    && (forall i :: 0 <= i < |m.ns| ==> Lifetime(m) <= m.ns[i].ttl * SECOND)
    && (forall i :: 0 <= i < |m.extra| && !m.extra[i].Opt? ==> Lifetime(m) <= m.extra[i].ttl * SECOND)
  }

  /** The lifetime is a whole number of seconds. */
  lemma LifetimeSeconds(m: Msg)
    requires Cacheable(m)
    ensures Lifetime(m) == (Lifetime(m) / SECOND) * SECOND
  {
  }

  /**
   Which messages keep that promise: a hit right after the Put raises no record
   exactly when every side record was given at least the cached lifetime, and then
   no later hit raises one either.
   */
  lemma NoTtlRaisedIff(m: Msg, put: Time)
    requires Cacheable(m)
    ensures (forall now :: put <= now && Fresh(EntryFor(m, put), now) ==> NoTtlRaised(m, put, now)) <==>
      SideRecordsOutlive(m)
  {
    var secs := Lifetime(m) / SECOND;
    LifetimeSeconds(m);
    TtlExact(m, put, put);
    assert ServedTtl(EntryFor(m, put), put) == secs;
    if SideRecordsOutlive(m) {
      forall now | put <= now && Fresh(EntryFor(m, put), now) ensures NoTtlRaised(m, put, now) {
        ServedTtlNeverGrows(m, put, put, now);
        forall i | 0 <= i < |m.answer|
          ensures Served(EntryFor(m, put), now).answer[i].ttl <= m.answer[i].ttl
        {
          AnswerTtlBounds(m, put, now, i);
        }
      }
    } else {
      assert !NoTtlRaised(m, put, put) by {
        var out := Served(EntryFor(m, put), put);
        if i :| 0 <= i < |m.ns| && m.ns[i].ttl < secs {
          assert out.ns[i].ttl == secs;
        } else {
          var i :| 0 <= i < |m.extra| && !m.extra[i].Opt? && m.extra[i].ttl < secs;
          assert out.extra[i].ttl == secs;
        }
      }
    }
  }

  /** An authority record given 5 seconds is served with 30. */
  lemma AuthorityTtlRaised()
    ensures var m := EMPTY_MSG.(
          answer := [Record("a.", TYPE_A, CLASS_INET, 60, Raw(""))],
          ns := [Record("b.", 2, CLASS_INET, 5, Raw(""))]);
      && Cacheable(m)
      && Fresh(EntryFor(m, 0), 0)
      && Served(EntryFor(m, 0), 0).ns[0].ttl == 30
  {
  }

  // ---------------------------------------------------------------------
  // Histories
  // ---------------------------------------------------------------------

  datatype Op =
    | PutOp(qname: string, qtype: nat, zone: string, msg: Msg, now: Time)
    | GetOp(qname: string, qtype: nat, zone: string, now: Time)

  /** `a` holds nothing that `b` does not. */
  predicate Within(a: map<Key, Entry>, b: map<Key, Entry>) {
    forall k :: k in a ==> k in b && a[k] == b[k]
  }

  /** The contents after an accepted Put, before anything is evicted. */
  function Stored(before: map<Key, Entry>, k: Key, m: Msg, now: Time): map<Key, Entry>
    requires Cacheable(m)
  {
    before[k := EntryFor(m, now)]
  }

  /** An answer of this age, in nanoseconds, is still good: 30 seconds and every Answer record's TTL have not passed. */
  predicate Lasts(m: Msg, age: Time) {
    age < 30_000_000_000 && forall i :: 0 <= i < |m.answer| ==> age < m.answer[i].ttl * 1_000_000_000
  }

  /**
   What is put is found: under every key and whatever else is cached, a lookup of the key
   hits exactly while the answer lasts, and then has the stored content.
   */
  lemma FoundIff(before: map<Key, Entry>, k: Key, m: Msg, put: Time, now: Time)
    requires Cacheable(m)
    ensures var hit := Lookup(Stored(before, k, m, put), k, now);
      && (hit.Some? <==> Lasts(m, now - put))
      && (hit.Some? ==> SameContent(hit.value, m) && hit.value.question == m.question)
  {
    var e := EntryFor(m, put);
    LifetimeIsLongest(m, now - put + 1);
    assert Fresh(e, now) <==> now - put + 1 <= Lifetime(m);
    if Fresh(e, now) {
      ServedContent(e, now);
    }
  }

  /** The other keys of the cache are found as before. */
  lemma OthersFound(before: map<Key, Entry>, k: Key, m: Msg, put: Time, other: Key, now: Time)
    requires Cacheable(m) && other != k
    ensures Lookup(Stored(before, k, m, put), other, now) == Lookup(before, other, now)
  {
  }

  /** One operation, with any eviction whatsoever. */
  predicate Step(before: map<Key, Entry>, op: Op, after: map<Key, Entry>) {
    match op
    case GetOp(_, _, _, _) => Within(after, before)
    case PutOp(qname, qtype, zone, m, now) =>
      if Cacheable(m) then Within(after, Stored(before, MakeKey(qname, qtype, zone), m, now))
      else Within(after, before)
  }

  /** `states` are contents a cache can go through, from empty, under `ops`. */
  predicate History(ops: seq<Op>, states: seq<map<Key, Entry>>) {
    && |states| == |ops| + 1
    && states[0] == map[]
    && forall i :: 0 <= i < |ops| ==> Step(states[i], ops[i], states[i + 1])
  }

  predicate Writes(op: Op, k: Key) {
    op.PutOp? && Cacheable(op.msg) && MakeKey(op.qname, op.qtype, op.zone) == k
  }

  /** The entry of the last accepted Put for `k`. */
  function LastPut(ops: seq<Op>, k: Key): Option<Entry> {
    if ops == [] then None
    else
      var n := |ops| - 1;
      if Writes(ops[n], k) then Some(EntryFor(ops[n].msg, ops[n].now)) else LastPut(ops[..n], k)
  }

  /** Whatever is evicted, an entry present is the one its key's last accepted Put made. */
  lemma {:induction false} HistoryHoldsLastPut(ops: seq<Op>, states: seq<map<Key, Entry>>, k: Key)
    requires History(ops, states)
    requires k in states[|ops|]
    ensures LastPut(ops, k) == Some(states[|ops|][k])
  {
    var n := |ops| - 1;
    if n >= 0 {
      assert Step(states[n], ops[n], states[n + 1]);
      if !Writes(ops[n], k) {
        assert k in states[n] && states[n][k] == states[n + 1][k];
        assert History(ops[..n], states[..n + 1]);
        HistoryHoldsLastPut(ops[..n], states[..n + 1], k);
      }
    }
  }

  /** The operations that name zone `z`. */
  function ForZone(ops: seq<Op>, z: string): seq<Op> {
    if ops == [] then []
    else
      var n := |ops| - 1;
      ForZone(ops[..n], z) + if ops[n].zone == z then [ops[n]] else []
  }

  /** A key's last Put is found among its own zone's operations. */
  lemma {:induction false} LastPutIgnoresOtherZones(ops: seq<Op>, k: Key)
    ensures LastPut(ForZone(ops, k.zone), k) == LastPut(ops, k)
  {
    if ops != [] {
      var n := |ops| - 1;
      var before := ForZone(ops[..n], k.zone);
      LastPutIgnoresOtherZones(ops[..n], k);
      if ops[n].zone == k.zone {
        assert (before + [ops[n]])[..|before|] == before;
      } else {
        assert before + [] == before;
      }
    }
  }

  /**
   Non-interference: two histories that agree on zone `z`, whatever they do for
   other zones and whatever each evicts, cannot give different answers to the
   same lookup in `z`; a difference can only be a miss.
   */
  lemma NonInterference(
    ops1: seq<Op>, states1: seq<map<Key, Entry>>,
    ops2: seq<Op>, states2: seq<map<Key, Entry>>,
    qname: string, qtype: nat, z: string, now: Time)
    requires History(ops1, states1) && History(ops2, states2)
    requires ForZone(ops1, z) == ForZone(ops2, z)
    ensures var k := MakeKey(qname, qtype, z);
      var r1, r2 := Lookup(states1[|ops1|], k, now), Lookup(states2[|ops2|], k, now);
      r1.Some? && r2.Some? ==> r1 == r2
  {
    var k := MakeKey(qname, qtype, z);
    LastPutIgnoresOtherZones(ops1, k);
    LastPutIgnoresOtherZones(ops2, k);
    if k in states1[|ops1|] && k in states2[|ops2|] {
      HistoryHoldsLastPut(ops1, states1, k);
      HistoryHoldsLastPut(ops2, states2, k);
    }
  }

  /** The bucket for sources without a zone is no zone's bucket. */
  lemma UndeclaredBucketIsSeparate(qname: string, qname': string, qtype: nat, z: string)
    requires Ednszone.ValidZone(z)
    ensures MakeKey(qname, qtype, z) != MakeKey(qname', qtype, "")
  {
  }

  // ---------------------------------------------------------------------
  // The cache itself
  // ---------------------------------------------------------------------

  datatype Slot = Slot(msg: Message, expiry: Time)

  /** The contents after an accepted Put into the LRU: when full, the oldest key makes room. */
  function LruStored(before: map<Key, Entry>, lru: Lru.Lru<Key, Slot>, k: Key, e: Entry): map<Key, Entry> {
    before[k := e] - Lru.Evicted(lru, k)
  }

  /** LRU eviction is one of the evictions the histories allow. */
  lemma LruStoredIsStep(before: map<Key, Entry>, lru: Lru.Lru<Key, Slot>, op: Op)
    requires op.PutOp? && Cacheable(op.msg)
    ensures Step(before, op, LruStored(before, lru, MakeKey(op.qname, op.qtype, op.zone), EntryFor(op.msg, op.now)))
  {
  }

  /** The lookup of `k` is a use of it in the LRU's order. */
  ghost predicate Touched(l: Lru.Lru<Key, Slot>, l': Lru.Lru<Key, Slot>, k: Key) {
    l.WellFormed() && l' == Lru.Used(l, Lru.Got(k))
  }

  /** So is putting `k`. */
  ghost predicate PutFirst(l: Lru.Lru<Key, Slot>, l': Lru.Lru<Key, Slot>, k: Key) {
    l.WellFormed() && k in l'.items && l' == Lru.Used(l, Lru.Added(k, l'.items[k]))
  }

  lemma AddedIsFirst(l: Lru.Lru<Key, Slot>, k: Key, s: Slot)
    requires l.WellFormed()
    ensures PutFirst(l, Lru.Add(l, k, s), k)
  {
    Lru.ListedOnce(l, if l.recency == [] then k else l.recency[|l.recency| - 1]);
    assert k !in Lru.Evicted(l, k);
    assert Lru.Add(l, k, s).items[k] == s;
  }

  /** The first half of Put: how long the message may be kept, 0 meaning not at all. */
  method KeepFor(m: Msg) returns (ttl: Time)
    ensures ttl == if Cacheable(m) then Lifetime(m) else 0
  {
    if |m.answer| == 0 {
      return 0;
    }
    var minTTL := m.answer[0].ttl;
    for i := 1 to |m.answer|
      invariant minTTL == MinTtl(m.answer[..i])
    {
      assert m.answer[..i + 1][..i] == m.answer[..i];
      if m.answer[i].ttl < minTTL {
        minTTL := m.answer[i].ttl;
      }
    }
    assert m.answer[..|m.answer|] == m.answer;
    if minTTL == 0 {
      return 0;
    }
    ttl := minTTL * SECOND;
    if ttl > MAX_TTL {
      ttl := MAX_TTL;
    }
  }

  /** One of the three loops of Get: writes `ttl` into each record in turn, OPT records excepted if asked. */
  method RewriteSection(section: seq<RR>, ttl: Uint32, keepOpt: bool) returns (r: seq<RR>)
    ensures r == if keepOpt then SetDataTtl(section, ttl) else SetAllTtl(section, ttl)
  {
    r := section;
    for i := 0 to |section|
      invariant |r| == |section|
      invariant forall j :: 0 <= j < i ==>
        r[j] == if keepOpt then WithTtlUnlessOpt(section[j], ttl) else WithTtl(section[j], ttl)
      invariant forall j :: i <= j < |section| ==> r[j] == section[j]
    {
      if !keepOpt || !r[i].Opt? {
        r := r[i := WithTtl(r[i], ttl)];
      }
    }
  }

  /** Writes `ttl` into every Answer, authority and non-OPT additional record of the message. */
  method RewriteTtls(out: Message, ttl: Uint32)
    modifies out
    ensures out.v == WithTtls(old(out.v), ttl)
  {
    var answer := RewriteSection(out.v.answer, ttl, false);
    var ns := RewriteSection(out.v.ns, ttl, false);
    var extra := RewriteSection(out.v.extra, ttl, true);
    out.v := out.v.(answer := answer, ns := ns, extra := extra);
  }

  /** The slots hold, in messages from `owned`, exactly the given contents. */
  ghost predicate Holds(items: map<Key, Slot>, entries: map<Key, Entry>, owned: set<Message>)
    reads owned
  {
    && (forall k :: k in entries ==> k in items)
    && (forall k :: k in items ==>
          k in entries && items[k].msg in owned && entries[k] == Entry(items[k].msg.v, items[k].expiry))
  }

  lemma HoldsAfterAdd(items: map<Key, Slot>, entries: map<Key, Entry>, owned: set<Message>,
                      k: Key, s: Slot, gone: set<Key>)
    requires Holds(items, entries, owned)
    ensures Holds(items[k := s] - gone, entries[k := Entry(s.msg.v, s.expiry)] - gone, owned + {s.msg})
  {
    var items', entries' := items[k := s] - gone, entries[k := Entry(s.msg.v, s.expiry)] - gone;
    assert items'.Keys == (items.Keys + {k}) - gone;
    assert entries'.Keys == (entries.Keys + {k}) - gone;
  }

  class Cache {
    var l: Lru.Lru<Key, Slot>
    /** The contents, as values. */
    ghost var Entries: map<Key, Entry>
    /** The messages only the cache refers to. */
    ghost var Owned: set<Message>

    ghost predicate Valid()
      reads this, Owned
    {
      l.WellFormed() && Holds(l.items, Entries, Owned)
    }

    constructor (maxEntries: nat)
      requires maxEntries > 0
      ensures Valid() && Owned == {} && Entries == map[] && l.capacity == maxEntries
    {
      l, Entries, Owned := Lru.Empty(maxEntries), map[], {};
    }

    /** Stores a copy, so that what the caller later does to `m` does not reach the cache. */
    method Put(qname: string, qtype: nat, zone: string, m: Message?, now: Time)
      requires Valid()
      modifies this
      ensures Valid() && fresh(Owned - old(Owned))
      ensures if m != null && Cacheable(m.v)
        then Entries == LruStored(old(Entries), old(l), MakeKey(qname, qtype, zone), EntryFor(m.v, now))
        else Entries == old(Entries) && l == old(l)
      ensures m != null && Cacheable(m.v) ==> PutFirst(old(l), l, MakeKey(qname, qtype, zone))
    {
      if m == null {
        return;
      }
      var ttl := KeepFor(m.v);
      if ttl == 0 {
        return;
      }
      var copy := m.Copy();
      Add(MakeKey(qname, qtype, zone), copy, now + ttl, EntryFor(m.v, now));
    }

    method Add(k: Key, msg: Message, expiry: Time, ghost e: Entry)
      requires Valid() && e == Entry(msg.v, expiry)
      modifies this
      ensures Valid() && Owned == old(Owned) + {msg}
      ensures Entries == LruStored(old(Entries), old(l), k, e)
      ensures PutFirst(old(l), l, k)
    {
      ghost var entries, owned := LruStored(Entries, l, k, e), Owned + {msg};
      var added := Lru.Add(l, k, Slot(msg, expiry));
      assert Holds(added.items, entries, owned) by {
        HoldsAfterAdd(l.items, Entries, Owned, k, Slot(msg, expiry), Lru.Evicted(l, k));
      }
      AddedIsFirst(l, k, Slot(msg, expiry));
      l, Entries, Owned := added, entries, owned;
    }

    /** Hands out a copy with the remaining seconds written into it. */
    method Get(qname: string, qtype: nat, zone: string, now: Time) returns (out: Message?)
      requires Valid()
      modifies this`l
      ensures Valid()
      ensures l.items == old(l).items && Touched(old(l), l, MakeKey(qname, qtype, zone))
      ensures Lru.Evicted(l, MakeKey(qname, qtype, zone)) == Lru.Evicted(old(l), MakeKey(qname, qtype, zone))
      ensures out != null ==> fresh(out)
      ensures Lookup(Entries, MakeKey(qname, qtype, zone), now) ==
        if out == null then None else Some(out.v)
    {
      var k := MakeKey(qname, qtype, zone);
      if k !in l.items {
        return null;
      }
      l := Lru.Touch(l, k);
      var e := l.items[k];
      var remaining := Sub(e.expiry, now);
      if remaining <= 0 {
        return null;
      }
      out := e.msg.Copy();
      RewriteTtls(out, (remaining / SECOND) % TWO_32);
    }
  }

  /** Builds a cache; a size that is not positive is refused. */
  method New(maxEntries: int) returns (c: Cache?)
    ensures c == null <==> maxEntries <= 0
    ensures c != null ==> fresh(c) && c.Valid() && c.Entries == map[] && c.l.capacity == maxEntries
  {
    if maxEntries <= 0 {
      return null;
    }
    c := new Cache(maxEntries);
  }
}
