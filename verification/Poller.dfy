/**
 Polling SPIRE for entries (internal/registry/spire.go): one paginated fetch
 against a server that may answer anything, and the polling loop around it.
 */
module Poller {
  import opened Wrappers
  import opened Registry

  const MAX_POLL_PAGES := 10000

  datatype PageResult = Page(entries: seq<Entry>, next: string) | ListError

  /**
   Any server at all: its answer may depend on every token it was asked for in
   this poll, the current one last.
   */
  type Lister = seq<string> -> PageResult

  datatype Outcome = Success(stats: Stats) | Failure

  /** The three ways a poll fails. */
  datatype Reason = ListFailed | TokenRepeated(token: string) | TooManyPages

  // ---------------------------------------------------------------------
  // Token chains
  // ---------------------------------------------------------------------

  /** `ts` are tokens a poll asks for, each but the first handed out by the page before it. */
  ghost predicate Chain(l: Lister, ts: seq<string>) {
    && (ts != [] ==> ts[0] == "")
    && forall i :: 0 < i < |ts| ==> Follows(l, ts, i)
  }

  ghost predicate Follows(l: Lister, ts: seq<string>, i: nat)
    requires 0 < i < |ts|
  {
    l(ts[..i]).Page? && l(ts[..i]).next == ts[i] && ts[i] != ""
  }

  /** The chain is at its end: the last page names no successor. */
  ghost predicate Ended(l: Lister, ts: seq<string>) {
    ts != [] && Chain(l, ts) && l(ts).Page? && l(ts).next == ""
  }

  ghost predicate NoRepeat(ts: seq<string>) {
    forall i, j :: 0 <= i < j < |ts| ==> ts[i] != ts[j]
  }

  /** The server lets this poll finish: a chain that ends in time and never repeats a token. */
  ghost predicate Finishes(l: Lister, ts: seq<string>) {
    Ended(l, ts) && NoRepeat(ts) && |ts| <= MAX_POLL_PAGES
  }

  /** The pages along a chain of answered requests. */
  ghost function PagesAlong(l: Lister, ts: seq<string>): seq<Entry> {
    if ts == [] then []
    else PagesAlong(l, ts[..|ts| - 1]) + match l(ts) case Page(es, _) => es case ListError => []
  }

  /** Two chains on the same server run together as long as both last. */
  lemma {:induction false} ChainsAgree(l: Lister, ts: seq<string>, us: seq<string>, k: nat)
    requires Chain(l, ts) && Chain(l, us)
    requires k <= |ts| && k <= |us|
    ensures ts[..k] == us[..k]
  {
    if k > 0 {
      ChainsAgree(l, ts, us, k - 1);
      assert ts[..k] == ts[..k - 1] + [ts[k - 1]];
      assert us[..k] == us[..k - 1] + [us[k - 1]];
      if k > 1 {
        assert Follows(l, ts, k - 1) && Follows(l, us, k - 1);
      }
    }
  }

  /** A chain that ended is the longest one, and any chain is part of it. */
  lemma EndedIsLongest(l: Lister, ts: seq<string>, us: seq<string>)
    requires Ended(l, ts) && Chain(l, us)
    ensures |us| <= |ts| && us == ts[..|us|]
  {
    var k := if |us| <= |ts| then |us| else |ts|;
    ChainsAgree(l, ts, us, k);
    assert us[..|us|] == us && ts[..|ts|] == ts;
    assert |us| > |ts| ==> Follows(l, us, |ts|);
  }

  /** At most one chain ends. */
  lemma EndedUnique(l: Lister, ts: seq<string>, us: seq<string>)
    requires Ended(l, ts) && Ended(l, us)
    ensures ts == us
  {
    EndedIsLongest(l, ts, us);
    EndedIsLongest(l, us, ts);
  }

  // ---------------------------------------------------------------------
  // One poll
  // ---------------------------------------------------------------------

  /** Why a poll that asked for `ts` gave up. */
  ghost predicate GaveUp(l: Lister, ts: seq<string>, why: Reason) {
    && ts != [] && Chain(l, ts) && NoRepeat(ts)
    && match why
       case ListFailed => l(ts).ListError?
       case TokenRepeated(t) => |ts| < MAX_POLL_PAGES && l(ts).Page? && l(ts).next == t && t in ts && t != ""
       case TooManyPages => |ts| == MAX_POLL_PAGES && l(ts).Page? && l(ts).next != ""
  }

  /** A poll that gave up could not have finished. */
  lemma GaveUpJustified(l: Lister, ts: seq<string>, why: Reason, us: seq<string>)
    requires GaveUp(l, ts, why)
    ensures !Finishes(l, us)
  {
    if Ended(l, us) {
      EndedIsLongest(l, us, ts);
      assert us[..|us|] == us;
      assert |ts| < |us| ==> Follows(l, us, |ts|);
    }
  }

  lemma ChainExtends(l: Lister, ts: seq<string>, next: string)
    requires Chain(l, ts)
    requires if ts == [] then next == "" else l(ts).Page? && l(ts).next == next && next != ""
    ensures Chain(l, ts + [next])
  {
    var us := ts + [next];
    forall i | 0 < i < |us| ensures Follows(l, us, i) {
      if i < |ts| {
        assert us[..i] == ts[..i];
        assert Follows(l, ts, i);
      } else {
        assert us[..i] == ts;
      }
    }
  }

  /** Where the loop stands before a request for `token`. */
  ghost predicate Pending(l: Lister, asked: seq<string>, token: string, all: seq<Entry>) {
    && Chain(l, asked) && NoRepeat(asked)
    && (if asked == [] then token == "" else l(asked).Page? && l(asked).next == token && token != "")
    && all == PagesAlong(l, asked)
  }

  lemma PendingNext(l: Lister, asked: seq<string>, token: string, all: seq<Entry>)
    requires Pending(l, asked, token, all) && token !in asked
    ensures Chain(l, asked + [token]) && NoRepeat(asked + [token])
    ensures l(asked + [token]).Page? ==> all + l(asked + [token]).entries == PagesAlong(l, asked + [token])
  {
    ChainExtends(l, asked, token);
    assert (asked + [token])[..|asked|] == asked;
  }

  /** The pagination loop: what it fetches, and which tokens it asks for. */
  method Fetch(l: Lister) returns (ok: bool, ghost why: Reason, all: seq<Entry>, asked: seq<string>)
    ensures Chain(l, asked) && NoRepeat(asked) && 0 < |asked| <= 10000
    ensures ok ==> Finishes(l, asked) && all == PagesAlong(l, asked)
    ensures !ok ==> GaveUp(l, asked, why)
  {
    all, asked, ok, why := [], [], false, TooManyPages;
    var seenTokens: set<string> := {};
    var token := "";
    var pages := 0;
    while true
      invariant pages == |asked| <= MAX_POLL_PAGES
      invariant Pending(l, asked, token, all)
      invariant forall t :: t in seenTokens <==> t in asked && t != ""
      decreases MAX_POLL_PAGES - pages
    {
      if pages >= MAX_POLL_PAGES {
        return;
      }
      if token != "" {
        if token in seenTokens {
          why := TokenRepeated(token);
          return;
        }
        seenTokens := seenTokens + {token};
      }
      PendingNext(l, asked, token, all);
      asked := asked + [token];
      var r := l(asked);
      if r.ListError? {
        why := ListFailed;
        return;
      }
      all := all + r.entries;
      if r.next == "" {
        ok := true;
        return;
      }
      token := r.next;
      pages := pages + 1;
    }
  }

  // ---------------------------------------------------------------------
  // Well-behaved servers
  // ---------------------------------------------------------------------

  /** The server's page depends on the token alone. */
  ghost predicate Stateless(l: Lister, f: string -> PageResult) {
    forall h: seq<string> :: h != [] ==> l(h) == f(h[|h| - 1])
  }

  /** If a stateless server hands out a token twice, everything after repeats too. */
  lemma {:induction false} RepeatPropagates(l: Lister, f: string -> PageResult, ts: seq<string>, i: nat, j: nat, d: nat)
    requires Stateless(l, f) && Chain(l, ts)
    requires i < j && j + d < |ts|
    ensures ts[i] == ts[j] ==> ts[i + d] == ts[j + d]
  {
    if d > 0 {
      RepeatPropagates(l, f, ts, i, j, d - 1);
      assert Follows(l, ts, i + d) && Follows(l, ts, j + d);
      assert l(ts[..i + d]) == f(ts[i + d - 1]);
      assert l(ts[..j + d]) == f(ts[j + d - 1]);
    }
  }

  /** A stateless server whose chain ends never repeats a token. */
  lemma EndedNeverRepeats(l: Lister, f: string -> PageResult, ts: seq<string>)
    requires Stateless(l, f) && Ended(l, ts)
    ensures NoRepeat(ts)
  {
    forall i, j | 0 <= i < j < |ts| ensures ts[i] != ts[j] {
      var d := |ts| - 1 - j;
      RepeatPropagates(l, f, ts, i, j, d);
      assert Follows(l, ts, i + d + 1);
      assert l(ts[..i + d + 1]) == f(ts[i + d]);
      assert l(ts) == f(ts[|ts| - 1]);
    }
  }

  /** No spurious abort: such a server's chain of at most 10000 pages is always fetched in full. */
  lemma NoSpuriousAbort(l: Lister, f: string -> PageResult, ts: seq<string>)
    requires Stateless(l, f) && Ended(l, ts) && |ts| <= 10000
    ensures Finishes(l, ts)
  {
    EndedNeverRepeats(l, f, ts);
  }

  // ---------------------------------------------------------------------
  // Histories of polls
  // ---------------------------------------------------------------------

  /** The length of the run of failures at the end. */
  function TrailingFailures(outcomes: seq<Option<Snapshot>>): nat {
    if outcomes == [] || outcomes[|outcomes| - 1].Some? then 0
    else 1 + TrailingFailures(outcomes[..|outcomes| - 1])
  }

  function LastSuccess(outcomes: seq<Option<Snapshot>>): Option<Snapshot> {
    if outcomes == [] then None
    else if outcomes[|outcomes| - 1].Some? then outcomes[|outcomes| - 1]
    else LastSuccess(outcomes[..|outcomes| - 1])
  }

  /** What the trailing run is: its members failed, and a success, if any, stands right before it. */
  lemma {:induction false} TrailingFailuresMean(outcomes: seq<Option<Snapshot>>)
    ensures var k := TrailingFailures(outcomes);
      && k <= |outcomes|
      && (forall i :: |outcomes| - k <= i < |outcomes| ==> outcomes[i].None?)
      && (k < |outcomes| ==> outcomes[|outcomes| - k - 1].Some?
                             && LastSuccess(outcomes) == outcomes[|outcomes| - k - 1])
      && (k == |outcomes| <==> LastSuccess(outcomes).None?)
  {
    if outcomes != [] && outcomes[|outcomes| - 1].None? {
      TrailingFailuresMean(outcomes[..|outcomes| - 1]);
    }
  }

  /** One poll's result agrees with what the server allows. */
  ghost predicate Faithful(l: Lister, result: Option<Snapshot>) {
    match result
    case None => forall ts :: !Finishes(l, ts)
    case Some(snap) => exists ts :: Finishes(l, ts) && IsSnapshot(PagesAlong(l, ts), snap)
  }

  class Poller {
    const store: Store
    var pollErrors: nat

    constructor (store: Store)
      ensures this.store == store && pollErrors == 0
    {
      this.store := store;
      pollErrors := 0;
    }

    /**
     Fetches everything and replaces the snapshot, or fails and leaves it alone;
     it fails only against a server that would not let any poll finish.
     */
    method PollOnce(l: Lister) returns (o: Outcome, ghost result: Option<Snapshot>, ghost asked: seq<string>)
      modifies store
      ensures Chain(l, asked) && NoRepeat(asked) && |asked| <= MAX_POLL_PAGES
      ensures o.Success? <==> result.Some?
      ensures o.Success? <==> exists ts :: Finishes(l, ts)
      ensures Faithful(l, result)
      ensures result.Some? ==> o == Success(StatsOf(PagesAlong(l, asked))) && Finishes(l, asked)
      ensures store.cur == if result.Some? then result else old(store.cur)
    {
      var ok, why, all, requests := Fetch(l);
      asked := requests;
      if !ok {
        forall ts ensures !Finishes(l, ts) {
          GaveUpJustified(l, asked, why, ts);
        }
        o, result := Failure, None;
        return;
      }
      var snap, stats := BuildSnapshot(all);
      store.Replace(snap);
      o, result := Success(stats), Some(snap);
    }

    /** One turn of the loop: poll, then count the failure or reset the count. */
    method Round(l: Lister) returns (stats: Option<Stats>, ghost result: Option<Snapshot>)
      modifies this, store
      ensures RoundOk(l, result, stats)
      ensures pollErrors == if result.Some? then 0 else old(pollErrors) + 1
      ensures store.cur == if result.Some? then result else old(store.cur)
    {
      var o, r, asked := PollOnce(l);
      result := r;
      if !o.Success? {
        pollErrors, stats := pollErrors + 1, None;
      } else {
        pollErrors, stats := 0, Some(o.stats);
      }
    }

    /**
     The polling loop over the polls made before the context ends. `reported` is
     what OnPollErrors was told after each, `published` what OnSnapshot was told;
     `outcomes` and `stats` are the polls' results.
     */
    method Run(rounds: seq<Lister>)
      returns (reported: seq<nat>, published: seq<Stats>,
               ghost outcomes: seq<Option<Snapshot>>, ghost stats: seq<Option<Stats>>)
      modifies this, store
      ensures |outcomes| == |stats| == |rounds|
      ensures forall i :: 0 <= i < |rounds| ==> RoundOk(rounds[i], outcomes[i], stats[i])
      ensures published == Values(stats)
      ensures pollErrors == CountAfter(outcomes, old(pollErrors))
      ensures reported == Counters(outcomes, old(pollErrors))
      ensures store.cur == if LastSuccess(outcomes).Some? then LastSuccess(outcomes) else old(store.cur)
      ensures store.cur.None? <==> old(store.cur).None? && forall r :: r in outcomes ==> r.None?
    {
      reported, published, outcomes, stats := [], [], [], [];
      for n := 0 to |rounds|
        invariant |outcomes| == n && AllOk(rounds, outcomes, stats)
        invariant Recorded(outcomes, stats, old(pollErrors), old(store.cur), pollErrors, store.cur, reported, published)
      {
        ghost var errors, cur := pollErrors, store.cur;
        var s, result := Round(rounds[n]);
        RecordedExtends(outcomes, stats, old(pollErrors), old(store.cur), errors, cur, reported, published, result, s);
        AllOkExtends(rounds, outcomes, stats, result, s);
        outcomes, stats := outcomes + [result], stats + [s];
        if s.Some? {
          published := published + [s.value];
        }
        reported := reported + [pollErrors];
      }
      LastSuccessNone(outcomes);
    }
  }

  /** A poll's result is what its server allows, and its statistics are those of the pages fetched. */
  ghost predicate RoundOk(l: Lister, result: Option<Snapshot>, stats: Option<Stats>) {
    && Faithful(l, result)
    && (result.Some? <==> stats.Some?)
    && (stats.Some? ==> Counts(l, stats.value))
  }

  /** The values present, in order. */
  function Values<T>(s: seq<Option<T>>): seq<T> {
    if s == [] then []
    else Values(s[..|s| - 1]) + if s[|s| - 1].Some? then [s[|s| - 1].value] else []
  }

  /** What `Values` is: it works on each part of the list, keeps a value and drops an absence. */
  lemma {:induction false} ValuesConcat<T>(a: seq<Option<T>>, b: seq<Option<T>>)
    ensures Values(a + b) == Values(a) + Values(b)
    ensures forall x: T :: Values([Some(x)]) == [x]
    ensures Values<T>([None]) == []
  {
    if b == [] {
      assert a + b == a;
    } else {
      var n := |b| - 1;
      assert (a + b)[..|a + b| - 1] == a + b[..n];
      ValuesConcat(a, b[..n]);
    }
  }

  /** Each report is the counter after the polls up to it. */
  lemma {:induction false} CountersAt(outcomes: seq<Option<Snapshot>>, before: nat, i: nat)
    requires i < |outcomes|
    ensures |Counters(outcomes, before)| == |outcomes|
    ensures Counters(outcomes, before)[i] == CountAfter(outcomes[..i + 1], before)
  {
    var n := |outcomes| - 1;
    if n > 0 {
      CountersAt(outcomes[..n], before, if i < n then i else 0);
    }
    if i < n {
      assert outcomes[..n][..i + 1] == outcomes[..i + 1];
    } else {
      assert outcomes[..i + 1] == outcomes;
    }
  }

  /** The counter after each poll. */
  function Counters(outcomes: seq<Option<Snapshot>>, before: nat): seq<nat> {
    if outcomes == [] then [] else Counters(outcomes[..|outcomes| - 1], before) + [CountAfter(outcomes, before)]
  }

  /** Each poll so far went as its server allows. */
  ghost predicate AllOk(rounds: seq<Lister>, outcomes: seq<Option<Snapshot>>, stats: seq<Option<Stats>>) {
    && |outcomes| == |stats| <= |rounds|
    && forall i :: 0 <= i < |outcomes| ==> RoundOk(rounds[i], outcomes[i], stats[i])
  }

  /** The counter, the store's snapshot and the reports are those of the polls so far. */
  ghost predicate Recorded(outcomes: seq<Option<Snapshot>>, stats: seq<Option<Stats>>, before: nat,
                           first: Option<Snapshot>, errors: nat, cur: Option<Snapshot>,
                           reported: seq<nat>, published: seq<Stats>)
  {
    && errors == CountAfter(outcomes, before)
    && cur == (if LastSuccess(outcomes).Some? then LastSuccess(outcomes) else first)
    && reported == Counters(outcomes, before)
    && published == Values(stats)
  }

  lemma AllOkExtends(rounds: seq<Lister>, outcomes: seq<Option<Snapshot>>, stats: seq<Option<Stats>>,
                     result: Option<Snapshot>, s: Option<Stats>)
    requires AllOk(rounds, outcomes, stats) && |outcomes| < |rounds|
    requires RoundOk(rounds[|outcomes|], result, s)
    ensures AllOk(rounds, outcomes + [result], stats + [s])
  {
  }

  /** One more poll counts, or resets, and is reported. */
  lemma RecordedExtends(outcomes: seq<Option<Snapshot>>, stats: seq<Option<Stats>>, before: nat,
                        first: Option<Snapshot>, errors: nat, cur: Option<Snapshot>,
                        reported: seq<nat>, published: seq<Stats>, result: Option<Snapshot>, s: Option<Stats>)
    requires Recorded(outcomes, stats, before, first, errors, cur, reported, published)
    ensures var errors' := if result.Some? then 0 else errors + 1;
      Recorded(outcomes + [result], stats + [s], before, first, errors', if result.Some? then result else cur,
               reported + [errors'], published + if s.Some? then [s.value] else [])
  {
    assert (outcomes + [result])[..|outcomes|] == outcomes && (stats + [s])[..|stats|] == stats;
  }

  /** The statistics are those of the pages the server let the poll fetch. */
  ghost predicate Counts(l: Lister, stats: Stats) {
    exists ts :: Finishes(l, ts) && stats == StatsOf(PagesAlong(l, ts))
  }

  /** The counter's value after these polls: the trailing failures, on top of `before` if nothing has succeeded. */
  function CountAfter(outcomes: seq<Option<Snapshot>>, before: nat): nat {
    TrailingFailures(outcomes) + if LastSuccess(outcomes).None? then before else 0
  }

  lemma {:induction false} LastSuccessNone(outcomes: seq<Option<Snapshot>>)
    ensures LastSuccess(outcomes).None? <==> forall r :: r in outcomes ==> r.None?
  {
    if outcomes != [] {
      var n := |outcomes| - 1;
      LastSuccessNone(outcomes[..n]);
      assert forall r :: r in outcomes <==> r in outcomes[..n] || r == outcomes[n];
    }
  }
}
