/**
 From SPIRE registration entries to a name-to-zone snapshot (internal/registry/registry.go).
 */
module Registry {
  import opened Wrappers
  import opened Text
  import Ednszone
  import Spiffezone

  datatype Entry = Entry(path: string, dnsNames: seq<string>)

  datatype Stats = Stats(names: nat, conflicts: nat, skipped: nat)

  type Snapshot = map<string, string>

  function Normalize(name: string): string {
    ToLower(TrimSuffixChar(name, '.'))
  }

  predicate EndsInTwoDots(name: string) {
    |name| >= 2 && name[|name| - 1] == '.' && name[|name| - 2] == '.'
  }

  /** Normalizing twice is normalizing once, except for names ending in two dots. */
  lemma NormalizeIdempotentIff(name: string)
    ensures Normalize(Normalize(name)) == Normalize(name) <==> !EndsInTwoDots(name)
  {
  }

  predicate EndsInDot(name: string) {
    name != "" && name[|name| - 1] == '.'
  }

  /** A normalized name has no trailing dot, except exactly when the name ended in two. */
  lemma NormalizedHasNoDotIff(name: string)
    ensures !EndsInDot(Normalize(name)) <==> !EndsInTwoDots(name)
  {
    var trimmed := TrimSuffixChar(name, '.');
    assert trimmed != "" ==> (LowerChar(trimmed[|trimmed| - 1]) == '.' <==> trimmed[|trimmed| - 1] == '.');
  }

  /** An instance: "a.." keeps a dot, and so does not meet "a". */
  lemma TwoDotsKeepOne()
    ensures Normalize("a..") == "a." && EndsInDot(Normalize("a.."))
    ensures Normalize("a..") != Normalize("a.") == Normalize("a") == "a"
  {
    assert Normalize("a..") == "a.";
    assert Normalize("a.") == "a";
    assert Normalize("a") == "a";
  }

  /** The zone an entry declares, if it has one the wire format can carry. */
  function EntryZone(e: Entry): Option<string> {
    var z := Spiffezone.FromPath(e.path);
    if z.Some? && Ednszone.ValidZone(z.value) then z else None
  }

  /** `name` is `stem`, written with or without a trailing dot. */
  predicate Spells(name: string, stem: string) {
    name == stem + "." || (name == stem && !EndsInDot(name))
  }

  /** Two spellings of one name: the same but for case and one trailing dot. */
  ghost predicate SameName(a: string, b: string) {
    exists s, t :: Spells(a, s) && Spells(b, t) && EqualFold(s, t)
  }

  /** Normalizing identifies exactly the spellings of one name. */
  lemma SameNameIff(a: string, b: string)
    ensures SameName(a, b) <==> Normalize(a) == Normalize(b)
  {
    var s, t := TrimSuffixChar(a, '.'), TrimSuffixChar(b, '.');
    StemUnique(a);
    StemUnique(b);
    EqualFoldIsEqualLower(s, t);
  }

  lemma StemUnique(name: string)
    ensures forall stem :: Spells(name, stem) <==> stem == TrimSuffixChar(name, '.')
  {
    forall stem | Spells(name, stem) ensures stem == TrimSuffixChar(name, '.') {
      assert name == stem + "." ==> name[..|name| - 1] == stem;
    }
    assert EndsInDot(name) ==> name == name[..|name| - 1] + ".";
  }

  /** The entry registers the name `fqdn`, in some spelling, in zone `z`: its path names the zone, which is well formed. */
  ghost predicate Registers(e: Entry, fqdn: string, z: string) {
    && Spiffezone.NamesZone(e.path, z) && Ednszone.ValidZone(z)
    && fqdn != "" && fqdn != "."
    && exists j :: 0 <= j < |e.dnsNames| && SameName(e.dnsNames[j], fqdn)
  }

  // ---------------------------------------------------------------------
  // The declarative definition
  // ---------------------------------------------------------------------

  /** The entry declares the normalized name `n`, which is not empty, into zone `z`. */
  predicate Declares(e: Entry, n: string, z: string) {
    EntryZone(e) == Some(z) && n != "" && exists j :: 0 <= j < |e.dnsNames| && Normalize(e.dnsNames[j]) == n
  }

  /** Splitting the path and normalizing the names finds exactly what an entry registers. */
  lemma DeclaresIff(e: Entry, fqdn: string, z: string)
    ensures Declares(e, Normalize(fqdn), z) <==> Registers(e, fqdn, z)
  {
    Spiffezone.FromPathIff(e.path, z);
    forall j | 0 <= j < |e.dnsNames|
      ensures SameName(e.dnsNames[j], fqdn) <==> Normalize(e.dnsNames[j]) == Normalize(fqdn)
    {
      SameNameIff(e.dnsNames[j], fqdn);
    }
    assert Normalize(fqdn) == "" <==> fqdn == "" || fqdn == ".";
  }

  /** The zones the entries declare `n` into. */
  ghost function ZonesOf(entries: seq<Entry>, n: string): set<string> {
    set d | d in Declarations(entries) && d.0 == n :: d.1
  }

  /** All declared names. */
  ghost function NamesOf(entries: seq<Entry>): set<string> {
    set d | d in Declarations(entries) :: d.0
  }

  ghost function Declarations(entries: seq<Entry>): set<(string, string)> {
    if entries == [] then {}
    else
      var n := |entries| - 1;
      Declarations(entries[..n]) + EntryDeclarations(entries[n], |entries[n].dnsNames|)
  }

  /** The declarations made by the entry's first `k` names. */
  ghost function EntryDeclarations(e: Entry, k: nat): set<(string, string)>
    requires k <= |e.dnsNames|
  {
    if EntryZone(e).None? || k == 0 then {}
    else
      var n := Normalize(e.dnsNames[k - 1]);
      EntryDeclarations(e, k - 1) + if n == "" then {} else {(n, EntryZone(e).value)}
  }

  lemma {:induction false} EntryDeclarationsMean(e: Entry, k: nat, n: string, z: string)
    requires k <= |e.dnsNames|
    ensures (n, z) in EntryDeclarations(e, k) <==>
      EntryZone(e) == Some(z) && n != "" && exists j :: 0 <= j < k && Normalize(e.dnsNames[j]) == n
  {
    if k > 0 {
      EntryDeclarationsMean(e, k - 1, n, z);
    }
  }

  /** The declarations are those of some entry, wherever it stands in the list. */
  lemma {:induction false} DeclarationsMean(entries: seq<Entry>, n: string, z: string)
    ensures (n, z) in Declarations(entries) <==> exists e :: e in entries && Declares(e, n, z)
  {
    if entries != [] {
      var k := |entries| - 1;
      DeclarationsMean(entries[..k], n, z);
      EntryDeclarationsMean(entries[k], |entries[k].dnsNames|, n, z);
      assert (n, z) in EntryDeclarations(entries[k], |entries[k].dnsNames|) <==> Declares(entries[k], n, z);
      assert forall e :: e in entries <==> e in entries[..k] || e == entries[k];
    }
  }

  function SkippedIn(entries: seq<Entry>): nat {
    if entries == [] then 0
    else
      var n := |entries| - 1;
      SkippedIn(entries[..n]) + if EntryZone(entries[n]).None? then 1 else 0
  }

  /** A name resolves to a zone exactly when that is the only zone it is declared into. */
  ghost predicate IsSnapshot(entries: seq<Entry>, snap: Snapshot) {
    forall n, z :: (n in snap && snap[n] == z) <==> ZonesOf(entries, n) == {z}
  }

  ghost function Unconflicted(entries: seq<Entry>): set<string> {
    set n | n in NamesOf(entries) && |ZonesOf(entries, n)| == 1
  }

  ghost function Conflicted(entries: seq<Entry>): set<string> {
    set n | n in NamesOf(entries) && |ZonesOf(entries, n)| > 1
  }

  ghost function StatsOf(entries: seq<Entry>): Stats {
    Stats(|Unconflicted(entries)|, |Conflicted(entries)|, SkippedIn(entries))
  }

  // ---------------------------------------------------------------------
  // The one-pass build
  // ---------------------------------------------------------------------

  /** What the pass knows once it has seen `done`: one zone per name, and the names seen with another. */
  ghost predicate Scanned(done: set<(string, string)>, zoneOf: map<string, string>, conflicting: set<string>) {
    && (forall d :: d in done ==> d.0 in zoneOf)
    && (forall n :: n in zoneOf ==> (n, zoneOf[n]) in done)
    && (forall d :: d in done && d.1 != zoneOf[d.0] ==> d.0 in conflicting)
    && (forall n :: n in conflicting ==> n in zoneOf && exists z :: (n, z) in done && z != zoneOf[n])
  }

  lemma ScanConflict(done: set<(string, string)>, zoneOf: map<string, string>, conflicting: set<string>,
                     n: string, z: string)
    requires Scanned(done, zoneOf, conflicting) && n in zoneOf && zoneOf[n] != z
    ensures Scanned(done + {(n, z)}, zoneOf, conflicting + {n})
  {
  }

  lemma ScanAgree(done: set<(string, string)>, zoneOf: map<string, string>, conflicting: set<string>,
                  n: string, z: string)
    requires Scanned(done, zoneOf, conflicting) && (n in zoneOf ==> zoneOf[n] == z)
    ensures Scanned(done + {(n, z)}, zoneOf[n := z], conflicting)
  {
  }

  method BuildSnapshot(entries: seq<Entry>) returns (snap: Snapshot, stats: Stats)
    ensures IsSnapshot(entries, snap)
    ensures stats == StatsOf(entries) && stats.names == |snap|
  {
    var skipped := 0;
    var zoneOf: map<string, string> := map[];
    var conflicting: set<string> := {};
    for i := 0 to |entries|
      invariant skipped == SkippedIn(entries[..i])
      invariant Scanned(Declarations(entries[..i]), zoneOf, conflicting)
    {
      assert entries[..i + 1][..i] == entries[..i];
      var e := entries[i];
      var zone := Spiffezone.FromPath(e.path);
      var ok := false;
      if zone.Some? {
        ok := Ednszone.Valid(zone.value);
      }
      if !ok {
        skipped := skipped + 1;
        assert EntryDeclarations(e, |e.dnsNames|) == {};
        assert Declarations(entries[..i + 1]) == Declarations(entries[..i]);
        continue;
      }
      zoneOf, conflicting := ScanNames(e, zone.value, Declarations(entries[..i]), zoneOf, conflicting);
    }
    assert entries[..|entries|] == entries;
    ResultMeaning(entries, zoneOf, conflicting);
    snap := zoneOf - conflicting;
    ResultSizes(entries, zoneOf, conflicting);
    stats := Stats(|snap|, |conflicting|, skipped);
  }

  /** The inner loop: one entry's names. */
  method ScanNames(e: Entry, zone: string, ghost done: set<(string, string)>,
                   zoneOf0: map<string, string>, conflicting0: set<string>)
    returns (zoneOf: map<string, string>, conflicting: set<string>)
    requires EntryZone(e) == Some(zone)
    requires Scanned(done, zoneOf0, conflicting0)
    ensures Scanned(done + EntryDeclarations(e, |e.dnsNames|), zoneOf, conflicting)
  {
    zoneOf, conflicting := zoneOf0, conflicting0;
    assert done + {} == done;
    for j := 0 to |e.dnsNames|
      invariant Scanned(done + EntryDeclarations(e, j), zoneOf, conflicting)
    {
      var name := Normalize(e.dnsNames[j]);
      ghost var seen := done + EntryDeclarations(e, j);
      if name == "" {
        assert EntryDeclarations(e, j + 1) == EntryDeclarations(e, j);
        continue;
      }
      assert done + EntryDeclarations(e, j + 1) == seen + {(name, zone)};
      if name in zoneOf && zoneOf[name] != zone {
        ScanConflict(seen, zoneOf, conflicting, name, zone);
        conflicting := conflicting + {name};
        continue;
      }
      ScanAgree(seen, zoneOf, conflicting, name, zone);
      zoneOf := zoneOf[name := zone];
    }
  }

  /** Dropping the conflicting names leaves exactly the names declared into one zone. */
  lemma ResultMeaning(entries: seq<Entry>, zoneOf: map<string, string>, conflicting: set<string>)
    requires Scanned(Declarations(entries), zoneOf, conflicting)
    ensures IsSnapshot(entries, zoneOf - conflicting)
  {
    var snap := zoneOf - conflicting;
    forall n, z ensures (n in snap && snap[n] == z) <==> ZonesOf(entries, n) == {z} {
      ZonesWhenScanned(entries, zoneOf, conflicting, n);
      if ZonesOf(entries, n) == {z} {
        assert z in ZonesOf(entries, n);
      }
    }
  }

  lemma ZonesWhenScanned(entries: seq<Entry>, zoneOf: map<string, string>, conflicting: set<string>, n: string)
    requires Scanned(Declarations(entries), zoneOf, conflicting)
    ensures n !in zoneOf ==> ZonesOf(entries, n) == {}
    ensures n in zoneOf ==> zoneOf[n] in ZonesOf(entries, n)
    ensures n in conflicting ==> exists z :: z in ZonesOf(entries, n) && z != zoneOf[n]
    ensures n in zoneOf && n !in conflicting ==> ZonesOf(entries, n) == {zoneOf[n]}
  {
    var zones := ZonesOf(entries, n);
    if n in zoneOf {
      assert (n, zoneOf[n]) in Declarations(entries);
      if n in conflicting {
        var z :| (n, z) in Declarations(entries) && z != zoneOf[n];
        assert z in zones;
      } else {
        forall z | z in zones ensures z == zoneOf[n] {
          assert (n, z) in Declarations(entries);
        }
      }
    }
  }

  lemma ResultSizes(entries: seq<Entry>, zoneOf: map<string, string>, conflicting: set<string>)
    requires Scanned(Declarations(entries), zoneOf, conflicting)
    ensures (zoneOf - conflicting).Keys == Unconflicted(entries)
    ensures conflicting == Conflicted(entries)
  {
    forall n
      ensures n in (zoneOf - conflicting).Keys <==> n in Unconflicted(entries)
      ensures n in conflicting <==> n in Conflicted(entries)
    {
      ZonesWhenScanned(entries, zoneOf, conflicting, n);
      NamesHaveZones(entries, n);
      var zones := ZonesOf(entries, n);
      if n in conflicting {
        var z :| z in zones && z != zoneOf[n];
        assert {z, zoneOf[n]} <= zones;
        assert |zones - {z} - {zoneOf[n]}| == |zones| - 2;
      }
    }
  }

  lemma NamesHaveZones(entries: seq<Entry>, n: string)
    ensures n in NamesOf(entries) <==> ZonesOf(entries, n) != {}
  {
    if n in NamesOf(entries) {
      var d :| d in Declarations(entries) && d.0 == n;
      assert d.1 in ZonesOf(entries, n);
    }
    if z :| z in ZonesOf(entries, n) {
      assert (n, z) in Declarations(entries);
    }
  }

  // ---------------------------------------------------------------------
  // What the snapshot depends on
  // ---------------------------------------------------------------------

  function Lookup(snap: Snapshot, fqdn: string): Option<string> {
    if Normalize(fqdn) in snap then Some(snap[Normalize(fqdn)]) else None
  }

  /** A queried name resolves to z exactly when z is the one zone some entry registers it in. */
  lemma LookupMeaning(entries: seq<Entry>, snap: Snapshot, fqdn: string, z: string)
    requires IsSnapshot(entries, snap)
    ensures Lookup(snap, fqdn) == Some(z) <==>
      && (exists e :: e in entries && Registers(e, fqdn, z))
      && (forall e, y :: e in entries && Registers(e, fqdn, y) ==> y == z)
  {
    DeclaredOnly(entries, snap, fqdn, z);
    forall e, y ensures Declares(e, Normalize(fqdn), y) <==> Registers(e, fqdn, y) {
      DeclaresIff(e, fqdn, y);
    }
  }

  lemma DeclaredOnly(entries: seq<Entry>, snap: Snapshot, fqdn: string, z: string)
    requires IsSnapshot(entries, snap)
    ensures Lookup(snap, fqdn) == Some(z) <==>
      && (exists e :: e in entries && Declares(e, Normalize(fqdn), z))
      && (forall e, y :: e in entries && Declares(e, Normalize(fqdn), y) ==> y == z)
  {
    var n := Normalize(fqdn);
    DeclarationsMean(entries, n, z);
    if Lookup(snap, fqdn) == Some(z) {
      assert z in ZonesOf(entries, n);
      forall e, y | e in entries && Declares(e, n, y) ensures y == z {
        DeclarationsMean(entries, n, y);
        assert y in ZonesOf(entries, n);
      }
    }
    if (exists e :: e in entries && Declares(e, n, z)) && (forall e, y :: e in entries && Declares(e, n, y) ==> y == z) {
      forall y | y in ZonesOf(entries, n) ensures y == z {
        DeclarationsMean(entries, n, y);
      }
      assert z in ZonesOf(entries, n);
      assert ZonesOf(entries, n) == {z};
    }
  }

  /** The entries determine the snapshot. */
  lemma SnapshotUnique(entries: seq<Entry>, a: Snapshot, b: Snapshot)
    requires IsSnapshot(entries, a) && IsSnapshot(entries, b)
    ensures a == b
  {
    forall n | n in a ensures n in b && b[n] == a[n] {
      assert ZonesOf(entries, n) == {a[n]};
    }
    forall n | n in b ensures n in a && a[n] == b[n] {
      assert ZonesOf(entries, n) == {b[n]};
    }
  }

  /** Only the set of entries matters to the declarations. */
  lemma DeclarationsUnordered(a: seq<Entry>, b: seq<Entry>)
    requires forall e :: e in a <==> e in b
    ensures Declarations(a) == Declarations(b)
  {
    forall d: (string, string) ensures d in Declarations(a) <==> d in Declarations(b) {
      DeclarationsMean(a, d.0, d.1);
      DeclarationsMean(b, d.0, d.1);
      assert d == (d.0, d.1);
    }
  }

  /** Only the declarations matter to the snapshot and the counts of names. */
  lemma SameDeclarations(a: seq<Entry>, b: seq<Entry>, snap: Snapshot)
    requires Declarations(a) == Declarations(b)
    ensures IsSnapshot(a, snap) <==> IsSnapshot(b, snap)
    ensures Unconflicted(a) == Unconflicted(b) && Conflicted(a) == Conflicted(b)
  {
  }

  lemma {:induction false} SkippedConcat(a: seq<Entry>, b: seq<Entry>)
    ensures SkippedIn(a + b) == SkippedIn(a) + SkippedIn(b)
  {
    if b == [] {
      assert a + b == a;
    } else {
      var n := |b| - 1;
      assert (a + b)[..|a + b| - 1] == a + b[..n];
      SkippedConcat(a, b[..n]);
    }
  }

  lemma {:induction false} SkippedUnordered(a: seq<Entry>, b: seq<Entry>)
    requires multiset(a) == multiset(b)
    ensures SkippedIn(a) == SkippedIn(b)
    decreases |a|
  {
    if a == [] {
      assert |multiset(b)| == 0;
    } else {
      var n := |a| - 1;
      var e := a[n];
      assert a == a[..n] + [e];
      assert e in multiset(b);
      var i :| 0 <= i < |b| && b[i] == e;
      var rest := b[..i] + b[i + 1..];
      assert b == b[..i] + ([e] + b[i + 1..]);
      assert multiset(rest) == multiset(b) - multiset{e};
      SkippedUnordered(a[..n], rest);
      SkippedConcat(b[..i], [e] + b[i + 1..]);
      SkippedConcat([e], b[i + 1..]);
      SkippedConcat(b[..i], b[i + 1..]);
    }
  }

  function Concat(pages: seq<seq<Entry>>): seq<Entry> {
    if pages == [] then [] else Concat(pages[..|pages| - 1]) + pages[|pages| - 1]
  }

  /**
   Neither the order of the entries nor the way they are split into pages changes
   the snapshot or the statistics.
   */
  lemma BuildUnordered(pages: seq<seq<Entry>>, pages': seq<seq<Entry>>, snap: Snapshot, snap': Snapshot)
    requires multiset(Concat(pages)) == multiset(Concat(pages'))
    requires IsSnapshot(Concat(pages), snap) && IsSnapshot(Concat(pages'), snap')
    ensures snap == snap'
    ensures StatsOf(Concat(pages)) == StatsOf(Concat(pages'))
  {
    var a, b := Concat(pages), Concat(pages');
    forall e ensures e in a <==> e in b {
      assert e in a <==> e in multiset(a);
      assert e in b <==> e in multiset(b);
    }
    DeclarationsUnordered(a, b);
    SkippedUnordered(a, b);
    SameDeclarations(a, b, snap');
    SnapshotUnique(a, snap, snap');
  }

  function ContributingIn(entries: seq<Entry>): nat {
    if entries == [] then 0
    else
      var n := |entries| - 1;
      ContributingIn(entries[..n]) + if EntryZone(entries[n]).Some? then 1 else 0
  }

  /** Nothing is lost: every declared name is resolvable or conflicting, every entry contributes or is skipped. */
  lemma {:induction false} StatsConserve(entries: seq<Entry>)
    ensures StatsOf(entries).names + StatsOf(entries).conflicts == |NamesOf(entries)|
    ensures StatsOf(entries).skipped + ContributingIn(entries) == |entries|
  {
    forall n | n in NamesOf(entries) ensures n in Unconflicted(entries) + Conflicted(entries) {
      NamesHaveZones(entries, n);
    }
    assert NamesOf(entries) == Unconflicted(entries) + Conflicted(entries);
    EntriesConserve(entries);
  }

  lemma {:induction false} EntriesConserve(entries: seq<Entry>)
    ensures SkippedIn(entries) + ContributingIn(entries) == |entries|
  {
    if entries != [] {
      EntriesConserve(entries[..|entries| - 1]);
    }
  }

  /** The names counted are those that resolve, the conflicts those declared into several zones. */
  lemma StatsMean(entries: seq<Entry>, snap: Snapshot)
    requires IsSnapshot(entries, snap)
    ensures StatsOf(entries).names == |snap|
    ensures StatsOf(entries).conflicts == |set n | n in NamesOf(entries) && n !in snap|
  {
    forall n ensures n in snap <==> n in Unconflicted(entries) {
      NamesHaveZones(entries, n);
      var zones := ZonesOf(entries, n);
      if n in snap {
        assert zones == {snap[n]};
      }
      if |zones| == 1 {
        var z :| z in zones;
        assert |zones - {z}| == 0;
        assert zones == {z};
      }
    }
    assert snap.Keys == Unconflicted(entries);
    forall n | n in NamesOf(entries) ensures n in Conflicted(entries) <==> n !in snap {
      NamesHaveZones(entries, n);
    }
    assert Conflicted(entries) == set n | n in NamesOf(entries) && n !in snap;
  }

  /** Lookups ignore case. */
  lemma LookupIgnoresCase(cur: Option<Snapshot>, fqdn: string)
    ensures StoreLookup(cur, ToLower(fqdn)) == StoreLookup(cur, fqdn)
  {
    LowerIdempotent(TrimSuffixChar(fqdn, '.'));
    assert TrimSuffixChar(ToLower(fqdn), '.') == ToLower(TrimSuffixChar(fqdn, '.'));
  }

  /** The snapshot in effect, replaced as a whole. */
  class Store {
    var cur: Option<Snapshot>

    constructor ()
      ensures cur == None
    {
      cur := None;
    }

    method Replace(snap: Snapshot)
      modifies this
      ensures cur == Some(snap)
    {
      cur := Some(snap);
    }
  }

  /** Before the first snapshot no name resolves. */
  function StoreLookup(cur: Option<Snapshot>, fqdn: string): Option<string> {
    if cur.None? then None else Lookup(cur.value, fqdn)
  }
}
