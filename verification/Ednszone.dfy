/**
 The wire format between the ends: the zone declaration as an option of the OPT
 record, written by the agent, read by central (internal/ednszone), and the
 agent's removal of whatever the client declared (stripZoneOption).
 */
module Ednszone {
  import opened Wrappers
  import opened Dns

  const MAX_LEN := 63

  predicate ValidChar(c: char) {
    'a' <= c <= 'z' || 'A' <= c <= 'Z' || '0' <= c <= '9' || c == '-' || c == '_'
  }

  predicate ValidZone(zone: string) {
    zone != "" && |zone| <= MAX_LEN && forall i :: 0 <= i < |zone| ==> ValidChar(zone[i])
  }

  /** Well-formed zones by length and code point: 1 to 63 letters, digits, '-' (45) and '_' (95). */
  method Valid(zone: string) returns (ok: bool)
    ensures ok <==> ValidZone(zone)
    ensures ok <==> 1 <= |zone| <= 63 && forall i :: 0 <= i < |zone| ==>
      var x := zone[i] as int;
      97 <= x <= 122 || 65 <= x <= 90 || 48 <= x <= 57 || x == 45 || x == 95
  {
    if zone == "" || |zone| > MAX_LEN {
      return false;
    }
    for i := 0 to |zone|
      invariant forall j :: 0 <= j < i ==> ValidChar(zone[j])
    {
      if !ValidChar(zone[i]) {
        return false;
      }
    }
    return true;
  }

  // ---------------------------------------------------------------------
  // Option lists
  // ---------------------------------------------------------------------

  predicate Declares(o: EdnsOption, code: nat) {
    o.Local? && o.code == code
  }

  /** The options left once every declaration under `code` is dropped. */
  function Without(opts: seq<EdnsOption>, code: nat): seq<EdnsOption> {
    if opts == [] then []
    else
      var n := |opts| - 1;
      Without(opts[..n], code) + if Declares(opts[n], code) then [] else [opts[n]]
  }

  /** The data of every declaration under `code`, in order. */
  function Declarations(opts: seq<EdnsOption>, code: nat): seq<string> {
    if opts == [] then []
    else
      var n := |opts| - 1;
      Declarations(opts[..n], code) + if Declares(opts[n], code) then [opts[n].data] else []
  }

  /** The one declaration, if there is exactly one and it is well formed. */
  function Declared(opts: seq<EdnsOption>, code: nat): Option<string> {
    var ds := Declarations(opts, code);
    if |ds| == 1 && ValidZone(ds[0]) then Some(ds[0]) else None
  }

  /** Not a local option under the code. */
  predicate IsSilent(o: EdnsOption, code: nat) {
    !(o.Local? && o.code == code)
  }

  /** The option at `i` declares `z`, and no other option of the list is a local one under the code. */
  predicate OnlyDeclarationAt(opts: seq<EdnsOption>, code: nat, z: string, i: nat) {
    && i < |opts| && opts[i] == Local(code, z)
    && forall j :: 0 <= j < |opts| && j != i ==> IsSilent(opts[j], code)
  }

  ghost predicate DeclaresOnce(opts: seq<EdnsOption>, code: nat, z: string) {
    exists i: nat :: OnlyDeclarationAt(opts, code, z, i)
  }

  /** A zone is read exactly when it is well formed and one option, and no other, declares it. */
  lemma DeclaredIff(opts: seq<EdnsOption>, code: nat, z: string)
    ensures Declared(opts, code) == Some(z) <==> ValidZone(z) && DeclaresOnce(opts, code, z)
  {
    DeclarationsIff(opts, code, z);
    var ds := Declarations(opts, code);
    if |ds| == 1 {
      assert ds == [ds[0]];
    }
  }

  lemma {:induction false} DeclarationsNone(opts: seq<EdnsOption>, code: nat)
    ensures Declarations(opts, code) == [] <==> forall j :: 0 <= j < |opts| ==> IsSilent(opts[j], code)
  {
    if opts != [] {
      var n := |opts| - 1;
      DeclarationsNone(opts[..n], code);
      assert forall j :: 0 <= j < n ==> opts[..n][j] == opts[j];
      if Declares(opts[n], code) {
        assert !IsSilent(opts[n], code);
      }
    }
  }

  lemma {:induction false} DeclarationsIff(opts: seq<EdnsOption>, code: nat, z: string)
    ensures Declarations(opts, code) == [z] <==> DeclaresOnce(opts, code, z)
  {
    if opts != [] {
      var n := |opts| - 1;
      if Declares(opts[n], code) {
        LastDeclares(opts, code, z);
      } else {
        DeclarationsIff(opts[..n], code, z);
        LastSilent(opts, code, z);
        assert Declarations(opts[..n], code) + [] == Declarations(opts[..n], code);
      }
    }
  }

  lemma LastDeclares(opts: seq<EdnsOption>, code: nat, z: string)
    requires opts != [] && Declares(opts[|opts| - 1], code)
    ensures Declarations(opts, code) == [z] <==> DeclaresOnce(opts, code, z)
  {
    var n := |opts| - 1;
    var before := Declarations(opts[..n], code);
    DeclarationsNone(opts[..n], code);
    assert before + [opts[n].data] == [z] <==> before == [] && opts[n] == Local(code, z) by {
      assert (before + [opts[n].data])[|before|] == opts[n].data;
    }
    assert forall i: nat :: OnlyDeclarationAt(opts, code, z, i) ==> i == n;
    assert OnlyDeclarationAt(opts, code, z, n) <==> before == [] && opts[n] == Local(code, z);
  }

  lemma LastSilent(opts: seq<EdnsOption>, code: nat, z: string)
    requires opts != [] && !Declares(opts[|opts| - 1], code)
    ensures DeclaresOnce(opts, code, z) <==> DeclaresOnce(opts[..|opts| - 1], code, z)
  {
    var before := opts[..|opts| - 1];
    if i: nat :| OnlyDeclarationAt(opts, code, z, i) {
      assert OnlyDeclarationAt(before, code, z, i);
    }
    if i: nat :| OnlyDeclarationAt(before, code, z, i) {
      assert OnlyDeclarationAt(opts, code, z, i);
    }
  }

  /**
   `Without` is the order-preserving filter: it works on each part of the list
   separately, so no kept option moves past another.
   */
  lemma {:induction false} WithoutConcat(a: seq<EdnsOption>, b: seq<EdnsOption>, code: nat)
    ensures Without(a + b, code) == Without(a, code) + Without(b, code)
  {
    if b == [] {
      assert a + b == a;
    } else {
      var n := |b| - 1;
      assert (a + b)[..|a + b| - 1] == a + b[..n];
      WithoutConcat(a, b[..n], code);
    }
  }

  lemma {:induction false} DeclarationsConcat(a: seq<EdnsOption>, b: seq<EdnsOption>, code: nat)
    ensures Declarations(a + b, code) == Declarations(a, code) + Declarations(b, code)
  {
    if b == [] {
      assert a + b == a;
    } else {
      var n := |b| - 1;
      assert (a + b)[..|a + b| - 1] == a + b[..n];
      DeclarationsConcat(a, b[..n], code);
    }
  }

  lemma CountConcat(a: seq<EdnsOption>, b: seq<EdnsOption>, o: EdnsOption)
    ensures multiset(a + b)[o] == multiset(a)[o] + multiset(b)[o]
  {
  }

  /** The filter loses exactly the declarations: every other option keeps its multiplicity. */
  lemma {:induction false} WithoutContents(opts: seq<EdnsOption>, code: nat, o: EdnsOption)
    ensures multiset(Without(opts, code))[o] == if o.Local? && o.code == code then 0 else multiset(opts)[o]
  {
    if opts != [] {
      var n := |opts| - 1;
      var before, last := opts[..n], opts[n];
      WithoutContents(before, code, o);
      CountConcat(before, [last], o);
      assert opts == before + [last];
      if !Declares(last, code) {
        CountConcat(Without(before, code), [last], o);
      } else {
        assert Without(before, code) + [] == Without(before, code);
      }
    }
  }

  /** One more option seen: it is appended to what was kept unless it declares. */
  lemma WithoutNext(opts: seq<EdnsOption>, i: nat, code: nat)
    requires i < |opts|
    ensures Without(opts[..i + 1], code) == Without(opts[..i], code) + if Declares(opts[i], code) then [] else [opts[i]]
  {
    assert opts[..i + 1][..i] == opts[..i];
  }

  /** After the filter nothing is declared, and filtering again changes nothing. */
  lemma {:induction false} WithoutDeclaresNothing(opts: seq<EdnsOption>, code: nat)
    ensures Declarations(Without(opts, code), code) == []
    ensures Without(Without(opts, code), code) == Without(opts, code)
    ensures forall o :: o in Without(opts, code) ==> !Declares(o, code) && o in opts
  {
    if opts != [] {
      var n := |opts| - 1;
      WithoutDeclaresNothing(opts[..n], code);
      var last := if Declares(opts[n], code) then [] else [opts[n]];
      DeclarationsConcat(Without(opts[..n], code), last, code);
      WithoutConcat(Without(opts[..n], code), last, code);
    }
  }

  /** Declarations under another code are not touched by the filter. */
  lemma {:induction false} WithoutKeepsOtherCodes(opts: seq<EdnsOption>, code: nat, other: nat)
    requires other != code
    ensures Declarations(Without(opts, code), other) == Declarations(opts, other)
  {
    if opts != [] {
      var n := |opts| - 1;
      WithoutKeepsOtherCodes(opts[..n], code, other);
      var last := if Declares(opts[n], code) then [] else [opts[n]];
      DeclarationsConcat(Without(opts[..n], code), last, other);
    }
  }

  /** The option list of a message after `Set`: the filtered list and the new declaration. */
  function WithDeclaration(opts: seq<EdnsOption>, code: nat, zone: string): seq<EdnsOption> {
    Without(opts, code) + [Local(code, zone)]
  }

  /** What `Set` wrote is what `Get` reads, whatever was there before; a malformed zone reads as none. */
  lemma DeclarationRoundTrip(opts: seq<EdnsOption>, code: nat, zone: string)
    ensures Declarations(WithDeclaration(opts, code, zone), code) == [zone]
    ensures Declared(WithDeclaration(opts, code, zone), code) == if ValidZone(zone) then Some(zone) else None
  {
    WithoutDeclaresNothing(opts, code);
    DeclarationsConcat(Without(opts, code), [Local(code, zone)], code);
  }

  // ---------------------------------------------------------------------
  // The option slice and its backing array
  // ---------------------------------------------------------------------

  /** An OPT record as the library holds it: the option slice is `buf[..len]`. */
  class OptRecord {
    var buf: array<EdnsOption>
    var len: nat

    ghost predicate WellFormed()
      reads this
    {
      len <= buf.Length
    }

    function Options(): seq<EdnsOption>
      requires WellFormed()
      reads this, buf
    {
      buf[..len]
    }

    constructor (opts: seq<EdnsOption>)
      ensures WellFormed() && fresh(buf) && Options() == opts
    {
      buf := new EdnsOption[|opts|](i requires 0 <= i < |opts| => opts[i]);
      len := |opts|;
    }

    /**
     Rewrites the slice in its own backing array: the write position `kept`
     never passes the read position, so no unread option is overwritten.
     */
    method Strip(code: nat)
      requires WellFormed()
      modifies this`len, buf
      ensures WellFormed()
      ensures Options() == Without(old(Options()), code)
      ensures forall i :: old(len) <= i < buf.Length ==> buf[i] == old(buf[i])
    {
      ghost var was := Options();
      var kept := 0;
      for i := 0 to len
        modifies buf
        invariant kept <= i
        invariant buf[..kept] == Without(was[..i], code)
        invariant forall j :: i <= j < buf.Length ==> buf[j] == old(buf[j])
      {
        WithoutNext(was, i, code);
        var o := buf[i];
        assert o == was[i];
        if !Declares(o, code) {
          ghost var done := buf[..kept];
          buf[kept] := o;
          kept := kept + 1;
          assert buf[..kept] == done + [o];
        }
      }
      assert was[..len] == was;
      len := kept;
    }

    /** Appends to the slice: in place when there is room, else into a larger array. */
    method Append(o: EdnsOption)
      requires WellFormed()
      modifies this, buf
      ensures WellFormed()
      ensures Options() == old(Options()) + [o]
      ensures buf == old(buf) || fresh(buf)
    {
      if len < buf.Length {
        buf[len] := o;
      } else {
        var bigger := new EdnsOption[2 * len + 1](i => o);
        for i := 0 to len
          modifies bigger
          invariant bigger[..i] == buf[..i]
          invariant forall j :: i <= j < bigger.Length ==> bigger[j] == o
        {
          bigger[i] := buf[i];
        }
        buf := bigger;
      }
      len := len + 1;
    }

    method Set(code: nat, zone: string)
      requires WellFormed()
      modifies this, buf
      ensures WellFormed()
      ensures Options() == WithDeclaration(old(Options()), code, zone)
      ensures buf == old(buf) || fresh(buf)
    {
      Strip(code);
      Append(Local(code, zone));
    }

    method Get(code: nat) returns (zone: Option<string>)
      requires WellFormed()
      ensures zone == Declared(Options(), code)
    {
      var found := "";
      var matches := 0;
      for i := 0 to len
        invariant matches == |Declarations(Options()[..i], code)| <= 1
        invariant matches == 1 ==> Declarations(Options()[..i], code) == [found]
      {
        assert Options()[..i + 1][..i] == Options()[..i];
        if Declares(buf[i], code) {
          matches := matches + 1;
          if matches > 1 {
            assert Options()[..i + 1] + Options()[i + 1..] == Options();
            DeclarationsConcat(Options()[..i + 1], Options()[i + 1..], code);
            return None;
          }
          found := buf[i].data;
        }
      }
      assert Options()[..len] == Options();
      var ok := Valid(found);
      if matches != 1 || !ok {
        return None;
      }
      return Some(found);
    }
  }

  // ---------------------------------------------------------------------
  // Messages
  // ---------------------------------------------------------------------

  /** The options of the message's OPT record; none when it has no such record. */
  function OptionsOf(m: Msg): seq<EdnsOption> {
    var i := LastOpt(m.extra);
    if i < 0 then [] else m.extra[i].options
  }

  function ReplaceOptions(m: Msg, i: nat, opts: seq<EdnsOption>): Msg
    requires i < |m.extra| && m.extra[i].Opt?
  {
    var o := m.extra[i];
    m.(extra := m.extra[i := Opt(o.udpSize, o.ttl, opts)])
  }

  function StripZone(m: Msg, code: nat): Msg {
    var i := LastOpt(m.extra);
    if i < 0 then m else ReplaceOptions(m, i, Without(m.extra[i].options, code))
  }

  function SetZone(m: Msg, code: nat, zone: string): Msg {
    var i := LastOpt(m.extra);
    if i < 0 then
      m.(extra := m.extra + [Opt(DEFAULT_MSG_SIZE, 0, WithDeclaration([], code, zone))])
    else
      ReplaceOptions(m, i, WithDeclaration(m.extra[i].options, code, zone))
  }

  function GetZone(m: Msg, code: nat): Option<string> {
    Declared(OptionsOf(m), code)
  }

  /** What the agent sends to central for the client's message `r`. */
  function Outbound(r: Msg, code: nat, zone: Option<string>): Msg {
    var stripped := StripZone(r, code);
    if zone.Some? then SetZone(stripped, code, zone.value) else stripped
  }

  /** The option list central reads, in terms of the one the client sent. */
  lemma OutboundOptions(r: Msg, code: nat, zone: Option<string>)
    ensures OptionsOf(Outbound(r, code, zone)) ==
      Without(OptionsOf(r), code) + if zone.Some? then [Local(code, zone.value)] else []
  {
    var i := LastOpt(r.extra);
    var stripped := StripZone(r, code);
    if i >= 0 {
      LastOptUnique(stripped.extra, i);
      WithoutDeclaresNothing(OptionsOf(r), code);
      if zone.Some? {
        LastOptUnique(SetZone(stripped, code, zone.value).extra, i);
      }
    } else if zone.Some? {
      LastOptUnique(SetZone(stripped, code, zone.value).extra, |r.extra|);
    }
  }

  /**
   Whatever the client attached, central reads exactly the agent's own zone: the
   zone itself when it is well formed, and nothing otherwise.
   */
  lemma OutboundRoundTrip(r: Msg, code: nat, zone: Option<string>)
    ensures GetZone(Outbound(r, code, zone), code) ==
      if zone.Some? && ValidZone(zone.value) then zone else None
  {
    OutboundOptions(r, code, zone);
    if zone.Some? {
      DeclarationRoundTrip(OptionsOf(r), code, zone.value);
    } else {
      WithoutDeclaresNothing(OptionsOf(r), code);
      assert OptionsOf(Outbound(r, code, zone)) == Without(OptionsOf(r), code);
    }
  }

  /** Options under other codes survive, unchanged and in order, and declarations among them read the same. */
  lemma OutboundKeepsOtherOptions(r: Msg, code: nat, zone: Option<string>)
    ensures Without(OptionsOf(Outbound(r, code, zone)), code) == Without(OptionsOf(r), code)
    ensures forall other: nat :: other != code ==> GetZone(Outbound(r, code, zone), other) == GetZone(r, other)
  {
    OutboundOptions(r, code, zone);
    var kept := Without(OptionsOf(r), code);
    var added := if zone.Some? then [Local(code, zone.value)] else [];
    WithoutDeclaresNothing(OptionsOf(r), code);
    WithoutConcat(kept, added, code);
    assert kept + Without(added, code) == kept;
    forall other: nat | other != code
      ensures Declarations(kept + added, other) == Declarations(OptionsOf(r), other)
    {
      WithoutKeepsOtherCodes(OptionsOf(r), code, other);
      DeclarationsConcat(kept, added, other);
      assert Declarations(kept, other) + [] == Declarations(kept, other);
    }
  }

  /**
   Nothing but the option list changes: the OPT record keeps its size and flags,
   every other record and field is the client's, and an OPT record is created
   only to carry a declaration.
   */
  lemma OutboundKeepsRest(r: Msg, code: nat, zone: Option<string>)
    ensures var out, i := Outbound(r, code, zone), LastOpt(r.extra);
      && out == r.(extra := out.extra)
      && |out.extra| == |r.extra| + (if i < 0 && zone.Some? then 1 else 0)
      && (forall j :: 0 <= j < |r.extra| && j != i ==> out.extra[j] == r.extra[j])
      && (i >= 0 ==> out.extra[i].Opt? && out.extra[i].udpSize == r.extra[i].udpSize
                     && out.extra[i].ttl == r.extra[i].ttl)
      && (i < 0 && zone.Some? ==> out.extra[|r.extra|] == Opt(4096, 0, [Local(code, zone.value)]))
  {
    var i := LastOpt(r.extra);
    var stripped := StripZone(r, code);
    assert stripped == r.(extra := stripped.extra);
    if i >= 0 {
      LastOptUnique(stripped.extra, i);
    }
  }

  // ---------------------------------------------------------------------
  // "A client-supplied option must never survive"
  // ---------------------------------------------------------------------

  /** No OPT record of the message declares a zone, not even one that is never read. */
  predicate NoDeclarationAnywhere(m: Msg, code: nat) {
    forall j :: 0 <= j < |m.extra| && m.extra[j].Opt? ==> Declarations(m.extra[j].options, code) == []
  }

  /** Some OPT record before the last one carries a declaration. */
  predicate EarlierDeclaration(m: Msg, code: nat) {
    exists j :: 0 <= j < LastOpt(m.extra) && m.extra[j].Opt? && Declarations(m.extra[j].options, code) != []
  }

  /**
   The strip clears the whole message exactly when no OPT record but the last
   declares anything: it looks at the last one only.
   */
  lemma StripClearsAllIff(m: Msg, code: nat)
    ensures NoDeclarationAnywhere(StripZone(m, code), code) <==> !EarlierDeclaration(m, code)
  {
    var i := LastOpt(m.extra);
    var s := StripZone(m, code);
    if i >= 0 {
      WithoutDeclaresNothing(m.extra[i].options, code);
      forall j | 0 <= j < |m.extra| && j != i ensures s.extra[j] == m.extra[j] {}
      if EarlierDeclaration(m, code) {
        var j :| 0 <= j < i && m.extra[j].Opt? && Declarations(m.extra[j].options, code) != [];
        assert s.extra[j] == m.extra[j];
      }
    }
  }

  /** A client that sends two OPT records gets its own declaration through in the first. */
  lemma ClientDeclarationSurvives()
    ensures var m := EMPTY_MSG.(extra := [Opt(512, 0, [Local(65001, "z")]), Opt(512, 0, [])]);
      && StripZone(m, 65001) == m
      && !NoDeclarationAnywhere(StripZone(m, 65001), 65001)
      && GetZone(StripZone(m, 65001), 65001) == None
  {
    var opts := [Local(65001, "z")];
    var m := EMPTY_MSG.(extra := [Opt(512, 0, opts), Opt(512, 0, [])]);
    LastOptUnique(m.extra, 1);
    assert m.extra[1 := Opt(512, 0, [])] == m.extra;
    assert opts[..0] == [];
    assert Declarations(opts, 65001) == Declarations([], 65001) + ["z"];
    assert m.extra[0].options == opts;
  }
}
