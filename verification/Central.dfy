/**
 The central side: whom to believe (internal/identity), what to do
 (internal/decision) and what to answer (plugin/zonedns).
 */
module Central {
  import opened Wrappers
  import opened Dns
  import Ednszone
  import Registry

  // ---------------------------------------------------------------------
  // Identity
  // ---------------------------------------------------------------------

  datatype Uri = Uri(scheme: string, text: string)

  /** A certificate, by its URI SANs; one that did not parse is `None`. */
  datatype Cert = Cert(uris: seq<Option<Uri>>)

  datatype Tls = NoTls | Chain(certs: seq<Cert>)

  /** How a query came in: the HTTP request in its context, if any, and the writer's own TLS state, if any. */
  datatype Transport = Transport(http: Option<Tls>, stater: Option<Tls>)

  function CertsFromState(st: Tls): Option<seq<Cert>> {
    if st.NoTls? || st.certs == [] then None else Some(st.certs)
  }

  /** An HTTP request in the context decides on its own, even without certificates. */
  function PeerCertificates(t: Transport): (r: Option<seq<Cert>>)
    ensures r.Some? ==> r.value != []
  {
    if t.http.Some? then CertsFromState(t.http.value)
    else if t.stater.Some? then CertsFromState(t.stater.value)
    else None
  }

  function SpiffeId(cert: Cert): Option<string> {
    if |cert.uris| != 1 then None
    else if cert.uris[0].None? || cert.uris[0].value.scheme != "spiffe" then None
    else Some(cert.uris[0].value.text)
  }

  datatype IdentityConfig = IdentityConfig(authorized: set<string>, code: nat)

  /** An empty list authorizes nobody; a listed agent is authorized however often it is listed. */
  method NewConfig(agents: seq<string>, code: nat) returns (c: IdentityConfig)
    ensures c.code == code
    ensures forall a :: a in c.authorized <==> a in agents
  {
    var s: set<string> := {};
    for i := 0 to |agents|
      invariant forall a :: a in s <==> a in agents[..i]
    {
      s := s + {agents[i]};
    }
    assert agents[..|agents|] == agents;
    c := IdentityConfig(s, code);
  }

  datatype Source = SourceOk(zone: string) | SourceNoTls | UnauthorizedAgent | NoDeclaration

  /** Authorization first; the declaration is read only afterwards. */
  function SourceZone(c: IdentityConfig, t: Transport, r: Msg): Source {
    var certs := PeerCertificates(t);
    if certs.None? then SourceNoTls
    else
      var id := SpiffeId(certs.value[0]);
      if id.None? || id.value !in c.authorized then UnauthorizedAgent
      else
        var zone := Ednszone.GetZone(r, c.code);
        if zone.None? then NoDeclaration else SourceOk(zone.value)
  }

  /** The chain the query is judged by: that of the HTTP request if there is one. */
  function JudgedChain(t: Transport): seq<Cert> {
    var st := if t.http.Some? then t.http.value else if t.stater.Some? then t.stater.value else NoTls;
    if st.NoTls? then [] else st.certs
  }

  /** The leaf carries exactly one URI SAN, and it is an authorized SPIFFE ID. */
  ghost predicate AuthorizedPeer(c: IdentityConfig, t: Transport) {
    && JudgedChain(t) != []
    && exists id :: id in c.authorized && JudgedChain(t)[0] == Cert([Some(Uri("spiffe", id))])
  }

  /** Exactly one option of the OPT record declares, and it declares the well-formed zone `z`. */
  ghost predicate DeclaresOnly(r: Msg, code: nat, z: string) {
    Ednszone.ValidZone(z) && Ednszone.DeclaresOnce(Ednszone.OptionsOf(r), code, z)
  }

  /**
   Every outcome of the identity check: a zone is believed exactly from an authorized peer
   with a single well-formed declaration; without a certificate chain there is no peer, and
   the declaration counts only once the peer is authorized.
   */
  lemma SourceZoneIff(c: IdentityConfig, t: Transport, r: Msg)
    ensures forall z :: SourceZone(c, t, r) == SourceOk(z) <==> AuthorizedPeer(c, t) && DeclaresOnly(r, c.code, z)
    ensures SourceZone(c, t, r) == SourceNoTls <==> JudgedChain(t) == []
    ensures SourceZone(c, t, r) == UnauthorizedAgent <==> JudgedChain(t) != [] && !AuthorizedPeer(c, t)
    ensures SourceZone(c, t, r) == NoDeclaration <==> AuthorizedPeer(c, t) && forall z :: !DeclaresOnly(r, c.code, z)
  {
    PeerIff(c, t);
    var declared := Ednszone.GetZone(r, c.code);
    forall z ensures declared == Some(z) <==> DeclaresOnly(r, c.code, z) {
      Ednszone.DeclaredIff(Ednszone.OptionsOf(r), c.code, z);
    }
    if declared.Some? {
      assert DeclaresOnly(r, c.code, declared.value);
    }
  }

  lemma PeerIff(c: IdentityConfig, t: Transport)
    ensures AuthorizedPeer(c, t) <==>
      var certs := PeerCertificates(t);
      certs.Some? && SpiffeId(certs.value[0]).Some? && SpiffeId(certs.value[0]).value in c.authorized
  {
  }

  // ---------------------------------------------------------------------
  // Decision
  // ---------------------------------------------------------------------

  datatype Decision = PassThrough | AnswerGateway(gateway: Addr) | ServFail

  datatype Input = Input(sourceZone: string, sourceOK: bool, destZone: string, destOK: bool)

  function Decide(i: Input, gateway: string -> Option<Addr>): Decision {
    if !i.sourceOK then PassThrough
    else if !i.destOK then PassThrough
    else if i.destZone == i.sourceZone then PassThrough
    else
      var gw := gateway(i.destZone);
      if gw.None? then ServFail else AnswerGateway(gw.value)
  }

  // ---------------------------------------------------------------------
  // The handler
  // ---------------------------------------------------------------------

  datatype Config = Config(identity: IdentityConfig, zones: map<string, Addr>, ttl: Uint32)

  function Gateway(zones: map<string, Addr>): string -> Option<Addr> {
    z => if z in zones then Some(zones[z]) else None
  }

  /** What central does for request `r`, with `reg` the snapshot in effect. */
  function Action(c: Config, t: Transport, r: Msg, reg: Option<Registry.Snapshot>): Decision {
    if QType(r) != TYPE_A && QType(r) != TYPE_AAAA then PassThrough
    else
      var source := SourceZone(c.identity, t, r);
      var dest := Registry.StoreLookup(reg, QName(r));
      Decide(
        Input(if source.SourceOk? then source.zone else "", source.SourceOk?,
              if dest.Some? then dest.value else "", dest.Some?),
        Gateway(c.zones))
  }

  /** The source may be routed: an address query from an authorized peer declaring z, for a name in z'. */
  ghost predicate CrossZone(c: Config, t: Transport, r: Msg, reg: Option<Registry.Snapshot>, z: string, z': string) {
    && Asked(r).qtype in {1, 28}
    && AuthorizedPeer(c.identity, t)
    && DeclaresOnly(r, c.identity.code, z)
    && reg.Some? && Registry.Lookup(reg.value, Asked(r).name) == Some(z')
    && z != z'
  }

  /**
   The complete decision table over every request: the gateway exactly when the
   query crosses zones and the destination has one, SERVFAIL exactly when only the
   gateway is missing, pass-through in every other case.
   */
  lemma ActionIff(c: Config, t: Transport, r: Msg, reg: Option<Registry.Snapshot>)
    ensures forall gw :: Action(c, t, r, reg) == AnswerGateway(gw) <==>
      exists z, z' :: CrossZone(c, t, r, reg, z, z') && z' in c.zones && c.zones[z'] == gw
    ensures Action(c, t, r, reg) == ServFail <==>
      exists z, z' :: CrossZone(c, t, r, reg, z, z') && z' !in c.zones
    ensures Action(c, t, r, reg) == PassThrough <==>
      forall z, z' :: !CrossZone(c, t, r, reg, z, z')
  {
    var source := SourceZone(c.identity, t, r);
    var dest := Registry.StoreLookup(reg, QName(r));
    LookupAsked(r, reg);
    SourceZoneIff(c.identity, t, r);
    forall z, z'
      ensures CrossZone(c, t, r, reg, z, z') <==>
        QType(r) in {TYPE_A, TYPE_AAAA} && source == SourceOk(z) && dest == Some(z') && z != z'
    {
    }
    if QType(r) in {TYPE_A, TYPE_AAAA} && source.SourceOk? && dest.Some? && source.zone != dest.value {
      assert CrossZone(c, t, r, reg, source.zone, dest.value);
    }
  }

  /** Lower-casing the name before the lookup makes no difference to it. */
  lemma LookupAsked(r: Msg, reg: Option<Registry.Snapshot>)
    ensures Registry.StoreLookup(reg, QName(r)) == Registry.StoreLookup(reg, Asked(r).name)
  {
    Registry.LookupIgnoresCase(reg, Asked(r).name);
    assert r.question == [] ==> QName(r) == Asked(r).name;
  }

  /** What is done with a believed address query from z for a name in z'. */
  lemma ActionBetween(c: Config, t: Transport, r: Msg, reg: Option<Registry.Snapshot>, z: string, z': string)
    requires Asked(r).qtype in {1, 28} && SourceZone(c.identity, t, r) == SourceOk(z)
    requires Registry.StoreLookup(reg, Asked(r).name) == Some(z')
    ensures Action(c, t, r, reg) ==
      if z == z' then PassThrough else if z' in c.zones then AnswerGateway(c.zones[z']) else ServFail
  {
    LookupAsked(r, reg);
  }

  /** Central reads nothing of a request but its name, its type and what it declares. */
  lemma ActionReads(c: Config, t: Transport, a: Msg, b: Msg, reg: Option<Registry.Snapshot>)
    requires QName(a) == QName(b) && QType(a) == QType(b)
    requires Ednszone.GetZone(a, c.identity.code) == Ednszone.GetZone(b, c.identity.code)
    ensures Action(c, t, a, reg) == Action(c, t, b, reg)
  {
  }

  /** The OPT record the reply carries back, when the request had one. */
  function ReplyOpt(r: Msg): seq<RR> {
    var i := LastOpt(r.extra);
    if i < 0 then [] else [Opt(r.extra[i].udpSize, 0, [])]
  }

  /** The gateway's address if its family is the one asked for, else no data. */
  function GatewayReply(c: Config, r: Msg, gw: Addr): Msg {
    var name := if r.question == [] then "." else r.question[0].name;
    SetReply(EMPTY_MSG, r).(
      authoritative := true,
      answer :=
        if QType(r) == TYPE_A && gw.V4? then [Record(name, TYPE_A, CLASS_INET, c.ttl, Ip(gw))]
        else if QType(r) == TYPE_AAAA && gw.V6? then [Record(name, TYPE_AAAA, CLASS_INET, c.ttl, Ip(gw))]
        else [],
      extra := ReplyOpt(r))
  }

  /** The reply that reaches the agent; `downstream` is whatever the next handler answers. */
  function Reply(c: Config, t: Transport, r: Msg, reg: Option<Registry.Snapshot>, downstream: Msg): Msg {
    match Action(c, t, r, reg)
    case PassThrough => downstream
    case AnswerGateway(gw) => GatewayReply(c, r, gw)
    case ServFail => SetReply(EMPTY_MSG, r).(rcode := RCODE_SERVFAIL)
  }

  /**
   A gateway answer is a reply to the request, holds nothing but the gateway's address, in
   the family asked for and owned by the name asked for, and never denies the name.
   */
  lemma GatewayReplyContent(c: Config, r: Msg, gw: Addr)
    ensures var m, asked := GatewayReply(c, r, gw), Asked(r);
      && m.id == r.id && m.response && m.authoritative && m.opcode == r.opcode && m.rcode == 0
      && m.ns == []
      && (m.answer != [] <==> (asked.qtype == 1 && gw.V4?) || (asked.qtype == 28 && gw.V6?))
      && (m.answer != [] ==> m.answer == [Record(asked.name, asked.qtype, 1, c.ttl, Ip(gw))])
      && (LastOpt(r.extra) < 0 ==> m.extra == [])
      && (LastOpt(r.extra) >= 0 ==> |m.extra| == 1 && m.extra[0].Opt?)
      && (r.question != [] ==> m.question == [r.question[0]])
  {
  }
}
