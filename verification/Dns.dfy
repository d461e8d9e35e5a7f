/**
 The parts of a DNS message the two plugins touch, as values, and the library
 operations they call on it.
 */
module Dns {
  import opened Wrappers
  import opened Text

  type Uint32 = x: int | 0 <= x < 0x1_0000_0000

  const TYPE_A := 1
  const TYPE_AAAA := 28
  const CLASS_INET := 1
  const RCODE_SUCCESS := 0
  const RCODE_SERVFAIL := 2
  const OPCODE_QUERY := 0
  const DEFAULT_MSG_SIZE := 4096

  datatype Addr = V4(bits: nat) | V6(bits: nat)

  /** An option of an OPT record; `Local` is one of the local/experimental kind. */
  datatype EdnsOption = Local(code: nat, data: string) | Other(code: nat, data: string)

  datatype Question = Question(name: string, qtype: nat, qclass: nat)

  datatype Rdata = Ip(addr: Addr) | Raw(bytes: string)

  /** `Opt` is the OPT pseudo-record, whose TTL field carries flags (section 6.1.3 of RFC 6891). */
  datatype RR =
    | Record(name: string, rrtype: nat, rclass: nat, ttl: Uint32, rdata: Rdata)
    | Opt(udpSize: nat, ttl: Uint32, options: seq<EdnsOption>)

  datatype Msg = Msg(
    id: nat,
    response: bool,
    opcode: nat,
    authoritative: bool,
    recursionDesired: bool,
    checkingDisabled: bool,
    rcode: nat,
    question: seq<Question>,
    answer: seq<RR>,
    ns: seq<RR>,
    extra: seq<RR>)

  const EMPTY_MSG := Msg(0, false, OPCODE_QUERY, false, false, false, RCODE_SUCCESS, [], [], [], [])

  /** The lower-cased name asked for; the root when there is no question. */
  function QName(m: Msg): string {
    if m.question == [] then "." else ToLower(m.question[0].name)
  }

  /** The type asked for; 0 when there is no question. */
  function QType(m: Msg): nat {
    if m.question == [] then 0 else m.question[0].qtype
  }

  /**
   What a message asks for: its first question. Without one it counts as asking for the
   root, type 0.
   */
  function Asked(m: Msg): Question {
    if |m.question| > 0 then m.question[0] else Question(".", 0, 0)
  }

  /** Two messages ask for the same whole name, case aside, and the same type. */
  predicate SameAsked(a: Msg, b: Msg) {
    EqualFold(Asked(a).name, Asked(b).name) && Asked(a).qtype == Asked(b).qtype
  }

  /** The name and type read from two messages agree exactly when they ask for the same. */
  lemma SameAskedIff(a: Msg, b: Msg)
    ensures SameAsked(a, b) <==> QName(a) == QName(b) && QType(a) == QType(b)
  {
    EqualFoldIsEqualLower(Asked(a).name, Asked(b).name);
    assert ToLower(".") == ".";
  }

  /** Turns `m` into a reply to `req`, as the library does: the rcode becomes success. */
  function SetReply(m: Msg, req: Msg): Msg {
    m.(id := req.id,
       response := true,
       opcode := req.opcode,
       recursionDesired := if req.opcode == OPCODE_QUERY then req.recursionDesired else m.recursionDesired,
       checkingDisabled := if req.opcode == OPCODE_QUERY then req.checkingDisabled else m.checkingDisabled,
       rcode := RCODE_SUCCESS,
       question := if req.question == [] then m.question else [req.question[0]])
  }

  /** `SetReply` with the message's own rcode put back, as the agent does on both its paths. */
  function ReplyKeepingRcode(m: Msg, req: Msg): Msg {
    SetReply(m, req).(rcode := m.rcode)
  }

  /** Where the OPT record is, searching from the end of the additional section; -1 if absent. */
  function LastOpt(extra: seq<RR>): (i: int)
    ensures -1 <= i < |extra|
    ensures i >= 0 ==> extra[i].Opt?
    ensures forall j :: i < j < |extra| ==> !extra[j].Opt?
  {
    if extra == [] then -1
    else if extra[|extra| - 1].Opt? then |extra| - 1
    else LastOpt(extra[..|extra| - 1])
  }

  /** There is one place where the OPT record can be. */
  lemma LastOptUnique(extra: seq<RR>, i: int)
    requires 0 <= i < |extra| && extra[i].Opt?
    requires forall j :: i < j < |extra| ==> !extra[j].Opt?
    ensures LastOpt(extra) == i
  {
  }

  /** `rr` with its header's TTL field overwritten, whatever its type. */
  function WithTtl(rr: RR, ttl: Uint32): RR {
    match rr
    case Record(name, rrtype, rclass, _, rdata) => Record(name, rrtype, rclass, ttl, rdata)
    case Opt(udpSize, _, options) => Opt(udpSize, ttl, options)
  }

  /** `WithTtl` that leaves an OPT record alone. */
  function WithTtlUnlessOpt(rr: RR, ttl: Uint32): RR {
    if rr.Opt? then rr else WithTtl(rr, ttl)
  }

  /** Two records agree in everything but the TTL field. */
  predicate SameData(a: RR, b: RR) {
    match a
    case Record(name, rrtype, rclass, _, rdata) =>
      b.Record? && b.name == name && b.rrtype == rrtype && b.rclass == rclass && b.rdata == rdata
    case Opt(udpSize, _, options) => b.Opt? && b.udpSize == udpSize && b.options == options
  }

  predicate SameButTtl(a: seq<RR>, b: seq<RR>) {
    |a| == |b| && forall i :: 0 <= i < |a| ==> SameData(a[i], b[i])
  }

  /** As `SameButTtl`, and OPT records agree on their TTL field too. */
  predicate SameButDataTtl(a: seq<RR>, b: seq<RR>) {
    SameButTtl(a, b) && forall i :: 0 <= i < |a| && a[i].Opt? ==> a[i] == b[i]
  }

  /** Equal rcode and record data, TTLs aside. */
  predicate SameContent(a: Msg, b: Msg) {
    && a.rcode == b.rcode
    && SameButTtl(a.answer, b.answer)
    && SameButTtl(a.ns, b.ns)
    && SameButDataTtl(a.extra, b.extra)
  }

  /** What the client reads is the answer's own content, under its own id, opcode, flags and question. */
  lemma ReplyKeepsContent(m: Msg, req: Msg)
    ensures var reply := ReplyKeepingRcode(m, req);
      && SameContent(reply, m) && reply.answer == m.answer
      && reply.response && reply.id == req.id && reply.opcode == req.opcode && reply.authoritative == m.authoritative
      && (req.opcode == 0 ==>
            reply.recursionDesired == req.recursionDesired && reply.checkingDisabled == req.checkingDisabled)
      && (req.question != [] ==> reply.question == [req.question[0]])
  {
  }

  /** A message in memory, whose content whoever holds it updates in place. */
  class Message {
    var v: Msg

    constructor (m: Msg)
      ensures v == m
    {
      v := m;
    }

    method Copy() returns (c: Message)
      ensures fresh(c) && c.v == v
    {
      c := new Message(v);
    }

    method ToReply(req: Message)
      modifies this
      ensures v == SetReply(old(v), old(req.v))
    {
      v := SetReply(v, req.v);
    }

    method SetRcode(code: nat)
      modifies this
      ensures v == old(v).(rcode := code)
    {
      v := v.(rcode := code);
    }
  }
}
