/**
 * DNS messages as abstract records: the header fields of section 4.1.1 of
 * RFC 1035 (ID, the flag bits, RCODE) and the question, answer and additional
 * sections. Wire encoding belongs to the DNS library and is not modelled;
 * a message stands for its lossless wire form.
 */
module Dns {
  import opened Wrappers

  /** A 16-bit transaction id. */
  type Id = x: int | 0 <= x < 0x1_0000

  /** Flag bits of the header word (section 4.1.1 of RFC 1035). */
  const QR: bv16 := 0x8000
  const RD: bv16 := 0x0100
  const RA: bv16 := 0x0080
  /** The four OPCODE bits of the header word. */
  const OPCODE: bv16 := 0x7800

  /** RCODE 2, server failure. */
  const SERVFAIL: nat := 2

  /** The TYPE code of an A (host address) record. */
  const TYPE_A: nat := 1

  /** One record of an RRset: its type code and, for A records, the dotted IPv4 address. */
  datatype Rdata = Rdata(rdtype: nat, address: string)

  /** Records sharing an owner name; `name` is the owner's text form, e.g. "ns1.example.com.". */
  datatype RRset = RRset(name: string, rdatas: seq<Rdata>)

  /** A question: the name's text form and the query type code. */
  datatype Question = Question(name: string, qtype: nat)

  datatype Message = Message(
    id: Id,
    flags: bv16,
    question: seq<Question>,
    answer: seq<RRset>,
    additional: seq<RRset>,
    rcode: nat)

  /**
   * The DNS library's `make_response`: None where it raises because the
   * message already has QR set; otherwise a skeleton under the request's id
   * and question, with QR on, RD and the OPCODE copied, RA off, no records
   * and RCODE 0.
   */
  function MakeResponse(req: Message): (r: Option<Message>)
    ensures r.None? <==> req.flags & QR == QR
    ensures r.Some? ==> r.value.id == req.id && r.value.question == req.question
    ensures r.Some? ==> r.value.rcode == 0 && r.value.answer == [] && r.value.additional == []
    ensures r.Some? ==> r.value.flags & QR == QR && r.value.flags & (RD | OPCODE) == req.flags & (RD | OPCODE)
    ensures r.Some? ==> r.value.flags & !(QR | RD | OPCODE) == 0
  {
    if req.flags & QR == QR then None
    else Some(Message(req.id, QR | (req.flags & (RD | OPCODE)), req.question, [], [], 0))
  }

  /**
   * The failure reply: the library's response skeleton with RCODE set to
   * SERVFAIL, or None where building the skeleton raises.
   */
  function ServfailFor(req: Message): (r: Option<Message>)
    ensures r.None? <==> req.flags & QR == QR
    ensures r.Some? ==> r.value.id == req.id && r.value.question == req.question
    ensures r.Some? ==> r.value.rcode == SERVFAIL && r.value.answer == [] && r.value.additional == []
    ensures r.Some? ==> r.value.flags & QR == QR && r.value.flags & RA == 0
    ensures r.Some? ==> r.value.flags & (RD | OPCODE) == req.flags & (RD | OPCODE)
  {
    match MakeResponse(req)
    case None => None
    case Some(m) => Some(m.(rcode := SERVFAIL))
  }

  /** A resolved upstream message as it is sent back: the request's id, QR and RA forced on. */
  function AsReply(m: Message, id: Id): (r: Message)
    ensures r.id == id && r.flags & QR == QR && r.flags & RA == RA
    ensures r.flags & !(QR | RA) == m.flags & !(QR | RA)
    ensures r.(id := m.id, flags := m.flags) == m
  {
    m.(id := id, flags := m.flags | QR | RA)
  }

  /** A stored message with only its id rewritten. */
  function WithId(m: Message, id: Id): (r: Message)
    ensures r.id == id && r.(id := m.id) == m
  {
    m.(id := id)
  }
}
