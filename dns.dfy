/** An abstract DNS message: the parts of a miekg/dns `Msg` that the
    resolution pipeline reads or writes.  Wire encoding is not modelled. */
module Dns {

  /** A 16-bit transaction identifier. */
  newtype u16 = x: int | 0 <= x < 0x1_0000

  /** RCODE values of section 4.1.1 of RFC 1035 used by the server. */
  const RcodeSuccess: nat := 0
  const RcodeServerFailure: nat := 2
  const RcodeNameError: nat := 3

  datatype Question = Question(name: string, qtype: u16, qclass: u16)

  /** A resource record, kept opaque: the pipeline only copies answers. */
  datatype RR = RR(owner: string, rrtype: u16, ttl: nat, rdata: seq<bv8>)

  datatype Msg = Msg(
    id: u16,
    response: bool,
    authoritative: bool,
    rcode: nat,
    question: seq<Question>,
    answer: seq<RR>)

  /** What `new(dns.Msg)` allocates: every field at its zero value. */
  const EmptyMsg := Msg(0, false, false, RcodeSuccess, [], [])

  /** The header fields `SetReply(request)` overwrites in `m`: the request's
      id, the response flag, a success rcode and the request's first
      question (the question section is left alone when the request has none). */
  function SetReply(m: Msg, request: Msg): (r: Msg)
    ensures r.id == request.id && r.response && r.rcode == RcodeSuccess
    ensures r.authoritative == m.authoritative && r.answer == m.answer
    ensures |request.question| > 0 ==> r.question == [request.question[0]]
    ensures |request.question| == 0 ==> r.question == m.question
  {
    m.(id := request.id, response := true, rcode := RcodeSuccess,
       question := if |request.question| > 0 then request.question[..1] else m.question)
  }

  /** `m.SetRcode(request, rcode)`: a reply to `request` carrying `rcode`. */
  function SetRcode(m: Msg, request: Msg, rcode: nat): (r: Msg)
    ensures r.rcode == rcode && r.id == request.id && r.response
    ensures r.authoritative == m.authoritative && r.answer == m.answer
    ensures |request.question| > 0 ==> r.question == [request.question[0]]
  {
    SetReply(m, request).(rcode := rcode)
  }

  /** The reply both transports start from: `msg := new(dns.Msg);
      msg.SetReply(r); msg.Authoritative = true`. */
  function PreparedReply(r: Msg): (m: Msg)
    ensures m.id == r.id && m.response && m.authoritative
    ensures m.rcode == RcodeSuccess && m.answer == []
    ensures |r.question| > 0 ==> m.question == [r.question[0]]
  {
    SetReply(EmptyMsg, r).(authoritative := true)
  }

  /** The name the server filters and caches on: the first question's. */
  function QueryName(r: Msg): string
    requires |r.question| > 0
  {
    r.question[0].name
  }
}
