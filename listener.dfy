/**
 * The serving loop of server.py: per-request handling (cache check, root
 * walk, reply synthesis, cache store) and the loop over inbound datagrams,
 * stated as functions of the resolver's state.
 */
module Listener {
  import opened Wrappers
  import opened Dns
  import opened Trace
  import opened Cache
  import opened Lookup

  /** An inbound datagram: bytes the DNS library cannot decode, or a decoded request. */
  datatype Inbound = Malformed | Datagram(req: Message)

  /**
   * The resolver's state: the response cache (question name text -> the reply
   * sent for it), the glue cache, the trace log, and every query sent upstream.
   */
  datatype ServerState = ServerState(
    responses: map<string, Message>,
    glue: map<string, string>,
    log: seq<TraceRecord>,
    sent: seq<Query>)

  datatype Handled = Handled(state: ServerState, reply: Option<Message>)

  datatype Served = Served(state: ServerState, replies: seq<Option<Message>>)

  /**
   * One pass of the `while True` body. A datagram that does not decode, or a
   * request without a question, raises inside the `try`: no reply, nothing
   * changes. Only the first question is used. A cached name is answered
   * from the cache under the request's id; otherwise the root walk runs and
   * its answer is sent with QR and RA on and stored, or a SERVFAIL is sent
   * and nothing is stored; building that SERVFAIL raises for a request that
   * already has QR set, and then nothing is sent, though the walk's glue,
   * log and traffic remain.
   */
  function Handle(st: ServerState, roots: seq<string>, inb: Inbound, net: Net): Handled
  {
    match inb
    case Malformed => Handled(st, None)
    case Datagram(req) =>
      if req.question == [] then Handled(st, None)
      else
        var domain, qtype := req.question[0].name, req.question[0].qtype;
        if domain in st.responses then
          Handled(st.(log := st.log + [HitRecord(domain)]), Some(WithId(st.responses[domain], req.id)))
        else
          var w := Walk(roots, domain, qtype, net, st.glue, st.log, st.sent);
          match w.result
          case Some(m) =>
            var r := AsReply(m, req.id);
            Handled(ServerState(st.responses[domain := r], w.glue, w.trace, w.sent), Some(r))
          case None =>
            Handled(ServerState(st.responses, w.glue, w.trace, w.sent), ServfailFor(req))
  }

  /** The serving loop after the datagrams `inbox`, the i-th met by the network `nets[i]`. */
  function Run(st: ServerState, roots: seq<string>, inbox: seq<Inbound>, nets: seq<Net>): (s: Served)
    requires |nets| == |inbox|
    ensures |s.replies| == |inbox|
    decreases |inbox|
  {
    if inbox == [] then Served(st, [])
    else
      var n := |inbox| - 1;
      var prev := Run(st, roots, inbox[..n], nets[..n]);
      var h := Handle(prev.state, roots, inbox[n], nets[n]);
      Served(h.state, prev.replies + [h.reply])
  }

  /** The inbound datagram decodes to a request with a question. */
  predicate Answerable(inb: Inbound)
  {
    inb.Datagram? && inb.req.question != []
  }

  /** Some root, asked in the walk, leads to an answer for the question. */
  predicate Resolvable(roots: seq<string>, q: Question, net: Net)
  {
    exists i :: 0 <= i < |roots| && RootAnswer(roots[i], q.name, q.qtype, net).Some?
  }

  /**
   * The datagram is answered: it decodes to a request with a question and
   * the request is not already marked a response (QR), unless its name is
   * cached or resolvable, where the failure reply is never built.
   */
  predicate GetsReply(st: ServerState, roots: seq<string>, inb: Inbound, net: Net)
  {
    && Answerable(inb)
    && (|| inb.req.flags & QR == 0
        || inb.req.question[0].name in st.responses
        || Resolvable(roots, inb.req.question[0], net))
  }

  /**
   * A datagram gets exactly one reply when it decodes to a request with a
   * question, except a request with QR set that neither the cache nor the
   * walk can answer, whose failure reply raises; the reply carries the
   * request's transaction id on the cache-hit, resolved and SERVFAIL paths
   * alike.
   */
  lemma ReplyCarriesRequestId(st: ServerState, roots: seq<string>, inb: Inbound, net: Net)
    ensures var h := Handle(st, roots, inb, net);
      && (h.reply.Some? <==> GetsReply(st, roots, inb, net))
      && (h.reply.Some? ==> h.reply.value.id == inb.req.id)
  {
    if Answerable(inb) && inb.req.question[0].name !in st.responses {
      var q := inb.req.question[0];
      WalkFindsFirstAnswer(roots, q.name, q.qtype, net, st.glue, st.log, st.sent);
    }
  }

  /**
   * A cached name is answered from the cache whatever the query type: the
   * stored reply with only its id rewritten, one HIT line in the log, no
   * upstream query, both caches unchanged.
   */
  lemma CacheHitPath(st: ServerState, roots: seq<string>, req: Message, net: Net)
    requires req.question != [] && req.question[0].name in st.responses
    ensures var h, d := Handle(st, roots, Datagram(req), net), req.question[0].name;
      && h.reply == Some(st.responses[d].(id := req.id))
      && h.state.log == st.log + [TraceRecord(d, "Recursive", "-", "Cache", "Response", "0", "HIT")]
      && h.state.sent == st.sent
      && h.state.responses == st.responses && h.state.glue == st.glue
  {
  }

  /**
   * Only successful resolutions are stored, and what is stored is the reply
   * as sent: its answer section is non-empty and QR and RA are set. All
   * other cache entries stay as they were.
   */
  lemma OnlyAnswersAreCached(st: ServerState, roots: seq<string>, inb: Inbound, net: Net)
    ensures var h := Handle(st, roots, inb, net);
      || h.state.responses == st.responses
      || (&& Answerable(inb) && inb.req.question[0].name !in st.responses
          && h.reply.Some? && h.reply.value.answer != []
          && h.reply.value.flags & QR == QR && h.reply.value.flags & RA == RA
          && h.state.responses == st.responses[inb.req.question[0].name := h.reply.value])
  {
    match inb
    case Malformed =>
    case Datagram(req) =>
      if req.question != [] && req.question[0].name !in st.responses {
        var w := Walk(roots, req.question[0].name, req.question[0].qtype, net, st.glue, st.log, st.sent);
        WalkFindsFirstAnswer(roots, req.question[0].name, req.question[0].qtype, net, st.glue, st.log, st.sent);
        if w.result.Some? {
          var i :| 0 <= i < |roots| && RootAnswer(roots[i], req.question[0].name, req.question[0].qtype, net) == w.result;
          RootAnswerIsAnswer(roots[i], req.question[0].name, req.question[0].qtype, net);
        }
      }
  }

  /**
   * When no root leads to an answer for an uncached name, the reply is a
   * SERVFAIL under the request's id and question, or none at all when the
   * request has QR set; the response cache is unchanged either way.
   */
  lemma ExhaustedRootsServfail(st: ServerState, roots: seq<string>, req: Message, net: Net)
    requires req.question != [] && req.question[0].name !in st.responses
    requires forall i :: 0 <= i < |roots| ==> RootAnswer(roots[i], req.question[0].name, req.question[0].qtype, net).None?
    ensures var h := Handle(st, roots, Datagram(req), net);
      && (req.flags & QR == 0 ==>
            && h.reply.Some? && h.reply.value.rcode == SERVFAIL
            && h.reply.value.id == req.id && h.reply.value.question == req.question)
      && (req.flags & QR == QR ==> h.reply.None?)
      && h.state.responses == st.responses
  {
    WalkFindsFirstAnswer(roots, req.question[0].name, req.question[0].qtype, net, st.glue, st.log, st.sent);
  }

  /**
   * The cache is keyed by the name text alone: once a name has been
   * resolved, a later request for it with any query type, under any
   * network, is answered with that stored reply (id rewritten) and sends
   * nothing upstream.
   */
  lemma ResolvedThenCached(st: ServerState, roots: seq<string>, req1: Message, net1: Net, req2: Message, net2: Net)
    requires req1.question != [] && req2.question != []
    requires req2.question[0].name == req1.question[0].name
    requires var h1 := Handle(st, roots, Datagram(req1), net1);
      h1.reply.Some? && h1.reply.value.answer != []
    ensures var h1 := Handle(st, roots, Datagram(req1), net1);
      var h2 := Handle(h1.state, roots, Datagram(req2), net2);
      && h2.reply == Some(h1.reply.value.(id := req2.id))
      && h2.state.sent == h1.state.sent
      && h2.state.responses == h1.state.responses
  {
    var h1 := Handle(st, roots, Datagram(req1), net1);
    assert req1.question[0].name in h1.state.responses;
  }

  /** The resolver's state only grows: no cache entry disappears, the log and the sent queries are only appended to. */
  lemma HandleOnlyAppends(st: ServerState, roots: seq<string>, inb: Inbound, net: Net)
    ensures var h := Handle(st, roots, inb, net);
      && st.responses.Keys <= h.state.responses.Keys
      && st.glue.Keys <= h.state.glue.Keys
      && |st.log| <= |h.state.log| && h.state.log[..|st.log|] == st.log
      && |st.sent| <= |h.state.sent| && h.state.sent[..|st.sent|] == st.sent
  {
    match inb
    case Malformed =>
    case Datagram(req) =>
      if req.question != [] && req.question[0].name !in st.responses {
        var name, qtype := req.question[0].name, req.question[0].qtype;
        WalkAsksRootsInOrder(roots, name, qtype, net, st.glue, st.log, st.sent);
        WalkTracesReplies(roots, name, qtype, net, st.glue, st.log, st.sent);
        WalkKeepsGlue(roots, name, qtype, net, st.glue, st.log, st.sent);
      }
  }

  /** The glue cache keeps every name it had. */
  lemma {:induction false} WalkKeepsGlue(roots: seq<string>, name: string, qtype: nat, net: Net,
                                         glue: map<string, string>, trace: seq<TraceRecord>, sent: seq<Query>)
    ensures glue.Keys <= Walk(roots, name, qtype, net, glue, trace, sent).glue.Keys
    decreases |roots|
  {
    if roots != [] {
      var o := AskRoot(roots[0], name, qtype, net, glue, trace, sent);
      var u := net(roots[0], name, qtype);
      if u.Reply? && u.msg.answer == [] && u.msg.additional != [] {
        forall n | n in glue ensures n in o.glue {
          GlueAfterMerge(glue, u.msg.additional, n);
        }
      }
      if o.result.None? {
        WalkKeepsGlue(roots[1..], name, qtype, net, o.glue, o.trace, o.sent);
      }
    }
  }

  /**
   * The serving loop answers, in order and under each request's id, exactly
   * the datagrams that `GetsReply` in the state the earlier ones left, and
   * keeps going after the others.
   */
  lemma RunRepliesInOrder(st: ServerState, roots: seq<string>, inbox: seq<Inbound>, nets: seq<Net>)
    requires |nets| == |inbox|
    ensures var r := Run(st, roots, inbox, nets).replies;
      && |r| == |inbox|
      && forall k :: 0 <= k < |inbox| ==>
           && (r[k].Some? <==> GetsReply(Run(st, roots, inbox[..k], nets[..k]).state, roots, inbox[k], nets[k]))
           && (r[k].Some? ==> r[k].value.id == inbox[k].req.id)
  {
    var r := Run(st, roots, inbox, nets).replies;
    forall k | 0 <= k < |inbox|
      ensures && (r[k].Some? <==> GetsReply(Run(st, roots, inbox[..k], nets[..k]).state, roots, inbox[k], nets[k]))
              && (r[k].Some? ==> r[k].value.id == inbox[k].req.id)
    {
      RunReplyAt(st, roots, inbox, nets, k);
      ReplyCarriesRequestId(Run(st, roots, inbox[..k], nets[..k]).state, roots, inbox[k], nets[k]);
    }
  }

  /** The k-th reply of a run is what handling the k-th datagram gives, in the state the earlier ones left. */
  lemma {:induction false} RunReplyAt(st: ServerState, roots: seq<string>, inbox: seq<Inbound>, nets: seq<Net>, k: nat)
    requires |nets| == |inbox| && k < |inbox|
    ensures Run(st, roots, inbox, nets).replies[k]
         == Handle(Run(st, roots, inbox[..k], nets[..k]).state, roots, inbox[k], nets[k]).reply
    decreases |inbox|
  {
    var n := |inbox| - 1;
    if k < n {
      RunReplyAt(st, roots, inbox[..n], nets[..n], k);
      assert inbox[..n][k] == inbox[k] && nets[..n][k] == nets[k];
      assert inbox[..n][..k] == inbox[..k] && nets[..n][..k] == nets[..k];
    }
  }
}
