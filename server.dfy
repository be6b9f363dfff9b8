/**
 * server.py as a stateful object: the module-level caches and the trace log
 * are fields, `update_cache`, `recursive_lookup` and the loop body are
 * methods that update them in place, each proved against the functions of
 * Cache, Lookup and Listener.
 */
module Server {
  import opened Wrappers
  import opened Dns
  import opened Trace
  import opened Cache
  import opened Lookup
  import opened Listener

  class Resolver {
    /** The root servers, asked in this order. */
    const roots: seq<string>
    /** `dns_cache["responses"]`: question name text -> the reply last sent for it. */
    var responses: map<string, Message>
    /** The glue entries of `dns_cache`: owner name text -> IPv4 address. */
    var glue: map<string, string>
    /** The records appended to the trace log after its header row. */
    var log: seq<TraceRecord>
    /** Every query sent upstream, in order (the resolver's outbound traffic). */
    ghost var sent: seq<Query>

    ghost function State(): ServerState
      reads this
    {
      ServerState(responses, glue, log, sent)
    }

    /** Start-up: empty caches, and a log holding only its header row. */
    constructor (roots: seq<string>)
      ensures this.roots == roots
      ensures State() == ServerState(map[], map[], [], [])
    {
      this.roots := roots;
      responses := map[];
      glue := map[];
      log := [];
      sent := [];
    }

    /** `update_cache`: upsert every A record of the additional section into the glue map. */
    method UpdateCache(resp: Message)
      modifies this`glue
      ensures glue == MergeGlue(old(glue), resp.additional)
    {
      if resp.additional != [] {
        var i := 0;
        while i < |resp.additional|
          invariant 0 <= i <= |resp.additional|
          invariant MergeGlue(old(glue), resp.additional) == MergeGlue(glue, resp.additional[i..])
        {
          var rrset := resp.additional[i];
          assert resp.additional[i..][1..] == resp.additional[i + 1..];
          var j := 0;
          while j < |rrset.rdatas|
            invariant 0 <= j <= |rrset.rdatas|
            invariant MergeGlue(old(glue), resp.additional)
                   == MergeGlue(MergeRdatas(glue, rrset.name, rrset.rdatas[j..]), resp.additional[i + 1..])
          {
            assert rrset.rdatas[j..][1..] == rrset.rdatas[j + 1..];
            var rr := rrset.rdatas[j];
            if rr.rdtype == TYPE_A {
              glue := glue[rrset.name := rr.address];
            }
            j := j + 1;
          }
          assert rrset.rdatas[j..] == [];
          i := i + 1;
        }
      }
    }

    /**
     * The candidate loop of `recursive_lookup`: ask the address of each A
     * record of a root's additional section, in record order, and stop at
     * the first reply with an answer.
     */
    method ChaseReferrals(additional: seq<RRset>, name: string, qtype: nat, net: Net) returns (found: Option<Message>)
      modifies this`log, this`sent
      ensures Chase(found, log, sent) == TryCandidates(ARecords(additional), name, qtype, net, old(log), old(sent))
    {
      ghost var goal := TryCandidates(ARecords(additional), name, qtype, net, log, sent);
      var j := 0;
      while j < |additional|
        invariant 0 <= j <= |additional|
        invariant goal == TryCandidates(ARecords(additional[j..]), name, qtype, net, log, sent)
      {
        var rrset := additional[j];
        assert additional[j..][1..] == additional[j + 1..];
        assert rrset.rdatas[0..] == rrset.rdatas;
        var k := 0;
        while k < |rrset.rdatas|
          invariant 0 <= k <= |rrset.rdatas|
          invariant goal == TryCandidates(RdataA(rrset.name, rrset.rdatas[k..]) + ARecords(additional[j + 1..]),
                                          name, qtype, net, log, sent)
        {
          var rr := rrset.rdatas[k];
          CandidateAt(rrset.name, rrset.rdatas, k, ARecords(additional[j + 1..]), name, qtype, net, log, sent);
          if rr.rdtype == TYPE_A {
            var nextIp := rr.address;
            var reply := net(nextIp, name, qtype);
            sent := sent + [Query(nextIp, name, qtype, ReferralHop)];
            if reply.Reply? {
              log := log + [CandidateRecord(name, nextIp, reply.rtt)];
              if reply.msg.answer != [] {
                return Some(reply.msg);
              }
            }
          }
          k := k + 1;
        }
        assert rrset.rdatas[k..] == [];
        assert RdataA(rrset.name, rrset.rdatas[k..]) + ARecords(additional[j + 1..]) == ARecords(additional[j + 1..]);
        j := j + 1;
      }
      assert additional[j..] == [];
      return None;
    }

    /**
     * `recursive_lookup`: the roots in order; for a root's reply without an
     * answer but with an additional section, the glue merge and then the
     * candidate loop; None once every root is spent.
     */
    method RecursiveLookup(name: string, qtype: nat, net: Net) returns (r: Option<Message>)
      modifies this`glue, this`log, this`sent
      ensures var w := Walk(roots, name, qtype, net, old(glue), old(log), old(sent));
        r == w.result && glue == w.glue && log == w.trace && sent == w.sent
    {
      ghost var goal := Walk(roots, name, qtype, net, glue, log, sent);
      var i := 0;
      while i < |roots|
        invariant 0 <= i <= |roots|
        invariant goal == Walk(roots[i..], name, qtype, net, glue, log, sent)
      {
        var root := roots[i];
        assert roots[i..][0] == root && roots[i..][1..] == roots[i + 1..];
        ghost var pass := AskRoot(root, name, qtype, net, glue, log, sent);
        var reply := net(root, name, qtype);
        sent := sent + [Query(root, name, qtype, RootHop)];
        if reply.Reply? {
          var resp := reply.msg;
          log := log + [RootRecord(name, root, reply.rtt)];
          if resp.answer != [] {
            return Some(resp);
          }
          if resp.additional != [] {
            UpdateCache(resp);
            var found := ChaseReferrals(resp.additional, name, qtype, net);
            if found.Some? {
              return found;
            }
          }
        }
        assert pass == Outcome(None, glue, log, sent);
        i := i + 1;
      }
      assert roots[i..] == [];
      return None;
    }

    /**
     * One pass of the serving loop for one inbound datagram: the reply sent
     * (None when the datagram raised before any reply) and the new state.
     */
    method Serve(inb: Inbound, net: Net) returns (reply: Option<Message>)
      modifies this`responses, this`glue, this`log, this`sent
      ensures Handled(State(), reply) == Handle(old(State()), roots, inb, net)
    {
      if inb.Malformed? {
        return None;
      }
      var req := inb.req;
      if req.question == [] {
        return None;
      }
      var q := req.question[0];
      var domain, qtype := q.name, q.qtype;
      if domain in responses {
        reply := Some(WithId(responses[domain], req.id));
        log := log + [HitRecord(domain)];
        return;
      }
      var response := RecursiveLookup(domain, qtype, net);
      if response.Some? {
        var r := AsReply(response.value, req.id);
        reply := Some(r);
        responses := responses[domain := r];
      } else {
        reply := ServfailFor(req);
      }
    }

    /** The `while True` loop over a finite run of datagrams, the i-th met by the network `nets[i]`. */
    method ServeAll(inbox: seq<Inbound>, nets: seq<Net>) returns (replies: seq<Option<Message>>)
      requires |nets| == |inbox|
      modifies this`responses, this`glue, this`log, this`sent
      ensures Served(State(), replies) == Run(old(State()), roots, inbox, nets)
    {
      replies := [];
      var i := 0;
      while i < |inbox|
        invariant 0 <= i <= |inbox|
        invariant Served(State(), replies) == Run(old(State()), roots, inbox[..i], nets[..i])
      {
        assert inbox[..i + 1][..i] == inbox[..i] && nets[..i + 1][..i] == nets[..i];
        var r := Serve(inbox[i], nets[i]);
        replies := replies + [r];
        i := i + 1;
      }
      assert inbox[..i] == inbox && nets[..i] == nets;
    }
  }
}
