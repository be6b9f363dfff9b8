/**
 * `recursive_lookup` of server.py: the root walk with one hop of referral
 * chasing, stated as a function of the upstream network's behaviour.
 */
module Lookup {
  import opened Wrappers
  import opened Dns
  import opened Trace
  import opened Cache

  /** What one upstream attempt yields: a timeout or other exception, or a reply and its round-trip time. */
  datatype Upstream = NoReply | Reply(msg: Message, rtt: string)

  /** The upstream network: what asking server `ip` about (name, qtype) yields. */
  type Net = (string, string, nat) -> Upstream

  datatype Hop = RootHop | ReferralHop

  /** One query sent upstream. */
  datatype Query = Query(server: string, name: string, qtype: nat, hop: Hop)

  /** The candidate loop's outcome: the answer found (if any), the trace, the queries sent. */
  datatype Chase = Chase(result: Option<Message>, trace: seq<TraceRecord>, sent: seq<Query>)

  /** The walk's outcome; also the new glue map. */
  datatype Outcome = Outcome(result: Option<Message>, glue: map<string, string>, trace: seq<TraceRecord>, sent: seq<Query>)

  /**
   * The inner loop of `recursive_lookup`: ask each referral address once,
   * in order, for (name, qtype); stop at the first reply with an answer.
   * A reply is traced when it arrives; a timeout only moves on.
   */
  function TryCandidates(recs: seq<ARecord>, name: string, qtype: nat, net: Net,
                         trace: seq<TraceRecord>, sent: seq<Query>): Chase
    decreases |recs|
  {
    if recs == [] then Chase(None, trace, sent)
    else
      var ip := recs[0].address;
      var sent1 := sent + [Query(ip, name, qtype, ReferralHop)];
      match net(ip, name, qtype)
      case NoReply => TryCandidates(recs[1..], name, qtype, net, trace, sent1)
      case Reply(resp, rtt) =>
        var trace1 := trace + [CandidateRecord(name, ip, rtt)];
        if resp.answer != [] then Chase(Some(resp), trace1, sent1)
        else TryCandidates(recs[1..], name, qtype, net, trace1, sent1)
  }

  /**
   * One pass of the outer loop of `recursive_lookup`: ask `root`; trace the
   * reply when one arrives; accept a non-empty answer; otherwise merge the
   * additional section's A records into the glue map and try each of them.
   */
  function AskRoot(root: string, name: string, qtype: nat, net: Net,
                   glue: map<string, string>, trace: seq<TraceRecord>, sent: seq<Query>): Outcome
  {
    var sent1 := sent + [Query(root, name, qtype, RootHop)];
    match net(root, name, qtype)
    case NoReply => Outcome(None, glue, trace, sent1)
    case Reply(resp, rtt) =>
      var trace1 := trace + [RootRecord(name, root, rtt)];
      if resp.answer != [] then Outcome(Some(resp), glue, trace1, sent1)
      else if resp.additional == [] then Outcome(None, glue, trace1, sent1)
      else
        var c := TryCandidates(ARecords(resp.additional), name, qtype, net, trace1, sent1);
        Outcome(c.result, MergeGlue(glue, resp.additional), c.trace, c.sent)
  }

  /**
   * The outer loop of `recursive_lookup` over the roots still to try,
   * with the glue map, trace and queries accumulated so far: the first
   * root pass that finds an answer ends the walk.
   */
  function Walk(roots: seq<string>, name: string, qtype: nat, net: Net,
                glue: map<string, string>, trace: seq<TraceRecord>, sent: seq<Query>): Outcome
    decreases |roots|
  {
    if roots == [] then Outcome(None, glue, trace, sent)
    else
      var o := AskRoot(roots[0], name, qtype, net, glue, trace, sent);
      if o.result.Some? then o else Walk(roots[1..], name, qtype, net, o.glue, o.trace, o.sent)
  }

  // ---------------------------------------------------------------------
  // Reference definitions: what an attempt contributes, without the loops.

  /** The message an attempt settles the lookup with: a reply whose answer section is non-empty. */
  function Answered(u: Upstream): (r: Option<Message>)
    ensures r.Some? <==> u.Reply? && u.msg.answer != []
    ensures r.Some? ==> r.value == u.msg
  {
    if u.Reply? && u.msg.answer != [] then Some(u.msg) else None
  }

  /** The answer a root leads to: its own answer, else that of the first referral address that gives one. */
  function RootAnswer(root: string, name: string, qtype: nat, net: Net): Option<Message>
  {
    match net(root, name, qtype)
    case NoReply => None
    case Reply(resp, _) =>
      if resp.answer != [] then Some(resp) else FirstAnswer(ARecords(resp.additional), name, qtype, net)
  }

  function FirstAnswer(recs: seq<ARecord>, name: string, qtype: nat, net: Net): Option<Message>
  {
    if recs == [] then None
    else if Answered(net(recs[0].address, name, qtype)).Some? then Answered(net(recs[0].address, name, qtype))
    else FirstAnswer(recs[1..], name, qtype, net)
  }

  /** The queries asking each referral address in turn. */
  function ReferralQueries(recs: seq<ARecord>, name: string, qtype: nat): (qs: seq<Query>)
    ensures |qs| == |recs|
    ensures forall k :: 0 <= k < |recs| ==> qs[k] == Query(recs[k].address, name, qtype, ReferralHop)
  {
    if recs == [] then [] else [Query(recs[0].address, name, qtype, ReferralHop)] + ReferralQueries(recs[1..], name, qtype)
  }

  /** The servers of the root-hop queries, in order. */
  function RootServers(qs: seq<Query>): seq<string>
  {
    if qs == [] then [] else (if qs[0].hop == RootHop then [qs[0].server] else []) + RootServers(qs[1..])
  }

  /** The trace line for each query that got a reply, in order; timed-out queries leave none. */
  function TraceOf(qs: seq<Query>, net: Net): seq<TraceRecord>
  {
    if qs == [] then []
    else
      var q := qs[0];
      (match net(q.server, q.name, q.qtype)
       case NoReply => []
       case Reply(_, rtt) =>
         [if q.hop == RootHop then RootRecord(q.name, q.server, rtt) else CandidateRecord(q.name, q.server, rtt)])
      + TraceOf(qs[1..], net)
  }

  /** Two consecutive stretches of traffic and their traces make one. */
  lemma TraceChain(t0: seq<TraceRecord>, t1: seq<TraceRecord>, t2: seq<TraceRecord>,
                   s0: seq<Query>, s1: seq<Query>, s2: seq<Query>, net: Net)
    requires |s0| <= |s1| <= |s2| && s1[..|s0|] == s0 && s2[..|s1|] == s1
    requires t1 == t0 + TraceOf(s1[|s0|..], net) && t2 == t1 + TraceOf(s2[|s1|..], net)
    ensures s2[..|s0|] == s0 && t2 == t0 + TraceOf(s2[|s0|..], net)
  {
    var a, b := s1[|s0|..], s2[|s1|..];
    SliceSplit(s0, s1, s2);
    TraceOfAppend(a, b, net);
    ConcatChain(t0, t1, t2, TraceOf(a, net), TraceOf(b, net));
  }

  lemma ConcatChain<T>(t0: seq<T>, t1: seq<T>, t2: seq<T>, ta: seq<T>, tb: seq<T>)
    requires t1 == t0 + ta && t2 == t1 + tb
    ensures t2 == t0 + (ta + tb)
  {
  }

  lemma SliceSplit<T>(s0: seq<T>, s1: seq<T>, s2: seq<T>)
    requires |s0| <= |s1| <= |s2| && s1[..|s0|] == s0 && s2[..|s1|] == s1
    ensures s2[..|s0|] == s0 && s2[|s0|..] == s1[|s0|..] + s2[|s1|..]
  {
    assert s2[..|s0|] == s2[..|s1|][..|s0|];
    assert s2 == s1 + s2[|s1|..];
  }

  /**
   * `q` is a query that asking `root` may send: for (name, qtype), either to
   * the root itself or to an address named in an A record of the root's
   * reply when that reply had no answer.
   */
  predicate FromRoot(q: Query, root: string, name: string, qtype: nat, net: Net)
  {
    var u := net(root, name, qtype);
    && q.name == name && q.qtype == qtype
    && (q.hop == RootHop ==> q.server == root)
    && (q.hop == ReferralHop ==>
          && u.Reply? && u.msg.answer == []
          && exists k :: 0 <= k < |ARecords(u.msg.additional)| && ARecords(u.msg.additional)[k].address == q.server)
  }

  // ---------------------------------------------------------------------
  // Sequence helpers.

  lemma {:induction false} RootServersAppend(a: seq<Query>, b: seq<Query>)
    ensures RootServers(a + b) == RootServers(a) + RootServers(b)
  {
    if a == [] {
      assert a + b == b;
    } else {
      assert (a + b)[0] == a[0] && (a + b)[1..] == a[1..] + b;
      RootServersAppend(a[1..], b);
    }
  }

  lemma {:induction false} TraceOfAppend(a: seq<Query>, b: seq<Query>, net: Net)
    ensures TraceOf(a + b, net) == TraceOf(a, net) + TraceOf(b, net)
  {
    if a == [] {
      assert a + b == b;
    } else {
      var q := a[0];
      var h := match net(q.server, q.name, q.qtype)
        case NoReply => []
        case Reply(_, rtt) =>
          [if q.hop == RootHop then RootRecord(q.name, q.server, rtt) else CandidateRecord(q.name, q.server, rtt)];
      assert (a + b)[0] == q && (a + b)[1..] == a[1..] + b;
      assert TraceOf(a + b, net) == h + TraceOf(a[1..] + b, net);
      assert TraceOf(a, net) == h + TraceOf(a[1..], net);
      TraceOfAppend(a[1..], b, net);
      AppendAssoc(h, TraceOf(a[1..], net), TraceOf(b, net));
    }
  }

  lemma {:induction false} NoRootServersInReferrals(recs: seq<ARecord>, name: string, qtype: nat)
    ensures RootServers(ReferralQueries(recs, name, qtype)) == []
  {
    if recs != [] {
      NoRootServersInReferrals(recs[1..], name, qtype);
    }
  }

  // ---------------------------------------------------------------------
  // The candidate loop.

  /** How many addresses the candidate loop asks: up to and including the first that answers. */
  function CandidatesTried(recs: seq<ARecord>, name: string, qtype: nat, net: Net): (n: nat)
    ensures n <= |recs|
  {
    if recs == [] then 0
    else if Answered(net(recs[0].address, name, qtype)).Some? then 1
    else 1 + CandidatesTried(recs[1..], name, qtype, net)
  }

  /** The candidate loop's result is the first answer among the addresses. */
  lemma {:induction false} CandidatesResult(recs: seq<ARecord>, name: string, qtype: nat, net: Net,
                                            trace: seq<TraceRecord>, sent: seq<Query>)
    ensures TryCandidates(recs, name, qtype, net, trace, sent).result == FirstAnswer(recs, name, qtype, net)
    decreases |recs|
  {
    if recs != [] {
      var ip := recs[0].address;
      var u := net(ip, name, qtype);
      var trace1 := if u.Reply? then trace + [CandidateRecord(name, ip, u.rtt)] else trace;
      CandidatesResult(recs[1..], name, qtype, net, trace1, sent + [Query(ip, name, qtype, ReferralHop)]);
    }
  }

  /** One step of the candidate loop: stop on an answer, otherwise go on with the next address. */
  lemma CandidateStep(recs: seq<ARecord>, name: string, qtype: nat, net: Net,
                      trace: seq<TraceRecord>, sent: seq<Query>)
    requires recs != []
    ensures var u := net(recs[0].address, name, qtype);
      var sent1 := sent + [Query(recs[0].address, name, qtype, ReferralHop)];
      var trace1 := if u.Reply? then trace + [CandidateRecord(name, recs[0].address, u.rtt)] else trace;
      && (Answered(u).Some? ==> TryCandidates(recs, name, qtype, net, trace, sent) == Chase(Answered(u), trace1, sent1))
      && (Answered(u).None? ==>
            TryCandidates(recs, name, qtype, net, trace, sent) == TryCandidates(recs[1..], name, qtype, net, trace1, sent1))
  {
  }

  /** The candidate loop at an RRset's k-th record: an A record is tried, any other type skipped. */
  lemma CandidateAt(owner: string, rds: seq<Rdata>, k: nat, later: seq<ARecord>,
                    name: string, qtype: nat, net: Net, trace: seq<TraceRecord>, sent: seq<Query>)
    requires k < |rds|
    ensures var rest := RdataA(owner, rds[k + 1..]) + later;
      var c := TryCandidates(RdataA(owner, rds[k..]) + later, name, qtype, net, trace, sent);
      if rds[k].rdtype == TYPE_A then
        var ip := rds[k].address;
        var u := net(ip, name, qtype);
        var sent1 := sent + [Query(ip, name, qtype, ReferralHop)];
        var trace1 := if u.Reply? then trace + [CandidateRecord(name, ip, u.rtt)] else trace;
        && (Answered(u).Some? ==> c == Chase(Answered(u), trace1, sent1))
        && (Answered(u).None? ==> c == TryCandidates(rest, name, qtype, net, trace1, sent1))
      else c == TryCandidates(rest, name, qtype, net, trace, sent)
  {
    assert rds[k..][1..] == rds[k + 1..];
    var rest := RdataA(owner, rds[k + 1..]) + later;
    if rds[k].rdtype == TYPE_A {
      var r := ARecord(owner, rds[k].address);
      assert RdataA(owner, rds[k..]) + later == [r] + rest;
      assert ([r] + rest)[1..] == rest;
      CandidateStep([r] + rest, name, qtype, net, trace, sent);
    } else {
      assert RdataA(owner, rds[k..]) == RdataA(owner, rds[k + 1..]);
    }
  }

  lemma ReferralQueriesCons(recs: seq<ARecord>, n: nat, name: string, qtype: nat)
    requires n < |recs|
    ensures ReferralQueries(recs[..n + 1], name, qtype)
         == [Query(recs[0].address, name, qtype, ReferralHop)] + ReferralQueries(recs[1..][..n], name, qtype)
  {
    assert recs[..n + 1][1..] == recs[1..][..n];
  }

  /**
   * The candidate loop asks the addresses in order, one query each, and
   * stops after the first that answers: the queries it sends are those for
   * the first `CandidatesTried` addresses.
   */
  lemma {:induction false} CandidatesInOrder(recs: seq<ARecord>, name: string, qtype: nat, net: Net,
                                             trace: seq<TraceRecord>, sent: seq<Query>)
    ensures TryCandidates(recs, name, qtype, net, trace, sent).sent
         == sent + ReferralQueries(recs[..CandidatesTried(recs, name, qtype, net)], name, qtype)
  {
    CandidatesSent(recs, name, qtype, net, trace, sent);
    CandidateQueriesPrefix(recs, name, qtype, net);
  }

  /** The queries of the candidate loop, up to and including the first answered one. */
  function CandidateQueries(recs: seq<ARecord>, name: string, qtype: nat, net: Net): seq<Query>
  {
    if recs == [] then []
    else
      [Query(recs[0].address, name, qtype, ReferralHop)] +
        if Answered(net(recs[0].address, name, qtype)).Some? then [] else CandidateQueries(recs[1..], name, qtype, net)
  }

  lemma {:induction false} CandidatesSent(recs: seq<ARecord>, name: string, qtype: nat, net: Net,
                                          trace: seq<TraceRecord>, sent: seq<Query>)
    ensures TryCandidates(recs, name, qtype, net, trace, sent).sent == sent + CandidateQueries(recs, name, qtype, net)
    decreases |recs|
  {
    if recs != [] {
      var q := Query(recs[0].address, name, qtype, ReferralHop);
      var u := net(recs[0].address, name, qtype);
      var trace1 := if u.Reply? then trace + [CandidateRecord(name, recs[0].address, u.rtt)] else trace;
      CandidateStep(recs, name, qtype, net, trace, sent);
      if Answered(u).None? {
        CandidatesSent(recs[1..], name, qtype, net, trace1, sent + [q]);
        assert sent + [q] + CandidateQueries(recs[1..], name, qtype, net)
            == sent + ([q] + CandidateQueries(recs[1..], name, qtype, net));
      }
    }
  }

  lemma {:induction false} CandidateQueriesPrefix(recs: seq<ARecord>, name: string, qtype: nat, net: Net)
    ensures CandidateQueries(recs, name, qtype, net) == ReferralQueries(recs[..CandidatesTried(recs, name, qtype, net)], name, qtype)
    decreases |recs|
  {
    if recs == [] {
      assert recs[..0] == [];
    } else if Answered(net(recs[0].address, name, qtype)).Some? {
      ReferralQueriesCons(recs, 0, name, qtype);
      assert recs[1..][..0] == [];
    } else {
      CandidateQueriesPrefix(recs[1..], name, qtype, net);
      ReferralQueriesCons(recs, CandidatesTried(recs[1..], name, qtype, net), name, qtype);
    }
  }

  /** `CandidatesTried` stops at the first answering address, every earlier one unanswered, or runs through all of them. */
  lemma {:induction false} CandidatesTriedAt(recs: seq<ARecord>, name: string, qtype: nat, net: Net)
    ensures var n := CandidatesTried(recs, name, qtype, net);
      && (forall j :: 0 <= j < n - 1 ==> Answered(net(recs[j].address, name, qtype)).None?)
      && (FirstAnswer(recs, name, qtype, net).None? ==> n == |recs|)
      && (FirstAnswer(recs, name, qtype, net).Some? ==>
            0 < n && FirstAnswer(recs, name, qtype, net) == Answered(net(recs[n - 1].address, name, qtype)))
    decreases |recs|
  {
    if recs != [] {
      CandidatesTriedAt(recs[1..], name, qtype, net);
      var n := CandidatesTried(recs[1..], name, qtype, net);
      if n > 0 { assert recs[1..][n - 1] == recs[n]; }
      if Answered(net(recs[0].address, name, qtype)).None? {
        forall j | 0 < j < n ensures Answered(net(recs[j].address, name, qtype)).None? {
          assert recs[j] == recs[1..][j - 1];
        }
      }
    }
  }

  /** The first answer among the addresses, also written with positions. */
  lemma {:induction false} FirstAnswerAt(recs: seq<ARecord>, name: string, qtype: nat, net: Net)
    ensures var r := FirstAnswer(recs, name, qtype, net);
      && (r.None? <==> forall k :: 0 <= k < |recs| ==> Answered(net(recs[k].address, name, qtype)).None?)
      && (r.Some? ==>
            r.value.answer != [] &&
            exists k :: (0 <= k < |recs| && Answered(net(recs[k].address, name, qtype)) == r
              && forall j :: 0 <= j < k ==> Answered(net(recs[j].address, name, qtype)).None?))
    decreases |recs|
  {
    if recs != [] {
      FirstAnswerAt(recs[1..], name, qtype, net);
      var r := FirstAnswer(recs, name, qtype, net);
      if Answered(net(recs[0].address, name, qtype)).None? {
        forall k | 0 <= k < |recs[1..]| ensures recs[1..][k] == recs[k + 1] { }
        if r.Some? {
          var k :| 0 <= k < |recs[1..]| && Answered(net(recs[1..][k].address, name, qtype)) == r
            && forall j :: 0 <= j < k ==> Answered(net(recs[1..][j].address, name, qtype)).None?;
          assert Answered(net(recs[k + 1].address, name, qtype)) == r;
          forall j | 0 <= j < k + 1 ensures Answered(net(recs[j].address, name, qtype)).None? {
            if j > 0 { assert recs[j] == recs[1..][j - 1]; }
          }
        }
      }
    }
  }

  /** The candidate loop traces exactly the replies it got, one line each, in order. */
  lemma {:induction false} CandidatesTrace(recs: seq<ARecord>, name: string, qtype: nat, net: Net,
                                           trace: seq<TraceRecord>, sent: seq<Query>)
    ensures var c := TryCandidates(recs, name, qtype, net, trace, sent);
      |sent| <= |c.sent| && c.sent[..|sent|] == sent && c.trace == trace + TraceOf(c.sent[|sent|..], net)
    decreases |recs|
  {
    if recs != [] {
      var ip := recs[0].address;
      var q := Query(ip, name, qtype, ReferralHop);
      var sent1 := sent + [q];
      var u := net(ip, name, qtype);
      var trace1 := if u.Reply? then trace + [CandidateRecord(name, ip, u.rtt)] else trace;
      assert sent1[|sent|..] == [q] && sent1[..|sent|] == sent;
      assert trace1 == trace + TraceOf(sent1[|sent|..], net) by { assert [q][1..] == []; }
      CandidateStep(recs, name, qtype, net, trace, sent);
      if Answered(u).None? {
        var c := TryCandidates(recs, name, qtype, net, trace, sent);
        CandidatesTrace(recs[1..], name, qtype, net, trace1, sent1);
        TraceChain(trace, trace1, c.trace, sent, sent1, c.sent, net);
      }
    }
  }

  /** A root's answer is a reply with a non-empty answer section: from the root itself or from one referral address. */
  lemma RootAnswerIsAnswer(root: string, name: string, qtype: nat, net: Net)
    ensures var r, u := RootAnswer(root, name, qtype, net), net(root, name, qtype);
      r.Some? ==>
        && r.value.answer != []
        && (Answered(u) == r ||
            (u.Reply? && exists k :: (0 <= k < |ARecords(u.msg.additional)|
               && Answered(net(ARecords(u.msg.additional)[k].address, name, qtype)) == r)))
  {
    var r, u := RootAnswer(root, name, qtype, net), net(root, name, qtype);
    if u.Reply? && u.msg.answer == [] {
      var recs := ARecords(u.msg.additional);
      FirstAnswerAt(recs, name, qtype, net);
      assert r == FirstAnswer(recs, name, qtype, net);
      if r.Some? {
        var k :| 0 <= k < |recs| && Answered(net(recs[k].address, name, qtype)) == r;
        assert 0 <= k < |ARecords(u.msg.additional)|
            && Answered(net(ARecords(u.msg.additional)[k].address, name, qtype)) == r;
        assert u.Reply? && exists k :: (0 <= k < |ARecords(u.msg.additional)|
               && Answered(net(ARecords(u.msg.additional)[k].address, name, qtype)) == r);
      }
    }
  }

  // ---------------------------------------------------------------------
  // One root pass.

  lemma AskRootResult(root: string, name: string, qtype: nat, net: Net,
                      glue: map<string, string>, trace: seq<TraceRecord>, sent: seq<Query>)
    ensures AskRoot(root, name, qtype, net, glue, trace, sent).result == RootAnswer(root, name, qtype, net)
  {
    var u := net(root, name, qtype);
    if u.Reply? && u.msg.answer == [] && u.msg.additional != [] {
      CandidatesResult(ARecords(u.msg.additional), name, qtype, net,
                       trace + [RootRecord(name, root, u.rtt)], sent + [Query(root, name, qtype, RootHop)]);
    }
  }

  /** The queries one root pass sends: the root, then the referral addresses it tries. */
  function RootPassQueries(root: string, name: string, qtype: nat, net: Net): seq<Query>
  {
    var u := net(root, name, qtype);
    [Query(root, name, qtype, RootHop)] +
      if u.Reply? && u.msg.answer == [] && u.msg.additional != [] then
        var recs := ARecords(u.msg.additional);
        ReferralQueries(recs[..CandidatesTried(recs, name, qtype, net)], name, qtype)
      else []
  }

  lemma AskRootSends(root: string, name: string, qtype: nat, net: Net,
                     glue: map<string, string>, trace: seq<TraceRecord>, sent: seq<Query>)
    ensures AskRoot(root, name, qtype, net, glue, trace, sent).sent == sent + RootPassQueries(root, name, qtype, net)
  {
    var q := Query(root, name, qtype, RootHop);
    var u := net(root, name, qtype);
    var o := AskRoot(root, name, qtype, net, glue, trace, sent);
    if u.Reply? && u.msg.answer == [] && u.msg.additional != [] {
      var recs := ARecords(u.msg.additional);
      CandidatesInOrder(recs, name, qtype, net, trace + [RootRecord(name, root, u.rtt)], sent + [q]);
      AppendAssoc(sent, [q], ReferralQueries(recs[..CandidatesTried(recs, name, qtype, net)], name, qtype));
    } else {
      assert o.sent == sent + [q];
      AppendAssoc(sent, [q], []);
    }
  }

  lemma ConsPrefix<T>(s: seq<T>, n: nat)
    requires n < |s|
    ensures s[..n + 1] == [s[0]] + s[1..][..n]
  {
  }

  lemma AppendAssoc<T>(a: seq<T>, b: seq<T>, c: seq<T>)
    ensures (a + b) + c == a + (b + c)
    ensures c == [] ==> a + b + c == a + b
  {
  }

  lemma RootPassQueriesFromRoot(root: string, name: string, qtype: nat, net: Net)
    ensures var qs := RootPassQueries(root, name, qtype, net);
      && RootServers(qs) == [root]
      && forall k :: 0 <= k < |qs| ==> FromRoot(qs[k], root, name, qtype, net)
  {
    var qs := RootPassQueries(root, name, qtype, net);
    var q := Query(root, name, qtype, RootHop);
    assert RootServers([q]) == [root] by { assert [q][1..] == []; }
    var u := net(root, name, qtype);
    if u.Reply? && u.msg.answer == [] && u.msg.additional != [] {
      var recs := ARecords(u.msg.additional);
      var n := CandidatesTried(recs, name, qtype, net);
      var refs := ReferralQueries(recs[..n], name, qtype);
      NoRootServersInReferrals(recs[..n], name, qtype);
      RootServersAppend([q], refs);
      forall k | 0 < k < |qs| ensures FromRoot(qs[k], root, name, qtype, net) {
        assert qs[k] == refs[k - 1] == Query(recs[..n][k - 1].address, name, qtype, ReferralHop);
        assert recs[..n][k - 1] == recs[k - 1];
      }
    } else {
      assert qs == [q];
    }
  }

  /** A root pass sends one query to the root, then only referral queries that the root's reply allows. */
  lemma AskRootSent(root: string, name: string, qtype: nat, net: Net,
                    glue: map<string, string>, trace: seq<TraceRecord>, sent: seq<Query>)
    ensures var o := AskRoot(root, name, qtype, net, glue, trace, sent);
      && |sent| < |o.sent| && o.sent[..|sent|] == sent
      && RootServers(o.sent[|sent|..]) == [root]
      && forall k :: |sent| <= k < |o.sent| ==> FromRoot(o.sent[k], root, name, qtype, net)
  {
    var o := AskRoot(root, name, qtype, net, glue, trace, sent);
    var qs := RootPassQueries(root, name, qtype, net);
    AskRootSends(root, name, qtype, net, glue, trace, sent);
    RootPassQueriesFromRoot(root, name, qtype, net);
    assert o.sent[|sent|..] == qs;
    forall k | |sent| <= k < |o.sent| ensures FromRoot(o.sent[k], root, name, qtype, net) {
      assert o.sent[k] == qs[k - |sent|];
    }
  }

  /** A root pass traces the replies it received, one line each, in order. */
  lemma AskRootTrace(root: string, name: string, qtype: nat, net: Net,
                     glue: map<string, string>, trace: seq<TraceRecord>, sent: seq<Query>)
    ensures var o := AskRoot(root, name, qtype, net, glue, trace, sent);
      |sent| <= |o.sent| && o.sent[..|sent|] == sent && o.trace == trace + TraceOf(o.sent[|sent|..], net)
  {
    var o := AskRoot(root, name, qtype, net, glue, trace, sent);
    var q := Query(root, name, qtype, RootHop);
    var sent1 := sent + [q];
    var u := net(root, name, qtype);
    var trace1 := if u.Reply? then trace + [RootRecord(name, root, u.rtt)] else trace;
    assert sent1[|sent|..] == [q] && sent1[..|sent|] == sent;
    assert trace1 == trace + TraceOf(sent1[|sent|..], net) by { assert [q][1..] == []; }
    if u.Reply? && u.msg.answer == [] && u.msg.additional != [] {
      CandidatesTrace(ARecords(u.msg.additional), name, qtype, net, trace1, sent1);
      TraceChain(trace, trace1, o.trace, sent, sent1, o.sent, net);
    }
  }

  // ---------------------------------------------------------------------
  // The root walk.

  /**
   * `recursive_lookup` returns the first root's answer (in list order) and
   * None exactly when no root leads to one.
   */
  lemma {:induction false} WalkFindsFirstAnswer(roots: seq<string>, name: string, qtype: nat, net: Net,
                                                glue: map<string, string>, trace: seq<TraceRecord>, sent: seq<Query>)
    ensures var r := Walk(roots, name, qtype, net, glue, trace, sent).result;
      && (r.None? <==> forall i :: 0 <= i < |roots| ==> RootAnswer(roots[i], name, qtype, net).None?)
      && (r.Some? ==>
            exists i :: (0 <= i < |roots| && RootAnswer(roots[i], name, qtype, net) == r
              && forall j :: 0 <= j < i ==> RootAnswer(roots[j], name, qtype, net).None?))
    decreases |roots|
  {
    if roots != [] {
      var w := Walk(roots, name, qtype, net, glue, trace, sent);
      var o := AskRoot(roots[0], name, qtype, net, glue, trace, sent);
      AskRootResult(roots[0], name, qtype, net, glue, trace, sent);
      if o.result.None? {
        WalkFindsFirstAnswer(roots[1..], name, qtype, net, o.glue, o.trace, o.sent);
        forall i | 0 <= i < |roots[1..]| ensures roots[1..][i] == roots[i + 1] { }
        if w.result.Some? {
          var i :| 0 <= i < |roots[1..]| && RootAnswer(roots[1..][i], name, qtype, net) == w.result
            && forall j :: 0 <= j < i ==> RootAnswer(roots[1..][j], name, qtype, net).None?;
          assert RootAnswer(roots[i + 1], name, qtype, net) == w.result;
          forall j | 0 <= j < i + 1 ensures RootAnswer(roots[j], name, qtype, net).None? {
            if j > 0 { assert roots[j] == roots[1..][j - 1]; }
          }
        }
      }
    }
  }

  /** How many roots the walk asks: up to and including the first that leads to an answer. */
  function RootsTried(roots: seq<string>, name: string, qtype: nat, net: Net): (n: nat)
    ensures n <= |roots|
  {
    if roots == [] then 0
    else if RootAnswer(roots[0], name, qtype, net).Some? then 1
    else 1 + RootsTried(roots[1..], name, qtype, net)
  }

  /** `RootsTried` stops at the first root that leads to an answer, or runs through the list. */
  lemma {:induction false} RootsTriedAt(roots: seq<string>, name: string, qtype: nat, net: Net)
    ensures var n := RootsTried(roots, name, qtype, net);
      && ((forall i :: 0 <= i < |roots| ==> RootAnswer(roots[i], name, qtype, net).None?) ==> n == |roots|)
      && (forall j :: 0 <= j < n - 1 ==> RootAnswer(roots[j], name, qtype, net).None?)
      && (n < |roots| ==> 0 < n && RootAnswer(roots[n - 1], name, qtype, net).Some?)
    decreases |roots|
  {
    if roots != [] {
      RootsTriedAt(roots[1..], name, qtype, net);
      forall i | 0 <= i < |roots[1..]| ensures roots[1..][i] == roots[i + 1] { }
    }
  }

  /**
   * The walk asks the roots in list order, each once, up to and including
   * the first that leads to an answer (all of them when none does); it only
   * appends to `sent`.
   */
  lemma {:induction false} WalkAsksRootsInOrder(roots: seq<string>, name: string, qtype: nat, net: Net,
                                                glue: map<string, string>, trace: seq<TraceRecord>, sent: seq<Query>)
    ensures var w := Walk(roots, name, qtype, net, glue, trace, sent);
      && |sent| <= |w.sent| && w.sent[..|sent|] == sent
      && RootServers(w.sent[|sent|..]) == roots[..RootsTried(roots, name, qtype, net)]
    decreases |roots|
  {
    var w := Walk(roots, name, qtype, net, glue, trace, sent);
    if roots == [] {
      assert w.sent[|sent|..] == [];
    } else {
      var o := AskRoot(roots[0], name, qtype, net, glue, trace, sent);
      AskRootSent(roots[0], name, qtype, net, glue, trace, sent);
      AskRootResult(roots[0], name, qtype, net, glue, trace, sent);
      assert roots[..1] == [roots[0]];
      if o.result.Some? {
        assert w == o;
      } else {
        var n := RootsTried(roots[1..], name, qtype, net);
        ConsPrefix(roots, n);
        WalkAsksRootsInOrder(roots[1..], name, qtype, net, o.glue, o.trace, o.sent);
        SliceSplit(sent, o.sent, w.sent);
        RootServersAppend(o.sent[|sent|..], w.sent[|o.sent|..]);
      }
    }
  }

  /**
   * A trace line is written for each reply received and for nothing else:
   * the lines the walk appends are, in order, those of its queries that got
   * a reply, labelled Root/Referral for roots and TLD/Auth/Response for
   * referral addresses.
   */
  lemma {:induction false} WalkTracesReplies(roots: seq<string>, name: string, qtype: nat, net: Net,
                                             glue: map<string, string>, trace: seq<TraceRecord>, sent: seq<Query>)
    ensures var w := Walk(roots, name, qtype, net, glue, trace, sent);
      |sent| <= |w.sent| && w.sent[..|sent|] == sent && w.trace == trace + TraceOf(w.sent[|sent|..], net)
    decreases |roots|
  {
    var w := Walk(roots, name, qtype, net, glue, trace, sent);
    if roots == [] {
      assert w.sent[|sent|..] == [];
    } else {
      var o := AskRoot(roots[0], name, qtype, net, glue, trace, sent);
      AskRootTrace(roots[0], name, qtype, net, glue, trace, sent);
      if o.result.None? {
        WalkTracesReplies(roots[1..], name, qtype, net, o.glue, o.trace, o.sent);
        TraceChain(trace, o.trace, w.trace, sent, o.sent, w.sent, net);
      }
    }
  }

  /**
   * No deeper chasing: every query the walk sends is for (name, qtype) and
   * goes to one of the roots, or to an address that a root's reply (one
   * without an answer) listed in an A record. Replies from referral
   * addresses are never followed further.
   */
  lemma {:induction false} WalkChasesOneHop(roots: seq<string>, name: string, qtype: nat, net: Net,
                                            glue: map<string, string>, trace: seq<TraceRecord>, sent: seq<Query>)
    ensures var w := Walk(roots, name, qtype, net, glue, trace, sent);
      && |sent| <= |w.sent|
      && forall k :: |sent| <= k < |w.sent| ==>
           exists i :: 0 <= i < |roots| && FromRoot(w.sent[k], roots[i], name, qtype, net)
    decreases |roots|
  {
    var w := Walk(roots, name, qtype, net, glue, trace, sent);
    if roots != [] {
      var o := AskRoot(roots[0], name, qtype, net, glue, trace, sent);
      AskRootSent(roots[0], name, qtype, net, glue, trace, sent);
      if o.result.None? {
        WalkChasesOneHop(roots[1..], name, qtype, net, o.glue, o.trace, o.sent);
        WalkAsksRootsInOrder(roots[1..], name, qtype, net, o.glue, o.trace, o.sent);
        forall k | |sent| <= k < |w.sent|
          ensures exists i :: 0 <= i < |roots| && FromRoot(w.sent[k], roots[i], name, qtype, net)
        {
          if k < |o.sent| {
            assert w.sent[k] == o.sent[k];
            assert FromRoot(w.sent[k], roots[0], name, qtype, net);
          } else {
            var i :| 0 <= i < |roots[1..]| && FromRoot(w.sent[k], roots[1..][i], name, qtype, net);
            assert roots[1..][i] == roots[i + 1];
          }
        }
      }
    }
  }
}
