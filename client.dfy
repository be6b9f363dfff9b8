/**
 * Task4/client.py: collect the DNS queries of the capture files, give each
 * an 8-byte trace header, send each as a length-prefixed frame, and keep
 * per-host success, failure and byte counters.
 */
module LoadClient {
  import opened Wrappers

  type byte = x: int | 0 <= x < 256

  const PcapFiles: seq<string> := ["PCAP_1_H1.pcap", "PCAP_2_H2.pcap", "PCAP_3_H3.pcap", "PCAP_4_H4.pcap"]
  const HostNames: seq<string> := ["H1", "H2", "H3", "H4"]

  /** A wall-clock reading as `strftime("%H%M%S")` sees it. */
  datatype Clock = Clock(hour: nat, minute: nat, second: nat)
  type Time = c: Clock | c.hour < 24 && c.minute < 60 && c.second < 60 witness Clock(0, 0, 0)

  // ---------------------------------------------------------------------
  // The custom header.

  const ZERO: byte := 48  // ASCII '0'

  /** A number below 100 as two ASCII digits, zero-padded (`:02d`). */
  function Digits2(n: nat): seq<byte>
    requires n < 100
  {
    [ZERO + n / 10, ZERO + n % 10]
  }

  predicate IsDigit(b: byte)
  {
    ZERO <= b < ZERO + 10
  }

  /** `(timestamp + seq_id).encode()`: HHMMSS, then the sequence id `totalAll % 100`. */
  function Header(t: Time, totalAll: nat): (h: seq<byte>)
    ensures |h| == 8
    ensures forall k :: 0 <= k < 8 ==> IsDigit(h[k])
  {
    Digits2(t.hour) + Digits2(t.minute) + Digits2(t.second) + Digits2(totalAll % 100)
  }

  function Value2(a: byte, b: byte): nat
    requires IsDigit(a) && IsDigit(b)
  {
    (a - ZERO) * 10 + (b - ZERO)
  }

  /** Reading a header back: the clock reading and the sequence id. */
  function ParseHeader(h: seq<byte>): Option<(Time, nat)>
  {
    if |h| == 8 && (forall k :: 0 <= k < 8 ==> IsDigit(h[k])) then
      var c := Clock(Value2(h[0], h[1]), Value2(h[2], h[3]), Value2(h[4], h[5]));
      if c.hour < 24 && c.minute < 60 && c.second < 60 then Some((c, Value2(h[6], h[7]))) else None
    else None
  }

  lemma Digits2RoundTrip(n: nat)
    requires n < 100
    ensures var d := Digits2(n); IsDigit(d[0]) && IsDigit(d[1]) && Value2(d[0], d[1]) == n
  {
  }

  /** A header gives back its clock reading and `totalAll mod 100`. */
  lemma HeaderRoundTrip(t: Time, totalAll: nat)
    ensures ParseHeader(Header(t, totalAll)) == Some((t, totalAll % 100))
  {
    var h := Header(t, totalAll);
    Digits2RoundTrip(t.hour);
    Digits2RoundTrip(t.minute);
    Digits2RoundTrip(t.second);
    Digits2RoundTrip(totalAll % 100);
    var d1, d2, d3, d4 := Digits2(t.hour), Digits2(t.minute), Digits2(t.second), Digits2(totalAll % 100);
    assert h == d1 + d2 + d3 + d4;
    assert h[0] == d1[0] && h[1] == d1[1] && h[2] == d2[0] && h[3] == d2[1];
    assert h[4] == d3[0] && h[5] == d3[1] && h[6] == d4[0] && h[7] == d4[1];
  }

  // ---------------------------------------------------------------------
  // Length-prefixed framing.

  const U32_LIMIT: nat := 0x1_0000_0000

  /** `struct.pack("!I", n)`: four bytes, big-endian; it raises for n >= 2^32. */
  function PackU32(n: nat): (r: Option<seq<byte>>)
    ensures r.Some? <==> n < U32_LIMIT
    ensures r.Some? ==> |r.value| == 4
  {
    if n >= U32_LIMIT then None
    else Some([n / 0x100_0000, n / 0x1_0000 % 0x100, n / 0x100 % 0x100, n % 0x100])
  }

  /** `struct.unpack("!I", b)[0]`: it raises unless given exactly four bytes. */
  function UnpackU32(b: seq<byte>): (r: Option<nat>)
    ensures r.Some? <==> |b| == 4
  {
    if |b| != 4 then None else Some((b[0] as int) * 0x100_0000 + (b[1] as int) * 0x1_0000 + (b[2] as int) * 0x100 + b[3])
  }

  lemma PackThenUnpack(n: nat)
    requires n < U32_LIMIT
    ensures UnpackU32(PackU32(n).value) == Some(n)
  {
    var b := PackU32(n).value;
    assert n / 0x1_0000 == (n / 0x100_0000) * 0x100 + n / 0x1_0000 % 0x100;
    assert n / 0x100 == (n / 0x1_0000) * 0x100 + n / 0x100 % 0x100;
    assert n == (n / 0x100) * 0x100 + n % 0x100;
  }

  lemma UnpackThenPack(b: seq<byte>)
    requires |b| == 4
    ensures UnpackU32(b).value < U32_LIMIT && PackU32(UnpackU32(b).value) == Some(b)
  {
    var n := UnpackU32(b).value;
    var b0, b1, b2, b3: int := b[0], b[1], b[2], b[3];
    assert n == b0 * 0x100_0000 + b1 * 0x1_0000 + b2 * 0x100 + b3;
    assert n / 0x100 == b0 * 0x1_0000 + b1 * 0x100 + b2 && n % 0x100 == b3;
    assert n / 0x1_0000 == b0 * 0x100 + b1 && n / 0x100 % 0x100 == b2;
    assert n / 0x100_0000 == b0 && n / 0x1_0000 % 0x100 == b1;
    assert [b0, b1, b2, b3] == b;
  }

  /** The bytes `sendall` is given: the payload's length, then the payload. */
  function Frame(payload: seq<byte>): (r: Option<seq<byte>>)
    ensures r.Some? <==> |payload| < U32_LIMIT
    ensures r.Some? ==> |r.value| == |payload| + 4 && r.value[4..] == payload
  {
    match PackU32(|payload|)
    case None => None
    case Some(prefix) => Some(prefix + payload)
  }

  /** Reading one frame off a byte stream: the length prefix, then that many bytes; the rest stays. */
  function Deframe(stream: seq<byte>): Option<(seq<byte>, seq<byte>)>
  {
    if |stream| < 4 then None
    else
      var n := UnpackU32(stream[..4]).value;
      if |stream| - 4 < n then None else Some((stream[4..4 + n], stream[4 + n..]))
  }

  /** A frame read back off the stream gives its payload and leaves what follows. */
  lemma FrameRoundTrip(payload: seq<byte>, rest: seq<byte>)
    requires |payload| < U32_LIMIT
    ensures Deframe(Frame(payload).value + rest) == Some((payload, rest))
  {
    var f := Frame(payload).value;
    var s := f + rest;
    assert s[..4] == PackU32(|payload|).value;
    PackThenUnpack(|payload|);
    assert s[4..4 + |payload|] == payload;
    assert s[4 + |payload|..] == rest;
  }

  // ---------------------------------------------------------------------
  // Collecting the queries.

  /** A captured packet: whether it has a DNS layer, its QR bit, the DNS layer's bytes and question name. */
  datatype CPacket = CPacket(hasDns: bool, qr: nat, wire: seq<byte>, qname: Option<string>)

  /** An entry of `dns_pkts`. */
  datatype Pending = Pending(header: seq<byte>, packet: CPacket, host: string)

  predicate IsQuery(p: CPacket)
  {
    p.hasDns && p.qr == 0
  }

  /** The DNS queries of one capture, in capture order. */
  function Queries(pkts: seq<CPacket>): (r: seq<CPacket>)
    ensures forall k :: 0 <= k < |r| ==> IsQuery(r[k])
  {
    if pkts == [] then []
    else Queries(pkts[..|pkts| - 1]) + if IsQuery(pkts[|pkts| - 1]) then [pkts[|pkts| - 1]] else []
  }

  /** A packet is kept exactly when it is a DNS query of the capture. */
  lemma {:induction false} QueriesMembers(pkts: seq<CPacket>, p: CPacket)
    ensures p in Queries(pkts) <==> p in pkts && IsQuery(p)
  {
    if pkts != [] {
      var init := pkts[..|pkts| - 1];
      QueriesMembers(init, p);
      assert pkts == init + [pkts[|pkts| - 1]];
    }
  }

  /**
   * The filter keeps capture order: a single packet is kept exactly when it
   * is a query, and the queries of two runs of packets are those of the
   * first, then those of the second.
   */
  lemma {:induction false} QueriesAppend(a: seq<CPacket>, b: seq<CPacket>)
    ensures |a| == 1 ==> Queries(a) == if IsQuery(a[0]) then [a[0]] else []
    ensures Queries(a + b) == Queries(a) + Queries(b)
    decreases |b|
  {
    if |a| == 1 {
      assert a[..0] == [];
    }
    if b == [] {
      assert a + b == a;
    } else {
      var init := b[..|b| - 1];
      var last := b[|b| - 1];
      QueriesAppend(a, init);
      assert (a + b)[..|a + b| - 1] == a + init;
      assert (a + b)[|a + b| - 1] == last;
      var t := if IsQuery(last) then [last] else [];
      assert Queries(a + b) == Queries(a + init) + t;
      assert Queries(b) == Queries(init) + t;
      assert Queries(a) + Queries(init) + t == Queries(a) + (Queries(init) + t);
    }
  }

  /** The (host, packet) pairs collected from the first `n` capture files; a missing file adds none. */
  function Collected(fs: map<string, seq<CPacket>>, n: nat): seq<(string, CPacket)>
    requires n <= |PcapFiles|
  {
    if n == 0 then [] else Collected(fs, n - 1) + FileEntries(fs, n - 1)
  }

  /** The pairs contributed by capture file `idx`, tagged with its host. */
  function FileEntries(fs: map<string, seq<CPacket>>, idx: nat): seq<(string, CPacket)>
    requires idx < |PcapFiles|
  {
    if PcapFiles[idx] in fs then Tagged(HostNames[idx], Queries(fs[PcapFiles[idx]])) else []
  }

  function Tagged(host: string, pkts: seq<CPacket>): (r: seq<(string, CPacket)>)
    ensures |r| == |pkts| && forall k :: 0 <= k < |r| ==> r[k] == (host, pkts[k])
  {
    seq(|pkts|, k requires 0 <= k < |pkts| => (host, pkts[k]))
  }

  /** The `dns_pkts` entries for a run of collected pairs: the k-th is stamped by the clock and numbered k. */
  function Stamped(entries: seq<(string, CPacket)>, clock: nat -> Time): (r: seq<Pending>)
    ensures |r| == |entries|
  {
    seq(|entries|, k requires 0 <= k < |entries| => Pending(Header(clock(k), k), entries[k].1, entries[k].0))
  }

  /** One more packet of the current capture file. */
  lemma CollectStep(done: seq<(string, CPacket)>, host: string, pcap: seq<CPacket>, i: nat, clock: nat -> Time)
    requires i < |pcap|
    ensures var before := done + Tagged(host, Queries(pcap[..i]));
      Stamped(done + Tagged(host, Queries(pcap[..i + 1])), clock) ==
        Stamped(before, clock) +
          if IsQuery(pcap[i]) then [Pending(Header(clock(|before|), |before|), pcap[i], host)] else []
  {
    assert pcap[..i + 1][..i] == pcap[..i];
    var before := done + Tagged(host, Queries(pcap[..i]));
    if IsQuery(pcap[i]) {
      assert Queries(pcap[..i + 1]) == Queries(pcap[..i]) + [pcap[i]];
      assert done + Tagged(host, Queries(pcap[..i + 1])) == before + [(host, pcap[i])];
    } else {
      assert Queries(pcap[..i + 1]) == Queries(pcap[..i]);
    }
  }

  /** The inner collection loop: the DNS queries of one capture file, appended in order. */
  method CollectFile(pcap: seq<CPacket>, host: string, clock: nat -> Time, ghost done: seq<(string, CPacket)>,
                     dnsPkts0: seq<Pending>, totalAll0: nat)
    returns (dnsPkts: seq<Pending>, totalAll: nat)
    requires totalAll0 == |dnsPkts0| && dnsPkts0 == Stamped(done, clock)
    ensures totalAll == |dnsPkts| && dnsPkts == Stamped(done + Tagged(host, Queries(pcap)), clock)
  {
    dnsPkts, totalAll := dnsPkts0, totalAll0;
    assert pcap[..0] == [];
    assert done + Tagged(host, Queries(pcap[..0])) == done;
    for i := 0 to |pcap|
      invariant totalAll == |dnsPkts| && dnsPkts == Stamped(done + Tagged(host, Queries(pcap[..i])), clock)
    {
      CollectStep(done, host, pcap, i, clock);
      var pkt := pcap[i];
      if pkt.hasDns && pkt.qr == 0 {
        var cstmHdr := Header(clock(totalAll), totalAll);
        dnsPkts := dnsPkts + [Pending(cstmHdr, pkt, host)];
        totalAll := totalAll + 1;
      }
    }
    assert pcap[..|pcap|] == pcap;
  }

  /**
   * The collection loops: every capture file in order (a missing one is
   * skipped), every DNS query packet in it, each with a header stamped by
   * the clock and numbered by `totalAll`, which counts the queries.
   */
  method Collect(fs: map<string, seq<CPacket>>, clock: nat -> Time) returns (dnsPkts: seq<Pending>, totalAll: nat)
    ensures totalAll == |dnsPkts| && dnsPkts == Stamped(Collected(fs, |PcapFiles|), clock)
  {
    dnsPkts, totalAll := [], 0;
    for idx := 0 to |PcapFiles|
      invariant totalAll == |dnsPkts| && dnsPkts == Stamped(Collected(fs, idx), clock)
    {
      var host := HostNames[idx];
      var pcapFile := PcapFiles[idx];
      if pcapFile !in fs {
        assert Collected(fs, idx + 1) == Collected(fs, idx) + [];
        continue;
      }
      var pcap := fs[pcapFile];
      assert Collected(fs, idx + 1) == Collected(fs, idx) + Tagged(host, Queries(pcap));
      dnsPkts, totalAll := CollectFile(pcap, host, clock, Collected(fs, idx), dnsPkts, totalAll);
    }
  }

  /** Every collected pair is tagged with one of the four host names. */
  lemma {:induction false} CollectedHosts(fs: map<string, seq<CPacket>>, n: nat)
    requires n <= |PcapFiles|
    ensures forall k :: 0 <= k < |Collected(fs, n)| ==> Collected(fs, n)[k].0 in HostNames
  {
    if n > 0 {
      CollectedHosts(fs, n - 1);
      var a: seq<(string, CPacket)>, b: seq<(string, CPacket)> := Collected(fs, n - 1), FileEntries(fs, n - 1);
      assert Collected(fs, n) == a + b;
      forall k | 0 <= k < |a + b| ensures (a + b)[k].0 in HostNames {
        if k >= |a| { assert (a + b)[k] == b[k - |a|]; }
      }
    }
  }

  /** What the collection loops produce is what the send loop accepts: every entry names a known host. */
  lemma CollectedKnownHosts(fs: map<string, seq<CPacket>>, clock: nat -> Time)
    ensures KnownHosts(Stamped(Collected(fs, |PcapFiles|), clock))
  {
    CollectedHosts(fs, |PcapFiles|);
  }

  /** The entries of host i are exactly the query packets of capture file i, in order; a missing file gives none. */
  lemma {:induction false} CollectedPerHost(fs: map<string, seq<CPacket>>, n: nat, i: nat)
    requires n <= |PcapFiles| && i < |PcapFiles|
    ensures Packets(Collected(fs, n), HostNames[i]) ==
      if i < n && PcapFiles[i] in fs then Queries(fs[PcapFiles[i]]) else []
  {
    if n > 0 {
      var host := HostNames[i];
      CollectedPerHost(fs, n - 1, i);
      PacketsAppend(Collected(fs, n - 1), FileEntries(fs, n - 1), host);
      FileEntriesFor(fs, n - 1, i);
      EmptyConcat(Packets(Collected(fs, n - 1), host), Packets(FileEntries(fs, n - 1), host));
    }
  }

  /** Capture file `idx` contributes to host i only when idx == i. */
  lemma FileEntriesFor(fs: map<string, seq<CPacket>>, idx: nat, i: nat)
    requires idx < |PcapFiles| && i < |PcapFiles|
    ensures Packets(FileEntries(fs, idx), HostNames[i]) ==
      if idx == i && PcapFiles[i] in fs then Queries(fs[PcapFiles[i]]) else []
  {
    HostNamesDistinct();
    if PcapFiles[idx] in fs {
      PacketsTagged(HostNames[idx], Queries(fs[PcapFiles[idx]]), HostNames[i]);
      assert HostNames[idx] == HostNames[i] <==> idx == i;
    }
  }

  lemma HostNamesDistinct()
    ensures forall i, j :: 0 <= i < j < |HostNames| ==> HostNames[i] != HostNames[j]
  {
  }

  lemma EmptyConcat<T>(x: seq<T>, y: seq<T>)
    ensures x == [] ==> x + y == y
    ensures y == [] ==> x + y == x
  {
  }

  /** The packets of the entries tagged with `host`, in order. */
  function Packets(entries: seq<(string, CPacket)>, host: string): seq<CPacket>
  {
    if entries == [] then []
    else (if entries[0].0 == host then [entries[0].1] else []) + Packets(entries[1..], host)
  }

  lemma {:induction false} PacketsAppend(a: seq<(string, CPacket)>, b: seq<(string, CPacket)>, host: string)
    ensures Packets(a + b, host) == Packets(a, host) + Packets(b, host)
  {
    if a == [] {
      assert a + b == b;
    } else {
      var h := if a[0].0 == host then [a[0].1] else [];
      assert (a + b)[0] == a[0] && (a + b)[1..] == a[1..] + b;
      assert Packets(a + b, host) == h + Packets(a[1..] + b, host);
      PacketsAppend(a[1..], b, host);
      assert h + (Packets(a[1..], host) + Packets(b, host)) == (h + Packets(a[1..], host)) + Packets(b, host);
    }
  }

  lemma {:induction false} PacketsTagged(tag: string, pkts: seq<CPacket>, host: string)
    ensures Packets(Tagged(tag, pkts), host) == if tag == host then pkts else []
  {
    if pkts != [] {
      PacketsTagged(tag, pkts[1..], host);
      assert Tagged(tag, pkts)[1..] == Tagged(tag, pkts[1..]);
      assert Tagged(tag, pkts)[0] == (tag, pkts[0]);
    }
  }

  // ---------------------------------------------------------------------
  // Sending.

  /**
   * What the connection does with one frame: raises (send or receive
   * fails), or the reply-length read returns `prefix` (empty when the server
   * closed) after `latency`, the text the log row shows.
   */
  datatype Exchange = Broken | Answered(prefix: seq<byte>, latency: string)

  datatype Status = SUCCESS | FAIL

  /** A row of client_log.csv (timestamp left out). */
  datatype Row = Row(host: string, domain: string, size: nat, latency: string, status: Status)

  datatype HostStats = HostStats(success: nat, fail: nat, bytesSent: nat)

  /** One send attempt: counted a success or not, the log row written, the frame handed to `sendall`. */
  datatype Attempt = Attempt(ok: bool, row: Option<Row>, frame: Option<seq<byte>>)

  function Payload(p: Pending): seq<byte>
  {
    p.header + p.packet.wire
  }

  function DomainOf(p: CPacket): string
  {
    if p.qname.Some? then p.qname.value else "N/A"
  }

  /** The `try` block of the send loop for one entry. */
  function Send(p: Pending, e: Exchange): Attempt
  {
    var size := |Payload(p)|;
    match Frame(Payload(p))
    case None => Attempt(false, None, None)
    case Some(f) =>
      match e
      case Broken => Attempt(false, None, Some(f))
      case Answered(prefix, latency) =>
        if prefix == [] then Attempt(false, Some(Row(p.host, DomainOf(p.packet), size, "0.00", FAIL)), Some(f))
        else if |prefix| != 4 then Attempt(false, None, Some(f))
        else Attempt(true, Some(Row(p.host, DomainOf(p.packet), size, latency, SUCCESS)), Some(f))
  }

  /**
   * The outcome of one attempt: a success exactly when the frame fits the
   * prefix and a full 4-byte reply length comes back, logged as a SUCCESS
   * row with the exchange's latency; an empty read is a failure logged with
   * latency 0; every exception (oversized frame, a broken connection, a
   * short length read) is a failure with no row.
   */
  lemma SendOutcome(p: Pending, e: Exchange)
    ensures var a := Send(p, e);
      && (a.ok <==> |Payload(p)| < U32_LIMIT && e.Answered? && |e.prefix| == 4)
      && (a.row.Some? && a.row.value.status == FAIL <==> |Payload(p)| < U32_LIMIT && e.Answered? && e.prefix == [])
      && (a.row.Some? ==> a.row.value.status == FAIL ==> a.row.value.latency == "0.00")
      && (a.row.Some? && a.row.value.status == SUCCESS <==> a.ok)
      && (a.ok ==> a.row.value.latency == e.latency)
      && (a.row.None? <==> !(|Payload(p)| < U32_LIMIT && e.Answered? && (e.prefix == [] || |e.prefix| == 4)))
      && (a.row.Some? ==> a.row.value.size == |Payload(p)| && a.row.value.host == p.host)
      && (a.row.Some? ==> a.row.value.domain == DomainOf(p.packet))
      && (a.frame.Some? <==> |Payload(p)| < U32_LIMIT)
      && (a.frame.Some? ==> Deframe(a.frame.value) == Some((Payload(p), [])))
  {
    if |Payload(p)| < U32_LIMIT {
      FrameRoundTrip(Payload(p), []);
      assert Frame(Payload(p)).value + [] == Frame(Payload(p)).value;
    }
  }

  const InitStats: map<string, HostStats> := map h | h in HostNames :: HostStats(0, 0, 0)

  predicate KnownHosts(pkts: seq<Pending>)
  {
    forall k :: 0 <= k < |pkts| ==> pkts[k].host in HostNames
  }

  /** What the send loop has produced so far: the `stats` dict, the log rows, the frames sent. */
  datatype Report = Report(stats: map<string, HostStats>, rows: seq<Row>, frames: seq<seq<byte>>)

  /** A host's counters after one more attempt of `size` payload bytes. */
  function Counted(s: HostStats, ok: bool, size: nat): HostStats
  {
    HostStats(s.success + (if ok then 1 else 0), s.fail + (if ok then 0 else 1), s.bytesSent + size)
  }

  /** The report after one more entry. */
  function Record(r: Report, p: Pending, e: Exchange): Report
    requires p.host in r.stats
  {
    var a := Send(p, e);
    Report(
      r.stats[p.host := Counted(r.stats[p.host], a.ok, |Payload(p)|)],
      r.rows + (if a.row.Some? then [a.row.value] else []),
      r.frames + (if a.frame.Some? then [a.frame.value] else []))
  }

  /** The report after the first |pkts| entries. */
  function Replay(pkts: seq<Pending>, exs: seq<Exchange>): (r: Report)
    requires |exs| == |pkts| && KnownHosts(pkts)
    ensures r.stats.Keys == InitStats.Keys
  {
    if pkts == [] then Report(InitStats, [], [])
    else
      var n := |pkts| - 1;
      Record(Replay(pkts[..n], exs[..n]), pkts[n], exs[n])
  }

  /** The `try` block for one entry: pack, send, read the reply length. */
  method SendOne(pkt: Pending, e: Exchange) returns (ok: bool, row: Option<Row>, frame: Option<seq<byte>>)
    ensures Attempt(ok, row, frame) == Send(pkt, e)
  {
    var packetToSend := pkt.header + pkt.packet.wire;
    var size := |packetToSend|;
    var domain := DomainOf(pkt.packet);
    ok, row, frame := false, None, None;
    var prefix := PackU32(size);
    if prefix.None? {
      return;  // struct.pack raises
    }
    frame := Some(prefix.value + packetToSend);
    match e
    case Broken =>
    case Answered(rawSize, latency) =>
      if rawSize == [] {
        row := Some(Row(pkt.host, domain, size, "0.00", FAIL));
      } else if |rawSize| == 4 {
        var respSize := UnpackU32(rawSize).value;
        ok := true;
        row := Some(Row(pkt.host, domain, size, latency, SUCCESS));
      }
  }

  lemma KnownHostsPrefix(pkts: seq<Pending>, i: nat)
    requires KnownHosts(pkts) && i <= |pkts|
    ensures KnownHosts(pkts[..i])
  {
    forall k | 0 <= k < i ensures pkts[..i][k].host in HostNames {
      assert pkts[..i][k] == pkts[k];
    }
  }

  /** One more entry extends the report by its attempt. */
  lemma SendStep(pkts: seq<Pending>, exs: seq<Exchange>, i: nat)
    requires |exs| == |pkts| && KnownHosts(pkts) && i < |pkts|
    ensures KnownHosts(pkts[..i]) && KnownHosts(pkts[..i + 1])
    ensures Replay(pkts[..i + 1], exs[..i + 1]) == Record(Replay(pkts[..i], exs[..i]), pkts[i], exs[i])
  {
    KnownHostsPrefix(pkts, i);
    KnownHostsPrefix(pkts, i + 1);
    assert pkts[..i + 1][..i] == pkts[..i] && exs[..i + 1][..i] == exs[..i];
    assert pkts[..i + 1][i] == pkts[i] && exs[..i + 1][i] == exs[i];
  }

  /**
   * One pass of the send loop: `bytes_sent` grows before the `try`, so it
   * counts a payload even when the attempt fails; then exactly one of
   * `success` and `fail` grows.
   */
  method SendEntry(stats: map<string, HostStats>, pkt: Pending, e: Exchange)
    returns (next: map<string, HostStats>, row: Option<Row>, frame: Option<seq<byte>>)
    requires pkt.host in stats
    ensures var a := Send(pkt, e);
      next == stats[pkt.host := Counted(stats[pkt.host], a.ok, |Payload(pkt)|)] && row == a.row && frame == a.frame
  {
    var host := pkt.host;
    var packetToSend := pkt.header + pkt.packet.wire;
    var size := |packetToSend|;
    var s := stats[host];
    s := s.(bytesSent := s.bytesSent + size);
    var ok;
    ok, row, frame := SendOne(pkt, e);
    s := if ok then s.(success := s.success + 1) else s.(fail := s.fail + 1);
    next := stats[host := s];
  }

  /** The send loop over `dns_pkts`, one connection attempt per entry. */
  method SendAll(dnsPkts: seq<Pending>, exs: seq<Exchange>)
    returns (stats: map<string, HostStats>, rows: seq<Row>, frames: seq<seq<byte>>)
    requires |exs| == |dnsPkts| && KnownHosts(dnsPkts)
    ensures Report(stats, rows, frames) == Replay(dnsPkts, exs)
  {
    stats, rows, frames := InitStats, [], [];
    for i := 0 to |dnsPkts|
      invariant KnownHosts(dnsPkts[..i])
      invariant Report(stats, rows, frames) == Replay(dnsPkts[..i], exs[..i])
    {
      SendStep(dnsPkts, exs, i);
      var row, frame;
      stats, row, frame := SendEntry(stats, dnsPkts[i], exs[i]);
      frames := frames + if frame.Some? then [frame.value] else [];
      rows := rows + if row.Some? then [row.value] else [];
    }
    assert dnsPkts[..|dnsPkts|] == dnsPkts && exs[..|exs|] == exs;
  }

  /** The number of entries for `host`. */
  function CountFor(pkts: seq<Pending>, host: string): nat
  {
    if pkts == [] then 0
    else CountFor(pkts[..|pkts| - 1], host) + if pkts[|pkts| - 1].host == host then 1 else 0
  }

  /** The payload bytes of the entries for `host`. */
  function BytesFor(pkts: seq<Pending>, host: string): nat
  {
    if pkts == [] then 0
    else BytesFor(pkts[..|pkts| - 1], host) + if pkts[|pkts| - 1].host == host then |Payload(pkts[|pkts| - 1])| else 0
  }

  /**
   * Per host, every entry is counted once, as a success or as a failure,
   * and `bytes_sent` is the sum of the payload sizes (header included,
   * length prefix not).
   */
  lemma {:induction false} TallyPerHost(pkts: seq<Pending>, exs: seq<Exchange>, host: string)
    requires |exs| == |pkts| && KnownHosts(pkts) && host in HostNames
    ensures var s := Replay(pkts, exs).stats[host];
      s.success + s.fail == CountFor(pkts, host) && s.bytesSent == BytesFor(pkts, host)
  {
    if pkts != [] {
      var n := |pkts| - 1;
      assert KnownHosts(pkts[..n]) by {
        forall k | 0 <= k < n ensures pkts[..n][k].host in HostNames { assert pkts[..n][k] == pkts[k]; }
      }
      TallyPerHost(pkts[..n], exs[..n], host);
    }
  }

  /**
   * The k-th collected entry carries the k-th pair's packet and host, and its
   * payload is a header that reads back as the clock reading and the
   * sequence id `k mod 100`, followed by the packet's DNS bytes.
   */
  lemma StampedEntry(entries: seq<(string, CPacket)>, clock: nat -> Time, k: nat)
    requires k < |entries|
    ensures var p := Stamped(entries, clock)[k];
      && p.packet == entries[k].1 && p.host == entries[k].0
      && |Payload(p)| == 8 + |p.packet.wire|
      && ParseHeader(Payload(p)[..8]) == Some((clock(k), k % 100)) && Payload(p)[8..] == p.packet.wire
  {
    var p := Stamped(entries, clock)[k];
    assert p == Pending(Header(clock(k), k), entries[k].1, entries[k].0);
    assert Payload(p)[..8] == Header(clock(k), k);
    HeaderRoundTrip(clock(k), k);
  }
}
