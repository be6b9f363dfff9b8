/**
 * Task2/extract_domains.py: scan captured packets, collect the distinct
 * query names (one trailing dot removed), count packets, queries and
 * per-packet errors, and write the names sorted, one per line.
 */
module DomainExtractor {
  import opened Wrappers
  import opened Text

  /**
   * A captured packet as the loop sees it: no DNS question layer, or a
   * question whose name bytes decode as UTF-8 to `Some(text)`, or fail to
   * decode (`None`).
   */
  datatype Packet = Other | DnsQuery(qname: Option<string>)

  datatype Counts = Counts(packets: nat, queries: nat, errors: nat)

  /** How a run of the script ends. */
  datatype Exit =
    | Usage                       // wrong number of arguments: exit status 1, nothing read
    | FileMissing(path: string)   // the capture file does not exist: nothing written
    | Written(path: string, text: string, counts: Counts)

  /** The name with one trailing dot removed, if it has one. */
  function StripDot(qname: string): (d: string)
    ensures d == qname || d + "." == qname
    ensures d != qname <==> (|qname| > 0 && qname[|qname| - 1] == '.')
  {
    if |qname| > 0 && qname[|qname| - 1] == '.' then qname[..|qname| - 1] else qname
  }

  /** Only one dot goes: "a." becomes "a" and "a.." becomes "a.". */
  lemma StripDotOnce()
    ensures StripDot("a.") == "a" && StripDot("a..") == "a." && StripDot("a") == "a"
  {
  }

  // ---------------------------------------------------------------------
  // What the packet loop computes, packet by packet.

  function QueryCount(pkts: seq<Packet>): nat
  {
    if pkts == [] then 0
    else QueryCount(pkts[..|pkts| - 1]) + if pkts[|pkts| - 1].DnsQuery? then 1 else 0
  }

  function ErrorCount(pkts: seq<Packet>): nat
  {
    if pkts == [] then 0
    else ErrorCount(pkts[..|pkts| - 1]) + if pkts[|pkts| - 1] == DnsQuery(None) then 1 else 0
  }

  function DomainSet(pkts: seq<Packet>): set<string>
  {
    if pkts == [] then {}
    else
      var p := pkts[|pkts| - 1];
      DomainSet(pkts[..|pkts| - 1]) + if p.DnsQuery? && p.qname.Some? then {StripDot(p.qname.value)} else {}
  }

  /**
   * The packet loop: every packet is counted; a packet with a question is
   * counted as a query before its name is decoded, so a name that fails to
   * decode counts as a query and as an error, and the loop goes on.
   */
  method ProcessPackets(pkts: seq<Packet>) returns (domains: set<string>, counts: Counts)
    ensures counts == Counts(|pkts|, QueryCount(pkts), ErrorCount(pkts))
    ensures domains == DomainSet(pkts)
  {
    domains := {};
    var packetCount, dnsCount, errorCount := 0, 0, 0;
    for i := 0 to |pkts|
      invariant packetCount == i
      invariant dnsCount == QueryCount(pkts[..i]) && errorCount == ErrorCount(pkts[..i])
      invariant domains == DomainSet(pkts[..i])
    {
      assert pkts[..i + 1][..i] == pkts[..i];
      var pkt := pkts[i];
      packetCount := packetCount + 1;
      if pkt.DnsQuery? {
        dnsCount := dnsCount + 1;
        match pkt.qname
        case None =>
          errorCount := errorCount + 1;
        case Some(text) =>
          var domain := text;
          if |domain| > 0 && domain[|domain| - 1] == '.' {
            domain := domain[..|domain| - 1];
          }
          domains := domains + {domain};
      }
    }
    assert pkts[..|pkts|] == pkts;
    counts := Counts(packetCount, dnsCount, errorCount);
  }

  /** dns_count <= packet_count, and every stored name or error is one query's worth. */
  lemma {:induction false} CountersBounded(pkts: seq<Packet>)
    ensures QueryCount(pkts) <= |pkts|
    ensures |DomainSet(pkts)| + ErrorCount(pkts) <= QueryCount(pkts)
  {
    if pkts != [] {
      var init := pkts[..|pkts| - 1];
      CountersBounded(init);
      var p := pkts[|pkts| - 1];
      if p.DnsQuery? && p.qname.Some? {
        assert |DomainSet(init) + {StripDot(p.qname.value)}| <= |DomainSet(init)| + 1;
      }
    }
  }

  /** A name is stored exactly when some query packet's name decodes and strips to it. */
  lemma {:induction false} DomainSetMembers(pkts: seq<Packet>, d: string)
    ensures d in DomainSet(pkts) <==>
      exists k :: 0 <= k < |pkts| && pkts[k].DnsQuery? && pkts[k].qname.Some? && StripDot(pkts[k].qname.value) == d
  {
    if pkts != [] {
      var init := pkts[..|pkts| - 1];
      DomainSetMembers(init, d);
      forall k | 0 <= k < |init| ensures init[k] == pkts[k] { }
    }
  }

  // ---------------------------------------------------------------------
  // The sorted output.

  /** Python's order on str: code point by code point, a proper prefix first. */
  predicate Below(a: string, b: string)
  {
    |b| > 0 && (|a| == 0 || a[0] < b[0] || (a[0] == b[0] && Below(a[1..], b[1..])))
  }

  lemma {:induction false} BelowIrreflexive(a: string)
    ensures !Below(a, a)
  {
    if |a| > 0 { BelowIrreflexive(a[1..]); }
  }

  lemma {:induction false} BelowTransitive(a: string, b: string, c: string)
    requires Below(a, b) && Below(b, c)
    ensures Below(a, c)
  {
    if |a| > 0 && a[0] == b[0] && b[0] == c[0] {
      BelowTransitive(a[1..], b[1..], c[1..]);
    }
  }

  lemma {:induction false} BelowTotal(a: string, b: string)
    requires a != b
    ensures Below(a, b) || Below(b, a)
  {
    if |a| > 0 && |b| > 0 && a[0] == b[0] {
      assert a == [a[0]] + a[1..] && b == [b[0]] + b[1..];
      BelowTotal(a[1..], b[1..]);
    }
  }

  lemma BelowAsymmetric()
    ensures forall a, b :: Below(a, b) ==> !Below(b, a)
  {
    forall a, b | Below(a, b) ensures !Below(b, a) {
      if Below(b, a) {
        BelowTransitive(a, b, a);
        BelowIrreflexive(a);
      }
    }
  }

  predicate Least(m: string, s: set<string>)
  {
    m in s && forall x :: x in s && x != m ==> Below(m, x)
  }

  lemma {:induction false} LeastExists(s: set<string>)
    requires s != {}
    ensures exists m :: Least(m, s)
    decreases |s|
  {
    var x :| x in s;
    if s != {x} {
      LeastExists(s - {x});
      var m :| Least(m, s - {x});
      if Below(x, m) {
        forall y | y in s && y != x ensures Below(x, y) {
          if y != m { BelowTransitive(x, m, y); }
        }
        assert Least(x, s);
      } else {
        BelowTotal(x, m);
        assert Least(m, s);
      }
    } else {
      assert Least(x, s);
    }
  }

  /** `sorted(list(domains))`: every name once, in increasing order. */
  function SortedList(s: set<string>): (r: seq<string>)
    ensures |r| == |s|
    ensures forall x :: x in r <==> x in s
    ensures forall i, j :: 0 <= i < j < |r| ==> Below(r[i], r[j])
    decreases |s|
  {
    if s == {} then []
    else
      LeastExists(s);
      BelowAsymmetric();
      var m :| Least(m, s);
      var rest := SortedList(s - {m});
      SortedCons(m, s, rest);
      [m] + rest
  }

  /** The least name, then the sorted rest, is the sorted whole. */
  lemma SortedCons(m: string, s: set<string>, rest: seq<string>)
    requires Least(m, s)
    requires |rest| == |s - {m}| && (forall x :: x in rest <==> x in s - {m})
    requires forall i, j :: 0 <= i < j < |rest| ==> Below(rest[i], rest[j])
    ensures |[m] + rest| == |s| && (forall x :: x in [m] + rest <==> x in s)
    ensures forall i, j :: 0 <= i < j < |[m] + rest| ==> Below(([m] + rest)[i], ([m] + rest)[j])
  {
    var r := [m] + rest;
    forall i, j | 0 <= i < j < |r| ensures Below(r[i], r[j]) {
      if i == 0 {
        assert r[j] == rest[j - 1] && r[j] in rest;
      } else {
        assert r[i] == rest[i - 1] && r[j] == rest[j - 1];
      }
    }
  }

  /** The output file's text: each name followed by a newline, in sorted order. */
  function Output(domains: set<string>): string
  {
    Lines(SortedList(domains))
  }

  /** The file holds one line per distinct name, in increasing order (names hold no newline). */
  lemma OutputLines(domains: set<string>)
    requires forall d :: d in domains ==> '\n' !in d
    ensures var lines := Split(Output(domains), '\n');
      && lines == SortedList(domains) + [""]
      && |lines| == |domains| + 1
      && forall i, j :: 0 <= i < j < |domains| ==> Below(lines[i], lines[j])
  {
    var r := SortedList(domains);
    forall k | 0 <= k < |r| ensures '\n' !in r[k] {
      assert r[k] in r;
    }
    LinesSplit(r);
  }

  /**
   * The script: with anything but exactly two arguments after the script
   * name it exits before reading; a missing capture file writes nothing;
   * otherwise the output file named by the second argument receives the
   * sorted names.
   */
  method ExtractDomains(argv: seq<string>, files: map<string, seq<Packet>>) returns (exit: Exit)
    ensures |argv| != 3 ==> exit == Usage
    ensures |argv| == 3 && argv[1] !in files ==> exit == FileMissing(argv[1])
    ensures |argv| == 3 && argv[1] in files ==>
      var pkts := files[argv[1]];
      exit == Written(argv[2], Output(DomainSet(pkts)), Counts(|pkts|, QueryCount(pkts), ErrorCount(pkts)))
  {
    if |argv| != 3 {
      return Usage;
    }
    var pcapFile, outputFile := argv[1], argv[2];
    if pcapFile !in files {
      return FileMissing(pcapFile);
    }
    var domains, counts := ProcessPackets(files[pcapFile]);
    exit := Written(outputFile, Output(domains), counts);
  }
}
