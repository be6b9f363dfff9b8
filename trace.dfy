/**
 * The resolver's trace log (`log_event`): one comma-separated line per
 * event under a fixed header row.
 */
module Trace {
  import opened Text

  /**
   * One event. The line's first column, the wall-clock timestamp, is added
   * when the record is rendered. `rtt` is the round-trip time as the line
   * shows it.
   */
  datatype TraceRecord = TraceRecord(
    domain: string,
    mode: string,
    server: string,
    step: string,
    rtype: string,
    rtt: string,
    cache: string)

  const Columns: seq<string> :=
    ["Timestamp", "Domain", "Mode", "Server_IP", "Step", "Response Type", "RTT(ms)", "Cache Status"]

  /** The header row written when the service starts. */
  const Header: string := Join(Columns, ',') + "\n"

  /** A reply received from a root server; labelled a referral even when it holds the answer. */
  function RootRecord(domain: string, server: string, rtt: string): (r: TraceRecord)
    ensures r.server == server && r.step == "Root" && r.rtype == "Referral" && r.cache == "MISS"
  {
    TraceRecord(domain, "Recursive", server, "Root", "Referral", rtt, "MISS")
  }

  /** A reply received from a referral candidate. */
  function CandidateRecord(domain: string, server: string, rtt: string): (r: TraceRecord)
    ensures r.server == server && r.step == "TLD/Auth" && r.rtype == "Response" && r.cache == "MISS"
  {
    TraceRecord(domain, "Recursive", server, "TLD/Auth", "Response", rtt, "MISS")
  }

  /** A reply served from the response cache: no server contacted, round-trip time 0. */
  function HitRecord(domain: string): (r: TraceRecord)
    ensures r.server == "-" && r.step == "Cache" && r.rtt == "0" && r.cache == "HIT"
  {
    TraceRecord(domain, "Recursive", "-", "Cache", "Response", "0", "HIT")
  }

  function Fields(stamp: string, r: TraceRecord): seq<string>
  {
    [stamp, r.domain, r.mode, r.server, r.step, r.rtype, r.rtt, r.cache]
  }

  /** The text `log_event` appends for `r` when the clock reads `stamp`. */
  function Line(stamp: string, r: TraceRecord): (line: string)
    ensures |line| > 0 && line[|line| - 1] == '\n'
  {
    Join(Fields(stamp, r), ',') + "\n"
  }

  predicate Plain(f: string)
  {
    ',' !in f && '\n' !in f
  }

  /**
   * A line splits back into its eight values, column by column under the
   * header, as long as no value holds a comma or a newline (the log does
   * no quoting).
   */
  lemma LineColumns(stamp: string, r: TraceRecord)
    requires forall f :: f in Fields(stamp, r) ==> Plain(f)
    ensures var line := Line(stamp, r);
      Split(line[..|line| - 1], ',') == Fields(stamp, r)
    ensures |Fields(stamp, r)| == |Columns|
  {
    var line := Line(stamp, r);
    assert line[..|line| - 1] == Join(Fields(stamp, r), ',');
    var fs := Fields(stamp, r);
    forall k | 0 <= k < |fs| ensures ',' !in fs[k] {
      assert fs[k] in fs;
    }
    SplitJoin(fs, ',');
  }

  /** The header row is exactly the column names in order. */
  lemma HeaderColumns()
    ensures Split(Header[..|Header| - 1], ',') == Columns
  {
    var j := Join(Columns, ',');
    assert Header == j + "\n";
    assert Header[..|Header| - 1] == j;
    ColumnsPlain();
    SplitJoin(Columns, ',');
  }

  lemma ColumnsPlain()
    ensures forall k :: 0 <= k < |Columns| ==> ',' !in Columns[k]
  {
  }
}
