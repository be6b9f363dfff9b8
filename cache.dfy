/**
 * The glue cache of server.py (`update_cache`): every A record of a
 * referral's additional section upserts owner name -> address.
 */
module Cache {
  import opened Dns

  /** An A record seen in an additional section: owner name text and IPv4 address. */
  datatype ARecord = ARecord(owner: string, address: string)

  /** The A records of one RRset, in record order. */
  function RdataA(owner: string, rds: seq<Rdata>): seq<ARecord>
  {
    if rds == [] then []
    else (if rds[0].rdtype == TYPE_A then [ARecord(owner, rds[0].address)] else []) + RdataA(owner, rds[1..])
  }

  /** The A records of a section, RRset by RRset: the order both loops of server.py visit them in. */
  function ARecords(sets: seq<RRset>): seq<ARecord>
  {
    if sets == [] then [] else RdataA(sets[0].name, sets[0].rdatas) + ARecords(sets[1..])
  }

  /** The glue map after the inner loop of `update_cache` has visited `rds`. */
  function MergeRdatas(glue: map<string, string>, owner: string, rds: seq<Rdata>): map<string, string>
    decreases |rds|
  {
    if rds == [] then glue
    else MergeRdatas(if rds[0].rdtype == TYPE_A then glue[owner := rds[0].address] else glue, owner, rds[1..])
  }

  /** The glue map after `update_cache` has visited the RRsets `sets`. */
  function MergeGlue(glue: map<string, string>, sets: seq<RRset>): map<string, string>
    decreases |sets|
  {
    if sets == [] then glue else MergeGlue(MergeRdatas(glue, sets[0].name, sets[0].rdatas), sets[1..])
  }

  /** Upserting a list of A records in order. */
  function Upsert(glue: map<string, string>, recs: seq<ARecord>): map<string, string>
    decreases |recs|
  {
    if recs == [] then glue else Upsert(glue[recs[0].owner := recs[0].address], recs[1..])
  }

  lemma {:induction false} UpsertAppend(glue: map<string, string>, a: seq<ARecord>, b: seq<ARecord>)
    ensures Upsert(glue, a + b) == Upsert(Upsert(glue, a), b)
    decreases |a|
  {
    if a != [] {
      assert (a + b)[0] == a[0] && (a + b)[1..] == a[1..] + b;
      UpsertAppend(glue[a[0].owner := a[0].address], a[1..], b);
    } else {
      assert a + b == b;
    }
  }

  lemma {:induction false} MergeRdatasIsUpsert(glue: map<string, string>, owner: string, rds: seq<Rdata>)
    ensures MergeRdatas(glue, owner, rds) == Upsert(glue, RdataA(owner, rds))
    decreases |rds|
  {
    if rds != [] {
      var g := if rds[0].rdtype == TYPE_A then glue[owner := rds[0].address] else glue;
      var head := if rds[0].rdtype == TYPE_A then [ARecord(owner, rds[0].address)] else [];
      MergeRdatasIsUpsert(g, owner, rds[1..]);
      UpsertAppend(glue, head, RdataA(owner, rds[1..]));
      if rds[0].rdtype == TYPE_A {
        assert Upsert(glue, head) == Upsert(g, []);
      }
    }
  }

  /** `update_cache` upserts exactly the section's A records, in order. */
  lemma {:induction false} MergeGlueIsUpsert(glue: map<string, string>, sets: seq<RRset>)
    ensures MergeGlue(glue, sets) == Upsert(glue, ARecords(sets))
    decreases |sets|
  {
    if sets != [] {
      var g := MergeRdatas(glue, sets[0].name, sets[0].rdatas);
      MergeRdatasIsUpsert(glue, sets[0].name, sets[0].rdatas);
      MergeGlueIsUpsert(g, sets[1..]);
      UpsertAppend(glue, RdataA(sets[0].name, sets[0].rdatas), ARecords(sets[1..]));
    }
  }

  lemma {:induction false} UpsertKeys(glue: map<string, string>, recs: seq<ARecord>, n: string)
    ensures n in Upsert(glue, recs) <==> n in glue || exists k :: 0 <= k < |recs| && recs[k].owner == n
    decreases |recs|
  {
    if recs != [] {
      UpsertKeys(glue[recs[0].owner := recs[0].address], recs[1..], n);
      if exists k :: 0 <= k < |recs[1..]| && recs[1..][k].owner == n {
        var k :| 0 <= k < |recs[1..]| && recs[1..][k].owner == n;
        assert recs[k + 1].owner == n;
      }
      if exists k :: 0 <= k < |recs| && recs[k].owner == n {
        var k :| 0 <= k < |recs| && recs[k].owner == n;
        if k > 0 { assert recs[1..][k - 1].owner == n; }
      }
    }
  }

  lemma {:induction false} UpsertUntouched(glue: map<string, string>, recs: seq<ARecord>, n: string)
    requires n in glue
    requires forall k :: 0 <= k < |recs| ==> recs[k].owner != n
    ensures n in Upsert(glue, recs) && Upsert(glue, recs)[n] == glue[n]
    decreases |recs|
  {
    if recs != [] {
      assert recs[0].owner != n;
      forall k | 0 <= k < |recs[1..]| ensures recs[1..][k].owner != n {
        assert recs[1..][k] == recs[k + 1];
      }
      UpsertUntouched(glue[recs[0].owner := recs[0].address], recs[1..], n);
    }
  }

  lemma {:induction false} UpsertLastWins(glue: map<string, string>, recs: seq<ARecord>, k: nat)
    requires k < |recs|
    requires forall j :: k < j < |recs| ==> recs[j].owner != recs[k].owner
    ensures recs[k].owner in Upsert(glue, recs)
    ensures Upsert(glue, recs)[recs[k].owner] == recs[k].address
    decreases |recs|
  {
    var g := glue[recs[0].owner := recs[0].address];
    if k == 0 {
      forall j | 0 <= j < |recs[1..]| ensures recs[1..][j].owner != recs[0].owner {
        assert recs[1..][j] == recs[j + 1];
      }
      UpsertUntouched(g, recs[1..], recs[0].owner);
    } else {
      forall j | k - 1 < j < |recs[1..]| ensures recs[1..][j].owner != recs[1..][k - 1].owner {
        assert recs[1..][j] == recs[j + 1];
      }
      UpsertLastWins(g, recs[1..], k - 1);
    }
  }

  /**
   * What `update_cache` does to the glue map: the names it holds afterwards
   * are the old ones plus the owners of A records; an owner maps to the
   * address of its last A record; every other entry is unchanged.
   */
  lemma GlueAfterMerge(glue: map<string, string>, sets: seq<RRset>, n: string)
    ensures var m, recs := MergeGlue(glue, sets), ARecords(sets);
      && (n in m <==> n in glue || exists k :: 0 <= k < |recs| && recs[k].owner == n)
      && (forall k :: 0 <= k < |recs| && recs[k].owner == n && (forall j :: k < j < |recs| ==> recs[j].owner != n)
            ==> n in m && m[n] == recs[k].address)
      && ((forall k :: 0 <= k < |recs| ==> recs[k].owner != n) && n in glue ==> n in m && m[n] == glue[n])
  {
    var recs := ARecords(sets);
    MergeGlueIsUpsert(glue, sets);
    UpsertKeys(glue, recs, n);
    forall k | 0 <= k < |recs| && recs[k].owner == n && (forall j :: k < j < |recs| ==> recs[j].owner != n)
      ensures n in Upsert(glue, recs) && Upsert(glue, recs)[n] == recs[k].address
    {
      UpsertLastWins(glue, recs, k);
    }
    if (forall k :: 0 <= k < |recs| ==> recs[k].owner != n) && n in glue {
      UpsertUntouched(glue, recs, n);
    }
  }

  /** Only A records are taken: a record is listed exactly when some RRset holds it with type A. */
  lemma {:induction false} ARecordsAreTypeA(sets: seq<RRset>, r: ARecord)
    ensures r in ARecords(sets) <==>
      exists i, j :: 0 <= i < |sets| && 0 <= j < |sets[i].rdatas|
        && sets[i].name == r.owner && sets[i].rdatas[j] == Rdata(TYPE_A, r.address)
  {
    if sets != [] {
      ARecordsAreTypeA(sets[1..], r);
      RdataAIsTypeA(sets[0].name, sets[0].rdatas, r);
      if r in ARecords(sets[1..]) {
        var i, j :| 0 <= i < |sets[1..]| && 0 <= j < |sets[1..][i].rdatas|
          && sets[1..][i].name == r.owner && sets[1..][i].rdatas[j] == Rdata(TYPE_A, r.address);
        assert sets[i + 1] == sets[1..][i];
      }
      if exists i, j :: 0 <= i < |sets| && 0 <= j < |sets[i].rdatas| && sets[i].name == r.owner && sets[i].rdatas[j] == Rdata(TYPE_A, r.address) {
        var i, j :| 0 <= i < |sets| && 0 <= j < |sets[i].rdatas|
          && sets[i].name == r.owner && sets[i].rdatas[j] == Rdata(TYPE_A, r.address);
        if i > 0 { assert sets[1..][i - 1] == sets[i]; }
      }
    }
  }

  lemma {:induction false} RdataAIsTypeA(owner: string, rds: seq<Rdata>, r: ARecord)
    ensures r in RdataA(owner, rds) <==>
      owner == r.owner && exists j :: 0 <= j < |rds| && rds[j] == Rdata(TYPE_A, r.address)
  {
    if rds != [] {
      RdataAIsTypeA(owner, rds[1..], r);
      if exists j :: 0 <= j < |rds[1..]| && rds[1..][j] == Rdata(TYPE_A, r.address) {
        var j :| 0 <= j < |rds[1..]| && rds[1..][j] == Rdata(TYPE_A, r.address);
        assert rds[j + 1] == rds[1..][j];
      }
      if exists j :: 0 <= j < |rds| && rds[j] == Rdata(TYPE_A, r.address) {
        var j :| 0 <= j < |rds| && rds[j] == Rdata(TYPE_A, r.address);
        if j > 0 { assert rds[1..][j - 1] == rds[j]; }
      }
    }
  }
}
