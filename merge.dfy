/**
 * The merge tool: fold several sample runs, each a ledger (records file and
 * matches file) plus a directory of profile files, into one destination
 * ledger. Records are re-added to the destination (which renumbers them and
 * drops known identities), profile files are copied across, and each run's
 * matches are re-submitted shifted by the destination's counter as it stood
 * when the run began.
 *
 * `Merged` is the merge as a function on values; `Merge` is the procedure,
 * proved to leave exactly that state and those counters.
 */
module Merge {
  import Ledger

  /** One run to merge: its records file, its matches file, and the uids with a profile file in its directory. */
  datatype Run = Run(rows: seq<Ledger.Record>, edgeRows: seq<(nat, nat)>, files: set<nat>)

  /**
   * The merge's running state: the destination ledger, dup_count,
   * missing_count, recount, and the profile files copied so far as
   * (run index, file uid) in copy order.
   */
  datatype Progress = Progress(dst: Ledger.State, dup: nat, missing: nat, recount: nat, copies: seq<(nat, nat)>)

  function Start(dst: Ledger.State): Progress
  {
    Progress(dst, 0, 0, 0, [])
  }

  /** The record as add_record sees it: every column but the uid. */
  function AsCandidate(r: Ledger.Record): Ledger.Candidate
  {
    Ledger.Candidate(r.network, r.networkId, r.url, r.searchTerm)
  }

  /** One record of run k: count it missing without a file; else add it, count a duplicate if its uid does not exceed recount, and copy its file. */
  function RecordStep(p: Progress, k: nat, files: set<nat>, r: Ledger.Record): Progress
  {
    if r.uid !in files then p.(missing := p.missing + 1)
    else
      var (s1, tmp) := Ledger.AddedRecord(p.dst, AsCandidate(r));
      p.(dst := s1, dup := if tmp <= p.recount then p.dup + 1 else p.dup, recount := tmp, copies := p.copies + [(k, r.uid)])
  }

  function RecordsStep(p: Progress, k: nat, files: set<nat>, rows: seq<Ledger.Record>): Progress
  {
    if rows == [] then p else RecordStep(RecordsStep(p, k, files, rows[..|rows| - 1]), k, files, rows[|rows| - 1])
  }

  /** Every edge (f, t) moved to (iterum + f, iterum + t). */
  function Shift(iterum: nat, edges: seq<(nat, nat)>): (r: seq<(nat, nat)>)
    ensures |r| == |edges|
  {
    if edges == [] then []
    else Shift(iterum, edges[..|edges| - 1]) + [(iterum + edges[|edges| - 1].0, iterum + edges[|edges| - 1].1)]
  }

  /** add_match for each pair in order. */
  function Submit(s: Ledger.State, pairs: seq<(nat, nat)>): Ledger.State
  {
    if pairs == [] then s else Ledger.AddedMatch(Submit(s, pairs[..|pairs| - 1]), pairs[|pairs| - 1].0, pairs[|pairs| - 1].1)
  }

  /** The edges run k submits, in the order its matches dictionary is walked. */
  function SourceEdges(run: Run): seq<(nat, nat)>
  {
    Ledger.LoadProperties(run.rows, run.edgeRows);
    var g := Ledger.Load(run.rows, run.edgeRows).graph;
    Ledger.Edges(g.keys, g.adj)
  }

  /** Run k: its records, then its edges shifted by the destination counter from before its records. */
  function RunStep(p: Progress, k: nat, run: Run): Progress
  {
    var q := RecordsStep(p, k, run.files, run.rows);
    q.(dst := Submit(q.dst, Shift(p.dst.curuid, SourceEdges(run))))
  }

  function Merged(p: Progress, runs: seq<Run>): Progress
  {
    if runs == [] then p else RunStep(Merged(p, runs[..|runs| - 1]), |runs| - 1, runs[|runs| - 1])
  }

  lemma {:induction false} ShiftAppend(iterum: nat, a: seq<(nat, nat)>, b: seq<(nat, nat)>)
    ensures Shift(iterum, a + b) == Shift(iterum, a) + Shift(iterum, b)
    decreases |b|
  {
    if b == [] {
      assert a + b == a;
    } else {
      assert (a + b)[..|a + b| - 1] == a + b[..|b| - 1];
      ShiftAppend(iterum, a, b[..|b| - 1]);
    }
  }

  lemma {:induction false} SubmitAppend(s: Ledger.State, a: seq<(nat, nat)>, b: seq<(nat, nat)>)
    ensures Submit(s, a + b) == Submit(Submit(s, a), b)
    decreases |b|
  {
    if b == [] {
      assert a + b == a;
    } else {
      assert (a + b)[..|a + b| - 1] == a + b[..|b| - 1];
      SubmitAppend(s, a, b[..|b| - 1]);
    }
  }

  /** The pairs (from, t) for t in tos. */
  function Targets(from: nat, tos: seq<nat>): (r: seq<(nat, nat)>)
    ensures |r| == |tos| && forall t :: 0 <= t < |tos| ==> r[t] == (from, tos[t])
  {
    seq(|tos|, t requires 0 <= t < |tos| => (from, tos[t]))
  }

  /** One more target submitted: the next pair moved by the offset goes through add_match. */
  lemma TargetsStep(s: Ledger.State, iterum: nat, fromuid: nat, tos: seq<nat>, t: nat, v: Ledger.State)
    requires t < |tos| && v == Submit(s, Shift(iterum, Targets(fromuid, tos[..t])))
    ensures Ledger.AddedMatch(v, iterum + fromuid, iterum + tos[t]) == Submit(s, Shift(iterum, Targets(fromuid, tos[..t + 1])))
  {
    var a := Targets(fromuid, tos[..t]);
    TargetsNext(fromuid, tos, t);
    ShiftAppend(iterum, a, [(fromuid, tos[t])]);
    var pair := (iterum + fromuid, iterum + tos[t]);
    assert Shift(iterum, [(fromuid, tos[t])]) == [pair];
    SubmitAppend(s, Shift(iterum, a), [pair]);
  }

  lemma TargetsNext(from: nat, tos: seq<nat>, t: nat)
    requires t < |tos|
    ensures Targets(from, tos[..t + 1]) == Targets(from, tos[..t]) + [(from, tos[t])]
  {
  }

  /** One more key walked: its whole list, moved by the offset, is submitted after the earlier keys'. */
  lemma EdgesStep(s: Ledger.State, iterum: nat, keys: seq<nat>, adj: map<nat, seq<nat>>, j: nat)
    requires j < |keys| && forall k :: k in keys ==> k in adj
    ensures Submit(s, Shift(iterum, Ledger.Edges(keys[..j + 1], adj)))
      == Submit(Submit(s, Shift(iterum, Ledger.Edges(keys[..j], adj))), Shift(iterum, Targets(keys[j], adj[keys[j]])))
  {
    assert keys[..j + 1][..j] == keys[..j];
    var fromuid := keys[j];
    assert Ledger.Edges(keys[..j + 1], adj) == Ledger.Edges(keys[..j], adj) + Targets(fromuid, adj[fromuid]);
    ShiftAppend(iterum, Ledger.Edges(keys[..j], adj), Targets(fromuid, adj[fromuid]));
    SubmitAppend(s, Shift(iterum, Ledger.Edges(keys[..j], adj)), Shift(iterum, Targets(fromuid, adj[fromuid])));
  }

  /** The records loop of one run. */
  method AddRecords(dst: Ledger.ProfileStore, records: seq<Ledger.Record>, k: nat, files: set<nat>,
                    dup0: nat, missing0: nat, recount0: nat, copies0: seq<(nat, nat)>)
      returns (dupCount: nat, missingCount: nat, recount: nat, copies: seq<(nat, nat)>)
    requires dst.Valid()
    modifies dst`records, dst`curuid
    ensures dst.Valid()
    ensures Progress(dst.Value(), dupCount, missingCount, recount, copies)
      == RecordsStep(Progress(old(dst.Value()), dup0, missing0, recount0, copies0), k, files, records)
  {
    ghost var before := Progress(dst.Value(), dup0, missing0, recount0, copies0);
    dupCount, missingCount, recount, copies := dup0, missing0, recount0, copies0;
    for i := 0 to |records|
      invariant dst.Valid()
      invariant Progress(dst.Value(), dupCount, missingCount, recount, copies) == RecordsStep(before, k, files, records[..i])
    {
      assert records[..i + 1][..i] == records[..i];
      var record := records[i];
      var uid := record.uid;
      if uid !in files {
        missingCount := missingCount + 1;
      } else {
        var tmp := dst.AddRecord(AsCandidate(record));
        if tmp <= recount {
          dupCount := dupCount + 1;
        }
        recount := tmp;
        copies := copies + [(k, uid)];
      }
    }
    assert records[..|records|] == records;
  }

  /** One add_match of the inner edge loop: the t-th target of `fromuid`, both moved by the offset. */
  method SubmitTarget(dst: Ledger.ProfileStore, ghost s: Ledger.State, iterum: nat, fromuid: nat, tos: seq<nat>, t: nat)
    requires dst.Valid() && t < |tos|
    requires dst.Value() == Submit(s, Shift(iterum, Targets(fromuid, tos[..t])))
    modifies dst`keys, dst`matches
    ensures dst.Valid()
    ensures dst.Value() == Submit(s, Shift(iterum, Targets(fromuid, tos[..t + 1])))
  {
    ghost var v := dst.Value();
    dst.AddMatch(iterum + fromuid, iterum + tos[t]);
    TargetsStep(s, iterum, fromuid, tos, t, v);
  }

  /** The inner edge loop: add_match(iterum + from, iterum + to) for each to in the list. */
  method SubmitTargets(dst: Ledger.ProfileStore, iterum: nat, fromuid: nat, tos: seq<nat>)
    requires dst.Valid()
    modifies dst`keys, dst`matches
    ensures dst.Valid()
    ensures dst.Value() == Submit(old(dst.Value()), Shift(iterum, Targets(fromuid, tos)))
  {
    ghost var s := dst.Value();
    for t := 0 to |tos|
      invariant dst.Valid()
      invariant dst.Value() == Submit(s, Shift(iterum, Targets(fromuid, tos[..t])))
    {
      SubmitTarget(dst, s, iterum, fromuid, tos, t);
    }
    assert tos[..|tos|] == tos;
  }

  /** The outer edge loop over a run's matches dictionary, in key order. */
  method SubmitEdges(dst: Ledger.ProfileStore, iterum: nat, keys: seq<nat>, adj: map<nat, seq<nat>>)
    requires dst.Valid() && forall k :: k in keys ==> k in adj
    modifies dst`keys, dst`matches
    ensures dst.Valid()
    ensures dst.Value() == Submit(old(dst.Value()), Shift(iterum, Ledger.Edges(keys, adj)))
  {
    for j := 0 to |keys|
      invariant dst.Valid()
      invariant dst.Value() == Submit(old(dst.Value()), Shift(iterum, Ledger.Edges(keys[..j], adj)))
    {
      EdgesStep(old(dst.Value()), iterum, keys, adj, j);
      SubmitTargets(dst, iterum, keys[j], adj[keys[j]]);
    }
    assert keys[..|keys|] == keys;
  }

  /**
   * merge: open the destination ledger, then for each run open its ledger,
   * add its records with their files and re-submit its shifted matches.
   * Returns the destination with dup_count and missing_count, and the files
   * copied.
   */
  method Merge(dstRows: seq<Ledger.Record>, dstEdges: seq<(nat, nat)>, runs: seq<Run>)
      returns (dst: Ledger.ProfileStore, dupCount: nat, missingCount: nat, copies: seq<(nat, nat)>)
    ensures dst.Valid()
    ensures var p := Merged(Start(Ledger.Load(dstRows, dstEdges)), runs);
      dst.Value() == p.dst && dupCount == p.dup && missingCount == p.missing && copies == p.copies
  {
    dst := new Ledger.ProfileStore(dstRows, dstEdges);
    ghost var start := Start(dst.Value());
    dupCount, missingCount, copies := 0, 0, [];
    var recount := 0;
    for k := 0 to |runs|
      invariant dst.Valid()
      invariant Progress(dst.Value(), dupCount, missingCount, recount, copies) == Merged(start, runs[..k])
    {
      assert runs[..k + 1][..k] == runs[..k];
      var run := runs[k];
      var ps := new Ledger.ProfileStore(run.rows, run.edgeRows);
      Ledger.LoadProperties(run.rows, run.edgeRows);
      var iterum := dst.curuid;
      dupCount, missingCount, recount, copies := AddRecords(dst, ps.records, k, run.files, dupCount, missingCount, recount, copies);
      SubmitEdges(dst, iterum, ps.keys, ps.matches);
    }
    assert runs[..|runs|] == runs;
  }

  // ---------------------------------------------------------------------------
  // Properties of the merge
  // ---------------------------------------------------------------------------

  /** The rows of a run that have a profile file, in order. */
  function Present(files: set<nat>, rows: seq<Ledger.Record>): (r: seq<Ledger.Record>)
    ensures |r| <= |rows|
    ensures forall x :: x in r <==> x in rows && x.uid in files
  {
    if rows == [] then []
    else Present(files, rows[..|rows| - 1]) + (if rows[|rows| - 1].uid in files then [rows[|rows| - 1]] else [])
  }

  /** The copy list entries for the given rows of run k: (k, source uid). */
  function Tagged(k: nat, rows: seq<Ledger.Record>): (r: seq<(nat, nat)>)
    ensures |r| == |rows| && forall i :: 0 <= i < |rows| ==> r[i] == (k, rows[i].uid)
  {
    seq(|rows|, i requires 0 <= i < |rows| => (k, rows[i].uid))
  }

  /**
   * A row without a profile file only bumps missing_count: the run ends
   * exactly as if those rows were absent, with missing_count raised by
   * their number.
   */
  lemma {:induction false} MissingSkipped(p: Progress, k: nat, files: set<nat>, rows: seq<Ledger.Record>)
    ensures RecordsStep(p, k, files, rows)
      == RecordsStep(p, k, files, Present(files, rows)).(missing := p.missing + |rows| - |Present(files, rows)|)
  {
    if rows != [] {
      var init, last := rows[..|rows| - 1], rows[|rows| - 1];
      MissingSkipped(p, k, files, init);
      if last.uid in files {
        var pres := Present(files, init) + [last];
        assert pres[..|pres| - 1] == Present(files, init);
      } else {
        assert Present(files, rows) == Present(files, init);
      }
    }
  }

  /** The copies made by a run are its rows with a file, in order, each under its source uid. */
  lemma {:induction false} CopiedUnderSourceUid(p: Progress, k: nat, files: set<nat>, rows: seq<Ledger.Record>)
    ensures RecordsStep(p, k, files, rows).copies == p.copies + Tagged(k, Present(files, rows))
  {
    if rows != [] {
      var init, last := rows[..|rows| - 1], rows[|rows| - 1];
      CopiedUnderSourceUid(p, k, files, init);
      if last.uid in files {
        assert Tagged(k, Present(files, rows)) == Tagged(k, Present(files, init)) + [(k, last.uid)];
      } else {
        assert Present(files, rows) == Present(files, init);
      }
    }
  }

  /** What the merge keeps: a well-numbered destination, a recount no larger than its counter. */
  ghost predicate Sound(p: Progress)
  {
    Ledger.WellNumbered(p.dst) && p.recount <= p.dst.curuid
  }

  /**
   * One record step keeps the destination sound and leaves its graph alone;
   * a record with a file is counted as a duplicate only when its identity was
   * already on record, and a new identity always takes the next uid.
   */
  lemma RecordStepSound(p: Progress, k: nat, files: set<nat>, r: Ledger.Record)
    requires Sound(p)
    ensures var q := RecordStep(p, k, files, r);
      Sound(q) && q.dst.graph == p.dst.graph
    ensures var q := RecordStep(p, k, files, r);
      q.dup == p.dup + 1 ==> Ledger.FindMatch(p.dst.records, AsCandidate(r)).Some?
    ensures var q := RecordStep(p, k, files, r);
      r.uid in files && Ledger.FindMatch(p.dst.records, AsCandidate(r)).None? ==>
        q.dup == p.dup && q.dst.curuid == p.dst.curuid + 1
        && q.dst.records == p.dst.records + [Ledger.WithUid(AsCandidate(r), p.dst.curuid + 1)]
  {
    if r.uid in files {
      Ledger.AddRecordWellNumbered(p.dst, AsCandidate(r));
    }
  }

  /** A whole run's records keep the destination sound and its graph unchanged. */
  lemma {:induction false} RecordsStepSound(p: Progress, k: nat, files: set<nat>, rows: seq<Ledger.Record>)
    requires Sound(p)
    ensures Sound(RecordsStep(p, k, files, rows))
    ensures RecordsStep(p, k, files, rows).dst.graph == p.dst.graph
  {
    if rows != [] {
      RecordsStepSound(p, k, files, rows[..|rows| - 1]);
      RecordStepSound(RecordsStep(p, k, files, rows[..|rows| - 1]), k, files, rows[|rows| - 1]);
    }
  }

  /** Submitting matches never changes the records or the counter. */
  lemma {:induction false} SubmitFrame(s: Ledger.State, pairs: seq<(nat, nat)>)
    ensures Submit(s, pairs).records == s.records && Submit(s, pairs).curuid == s.curuid
  {
    if pairs != [] {
      SubmitFrame(s, pairs[..|pairs| - 1]);
    }
  }

  /**
   * Submitting pairs adds exactly the pairs between two different uids that
   * are both on record; every other pair is dropped by add_match.
   */
  lemma {:induction false} SubmitEdgesExactly(s: Ledger.State, pairs: seq<(nat, nat)>)
    requires Ledger.WellNumbered(s) && Ledger.GraphValid(s.graph)
    ensures Ledger.GraphValid(Submit(s, pairs).graph)
    ensures forall x: nat, y: nat :: Ledger.HasEdge(Submit(s, pairs).graph, x, y) <==>
      Ledger.HasEdge(s.graph, x, y) || ((x, y) in pairs && x != y && Ledger.OnRecord(s.records, x) && Ledger.OnRecord(s.records, y))
  {
    if pairs != [] {
      var init := pairs[..|pairs| - 1];
      var (a, b) := pairs[|pairs| - 1];
      SubmitEdgesExactly(s, init);
      SubmitFrame(s, init);
      var mid := Submit(s, init);
      assert pairs == init + [(a, b)];
      if a != b && Ledger.OnRecord(s.records, a) && Ledger.OnRecord(s.records, b) {
        Ledger.AddMatchKnown(mid, a, b);
      } else if a == b {
        Ledger.AddMatchSelf(mid, a);
      } else {
        Ledger.AddMatchUnknown(mid, a, b);
      }
    }
  }

  /** The shifted list holds exactly the pairs (iterum + f, iterum + t) for (f, t) in the original. */
  lemma {:induction false} ShiftExactly(iterum: nat, edges: seq<(nat, nat)>, x: nat, y: nat)
    ensures (x, y) in Shift(iterum, edges) <==> iterum <= x && iterum <= y && (x - iterum, y - iterum) in edges
  {
    if edges != [] {
      var init := edges[..|edges| - 1];
      ShiftExactly(iterum, init, x, y);
      assert edges == init + [edges[|edges| - 1]];
    }
  }

  /** SubmitEdgesExactly at one pair of uids. */
  lemma SubmitEdgeAt(s: Ledger.State, pairs: seq<(nat, nat)>, x: nat, y: nat)
    requires Ledger.WellNumbered(s) && Ledger.GraphValid(s.graph)
    ensures Ledger.GraphValid(Submit(s, pairs).graph)
    ensures Ledger.HasEdge(Submit(s, pairs).graph, x, y) <==>
      Ledger.HasEdge(s.graph, x, y) || ((x, y) in pairs && x != y && Ledger.OnRecord(s.records, x) && Ledger.OnRecord(s.records, y))
  {
    SubmitEdgesExactly(s, pairs);
  }

  /** The dictionary walk visits exactly the pairs (f, t) with t in f's list. */
  lemma {:induction false} EdgesExactly(keys: seq<nat>, adj: map<nat, seq<nat>>, x: nat, y: nat)
    requires forall k :: k in keys ==> k in adj
    ensures (x, y) in Ledger.Edges(keys, adj) <==> x in keys && y in adj[x]
  {
    if keys != [] {
      var init, last := keys[..|keys| - 1], keys[|keys| - 1];
      EdgesExactly(init, adj, x, y);
      assert keys == init + [last];
      assert Ledger.Edges(keys, adj) == Ledger.Edges(init, adj) + Targets(last, adj[last]);
      if x == last && y in adj[x] {
        var j :| 0 <= j < |adj[x]| && adj[x][j] == y;
        assert Targets(last, adj[last])[j] == (x, y);
      }
    }
  }

  /** A run submits each row of its matches file once loaded, and nothing else. */
  lemma SourceEdgesExactly(run: Run, f: nat, t: nat)
    ensures (f, t) in SourceEdges(run) <==> (f, t) in run.edgeRows
  {
    Ledger.LoadProperties(run.rows, run.edgeRows);
    var g := Ledger.Load(run.rows, run.edgeRows).graph;
    EdgesExactly(g.keys, g.adj, f, t);
    Ledger.ReplayEdgesExactly(run.edgeRows, f, t);
  }

  /**
   * A run's edges in the destination: an edge is there afterwards exactly
   * when it was there before, or it is a row (f, t) of the run's matches file
   * moved by the offset (the destination counter before the run's records),
   * between two different uids the destination has on record once the run's
   * records are in.
   */
  lemma RunEdges(p: Progress, k: nat, run: Run, x: nat, y: nat)
    requires Sound(p) && Ledger.GraphValid(p.dst.graph)
    ensures var q := RecordsStep(p, k, run.files, run.rows);
      var iterum := p.dst.curuid;
      Ledger.HasEdge(RunStep(p, k, run).dst.graph, x, y) <==>
        Ledger.HasEdge(p.dst.graph, x, y)
        || (iterum <= x && iterum <= y && (x - iterum, y - iterum) in run.edgeRows
            && x != y && Ledger.OnRecord(q.dst.records, x) && Ledger.OnRecord(q.dst.records, y))
    ensures Ledger.GraphValid(RunStep(p, k, run).dst.graph)
  {
    var q := RecordsStep(p, k, run.files, run.rows);
    var iterum := p.dst.curuid;
    RecordsStepSound(p, k, run.files, run.rows);
    SubmitEdgeAt(q.dst, Shift(iterum, SourceEdges(run)), x, y);
    ShiftExactly(iterum, SourceEdges(run), x, y);
    if iterum <= x && iterum <= y {
      SourceEdgesExactly(run, x - iterum, y - iterum);
    }
  }

  /** Every run's records are sound to merge, and its graph stays well formed. */
  lemma {:induction false} MergedSound(p: Progress, runs: seq<Run>)
    requires Sound(p) && Ledger.GraphValid(p.dst.graph)
    ensures Sound(Merged(p, runs)) && Ledger.GraphValid(Merged(p, runs).dst.graph)
  {
    if runs != [] {
      var m := Merged(p, runs[..|runs| - 1]);
      var last := runs[|runs| - 1];
      MergedSound(p, runs[..|runs| - 1]);
      RecordsStepSound(m, |runs| - 1, last.files, last.rows);
      var q := RecordsStep(m, |runs| - 1, last.files, last.rows);
      SubmitFrame(q.dst, Shift(m.dst.curuid, SourceEdges(last)));
      RunEdges(m, |runs| - 1, last, 0, 0);
    }
  }

  /** The identity get_match compares: (network, network_id). */
  function Ident(r: Ledger.Record): (string, string)
  {
    (r.network, r.networkId)
  }

  /** The identities of the given records. */
  function Idents(rows: seq<Ledger.Record>): set<(string, string)>
  {
    if rows == [] then {} else Idents(rows[..|rows| - 1]) + {Ident(rows[|rows| - 1])}
  }

  /** No two of the rows share an identity. */
  predicate Distinct(rows: seq<Ledger.Record>)
  {
    rows == [] || (Distinct(rows[..|rows| - 1]) && Ident(rows[|rows| - 1]) !in Idents(rows[..|rows| - 1]))
  }

  /** The rows bring only new identities: none twice, none already in `records`. */
  predicate Fresh(records: seq<Ledger.Record>, rows: seq<Ledger.Record>)
  {
    Distinct(rows) && Idents(records) !! Idents(rows)
  }

  /** A record's identity is among the identities of any list holding it. */
  lemma {:induction false} IdentsHas(rows: seq<Ledger.Record>, i: nat)
    requires i < |rows|
    ensures Ident(rows[i]) in Idents(rows)
  {
    if i < |rows| - 1 {
      IdentsHas(rows[..|rows| - 1], i);
    }
  }

  lemma {:induction false} IdentsAppend(a: seq<Ledger.Record>, b: seq<Ledger.Record>)
    ensures Idents(a + b) == Idents(a) + Idents(b)
    decreases |b|
  {
    if b == [] {
      assert a + b == a;
    } else {
      assert (a + b)[..|a + b| - 1] == a + b[..|b| - 1];
      IdentsAppend(a, b[..|b| - 1]);
    }
  }

  lemma {:induction false} DistinctAppend(a: seq<Ledger.Record>, b: seq<Ledger.Record>)
    ensures Distinct(a + b) <==> Distinct(a) && Distinct(b) && Idents(a) !! Idents(b)
    decreases |b|
  {
    if b == [] {
      assert a + b == a;
    } else {
      var init := b[..|b| - 1];
      assert (a + b)[..|a + b| - 1] == a + init;
      DistinctAppend(a, init);
      IdentsAppend(a, init);
    }
  }

  /** The destination records new rows become when numbered from c + 1 on. */
  function Numbered(c: nat, rows: seq<Ledger.Record>): (r: seq<Ledger.Record>)
    ensures |r| == |rows|
  {
    if rows == [] then []
    else Numbered(c, rows[..|rows| - 1]) + [Ledger.WithUid(AsCandidate(rows[|rows| - 1]), c + |rows|)]
  }

  /** The i-th new record carries the i-th row's identity and uid c + 1 + i. */
  lemma {:induction false} NumberedAt(c: nat, rows: seq<Ledger.Record>, i: nat)
    requires i < |rows|
    ensures Numbered(c, rows)[i] == Ledger.WithUid(AsCandidate(rows[i]), c + 1 + i)
  {
    if i < |rows| - 1 {
      NumberedAt(c, rows[..|rows| - 1], i);
    }
  }

  /** Numbering rows keeps their identities. */
  lemma {:induction false} NumberedIdents(c: nat, rows: seq<Ledger.Record>)
    ensures Idents(Numbered(c, rows)) == Idents(rows)
  {
    if rows != [] {
      var init := rows[..|rows| - 1];
      NumberedIdents(c, init);
      var n := Numbered(c, rows);
      assert n[..|n| - 1] == Numbered(c, init);
    }
  }

  /** Every row of every run has its profile file. */
  predicate AllFiled(runs: seq<Run>)
  {
    forall k :: 0 <= k < |runs| ==> forall i :: 0 <= i < |runs[k].rows| ==> runs[k].rows[i].uid in runs[k].files
  }

  /** The records of all runs, run after run. */
  function AllRows(runs: seq<Run>): seq<Ledger.Record>
  {
    if runs == [] then [] else AllRows(runs[..|runs| - 1]) + runs[|runs| - 1].rows
  }

  lemma {:induction false} AllRowsAppend(a: seq<Run>, b: seq<Run>)
    ensures AllRows(a + b) == AllRows(a) + AllRows(b)
    decreases |b|
  {
    if b == [] {
      assert a + b == a;
    } else {
      assert (a + b)[..|a + b| - 1] == a + b[..|b| - 1];
      AllRowsAppend(a, b[..|b| - 1]);
    }
  }

  /** Freshness of a + b splits into freshness of a, and of b against the records a adds. */
  lemma FreshSplit(records: seq<Ledger.Record>, c: nat, a: seq<Ledger.Record>, b: seq<Ledger.Record>)
    requires Fresh(records, a + b)
    ensures Fresh(records, a)
    ensures Fresh(records + Numbered(c, a), b)
  {
    DistinctAppend(a, b);
    IdentsAppend(a, b);
    IdentsAppend(records, Numbered(c, a));
    NumberedIdents(c, a);
  }

  /** A row fresh against the records is not found by get_match. */
  lemma FreshNotFound(records: seq<Ledger.Record>, r: Ledger.Record)
    requires Fresh(records, [r])
    ensures Ledger.FindMatch(records, AsCandidate(r)).None?
  {
    assert Idents([r]) == {Ident(r)};
    forall i | 0 <= i < |records|
      ensures !Ledger.SameIdentity(records[i], AsCandidate(r))
    {
      IdentsHas(records, i);
    }
  }

  lemma NumberedSnoc(c: nat, init: seq<Ledger.Record>, last: Ledger.Record)
    ensures Numbered(c, init + [last]) == Numbered(c, init) + [Ledger.WithUid(AsCandidate(last), c + |init| + 1)]
  {
    assert (init + [last])[..|init|] == init;
  }

  /** NumberedSnoc with the whole list and the new uid named, for callers that hold them under other terms. */
  lemma NumberedNext(records: seq<Ledger.Record>, c: nat, init: seq<Ledger.Record>, last: Ledger.Record, u: nat, rows: seq<Ledger.Record>)
    requires rows == init + [last] && u == c + |init| + 1
    ensures records + Numbered(c, init) + [Ledger.WithUid(AsCandidate(last), u)] == records + Numbered(c, rows)
  {
    NumberedSnoc(c, init, last);
  }

  /** A new identity with a file takes the next uid, is appended, and is not counted as a duplicate. */
  lemma FreshStep(p: Progress, k: nat, files: set<nat>, r: Ledger.Record)
    requires p.recount <= p.dst.curuid && r.uid in files
    requires Ledger.FindMatch(p.dst.records, AsCandidate(r)).None?
    ensures var q := RecordStep(p, k, files, r);
      && q.dst.records == p.dst.records + [Ledger.WithUid(AsCandidate(r), p.dst.curuid + 1)]
      && q.dst.curuid == p.dst.curuid + 1 && q.recount == q.dst.curuid
      && q.dup == p.dup && q.missing == p.missing
  {
  }

  /**
   * A run whose rows all have files and bring only new identities adds them
   * all, in order, numbered on from the counter; nothing counts as a
   * duplicate or as missing.
   */
  lemma {:induction false} FreshRecords(p: Progress, k: nat, files: set<nat>, rows: seq<Ledger.Record>)
    requires p.recount <= p.dst.curuid && Fresh(p.dst.records, rows)
    requires forall i :: 0 <= i < |rows| ==> rows[i].uid in files
    ensures AppendedFresh(p, RecordsStep(p, k, files, rows), rows)
  {
    if rows != [] {
      var init, last := rows[..|rows| - 1], rows[|rows| - 1];
      assert init + [last] == rows;
      FreshSplit(p.dst.records, p.dst.curuid, init, [last]);
      assert forall i :: 0 <= i < |init| ==> init[i].uid in files;
      FreshRecords(p, k, files, init);
      var m := RecordsStep(p, k, files, init);
      assert RecordsStep(p, k, files, rows) == RecordStep(m, k, files, last);
      FreshNotFound(m.dst.records, last);
      FreshStep(m, k, files, last);
      AppendedNext(p, m, RecordStep(m, k, files, last), init, last, rows);
    }
  }

  /**
   * q is p with the rows appended, numbered on from p's counter, and neither
   * the duplicate nor the missing counter moved.
   */
  predicate AppendedFresh(p: Progress, q: Progress, rows: seq<Ledger.Record>)
  {
    && q.dst.records == p.dst.records + Numbered(p.dst.curuid, rows)
    && q.dst.curuid == p.dst.curuid + |rows| && q.recount <= q.dst.curuid
    && q.dup == p.dup && q.missing == p.missing
  }

  lemma AppendedNext(p: Progress, m: Progress, q: Progress, init: seq<Ledger.Record>, last: Ledger.Record, rows: seq<Ledger.Record>)
    requires rows == init + [last] && AppendedFresh(p, m, init)
    requires q.dst.records == m.dst.records + [Ledger.WithUid(AsCandidate(last), m.dst.curuid + 1)]
    requires q.dst.curuid == m.dst.curuid + 1 && q.recount == q.dst.curuid
    requires q.dup == m.dup && q.missing == m.missing
    ensures AppendedFresh(p, q, rows)
  {
    NumberedNext(p.dst.records, p.dst.curuid, init, last, m.dst.curuid + 1, rows);
  }

  /**
   * Merging runs whose rows all have files and whose identities are all new
   * appends every row, numbered on from the destination counter: the final
   * counter is the initial one plus the number of rows, and neither counter
   * moves.
   */
  lemma {:induction false} MergedFresh(p: Progress, runs: seq<Run>)
    requires p.recount <= p.dst.curuid && AllFiled(runs) && Fresh(p.dst.records, AllRows(runs))
    ensures var q := Merged(p, runs);
      && q.dst.records == p.dst.records + Numbered(p.dst.curuid, AllRows(runs))
      && q.dst.curuid == p.dst.curuid + |AllRows(runs)| && q.recount <= q.dst.curuid
      && q.dup == p.dup && q.missing == p.missing
  {
    if runs != [] {
      var init, last := runs[..|runs| - 1], runs[|runs| - 1];
      var c := p.dst.curuid;
      assert AllRows(runs) == AllRows(init) + last.rows;
      FreshSplit(p.dst.records, c, AllRows(init), last.rows);
      AllFiledPrefix(runs, |runs| - 1);
      MergedFresh(p, init);
      var m := Merged(p, init);
      RunStepFresh(m, |runs| - 1, last);
      assert Merged(p, runs) == RunStep(m, |runs| - 1, last);
      NumberedAppend(p.dst.records, c, AllRows(init), m.dst.curuid, last.rows, AllRows(runs));
    }
  }

  /** A fresh run with all its files appends its rows, numbered on, and submitting its matches moves no counter. */
  lemma RunStepFresh(m: Progress, k: nat, run: Run)
    requires m.recount <= m.dst.curuid && Fresh(m.dst.records, run.rows)
    requires forall i :: 0 <= i < |run.rows| ==> run.rows[i].uid in run.files
    ensures var q := RunStep(m, k, run);
      && q.dst.records == m.dst.records + Numbered(m.dst.curuid, run.rows)
      && q.dst.curuid == m.dst.curuid + |run.rows| && q.recount <= q.dst.curuid
      && q.dup == m.dup && q.missing == m.missing
  {
    FreshRecords(m, k, run.files, run.rows);
    var q := RecordsStep(m, k, run.files, run.rows);
    SubmitFrame(q.dst, Shift(m.dst.curuid, SourceEdges(run)));
  }

  lemma AllFiledPrefix(runs: seq<Run>, k: nat)
    requires AllFiled(runs) && k <= |runs|
    ensures AllFiled(runs[..k]) && (k < |runs| ==> forall i :: 0 <= i < |runs[k].rows| ==> runs[k].rows[i].uid in runs[k].files)
  {
    forall j | 0 <= j < k ensures runs[..k][j] == runs[j] { }
  }

  lemma NumberedAppend(records: seq<Ledger.Record>, c: nat, a: seq<Ledger.Record>, d: nat, b: seq<Ledger.Record>, ab: seq<Ledger.Record>)
    requires d == c + |a| && ab == a + b
    ensures records + Numbered(c, a) + Numbered(d, b) == records + Numbered(c, ab)
  {
    NumberedConcat(c, a, b);
    var x, y := Numbered(c, a), Numbered(d, b);
    assert Numbered(c, ab) == x + y;
    assert records + x + y == records + (x + y);
  }

  lemma {:induction false} NumberedConcat(c: nat, a: seq<Ledger.Record>, b: seq<Ledger.Record>)
    ensures Numbered(c, a + b) == Numbered(c, a) + Numbered(c + |a|, b)
    decreases |b|
  {
    if b == [] {
      assert a + b == a;
    } else {
      var init, last := b[..|b| - 1], b[|b| - 1];
      assert a + b == (a + init) + [last];
      NumberedConcat(c, a, init);
      NumberedSnoc(c, a + init, last);
      NumberedSnoc(c + |a|, init, last);
    }
  }

  /**
   * With fresh runs, the offset run k's matches are moved by is the initial
   * destination counter plus the number of rows in the runs before it.
   */
  lemma FreshOffset(p: Progress, runs: seq<Run>, k: nat)
    requires p.recount <= p.dst.curuid && AllFiled(runs) && Fresh(p.dst.records, AllRows(runs))
    requires k <= |runs|
    ensures Merged(p, runs[..k]).dst.curuid == p.dst.curuid + |AllRows(runs[..k])|
  {
    AllRowsAppend(runs[..k], runs[k..]);
    assert runs[..k] + runs[k..] == runs;
    FreshSplit(p.dst.records, 0, AllRows(runs[..k]), AllRows(runs[k..]));
    AllFiledPrefix(runs, k);
    MergedFresh(p, runs[..k]);
  }

  /** After the first of two fresh runs of three rows, the counter is 3 and the progress is still sound. */
  lemma FirstRunDone(p: Progress, runs: seq<Run>)
    requires Sound(p) && Ledger.GraphValid(p.dst.graph) && p.dst.curuid == 0
    requires AllFiled(runs) && Fresh(p.dst.records, AllRows(runs))
    requires |runs| == 2 && |runs[0].rows| == 3
    ensures var m := Merged(p, runs[..1]);
      m.dst.curuid == 3 && Sound(m) && Ledger.GraphValid(m.dst.graph)
  {
    FreshOffset(p, runs, 1);
    assert AllRows(runs[..1]) == runs[0].rows by {
      assert runs[..1][..0] == [];
    }
    MergedSound(p, runs[..1]);
  }

  /** The second run's first two rows are filed under uids 4 and 5. */
  lemma SecondRunFiled(p: Progress, runs: seq<Run>)
    requires p.recount <= p.dst.curuid && p.dst.curuid == 0
    requires AllFiled(runs) && Fresh(p.dst.records, AllRows(runs))
    requires |runs| == 2 && |runs[0].rows| == 3 && |runs[1].rows| >= 2
    ensures var q := RecordsStep(Merged(p, runs[..1]), 1, runs[1].files, runs[1].rows);
      Ledger.OnRecord(q.dst.records, 4) && Ledger.OnRecord(q.dst.records, 5)
  {
    var m := Merged(p, runs[..1]);
    MergedFresh(p, runs);
    var q := RecordsStep(m, 1, runs[1].files, runs[1].rows);
    SubmitFrame(q.dst, Shift(m.dst.curuid, SourceEdges(runs[1])));
    var all := AllRows(runs);
    assert runs[..|runs| - 1] == runs[..1];
    assert |all| == |AllRows(runs[..1])| + |runs[1].rows|;
    assert |AllRows(runs[..1])| == 3 by {
      assert runs[..1][..0] == [];
    }
    var rs := p.dst.records + Numbered(0, all);
    NumberedAt(0, all, 3);
    NumberedAt(0, all, 4);
    assert rs[|p.dst.records| + 3].uid == 4 && rs[|p.dst.records| + 4].uid == 5;
  }

  /**
   * Merging two fresh runs into an empty destination, the first with three
   * rows and the second with at least two: the second run's match (1, 2)
   * lands in the destination as (4, 5).
   */
  lemma SecondRunShifted(p: Progress, runs: seq<Run>)
    requires Sound(p) && Ledger.GraphValid(p.dst.graph) && p.dst.curuid == 0
    requires AllFiled(runs) && Fresh(p.dst.records, AllRows(runs))
    requires |runs| == 2 && |runs[0].rows| == 3 && |runs[1].rows| >= 2
    requires (1, 2) in runs[1].edgeRows
    ensures Ledger.HasEdge(Merged(p, runs).dst.graph, 4, 5)
  {
    FirstRunDone(p, runs);
    SecondRunFiled(p, runs);
    assert runs[..|runs| - 1] == runs[..1];
    RunEdges(Merged(p, runs[..1]), 1, runs[1], 4, 5);
  }
}
