/**
 * The profile ledger (ProfileStore): an append-only registry that gives every
 * (network, network_id) pair a uid from an increasing counter, plus a directed
 * match graph kept as a dictionary of adjacency lists.
 *
 * The pure part of this module describes the ledger as a value (`State`) and
 * each operation as a function on it; the class `ProfileStore` is the object
 * the rest of the system mutates, and each of its methods is proved to move
 * its state exactly as the corresponding function says.
 */
module Ledger {
  import opened Wrappers

  /** One ledger row: the columns uid, network, network_id, url, search_term. */
  datatype Record = Record(uid: nat, network: string, networkId: string, url: string, searchTerm: string)

  /** A record handed to add_record: every column but the uid. */
  datatype Candidate = Candidate(network: string, networkId: string, url: string, searchTerm: string)

  /**
   * The `matches` dictionary: `adj` maps a from-uid to its list of to-uids,
   * `keys` lists the from-uids in insertion order (the order Python iterates).
   */
  datatype Graph = Graph(keys: seq<nat>, adj: map<nat, seq<nat>>)

  /** The whole in-memory ledger. */
  datatype State = State(records: seq<Record>, graph: Graph, curuid: nat)

  const EmptyGraph := Graph([], map[])

  function WithUid(c: Candidate, uid: nat): (r: Record)
    ensures r.uid == uid && r.network == c.network && r.networkId == c.networkId
  {
    Record(uid, c.network, c.networkId, c.url, c.searchTerm)
  }

  /** get_match's test: same network_id and same network. */
  predicate SameIdentity(r: Record, c: Candidate)
  {
    r.networkId == c.networkId && r.network == c.network
  }

  /** The index of the first record with the candidate's identity, if any. */
  function FindMatch(records: seq<Record>, c: Candidate): (r: Option<nat>)
    ensures r.None? <==> forall i :: 0 <= i < |records| ==> !SameIdentity(records[i], c)
    ensures r.Some? ==> r.value < |records| && SameIdentity(records[r.value], c)
    ensures r.Some? ==> forall i :: 0 <= i < r.value ==> !SameIdentity(records[i], c)
  {
    if records == [] then None
    else if SameIdentity(records[0], c) then Some(0)
    else match FindMatch(records[1..], c)
      case None => None
      case Some(i) => Some(i + 1)
  }

  /** Some record carries uid `u`. */
  predicate OnRecord(records: seq<Record>, u: nat)
  {
    exists i :: 0 <= i < |records| && records[i].uid == u
  }

  /** add_record: the new state and the uid returned. */
  function AddedRecord(s: State, c: Candidate): (State, nat)
  {
    match FindMatch(s.records, c)
    case Some(i) => (s, s.records[i].uid)
    case None => (s.(records := s.records + [WithUid(c, s.curuid + 1)], curuid := s.curuid + 1), s.curuid + 1)
  }

  /** Uids strictly increase along the records and none exceeds the counter. */
  ghost predicate WellNumbered(s: State)
  {
    && (forall i, j :: 0 <= i < j < |s.records| ==> s.records[i].uid < s.records[j].uid)
    && (forall i :: 0 <= i < |s.records| ==> s.records[i].uid <= s.curuid)
  }

  /** add_match's `known_ids`: how many records carry one of the two uids. */
  function KnownCount(records: seq<Record>, a: nat, b: nat): nat
  {
    if records == [] then 0
    else KnownCount(records[..|records| - 1], a, b)
         + (if records[|records| - 1].uid in [a, b] then 1 else 0)
  }

  predicate NoDup(s: seq<nat>)
  {
    forall i, j :: 0 <= i < j < |s| ==> s[i] != s[j]
  }

  /** The shape add_match and the CSV replay keep: distinct keys, one list per key, lists non-empty and duplicate-free. */
  ghost predicate GraphValid(g: Graph)
  {
    && NoDup(g.keys)
    && (forall k :: k in g.adj <==> k in g.keys)
    && (forall k :: k in g.adj ==> g.adj[k] != [] && NoDup(g.adj[k]))
  }

  predicate HasEdge(g: Graph, a: nat, b: nat)
  {
    a in g.adj && b in g.adj[a]
  }

  /** Record the edge a -> b: create a's list if missing, append b unless present. */
  function Insert(g: Graph, a: nat, b: nat): (r: Graph)
    ensures GraphValid(g) ==> GraphValid(r)
    ensures forall x, y :: HasEdge(r, x, y) <==> HasEdge(g, x, y) || (x == a && y == b)
    ensures HasEdge(g, a, b) ==> r == g
    ensures a in g.adj ==> r.keys == g.keys
    ensures a !in g.adj ==> r.keys == g.keys + [a]
  {
    if a !in g.adj then Graph(g.keys + [a], g.adj[a := [b]])
    else if b in g.adj[a] then g
    else Graph(g.keys, g.adj[a := g.adj[a] + [b]])
  }

  /** add_match: the edge is recorded only when exactly two records carry its endpoints. */
  function AddedMatch(s: State, a: nat, b: nat): State
  {
    if KnownCount(s.records, a, b) == 2 then s.(graph := Insert(s.graph, a, b)) else s
  }

  /** is_matched: u is a key or appears in some adjacency list. */
  predicate Matched(g: Graph, u: nat)
  {
    u in g.adj || exists k :: k in g.adj && u in g.adj[k]
  }

  /** is_match: consult a's list if a is a key, otherwise b's list. */
  predicate IsMatch(g: Graph, a: nat, b: nat)
  {
    if a in g.adj then b in g.adj[a]
    else if b in g.adj then a in g.adj[b]
    else false
  }

  /** Replaying the matches file row by row, as the constructor does. */
  function ReplayEdges(g: Graph, edges: seq<(nat, nat)>): Graph
  {
    if edges == [] then g
    else Insert(ReplayEdges(g, edges[..|edges| - 1]), edges[|edges| - 1].0, edges[|edges| - 1].1)
  }

  function LastUid(rows: seq<Record>): nat
  {
    if rows == [] then 0 else rows[|rows| - 1].uid
  }

  /** The state the constructor builds from the records file and the matches file. */
  function Load(rows: seq<Record>, edgeRows: seq<(nat, nat)>): State
  {
    State(rows, ReplayEdges(EmptyGraph, edgeRows), LastUid(rows))
  }

  /** The edges in the order `for f in matches: for t in matches[f]` visits them. */
  function Edges(keys: seq<nat>, adj: map<nat, seq<nat>>): (r: seq<(nat, nat)>)
    requires forall k :: k in keys ==> k in adj
  {
    if keys == [] then []
    else Edges(keys[..|keys| - 1], adj) + seq(|adj[keys[|keys| - 1]]|, j requires 0 <= j < |adj[keys[|keys| - 1]]| => (keys[|keys| - 1], adj[keys[|keys| - 1]][j]))
  }

  // ---------------------------------------------------------------------------
  // Properties of the ledger as a value
  // ---------------------------------------------------------------------------

  /** Replaying any matches file yields a well-formed graph. */
  lemma {:induction false} ReplayEdgesValid(g: Graph, edges: seq<(nat, nat)>)
    requires GraphValid(g)
    ensures GraphValid(ReplayEdges(g, edges))
  {
    if edges != [] {
      ReplayEdgesValid(g, edges[..|edges| - 1]);
    }
  }

  /** After replay, the graph holds exactly the edges listed in the file. */
  lemma {:induction false} ReplayEdgesExactly(edges: seq<(nat, nat)>, a: nat, b: nat)
    ensures HasEdge(ReplayEdges(EmptyGraph, edges), a, b) <==> (a, b) in edges
  {
    if edges != [] {
      var init := edges[..|edges| - 1];
      ReplayEdgesExactly(init, a, b);
      assert edges == init + [edges[|edges| - 1]];
      assert (a, b) in edges <==> (a, b) in init || (a, b) == edges[|edges| - 1];
    }
  }

  /** A loaded ledger has a well-formed graph and resumes numbering from the last row's uid. */
  lemma LoadProperties(rows: seq<Record>, edgeRows: seq<(nat, nat)>)
    ensures GraphValid(Load(rows, edgeRows).graph)
    ensures Load(rows, edgeRows).records == rows
    ensures rows == [] ==> Load(rows, edgeRows).curuid == 0
    ensures rows != [] ==> Load(rows, edgeRows).curuid == rows[|rows| - 1].uid
  {
    ReplayEdgesValid(EmptyGraph, edgeRows);
  }

  /** A records file written in uid order gives a well-numbered ledger. */
  lemma LoadWellNumbered(rows: seq<Record>, edgeRows: seq<(nat, nat)>)
    requires forall i, j :: 0 <= i < j < |rows| ==> rows[i].uid < rows[j].uid
    ensures WellNumbered(Load(rows, edgeRows))
  {
    var s := Load(rows, edgeRows);
    forall i | 0 <= i < |rows|
      ensures rows[i].uid <= s.curuid
    {
      if i < |rows| - 1 {
        assert rows[i].uid < rows[|rows| - 1].uid;
      }
    }
  }

  /** A new identity gets uid curuid + 1, one record is appended carrying it, and the counter moves by one. */
  lemma AddRecordNew(s: State, c: Candidate)
    requires FindMatch(s.records, c).None?
    ensures AddedRecord(s, c).1 == s.curuid + 1
    ensures AddedRecord(s, c).0.curuid == s.curuid + 1
    ensures AddedRecord(s, c).0.records == s.records + [WithUid(c, s.curuid + 1)]
    ensures AddedRecord(s, c).0.graph == s.graph
  {
  }

  /** A known identity returns the uid of its first record and changes nothing. */
  lemma AddRecordKnown(s: State, c: Candidate, i: nat)
    requires i < |s.records| && SameIdentity(s.records[i], c)
    ensures AddedRecord(s, c).0 == s
    ensures exists j :: 0 <= j <= i && AddedRecord(s, c).1 == s.records[j].uid && SameIdentity(s.records[j], c)
  {
    var j := FindMatch(s.records, c).value;
  }

  /** Adding the same identity twice returns the same uid the second time and leaves the ledger as the first call left it. */
  lemma AddRecordIdempotent(s: State, c: Candidate)
    ensures var (s1, u1) := AddedRecord(s, c); AddedRecord(s1, c) == (s1, u1)
  {
    var (s1, u1) := AddedRecord(s, c);
    if FindMatch(s.records, c).None? {
      var rs := s1.records;
      assert SameIdentity(rs[|rs| - 1], c);
    }
  }

  /** add_record keeps the numbering well formed, and the uid it returns is on record, with the candidate's identity, and at most the new counter. */
  lemma AddRecordWellNumbered(s: State, c: Candidate)
    requires WellNumbered(s)
    ensures WellNumbered(AddedRecord(s, c).0)
    ensures var (s1, u) := AddedRecord(s, c);
      u <= s1.curuid && exists i :: 0 <= i < |s1.records| && s1.records[i].uid == u && SameIdentity(s1.records[i], c)
  {
    var (s1, u) := AddedRecord(s, c);
    if FindMatch(s.records, c).None? {
      assert s1.records[|s.records|].uid == u;
    } else {
      assert s1.records[FindMatch(s.records, c).value].uid == u;
    }
  }

  /** With distinct uids, `known_ids` counts each endpoint that is on record once (a self-edge counts once). */
  lemma {:induction false} KnownCountDistinct(records: seq<Record>, a: nat, b: nat)
    requires forall i, j :: 0 <= i < j < |records| ==> records[i].uid < records[j].uid
    ensures KnownCount(records, a, b)
      == (if OnRecord(records, a) then 1 else 0) + (if b != a && OnRecord(records, b) then 1 else 0)
  {
    if records != [] {
      var init := records[..|records| - 1];
      var last := records[|records| - 1];
      KnownCountDistinct(init, a, b);
      assert forall u: nat :: OnRecord(records, u) <==> OnRecord(init, u) || last.uid == u by {
        forall u: nat | OnRecord(records, u) ensures OnRecord(init, u) || last.uid == u {
          var i :| 0 <= i < |records| && records[i].uid == u;
          if i < |records| - 1 { assert init[i].uid == u; }
        }
        forall u: nat | OnRecord(init, u) ensures OnRecord(records, u) {
          var i :| 0 <= i < |init| && init[i].uid == u;
          assert records[i].uid == u;
        }
      }
      forall u: nat | OnRecord(init, u) ensures u < last.uid {
        var i :| 0 <= i < |init| && init[i].uid == u;
        assert records[i].uid < records[|records| - 1].uid;
      }
    }
  }

  /** An edge between two distinct uids on record is recorded: afterwards it is an edge, is_match(a, b) holds and both endpoints are matched, and no other edge appears. */
  lemma AddMatchKnown(s: State, a: nat, b: nat)
    requires WellNumbered(s) && GraphValid(s.graph)
    requires a != b && OnRecord(s.records, a) && OnRecord(s.records, b)
    ensures var s1 := AddedMatch(s, a, b);
      && s1.records == s.records && s1.curuid == s.curuid
      && GraphValid(s1.graph)
      && HasEdge(s1.graph, a, b) && IsMatch(s1.graph, a, b)
      && Matched(s1.graph, a) && Matched(s1.graph, b)
      && (forall x, y :: HasEdge(s1.graph, x, y) <==> HasEdge(s.graph, x, y) || (x == a && y == b))
  {
    KnownCountDistinct(s.records, a, b);
  }

  /** When b was not yet in a's list, add_match appends it at the end of that list. */
  lemma AddMatchAppends(s: State, a: nat, b: nat)
    requires WellNumbered(s)
    requires a != b && OnRecord(s.records, a) && OnRecord(s.records, b)
    requires a in s.graph.adj && b !in s.graph.adj[a]
    ensures AddedMatch(s, a, b).graph.adj[a] == s.graph.adj[a] + [b]
  {
    KnownCountDistinct(s.records, a, b);
  }

  /** An edge with an endpoint not on record is dropped: the ledger is unchanged. */
  lemma AddMatchUnknown(s: State, a: nat, b: nat)
    requires WellNumbered(s)
    requires !OnRecord(s.records, a) || !OnRecord(s.records, b)
    ensures AddedMatch(s, a, b) == s
  {
    KnownCountDistinct(s.records, a, b);
  }

  /** A self-edge is dropped: its one record makes `known_ids` 1. */
  lemma AddMatchSelf(s: State, u: nat)
    requires WellNumbered(s)
    ensures AddedMatch(s, u, u) == s
  {
    KnownCountDistinct(s.records, u, u);
  }

  /** add_match never touches the records or the counter, keeps the graph well formed, and only adds edges. */
  lemma AddMatchFrame(s: State, a: nat, b: nat)
    requires GraphValid(s.graph)
    ensures AddedMatch(s, a, b).records == s.records && AddedMatch(s, a, b).curuid == s.curuid
    ensures GraphValid(AddedMatch(s, a, b).graph)
    ensures forall x, y :: HasEdge(s.graph, x, y) ==> HasEdge(AddedMatch(s, a, b).graph, x, y)
  {
  }

  /** is_match(a, b) is exactly "b in matches[a]" when a has a list; b's list is consulted only when it does not. */
  lemma IsMatchForward(g: Graph, a: nat, b: nat)
    ensures a in g.adj ==> (IsMatch(g, a, b) <==> HasEdge(g, a, b))
    ensures a !in g.adj ==> (IsMatch(g, a, b) <==> HasEdge(g, b, a))
  {
  }

  /** is_match is not symmetric: with edges 1 -> 2 and 2 -> 3, is_match(2, 1) is false. */
  lemma IsMatchNotSymmetric()
    ensures var g := Insert(Insert(EmptyGraph, 1, 2), 2, 3);
      GraphValid(g) && HasEdge(g, 1, 2) && IsMatch(g, 1, 2) && !IsMatch(g, 2, 1)
  {
  }

  /** Matched is exactly "u is an endpoint of some edge" in a well-formed graph. */
  lemma MatchedIsEndpoint(g: Graph, u: nat)
    requires GraphValid(g)
    ensures Matched(g, u) <==> exists x, y :: HasEdge(g, x, y) && (u == x || u == y)
  {
    if u in g.adj {
      var y := g.adj[u][0];
      assert HasEdge(g, u, y);
    } else if k :| k in g.adj && u in g.adj[k] {
      assert HasEdge(g, k, u);
    }
  }

  // ---------------------------------------------------------------------------
  // The ledger object
  // ---------------------------------------------------------------------------

  /** The constructor's pass over the records file: each row is kept, and the counter ends at the last row's uid. */
  method ReplayRecords(rows: seq<Record>) returns (rs: seq<Record>, uid: nat)
    ensures rs == rows && uid == LastUid(rows)
  {
    rs, uid := [], 0;
    for i := 0 to |rows|
      invariant rs == rows[..i] && uid == LastUid(rows[..i])
    {
      rs := rs + [rows[i]];
      uid := rows[i].uid;
    }
    assert rows[..|rows|] == rows;
  }

  /** The constructor's handling of one line of the matches file. */
  method InsertEdge(ks: seq<nat>, adj: map<nat, seq<nat>>, f: nat, t: nat) returns (ks': seq<nat>, adj': map<nat, seq<nat>>)
    ensures Graph(ks', adj') == Insert(Graph(ks, adj), f, t)
  {
    ks', adj' := ks, adj;
    if f !in adj' {
      ks' := ks' + [f];
      adj' := adj'[f := []];
    }
    if t !in adj'[f] {
      adj' := adj'[f := adj'[f] + [t]];
    }
    assert [] + [t] == [t];
  }

  /** The constructor's pass over the matches file. */
  method ReplayMatches(edgeRows: seq<(nat, nat)>) returns (ks: seq<nat>, adj: map<nat, seq<nat>>)
    ensures Graph(ks, adj) == ReplayEdges(EmptyGraph, edgeRows)
  {
    ks, adj := [], map[];
    for j := 0 to |edgeRows|
      invariant Graph(ks, adj) == ReplayEdges(EmptyGraph, edgeRows[..j])
    {
      var (f, t) := edgeRows[j];
      assert edgeRows[..j + 1] == edgeRows[..j] + [(f, t)];
      ks, adj := InsertEdge(ks, adj, f, t);
    }
    assert edgeRows[..|edgeRows|] == edgeRows;
  }

  class ProfileStore {
    var records: seq<Record>
    /** The keys of `matches` in insertion order. */
    var keys: seq<nat>
    var matches: map<nat, seq<nat>>
    var curuid: nat

    ghost predicate Valid()
      reads this
    {
      GraphValid(Graph(keys, matches))
    }

    function Value(): State
      reads this
    {
      State(records, Graph(keys, matches), curuid)
    }

    /** Open a ledger: replay the records file, then the matches file (either may be empty). */
    constructor (rows: seq<Record>, edgeRows: seq<(nat, nat)>)
      ensures Valid() && Value() == Load(rows, edgeRows)
    {
      var rs, uid := ReplayRecords(rows);
      var ks, adj := ReplayMatches(edgeRows);
      ReplayEdgesValid(EmptyGraph, edgeRows);
      records, keys, matches, curuid := rs, ks, adj, uid;
    }

    /** get_match: the first record with the candidate's identity, if any. */
    method GetMatch(c: Candidate) returns (r: Option<Record>)
      ensures r.None? <==> forall i :: 0 <= i < |records| ==> !SameIdentity(records[i], c)
      ensures r.Some? ==> exists i :: 0 <= i < |records| && r.value == records[i] && SameIdentity(records[i], c)
                                      && forall j :: 0 <= j < i ==> !SameIdentity(records[j], c)
    {
      var i := 0;
      while i < |records|
        invariant 0 <= i <= |records|
        invariant forall j :: 0 <= j < i ==> !SameIdentity(records[j], c)
      {
        if records[i].networkId == c.networkId && records[i].network == c.network {
          return Some(records[i]);
        }
        i := i + 1;
      }
      return None;
    }

    /** add_record: return the uid of the record with this identity, appending a new one first if there is none. */
    method AddRecord(c: Candidate) returns (uid: nat)
      requires Valid()
      modifies this`records, this`curuid
      ensures Valid()
      ensures (Value(), uid) == AddedRecord(old(Value()), c)
    {
      var m := GetMatch(c);
      if m.None? {
        curuid := curuid + 1;
        records := records + [WithUid(c, curuid)];
        return curuid;
      } else {
        var k := FindMatch(records, c).value;
        var i :| 0 <= i < |records| && m.value == records[i] && SameIdentity(records[i], c)
                 && forall j :: 0 <= j < i ==> !SameIdentity(records[j], c);
        assert i == k;
        return m.value.uid;
      }
    }

    /** add_match: count the records carrying either uid; record the edge only when the count is two. */
    method AddMatch(a: nat, b: nat)
      requires Valid()
      modifies this`keys, this`matches
      ensures Valid()
      ensures Value() == AddedMatch(old(Value()), a, b)
    {
      var known := 0;
      var i := 0;
      while i < |records|
        invariant 0 <= i <= |records|
        invariant known == KnownCount(records[..i], a, b)
      {
        if records[i].uid in [a, b] {
          known := known + 1;
        }
        assert records[..i + 1][..i] == records[..i];
        i := i + 1;
      }
      assert records[..|records|] == records;
      if known == 2 {
        ghost var before := Graph(keys, matches);
        if a !in matches {
          keys := keys + [a];
          matches := matches[a := []];
        }
        if b !in matches[a] {
          matches := matches[a := matches[a] + [b]];
        }
        assert [] + [b] == [b];
        assert a !in before.adj ==> matches == before.adj[a := [] + [b]] == before.adj[a := [b]];
        assert Graph(keys, matches) == Insert(before, a, b);
      }
    }

    /** is_matched: a key, or found in some list while scanning the keys in order. */
    method IsMatched(u: nat) returns (r: bool)
      requires Valid()
      ensures r <==> Matched(Graph(keys, matches), u)
    {
      if u in matches {
        return true;
      }
      var i := 0;
      while i < |keys|
        invariant 0 <= i <= |keys|
        invariant forall j :: 0 <= j < i ==> u !in matches[keys[j]]
      {
        if u in matches[keys[i]] {
          return true;
        }
        i := i + 1;
      }
      return false;
    }
  }
}
