/** Walks in a directed graph given by its set of edges, and what contracting a node does to them. */
module Digraph {

  ghost predicate IsStep<T(!new)>(edges: set<(T, T)>, walk: seq<T>, i: nat)
    requires i + 1 < |walk|
  {
    (walk[i], walk[i + 1]) in edges
  }

  ghost predicate IsWalk<T(!new)>(edges: set<(T, T)>, walk: seq<T>) {
    |walk| > 0 && forall i: nat :: i + 1 < |walk| ==> IsStep(edges, walk, i)
  }

  /** A walk of at least one edge from `a` to `b`. */
  ghost predicate IsWalkBetween<T(!new)>(edges: set<(T, T)>, walk: seq<T>, a: T, b: T) {
    IsWalk(edges, walk) && |walk| >= 2 && walk[0] == a && walk[|walk| - 1] == b
  }

  /** `b` can be reached from `a` over at least one edge. */
  ghost predicate Joined<T(!new)>(edges: set<(T, T)>, a: T, b: T) {
    exists walk :: IsWalkBetween(edges, walk, a, b)
  }

  ghost predicate Acyclic<T(!new)>(edges: set<(T, T)>) {
    forall v :: !Joined(edges, v, v)
  }

  lemma EdgeJoins<T(!new)>(edges: set<(T, T)>, a: T, b: T)
    requires (a, b) in edges
    ensures Joined(edges, a, b)
  {
    assert IsWalkBetween(edges, [a, b], a, b);
  }

  lemma JoinedTransitive<T(!new)>(edges: set<(T, T)>, a: T, b: T, c: T)
    requires Joined(edges, a, b) && Joined(edges, b, c)
    ensures Joined(edges, a, c)
  {
    var p :| IsWalkBetween(edges, p, a, b);
    var q :| IsWalkBetween(edges, q, b, c);
    var walk := p + q[1..];
    forall i: nat | i + 1 < |walk| ensures IsStep(edges, walk, i) {
      if i + 1 < |p| {
        assert IsStep(edges, p, i);
      } else {
        assert IsStep(edges, q, i + 1 - |p|);
      }
    }
    assert IsWalkBetween(edges, walk, a, c);
  }

  lemma DropSteps<T(!new)>(edges: set<(T, T)>, walk: seq<T>, n: nat)
    requires IsWalk(edges, walk) && n < |walk|
    ensures IsWalk(edges, walk[n..])
  {
    forall i: nat | i + 1 < |walk[n..]| ensures IsStep(edges, walk[n..], i) {
      assert IsStep(edges, walk, n + i);
    }
  }

  /**
   * If every edge inside `keep` joins the same ends in `other`, so does every
   * longer walk whose nodes all lie in `keep`.
   */
  lemma {:induction false} WalkCarriesOver<T(!new)>(edges: set<(T, T)>, other: set<(T, T)>, walk: seq<T>)
    requires IsWalk(edges, walk) && |walk| >= 2
    requires forall i :: 0 <= i < |walk| - 1 ==> Joined(other, walk[i], walk[i + 1])
    ensures Joined(other, walk[0], walk[|walk| - 1])
  {
    if |walk| > 2 {
      var rest := walk[1..];
      DropSteps(edges, walk, 1);
      forall i | 0 <= i < |rest| - 1
        ensures Joined(other, rest[i], rest[i + 1])
      {
        assert Joined(other, walk[i + 1], walk[i + 1 + 1]);
      }
      WalkCarriesOver(edges, other, rest);
      assert Joined(other, walk[0], walk[0 + 1]);
      JoinedTransitive(other, walk[0], walk[1], walk[|walk| - 1]);
    } else {
      assert Joined(other, walk[0], walk[0 + 1]);
    }
  }

  /** Every edge that avoids `t`, and an edge from each predecessor of `t` to each of its successors. */
  ghost function Contract<T(!new)>(edges: set<(T, T)>, t: T): set<(T, T)> {
    (set e | e in edges && e.0 != t && e.1 != t)
    + (set e, f | e in edges && f in edges && e.1 == t && f.0 == t && e.0 != t && f.1 != t :: (e.0, f.1))
  }

  lemma ContractedEdgeJoins<T(!new)>(edges: set<(T, T)>, t: T, a: T, b: T)
    requires (a, b) in Contract(edges, t)
    ensures Joined(edges, a, b)
  {
    if (a, b) in edges {
      EdgeJoins(edges, a, b);
    } else {
      assert IsWalkBetween(edges, [a, t, b], a, b);
    }
  }

  /** A walk between two nodes other than `t` survives contraction, whether or not it visits `t`. */
  lemma {:induction false} WalkSurvivesContraction<T(!new)>(edges: set<(T, T)>, t: T, walk: seq<T>)
    requires IsWalk(edges, walk) && |walk| >= 2
    requires walk[0] != t && walk[|walk| - 1] != t
    ensures Joined(Contract(edges, t), walk[0], walk[|walk| - 1])
    decreases |walk|
  {
    var contracted := Contract(edges, t);
    assert IsStep(edges, walk, 0);
    if walk[1] != t {
      EdgeJoins(contracted, walk[0], walk[1]);
      if |walk| > 2 {
        DropSteps(edges, walk, 1);
        WalkSurvivesContraction(edges, t, walk[1..]);
        JoinedTransitive(contracted, walk[0], walk[1], walk[|walk| - 1]);
      }
    } else if walk[2] == t {
      var shorter := [walk[0]] + walk[2..];
      forall i: nat | i + 1 < |shorter| ensures IsStep(edges, shorter, i) {
        assert i > 0 ==> IsStep(edges, walk, i + 1);
      }
      WalkSurvivesContraction(edges, t, shorter);
    } else {
      assert IsStep(edges, walk, 1);
      var e, f := (walk[0], walk[1]), (walk[1], walk[2]);
      assert e in edges && f in edges;
      assert (e.0, f.1) in contracted;
      EdgeJoins(contracted, walk[0], walk[2]);
      if |walk| > 3 {
        DropSteps(edges, walk, 2);
        WalkSurvivesContraction(edges, t, walk[2..]);
        JoinedTransitive(contracted, walk[0], walk[2], walk[|walk| - 1]);
      }
    }
  }

  /** Contracting `t` keeps which of the other nodes are joined, cycles through them included. */
  lemma ContractPreservesJoined<T(!new)>(edges: set<(T, T)>, t: T, a: T, b: T)
    requires a != t && b != t
    ensures Joined(Contract(edges, t), a, b) <==> Joined(edges, a, b)
  {
    if Joined(Contract(edges, t), a, b) {
      var walk :| IsWalkBetween(Contract(edges, t), walk, a, b);
      forall i | 0 <= i < |walk| - 1
        ensures Joined(edges, walk[i], walk[i + 1])
      {
        assert IsStep(Contract(edges, t), walk, i);
        ContractedEdgeJoins(edges, t, walk[i], walk[i + 1]);
      }
      WalkCarriesOver(Contract(edges, t), edges, walk);
    }
    if Joined(edges, a, b) {
      var walk :| IsWalkBetween(edges, walk, a, b);
      WalkSurvivesContraction(edges, t, walk);
    }
  }

  /** Contracts the nodes of `ts` one after another, each in the graph the earlier ones left. */
  ghost function ContractAll<T(!new)>(edges: set<(T, T)>, ts: seq<T>): set<(T, T)> {
    if ts == [] then edges else Contract(ContractAll(edges, ts[..|ts| - 1]), ts[|ts| - 1])
  }

  /** In whatever order several nodes are contracted, the rest stay joined as before. */
  lemma {:induction false} ContractAllPreservesJoined<T(!new)>(edges: set<(T, T)>, ts: seq<T>, a: T, b: T)
    requires a !in ts && b !in ts
    ensures Joined(ContractAll(edges, ts), a, b) <==> Joined(edges, a, b)
  {
    if ts != [] {
      var before := ts[..|ts| - 1];
      ContractAllPreservesJoined(edges, before, a, b);
      ContractPreservesJoined(ContractAll(edges, before), ts[|ts| - 1], a, b);
    }
  }

  /** A number that drops along every edge rules out cycles. */
  lemma {:induction false} RankDropsAlongWalk<T(!new)>(edges: set<(T, T)>, rank: map<T, nat>, walk: seq<T>)
    requires forall a, b {:trigger (a, b) in edges} :: (a, b) in edges ==> a in rank && b in rank && rank[b] < rank[a]
    requires IsWalk(edges, walk) && |walk| >= 2
    ensures walk[0] in rank && walk[|walk| - 1] in rank
    ensures rank[walk[|walk| - 1]] < rank[walk[0]]
  {
    assert IsStep(edges, walk, 0);
    if |walk| > 2 {
      DropSteps(edges, walk, 1);
      RankDropsAlongWalk(edges, rank, walk[1..]);
    }
  }

  lemma RankMakesAcyclic<T(!new)>(edges: set<(T, T)>, rank: map<T, nat>)
    requires forall a, b {:trigger (a, b) in edges} :: (a, b) in edges ==> a in rank && b in rank && rank[b] < rank[a]
    ensures Acyclic(edges)
  {
    forall v ensures !Joined(edges, v, v) {
      if Joined(edges, v, v) {
        var walk :| IsWalkBetween(edges, walk, v, v);
        RankDropsAlongWalk(edges, rank, walk);
      }
    }
  }

  /** Every edge is one of the other graph under the new names. */
  ghost predicate Renames<S(!new), T(!new)>(edges: set<(S, S)>, renamed: set<(T, T)>, name: S -> T) {
    forall a, b {:trigger (a, b) in edges} :: (a, b) in edges ==> (name(a), name(b)) in renamed
  }

  /** Renaming the nodes renames the walks. */
  lemma RenamedWalk<S(!new), T(!new)>(edges: set<(S, S)>, renamed: set<(T, T)>, name: S -> T, walk: seq<S>)
    requires IsWalk(edges, walk)
    requires Renames(edges, renamed, name)
    ensures IsWalk(renamed, seq(|walk|, i requires 0 <= i < |walk| => name(walk[i])))
  {
    var other := seq(|walk|, i requires 0 <= i < |walk| => name(walk[i]));
    forall i: nat | i + 1 < |other| ensures IsStep(renamed, other, i) {
      assert IsStep(edges, walk, i);
    }
  }

  /** Nodes that name each other back and forth are joined alike under both names. */
  lemma RenamingPreservesJoined<S(!new), T(!new)>(edges: set<(S, S)>, renamed: set<(T, T)>,
                                                  name: S -> T, back: T -> S, a: S, b: S)
    requires Renames(edges, renamed, name) && Renames(renamed, edges, back)
    requires back(name(a)) == a && back(name(b)) == b
    ensures Joined(edges, a, b) <==> Joined(renamed, name(a), name(b))
  {
    if Joined(edges, a, b) {
      var walk :| IsWalkBetween(edges, walk, a, b);
      RenamedWalk(edges, renamed, name, walk);
      var other := seq(|walk|, i requires 0 <= i < |walk| => name(walk[i]));
      assert IsWalkBetween(renamed, other, name(a), name(b));
    }
    if Joined(renamed, name(a), name(b)) {
      var walk :| IsWalkBetween(renamed, walk, name(a), name(b));
      RenamedWalk(renamed, edges, back, walk);
      var other := seq(|walk|, i requires 0 <= i < |walk| => back(walk[i]));
      assert IsWalkBetween(edges, other, a, b);
    }
  }
}
