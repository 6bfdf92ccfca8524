/**
 Deduplication of batch search results, `crates/forge_app/src/search_dedup.rs`: a node found by
 several queries is kept only in the query where it scored best.

 Scores are reals: NaN-free floating-point values are only ever compared here.
 */
module SearchDedup {

  import opened Prelude

  datatype Node = Node(id: string, relevance: Option<real>, distance: Option<real>, body: string)

  datatype Score = Score(queryIdx: nat, relevance: Option<real>, distance: Option<real>)

  datatype Ordering = Less | Equal | Greater

  function ScoreOf(q: nat, n: Node): Score {
    Score(q, n.relevance, n.distance)
  }

  // None means undecided: go on to the next criterion.
  function Compare(a: Option<real>, b: Option<real>): Option<Ordering> {
    match (a, b)
    case (Some(x), Some(y)) => if x < y then Some(Less) else if x > y then Some(Greater) else None
    case (Some(_), None) => Some(Greater)
    case (None, Some(_)) => Some(Less)
    case (None, None) => None
  }

  function Cmp(a: Score, b: Score): Ordering {
    var byRelevance := Compare(a.relevance, b.relevance);
    if byRelevance.Some? then byRelevance.value
    else
      var byDistance := Compare(b.distance, a.distance);
      if byDistance.Some? then byDistance.value
      else if a.queryIdx < b.queryIdx then Greater
      else if a.queryIdx > b.queryIdx then Less
      else Equal
  }

  predicate Beats(a: Score, b: Score) {
    Cmp(a, b) == Greater
  }

  /** The scores are totally ordered: any two are comparable, the comparison is reversed by
      swapping, equal only for equal scores, and transitive. */
  lemma ScoresAreTotallyOrdered(a: Score, b: Score, c: Score)
    ensures Cmp(a, b) == Less <==> Cmp(b, a) == Greater
    ensures Cmp(a, b) == Equal <==> a == b
    ensures Beats(a, b) && Beats(b, c) ==> Beats(a, c)
    ensures !Beats(a, b) && !Beats(b, c) ==> !Beats(a, c)
  {
  }

  // The first is the greater of two values of one kind.
  predicate Exceeds(a: Option<real>, b: Option<real>) {
    a.Some? && (b.None? || a.value > b.value)
  }

  /** Which entry scores better, a in query p or b in query q: that of higher relevance, any
      relevance being better than none; when that is the same, that of smaller distance, where
      none at all is better than any; when that is the same too, that of the earlier query. */
  lemma BeatsIff(p: nat, a: Node, q: nat, b: Node)
    ensures Beats(ScoreOf(p, a), ScoreOf(q, b)) <==>
              || Exceeds(a.relevance, b.relevance)
              || (a.relevance == b.relevance && Exceeds(b.distance, a.distance))
              || (a.relevance == b.relevance && a.distance == b.distance && p < q)
  {
  }

  /** Having a value is commented to be better than having none. Distances are compared the other
      way round, so a score with a distance beats one without exactly when its relevance is
      greater, and otherwise loses to it. */
  lemma MissingDistanceWinsIff(a: Score, b: Score)
    requires a.distance.Some? && b.distance.None?
    ensures Beats(a, b) <==> Exceeds(a.relevance, b.relevance)
    ensures Beats(b, a) <==> !Exceeds(a.relevance, b.relevance)
  {
  }

  // ----- what is to be kept -----

  type Results = seq<seq<Node>>

  predicate At(rs: Results, q: int, i: int, id: string) {
    0 <= q < |rs| && 0 <= i < |rs[q]| && rs[q][i].id == id
  }

  // The entry's score is beaten by no entry with the same id.
  ghost predicate IsBest(rs: Results, q: nat, i: nat)
    requires q < |rs| && i < |rs[q]|
  {
    forall p, j :: At(rs, p, j, rs[q][i].id) ==> !Beats(ScoreOf(p, rs[p][j]), ScoreOf(q, rs[q][i]))
  }

  // The query holds an entry with the best score for the id.
  ghost predicate HoldsBest(rs: Results, id: string, q: nat)
    requires q < |rs|
  {
    exists i :: At(rs, q, i, id) && IsBest(rs, q, i)
  }

  ghost function Survivors(rs: Results, q: nat, n: nat): seq<Node>
    requires q < |rs| && n <= |rs[q]|
  {
    if n == 0 then []
    else Survivors(rs, q, n - 1) + if HoldsBest(rs, rs[q][n - 1].id, q) then [rs[q][n - 1]] else []
  }

  ghost function Dedup(rs: Results): (r: Results)
    ensures |r| == |rs|
    ensures forall q :: 0 <= q < |rs| ==> r[q] == Survivors(rs, q, |rs[q]|)
  {
    seq(|rs|, q requires 0 <= q < |rs| => Survivors(rs, q, |rs[q]|))
  }

  // ----- the two passes -----

  // Before the loops reach entry i of query q.
  predicate Before(p: int, j: int, q: int, i: int) {
    p < q || (p == q && j < i)
  }

  ghost predicate Tracks(best: map<string, Score>, rs: Results, q: int, i: int) {
    && (forall p, j :: 0 <= p < |rs| && 0 <= j < |rs[p]| && Before(p, j, q, i) ==>
          rs[p][j].id in best && !Beats(ScoreOf(p, rs[p][j]), best[rs[p][j].id]))
    && (forall id :: id in best ==>
          exists p, j :: At(rs, p, j, id) && Before(p, j, q, i) && ScoreOf(p, rs[p][j]) == best[id])
  }

  method DeduplicateResults(results: array<seq<Node>>)
    modifies results
    ensures results[..] == Dedup(old(results[..]))
  {
    var best := FindBest(results);
    ghost var rs := results[..];
    for q := 0 to results.Length
      invariant forall k :: 0 <= k < q ==> results[k] == Survivors(rs, k, |rs[k]|)
      invariant forall k :: q <= k < results.Length ==> results[k] == rs[k]
    {
      results[q] := RetainBest(results[q], best, q, rs);
    }
    assert |results[..]| == |Dedup(rs)|;
  }

  method FindBest(results: array<seq<Node>>) returns (best: map<string, Score>)
    ensures Tracks(best, results[..], results.Length, 0)
  {
    best := map[];
    ghost var rs := results[..];
    for q := 0 to results.Length
      invariant Tracks(best, rs, q, 0)
    {
      for i := 0 to |results[q]|
        invariant Tracks(best, rs, q, i)
      {
        var node := results[q][i];
        var score := ScoreOf(q, node);
        ghost var was := best;
        if node.id !in best || Beats(score, best[node.id]) {
          best := best[node.id := score];
        }
        TracksNext(was, best, rs, q, i);
      }
      assert forall p, j :: 0 <= p < |rs| && 0 <= j < |rs[p]| && Before(p, j, q + 1, 0) ==> Before(p, j, q, |rs[q]|);
      assert forall p, j {:trigger Before(p, j, q, |rs[q]|)} :: Before(p, j, q, |rs[q]|) ==> Before(p, j, q + 1, 0);
    }
  }

  lemma TracksNext(was: map<string, Score>, best: map<string, Score>, rs: Results, q: nat, i: nat)
    requires q < |rs| && i < |rs[q]| && Tracks(was, rs, q, i)
    requires var id, score := rs[q][i].id, ScoreOf(q, rs[q][i]);
             best == if id !in was || Beats(score, was[id]) then was[id := score] else was
    ensures Tracks(best, rs, q, i + 1)
  {
    var id, score := rs[q][i].id, ScoreOf(q, rs[q][i]);
    forall p, j | 0 <= p < |rs| && 0 <= j < |rs[p]| && Before(p, j, q, i + 1)
      ensures rs[p][j].id in best && !Beats(ScoreOf(p, rs[p][j]), best[rs[p][j].id])
    {
      if Before(p, j, q, i) && rs[p][j].id == id {
        ScoresAreTotallyOrdered(ScoreOf(p, rs[p][j]), was[id], score);
        ScoresAreTotallyOrdered(was[id], score, score);
      } else if !Before(p, j, q, i) {
        ScoresAreTotallyOrdered(score, score, score);
      }
    }
    forall x | x in best
      ensures exists p, j :: At(rs, p, j, x) && Before(p, j, q, i + 1) && ScoreOf(p, rs[p][j]) == best[x]
    {
      if x == id && best[x] == score {
        assert At(rs, q, i, x) && Before(q, i, q, i + 1);
      } else {
        var p, j :| At(rs, p, j, x) && Before(p, j, q, i) && ScoreOf(p, rs[p][j]) == was[x];
        assert Before(p, j, q, i + 1);
      }
    }
  }

  method RetainBest(nodes: seq<Node>, best: map<string, Score>, q: nat, ghost rs: Results) returns (kept: seq<Node>)
    requires q < |rs| && nodes == rs[q] && Tracks(best, rs, |rs|, 0)
    ensures kept == Survivors(rs, q, |nodes|)
  {
    kept := [];
    for i := 0 to |nodes|
      invariant kept == Survivors(rs, q, i)
    {
      BestIsTracked(best, rs, q, i);
      if nodes[i].id !in best || best[nodes[i].id].queryIdx == q {
        kept := kept + [nodes[i]];
      }
    }
  }

  lemma BestIsTracked(best: map<string, Score>, rs: Results, q: nat, i: nat)
    requires q < |rs| && i < |rs[q]| && Tracks(best, rs, |rs|, 0)
    ensures rs[q][i].id in best
    ensures HoldsBest(rs, rs[q][i].id, q) <==> best[rs[q][i].id].queryIdx == q
  {
    var id := rs[q][i].id;
    assert Before(q, i, |rs|, 0);
    var p, j :| At(rs, p, j, id) && Before(p, j, |rs|, 0) && ScoreOf(p, rs[p][j]) == best[id];
    forall a, b | At(rs, a, b, id)
      ensures !Beats(ScoreOf(a, rs[a][b]), best[id])
    {
      assert Before(a, b, |rs|, 0);
    }
    assert IsBest(rs, p, j);
    if HoldsBest(rs, id, q) {
      var k :| At(rs, q, k, id) && IsBest(rs, q, k);
      ScoresAreTotallyOrdered(best[id], ScoreOf(q, rs[q][k]), best[id]);
    }
  }

  // ----- what that comes to -----

  ghost predicate Occurs(nodes: seq<Node>, id: string) {
    exists i :: 0 <= i < |nodes| && nodes[i].id == id
  }

  lemma {:induction false} SurvivorsOf(rs: Results, q: nat, n: nat)
    requires q < |rs| && n <= |rs[q]|
    ensures forall k :: 0 <= k < |Survivors(rs, q, n)| ==> HoldsBest(rs, Survivors(rs, q, n)[k].id, q)
    ensures forall i :: 0 <= i < n && HoldsBest(rs, rs[q][i].id, q) ==> rs[q][i] in Survivors(rs, q, n)
    ensures forall k :: 0 <= k < |Survivors(rs, q, n)| ==> Survivors(rs, q, n)[k] in rs[q]
  {
    if n > 0 {
      SurvivorsOf(rs, q, n - 1);
    }
  }

  /** An entry is kept exactly when its query holds the best score for its id. */
  lemma KeptIff(rs: Results, q: nat, n: Node)
    requires q < |rs|
    ensures n in Dedup(rs)[q] <==> n in rs[q] && HoldsBest(rs, n.id, q)
  {
    SurvivorsOf(rs, q, |rs[q]|);
  }

  lemma {:induction false} BestsExist(rs: Results, q: nat, i: nat) returns (best: map<string, Score>)
    requires q <= |rs| && i <= (if q < |rs| then |rs[q]| else 0)
    ensures Tracks(best, rs, q, i)
    decreases q, i
  {
    if i > 0 {
      var was := BestsExist(rs, q, i - 1);
      var id, score := rs[q][i - 1].id, ScoreOf(q, rs[q][i - 1]);
      best := if id !in was || Beats(score, was[id]) then was[id := score] else was;
      TracksNext(was, best, rs, q, i - 1);
    } else if q > 0 {
      best := BestsExist(rs, q - 1, |rs[q - 1]|);
      assert forall p, j {:trigger Before(p, j, q - 1, |rs[q - 1]|)} ::
          Before(p, j, q - 1, |rs[q - 1]|) ==> Before(p, j, q, 0);
      assert forall p, j :: 0 <= p < |rs| && 0 <= j < |rs[p]| && Before(p, j, q, 0) ==> Before(p, j, q - 1, |rs[q - 1]|);
    } else {
      best := map[];
    }
  }

  // How many entries of a query have the id.
  function Count(nodes: seq<Node>, id: string): nat {
    if nodes == [] then 0
    else Count(nodes[..|nodes| - 1], id) + if nodes[|nodes| - 1].id == id then 1 else 0
  }

  // How many entries of the first n queries have the id.
  function Total(rs: Results, id: string, n: nat): nat
    requires n <= |rs|
  {
    if n == 0 then 0 else Total(rs, id, n - 1) + Count(rs[n - 1], id)
  }

  lemma {:induction false} CountConcat(a: seq<Node>, b: seq<Node>, id: string)
    ensures Count(a + b, id) == Count(a, id) + Count(b, id)
  {
    if b == [] {
      assert a + b == a;
    } else {
      CountConcat(a, b[..|b| - 1], id);
      assert (a + b)[..|a + b| - 1] == a + b[..|b| - 1];
    }
  }

  lemma {:induction false} CountSurvivors(rs: Results, q: nat, n: nat, id: string)
    requires q < |rs| && n <= |rs[q]|
    ensures Count(Survivors(rs, q, n), id) == if HoldsBest(rs, id, q) then Count(rs[q][..n], id) else 0
  {
    if n > 0 {
      CountSurvivors(rs, q, n - 1, id);
      var node := rs[q][n - 1];
      assert rs[q][..n] == rs[q][..n - 1] + [node];
      CountConcat(rs[q][..n - 1], [node], id);
      CountConcat(Survivors(rs, q, n - 1), if HoldsBest(rs, node.id, q) then [node] else [], id);
      CountOne(node, id);
    }
  }

  lemma CountOne(node: Node, id: string)
    ensures Count([node], id) == if node.id == id then 1 else 0
  {
    assert [node][..0] == [];
  }

  /** Every entry of the winning query stays, repeated ones included, and none of another. */
  lemma CountsKept(rs: Results, q: nat, id: string)
    requires q < |rs|
    ensures Count(Dedup(rs)[q], id) == if HoldsBest(rs, id, q) then Count(rs[q], id) else 0
  {
    CountSurvivors(rs, q, |rs[q]|, id);
    assert rs[q][..|rs[q]|] == rs[q];
  }

  /** No id is lost and none is left in two queries: every id found survives in exactly one
      query, the one that holds its best score, and there as often as it was. */
  lemma EachIdInOneQuery(rs: Results, from: nat, id: string) returns (q: nat)
    requires from < |rs| && Occurs(rs[from], id)
    ensures q < |rs| && HoldsBest(rs, id, q) && Occurs(Dedup(rs)[q], id)
    ensures forall p :: 0 <= p < |rs| && p != q ==> !HoldsBest(rs, id, p) && !Occurs(Dedup(rs)[p], id)
    ensures Count(Dedup(rs)[q], id) == Count(rs[q], id)
  {
    var best := BestsExist(rs, |rs|, 0);
    var k :| 0 <= k < |rs[from]| && rs[from][k].id == id;
    assert Before(from, k, |rs|, 0);
    var p, j :| At(rs, p, j, id) && Before(p, j, |rs|, 0) && ScoreOf(p, rs[p][j]) == best[id];
    q := p;
    BestIsTracked(best, rs, q, j);
    KeptIff(rs, q, rs[q][j]);
    CountsKept(rs, q, id);
    forall a | 0 <= a < |rs| && a != q
      ensures !HoldsBest(rs, id, a) && !Occurs(Dedup(rs)[a], id)
    {
      HeldWhereTracked(best, rs, a, id);
    }
  }

  lemma HeldWhereTracked(best: map<string, Score>, rs: Results, q: nat, id: string)
    requires Tracks(best, rs, |rs|, 0) && q < |rs|
    ensures HoldsBest(rs, id, q) ==> id in best && best[id].queryIdx == q
    ensures Occurs(Dedup(rs)[q], id) ==> HoldsBest(rs, id, q)
  {
    if HoldsBest(rs, id, q) {
      var i :| At(rs, q, i, id) && IsBest(rs, q, i);
      BestIsTracked(best, rs, q, i);
    }
    if Occurs(Dedup(rs)[q], id) {
      var b :| 0 <= b < |Dedup(rs)[q]| && Dedup(rs)[q][b].id == id;
      KeptIff(rs, q, Dedup(rs)[q][b]);
    }
  }

  lemma {:induction false} TotalIsOneQuery(rs: Results, id: string, q: nat, n: nat)
    requires n <= |rs| && q < |rs|
    requires forall p :: 0 <= p < |rs| && p != q ==> Count(rs[p], id) == 0
    ensures Total(rs, id, n) == if q < n then Count(rs[q], id) else 0
  {
    if n > 0 {
      TotalIsOneQuery(rs, id, q, n - 1);
    }
  }

  // How often an id is left in all, for the query that holds its best score.
  lemma TotalKept(rs: Results, id: string, q: nat)
    requires q < |rs| && HoldsBest(rs, id, q)
    ensures Total(Dedup(rs), id, |rs|) == Count(rs[q], id)
  {
    var i :| At(rs, q, i, id) && IsBest(rs, q, i);
    var winner := EachIdInOneQuery(rs, q, id);
    forall p | 0 <= p < |rs|
      ensures Count(Dedup(rs)[p], id) == if p == q then Count(rs[q], id) else 0
    {
      CountsKept(rs, p, id);
    }
    TotalIsOneQuery(Dedup(rs), id, q, |rs|);
  }

  /** The promise that each node appears once: an id is left at most once exactly when the query
      that holds its best score lists it at most once, since entries repeated within a query
      are not compared with each other. */
  lemma AppearsOnceIff(rs: Results, id: string)
    ensures Total(Dedup(rs), id, |rs|) <= 1 <==>
            forall q :: 0 <= q < |rs| && HoldsBest(rs, id, q) ==> Count(rs[q], id) <= 1
  {
    if q :| 0 <= q < |rs| && HoldsBest(rs, id, q) {
      var i :| At(rs, q, i, id) && IsBest(rs, q, i);
      var winner := EachIdInOneQuery(rs, q, id);
      TotalKept(rs, id, q);
    } else {
      NoneLeft(rs, id, |rs|);
    }
  }

  lemma {:induction false} NoneLeft(rs: Results, id: string, n: nat)
    requires n <= |rs| && forall q :: 0 <= q < |rs| ==> !HoldsBest(rs, id, q)
    ensures Total(Dedup(rs), id, n) == 0
  {
    if n > 0 {
      NoneLeft(rs, id, n - 1);
      CountsKept(rs, n - 1, id);
    }
  }

  // One query that lists a node twice: both entries stay.
  lemma RepeatedEntryStays(node: Node)
    ensures Dedup([[node, node]]) == [[node, node]] && Total(Dedup([[node, node]]), node.id, 1) == 2
  {
    var rs := [[node, node]];
    var score := ScoreOf(0, node);
    ScoresAreTotallyOrdered(score, score, score);
    assert At(rs, 0, 0, node.id) && IsBest(rs, 0, 0);
    AllSurvive(rs, 0, 2);
    assert Dedup(rs)[0] == rs[0][..2] == rs[0];
    TotalKept(rs, node.id, 0);
    CountConcat([node], [node], node.id);
    assert rs[0] == [node] + [node];
    CountOne(node, node.id);
  }

  // Found at distance 0.25 by the first query and at none by the second, with no relevance in
  // either, a node is kept in the second.
  lemma MissingDistanceExample()
    ensures var near, unknown := Node("a", None, Some(0.25), ""), Node("a", None, None, "");
            Dedup([[near], [unknown]]) == [[], [unknown]]
  {
    var near, unknown := Node("a", None, Some(0.25), ""), Node("a", None, None, "");
    var rs := [[near], [unknown]];
    assert At(rs, 0, 0, "a") && At(rs, 1, 0, "a");
    assert IsBest(rs, 1, 0);
    assert Beats(ScoreOf(1, rs[1][0]), ScoreOf(0, rs[0][0]));
    assert !HoldsBest(rs, "a", 0);
    assert Survivors(rs, 0, 1) == [] && Survivors(rs, 1, 1) == [unknown];
  }

  // An entry that survives still holds the best score among the survivors.
  lemma BestSurvives(rs: Results, q: nat, n: Node)
    requires q < |rs| && n in Dedup(rs)[q]
    ensures HoldsBest(Dedup(rs), n.id, q)
  {
    var d := Dedup(rs);
    KeptIff(rs, q, n);
    var i :| At(rs, q, i, n.id) && IsBest(rs, q, i);
    KeptIff(rs, q, rs[q][i]);
    var k :| 0 <= k < |d[q]| && d[q][k] == rs[q][i];
    forall p, j | At(d, p, j, n.id)
      ensures !Beats(ScoreOf(p, d[p][j]), ScoreOf(q, d[q][k]))
    {
      KeptIff(rs, p, d[p][j]);
      var l :| 0 <= l < |rs[p]| && rs[p][l] == d[p][j];
      assert At(rs, p, l, n.id);
    }
    assert At(d, q, k, n.id) && IsBest(d, q, k);
  }

  lemma {:induction false} AllSurvive(rs: Results, q: nat, n: nat)
    requires q < |rs| && n <= |rs[q]|
    requires forall i :: 0 <= i < |rs[q]| ==> HoldsBest(rs, rs[q][i].id, q)
    ensures Survivors(rs, q, n) == rs[q][..n]
  {
    if n > 0 {
      AllSurvive(rs, q, n - 1);
    }
  }

  /** Running it a second time changes nothing. */
  lemma DedupIsIdempotent(rs: Results)
    ensures Dedup(Dedup(rs)) == Dedup(rs)
  {
    var d := Dedup(rs);
    forall q | 0 <= q < |rs|
      ensures Dedup(d)[q] == d[q]
    {
      forall i | 0 <= i < |d[q]|
        ensures HoldsBest(d, d[q][i].id, q)
      {
        BestSurvives(rs, q, d[q][i]);
      }
      AllSurvive(d, q, |d[q]|);
    }
  }
}
