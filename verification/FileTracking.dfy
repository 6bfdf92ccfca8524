/**
 External file changes: `FileChangeDetector::detect` of `crates/forge_app/src/file_tracking.rs`
 reads the tracked files concurrently and sorts what changed, `update_file_stats` of
 `crates/forge_app/src/changed_files.rs` records the new hashes and notifies the agent.

 `read` is the file system at one moment: the current hash, or None for an unreadable file.
 `rank` is the order of paths: two spellings of one path (`a/b` and `a//b`) have equal rank. The
 order of all paths is dense and has no ranking by integers, but the finitely many tracked paths of
 one call have one, and only they are ever ranked.
 */
module FileTracking {

  import opened Prelude

  // `tool` stands for the fields that are only carried along.
  datatype FileOperation = FileOperation(contentHash: Option<string>, tool: string)

  type Tracked = map<string, FileOperation>

  type FileSystem = string -> Option<string>

  datatype FileChange = FileChange(path: string, contentHash: Option<string>)

  predicate HasChanged(tracked: Tracked, read: FileSystem, path: string) {
    path in tracked && read(path) != tracked[path].contentHash
  }

  // An order in which the reads may finish: every tracked path, each once.
  ghost predicate IsOrder(order: seq<string>, tracked: Tracked) {
    && (forall p :: p in tracked <==> p in order)
    && forall i, j :: 0 <= i < j < |order| ==> order[i] != order[j]
  }

  // What the stream yields, in the order of completion.
  function Collected(tracked: Tracked, read: FileSystem, order: seq<string>): seq<FileChange> {
    if order == [] then []
    else
      var p := order[|order| - 1];
      Collected(tracked, read, order[..|order| - 1])
      + if HasChanged(tracked, read, p) then [FileChange(p, read(p))] else []
  }

  // One step of a stable sort: behind everything that is not greater.
  function Insert(sorted: seq<FileChange>, x: FileChange, rank: string -> int): seq<FileChange> {
    if sorted == [] then [x]
    else
      var n := |sorted| - 1;
      if rank(x.path) < rank(sorted[n].path) then Insert(sorted[..n], x, rank) + [sorted[n]] else sorted + [x]
  }

  function StableSort(xs: seq<FileChange>, rank: string -> int): seq<FileChange> {
    if xs == [] then [] else Insert(StableSort(xs[..|xs| - 1], rank), xs[|xs| - 1], rank)
  }

  function Detected(tracked: Tracked, read: FileSystem, order: seq<string>, rank: string -> int): seq<FileChange> {
    StableSort(Collected(tracked, read, order), rank)
  }

  method Detect(tracked: Tracked, read: FileSystem, order: seq<string>, rank: string -> int)
    returns (changes: seq<FileChange>)
    requires IsOrder(order, tracked)
    ensures changes == Detected(tracked, read, order, rank)
  {
    changes := [];
    for i := 0 to |order|
      invariant changes == Collected(tracked, read, order[..i])
    {
      assert order[..i + 1][..i] == order[..i];
      assert order[i] in tracked;
      var current := read(order[i]);
      if current != tracked[order[i]].contentHash {
        changes := changes + [FileChange(order[i], current)];
      }
    }
    assert order[..|order|] == order;
    changes := SortByPath(changes, rank);
  }

  method SortByPath(xs: seq<FileChange>, rank: string -> int) returns (sorted: seq<FileChange>)
    ensures sorted == StableSort(xs, rank)
  {
    sorted := [];
    for i := 0 to |xs|
      invariant sorted == StableSort(xs[..i], rank)
    {
      assert xs[..i + 1][..i] == xs[..i];
      sorted := InsertByPath(sorted, xs[i], rank);
    }
    assert xs[..|xs|] == xs;
  }

  method InsertByPath(sorted: seq<FileChange>, x: FileChange, rank: string -> int) returns (r: seq<FileChange>)
    ensures r == Insert(sorted, x, rank)
  {
    var k := |sorted|;
    assert sorted[..k] == sorted && sorted[k..] == [];
    while k > 0 && rank(x.path) < rank(sorted[k - 1].path)
      invariant 0 <= k <= |sorted|
      invariant Insert(sorted, x, rank) == Insert(sorted[..k], x, rank) + sorted[k..]
    {
      k := k - 1;
      OneStepLeft(sorted, k, x, rank);
    }
    r := sorted[..k] + [x] + sorted[k..];
  }

  lemma OneStepLeft(sorted: seq<FileChange>, k: nat, x: FileChange, rank: string -> int)
    requires k < |sorted| && rank(x.path) < rank(sorted[k].path)
    ensures Insert(sorted[..k + 1], x, rank) + sorted[k + 1..] == Insert(sorted[..k], x, rank) + sorted[k..]
  {
    assert sorted[..k + 1][..k] == sorted[..k];
    assert sorted[k..] == [sorted[k]] + sorted[k + 1..];
  }

  // ----- what is detected -----

  ghost predicate Sorted(xs: seq<FileChange>, rank: string -> int) {
    forall i, j :: 0 <= i < j < |xs| ==> rank(xs[i].path) <= rank(xs[j].path)
  }

  lemma {:induction false} InsertSorts(sorted: seq<FileChange>, x: FileChange, rank: string -> int)
    requires Sorted(sorted, rank)
    ensures Sorted(Insert(sorted, x, rank), rank)
    ensures forall y :: y in Insert(sorted, x, rank) <==> y == x || y in sorted
    ensures |Insert(sorted, x, rank)| == |sorted| + 1
  {
    if sorted != [] {
      var n := |sorted| - 1;
      InsertSorts(sorted[..n], x, rank);
      assert sorted == sorted[..n] + [sorted[n]];
      if rank(x.path) < rank(sorted[n].path) {
        var r := Insert(sorted[..n], x, rank);
        forall i | 0 <= i < |r|
          ensures rank(r[i].path) <= rank(sorted[n].path)
        {
          assert r[i] in r;
        }
      }
    }
  }

  lemma {:induction false} SortKeeps(xs: seq<FileChange>, rank: string -> int)
    ensures Sorted(StableSort(xs, rank), rank)
    ensures forall y :: y in StableSort(xs, rank) <==> y in xs
    ensures |StableSort(xs, rank)| == |xs|
  {
    if xs != [] {
      SortKeeps(xs[..|xs| - 1], rank);
      InsertSorts(StableSort(xs[..|xs| - 1], rank), xs[|xs| - 1], rank);
      assert xs == xs[..|xs| - 1] + [xs[|xs| - 1]];
    }
  }

  lemma {:induction false} CollectedAre(tracked: Tracked, read: FileSystem, order: seq<string>)
    ensures forall c :: c in Collected(tracked, read, order) <==>
              c.path in order && HasChanged(tracked, read, c.path) && c.contentHash == read(c.path)
  {
    if order != [] {
      CollectedAre(tracked, read, order[..|order| - 1]);
      assert order == order[..|order| - 1] + [order[|order| - 1]];
    }
  }

  /** What is detected is exactly the tracked files whose current hash differs from the stored
      one, with that hash, by path, whatever the order of completion. */
  lemma DetectedAreTheChanges(tracked: Tracked, read: FileSystem, order: seq<string>, rank: string -> int)
    requires IsOrder(order, tracked)
    ensures Sorted(Detected(tracked, read, order, rank), rank)
    ensures forall c :: c in Detected(tracked, read, order, rank) <==>
              c.path in tracked && read(c.path) != tracked[c.path].contentHash && c.contentHash == read(c.path)
  {
    CollectedAre(tracked, read, order);
    SortKeeps(Collected(tracked, read, order), rank);
  }

  // ----- independence of the order of completion -----

  // No two changed files have paths that compare equal.
  ghost predicate RanksDiffer(tracked: Tracked, read: FileSystem, rank: string -> int) {
    forall p, q :: HasChanged(tracked, read, p) && HasChanged(tracked, read, q) && p != q ==> rank(p) != rank(q)
  }

  ghost predicate OrderDoesNotShow(tracked: Tracked, read: FileSystem, rank: string -> int) {
    forall a, b :: IsOrder(a, tracked) && IsOrder(b, tracked) ==>
      Detected(tracked, read, a, rank) == Detected(tracked, read, b, rank)
  }

  // The first change of a given rank; None if there is none.
  function FirstOf(xs: seq<FileChange>, r: int, rank: string -> int): Option<FileChange> {
    if xs == [] then None
    else
      var n := |xs| - 1;
      var first := FirstOf(xs[..n], r, rank);
      if first.Some? then first else if rank(xs[n].path) == r then Some(xs[n]) else None
  }

  lemma {:induction false} InsertKeepsFirst(sorted: seq<FileChange>, x: FileChange, r: int, rank: string -> int)
    requires Sorted(sorted, rank)
    ensures var first := FirstOf(sorted, r, rank);
            FirstOf(Insert(sorted, x, rank), r, rank) ==
            if first.Some? then first else if rank(x.path) == r then Some(x) else None
  {
    if sorted == [] {
      assert [x][..0] == [];
    } else {
      var n := |sorted| - 1;
      if rank(x.path) < rank(sorted[n].path) {
        InsertKeepsFirst(sorted[..n], x, r, rank);
        var shorter := Insert(sorted[..n], x, rank);
        assert (shorter + [sorted[n]])[..|shorter|] == shorter;
      } else {
        assert (sorted + [x])[..|sorted|] == sorted;
      }
    }
  }

  lemma {:induction false} SortKeepsFirst(xs: seq<FileChange>, r: int, rank: string -> int)
    ensures FirstOf(StableSort(xs, rank), r, rank) == FirstOf(xs, r, rank)
  {
    if xs != [] {
      var pre := xs[..|xs| - 1];
      SortKeepsFirst(pre, r, rank);
      SortKeeps(pre, rank);
      InsertKeepsFirst(StableSort(pre, rank), xs[|xs| - 1], r, rank);
    }
  }

  ghost predicate StrictlySorted(xs: seq<FileChange>, rank: string -> int) {
    forall i, j :: 0 <= i < j < |xs| ==> rank(xs[i].path) < rank(xs[j].path)
  }

  ghost predicate DistinctRanks(xs: seq<FileChange>, rank: string -> int) {
    forall i, j :: 0 <= i < j < |xs| ==> rank(xs[i].path) != rank(xs[j].path)
  }

  lemma {:induction false} InsertStrictly(sorted: seq<FileChange>, x: FileChange, rank: string -> int)
    requires StrictlySorted(sorted, rank)
    requires forall i :: 0 <= i < |sorted| ==> rank(sorted[i].path) != rank(x.path)
    ensures StrictlySorted(Insert(sorted, x, rank), rank)
  {
    if sorted != [] {
      var n := |sorted| - 1;
      InsertSorts(sorted[..n], x, rank);
      InsertStrictly(sorted[..n], x, rank);
      if rank(x.path) < rank(sorted[n].path) {
        var r := Insert(sorted[..n], x, rank);
        forall i | 0 <= i < |r|
          ensures rank(r[i].path) < rank(sorted[n].path)
        {
          assert r[i] in r;
        }
      }
    }
  }

  lemma {:induction false} SortStrictly(xs: seq<FileChange>, rank: string -> int)
    requires DistinctRanks(xs, rank)
    ensures StrictlySorted(StableSort(xs, rank), rank)
  {
    if xs != [] {
      var n := |xs| - 1;
      SortStrictly(xs[..n], rank);
      SortKeeps(xs[..n], rank);
      var s := StableSort(xs[..n], rank);
      forall i | 0 <= i < |s|
        ensures rank(s[i].path) != rank(xs[n].path)
      {
        assert s[i] in xs[..n];
        var k :| 0 <= k < n && xs[k] == s[i];
      }
      InsertStrictly(s, xs[n], rank);
    }
  }

  ghost predicate SameMembers(a: seq<FileChange>, b: seq<FileChange>) {
    forall c :: c in a <==> c in b
  }

  lemma {:induction false} SortedListIsUnique(a: seq<FileChange>, b: seq<FileChange>, rank: string -> int)
    requires StrictlySorted(a, rank) && StrictlySorted(b, rank)
    requires SameMembers(a, b)
    ensures a == b
    decreases |a|
  {
    assert a != [] ==> a[|a| - 1] in b;
    assert b != [] ==> b[|b| - 1] in a;
    if a != [] {
      SameLast(a, b, rank);
      SortedListIsUnique(a[..|a| - 1], b[..|b| - 1], rank);
    }
  }

  lemma SameLast(a: seq<FileChange>, b: seq<FileChange>, rank: string -> int)
    requires StrictlySorted(a, rank) && StrictlySorted(b, rank)
    requires SameMembers(a, b) && a != [] && b != []
    ensures a[|a| - 1] == b[|b| - 1]
    ensures SameMembers(a[..|a| - 1], b[..|b| - 1])
  {
    var x, y := a[|a| - 1], b[|b| - 1];
    assert x in b && y in a;
    var i :| 0 <= i < |b| && b[i] == x;
    var j :| 0 <= j < |a| && a[j] == y;
    WithoutLast(a, rank);
    WithoutLast(b, rank);
    var a', b' := a[..|a| - 1], b[..|b| - 1];
    forall c: FileChange
      ensures c in a' <==> c in b'
    {
      assert c in a <==> c in b;
    }
  }

  lemma WithoutLast(a: seq<FileChange>, rank: string -> int)
    requires StrictlySorted(a, rank) && a != []
    ensures forall c :: c in a[..|a| - 1] <==> c in a && c != a[|a| - 1]
  {
    assert a == a[..|a| - 1] + [a[|a| - 1]];
  }

  lemma {:induction false} CollectedDistinct(tracked: Tracked, read: FileSystem, order: seq<string>, rank: string -> int)
    requires forall i, j :: 0 <= i < j < |order| ==> order[i] != order[j]
    requires RanksDiffer(tracked, read, rank)
    ensures DistinctRanks(Collected(tracked, read, order), rank)
  {
    if order != [] {
      var n := |order| - 1;
      CollectedDistinct(tracked, read, order[..n], rank);
      CollectedAre(tracked, read, order[..n]);
      var xs := Collected(tracked, read, order[..n]);
      forall i | 0 <= i < |xs| && HasChanged(tracked, read, order[n])
        ensures rank(xs[i].path) != rank(order[n])
      {
        assert xs[i] in xs;
        assert xs[i].path in order[..n];
      }
    }
  }

  lemma {:induction false} CollectedConcat(tracked: Tracked, read: FileSystem, a: seq<string>, b: seq<string>)
    ensures Collected(tracked, read, a + b) == Collected(tracked, read, a) + Collected(tracked, read, b)
  {
    if b == [] {
      assert a + b == a;
    } else {
      CollectedConcat(tracked, read, a, b[..|b| - 1]);
      assert (a + b)[..|a + b| - 1] == a + b[..|b| - 1];
    }
  }

  lemma {:induction false} FirstOfConcat(a: seq<FileChange>, b: seq<FileChange>, r: int, rank: string -> int)
    requires FirstOf(a, r, rank).Some?
    ensures FirstOf(a + b, r, rank) == FirstOf(a, r, rank)
  {
    if b == [] {
      assert a + b == a;
    } else {
      FirstOfConcat(a, b[..|b| - 1], r, rank);
      assert (a + b)[..|a + b| - 1] == a + b[..|b| - 1];
    }
  }

  // A file that finishes first comes first among those of its rank.
  lemma FirstFinished(tracked: Tracked, read: FileSystem, p: string, rest: seq<string>, rank: string -> int)
    requires HasChanged(tracked, read, p)
    ensures FirstOf(Detected(tracked, read, [p] + rest, rank), rank(p), rank) == Some(FileChange(p, read(p)))
  {
    CollectedConcat(tracked, read, [p], rest);
    assert [p][..0] == [];
    var first := [FileChange(p, read(p))];
    assert Collected(tracked, read, [p]) == first;
    assert first[..0] == [];
    FirstOfConcat(first, Collected(tracked, read, rest), rank(p), rank);
    SortKeepsFirst(Collected(tracked, read, [p] + rest), rank(p), rank);
  }

  lemma {:induction false} OrderFrom(s: set<string>) returns (order: seq<string>)
    ensures forall p :: p in s <==> p in order
    ensures forall i, j :: 0 <= i < j < |order| ==> order[i] != order[j]
    decreases s
  {
    order := [];
    if s != {} {
      var p :| p in s;
      var rest := OrderFrom(s - {p});
      order := [p] + rest;
      assert forall i :: 0 <= i < |rest| ==> rest[i] in s - {p};
    }
  }

  /** The detected list is the same for every order of completion exactly when no two changed
      files have paths that compare equal; paths that do are left in the order they finished. */
  lemma OrderDoesNotShowIff(tracked: Tracked, read: FileSystem, rank: string -> int)
    ensures OrderDoesNotShow(tracked, read, rank) <==> RanksDiffer(tracked, read, rank)
  {
    if RanksDiffer(tracked, read, rank) {
      forall a, b | IsOrder(a, tracked) && IsOrder(b, tracked)
        ensures Detected(tracked, read, a, rank) == Detected(tracked, read, b, rank)
      {
        CollectedDistinct(tracked, read, a, rank);
        CollectedDistinct(tracked, read, b, rank);
        SortStrictly(Collected(tracked, read, a), rank);
        SortStrictly(Collected(tracked, read, b), rank);
        DetectedAreTheChanges(tracked, read, a, rank);
        DetectedAreTheChanges(tracked, read, b, rank);
        SortedListIsUnique(Detected(tracked, read, a, rank), Detected(tracked, read, b, rank), rank);
      }
    } else {
      var p, q :| HasChanged(tracked, read, p) && HasChanged(tracked, read, q) && p != q && rank(p) == rank(q);
      EqualRanksShow(tracked, read, p, q, rank);
    }
  }

  lemma EqualRanksShow(tracked: Tracked, read: FileSystem, p: string, q: string, rank: string -> int)
    requires HasChanged(tracked, read, p) && HasChanged(tracked, read, q) && p != q && rank(p) == rank(q)
    ensures !OrderDoesNotShow(tracked, read, rank)
  {
    var a := OrderFrom(tracked.Keys - {p});
    var b := OrderFrom(tracked.Keys - {q});
    FirstIsOrder(tracked, p, a);
    FirstIsOrder(tracked, q, b);
    FirstFinished(tracked, read, p, a, rank);
    FirstFinished(tracked, read, q, b, rank);
    assert Detected(tracked, read, [p] + a, rank) != Detected(tracked, read, [q] + b, rank);
  }

  lemma FirstIsOrder(tracked: Tracked, p: string, rest: seq<string>)
    requires p in tracked
    requires forall x :: x in tracked.Keys - {p} <==> x in rest
    requires forall i, j :: 0 <= i < j < |rest| ==> rest[i] != rest[j]
    ensures IsOrder([p] + rest, tracked)
  {
    assert forall i :: 0 <= i < |rest| ==> rest[i] in rest;
  }

  // ----- recording the changes -----

  // The hash each file has now.
  function Refreshed(tracked: Tracked, read: FileSystem): Tracked {
    map p | p in tracked :: tracked[p].(contentHash := read(p))
  }

  // A user message that compaction may drop, naming the files.
  datatype Notice = Notice(files: seq<string>)

  class Conversation {
    var operations: Tracked
    var notices: seq<Notice>

    constructor (operations: Tracked)
      ensures this.operations == operations && notices == []
    {
      this.operations := operations;
      this.notices := [];
    }

    /** All stored hashes become the current ones, and one notice is added if and only if some
        tracked file had changed. */
    method UpdateFileStats(read: FileSystem, order: seq<string>, rank: string -> int)
      requires IsOrder(order, operations)
      modifies this
      ensures operations == Refreshed(old(operations), read)
      ensures operations.Keys == old(operations).Keys
      ensures forall p :: p in operations ==> operations[p] == old(operations)[p].(contentHash := read(p))
      ensures var changes := Detected(old(operations), read, order, rank);
              notices == old(notices) + if changes == [] then [] else [Notice(Paths(changes))]
      ensures notices == old(notices) <==> forall p :: p in old(operations) ==> !HasChanged(old(operations), read, p)
    {
      ghost var before := operations;
      DetectedAreTheChanges(before, read, order, rank);
      var changes := Detect(operations, read, order, rank);
      if changes == [] {
        forall p | p in before
          ensures !HasChanged(before, read, p)
        {
          assert HasChanged(before, read, p) ==> FileChange(p, read(p)) in changes;
        }
        return;
      }
      assert HasChanged(before, read, changes[0].path);
      var updated := RecordHashes(operations, changes);
      UpdatesAreAll(before, updated, read, changes);
      operations := updated;
      notices := notices + [Notice(Paths(changes))];
    }
  }

  // Set the stored hash of every changed file that is tracked.
  method RecordHashes(operations: Tracked, changes: seq<FileChange>) returns (updated: Tracked)
    ensures updated == Recorded(operations, changes)
  {
    updated := operations;
    for k := 0 to |changes|
      invariant updated == Recorded(operations, changes[..k])
    {
      assert changes[..k + 1][..k] == changes[..k];
      var c := changes[k];
      if c.path in updated {
        updated := updated[c.path := updated[c.path].(contentHash := c.contentHash)];
      }
    }
    assert changes[..|changes|] == changes;
  }

  function Recorded(operations: Tracked, changes: seq<FileChange>): Tracked {
    if changes == [] then operations
    else
      var before, c := Recorded(operations, changes[..|changes| - 1]), changes[|changes| - 1];
      if c.path in before then before[c.path := before[c.path].(contentHash := c.contentHash)] else before
  }

  lemma {:induction false} RecordedAre(operations: Tracked, read: FileSystem, changes: seq<FileChange>)
    requires forall k :: 0 <= k < |changes| ==> changes[k].contentHash == read(changes[k].path)
    ensures Recorded(operations, changes).Keys == operations.Keys
    ensures forall p :: p in operations ==>
              (Recorded(operations, changes)[p] ==
               if FileChange(p, read(p)) in changes then operations[p].(contentHash := read(p)) else operations[p])
  {
    if changes != [] {
      var n := |changes| - 1;
      RecordedAre(operations, read, changes[..n]);
      assert changes == changes[..n] + [changes[n]];
    }
  }

  lemma UpdatesAreAll(operations: Tracked, updated: Tracked, read: FileSystem, changes: seq<FileChange>)
    requires updated == Recorded(operations, changes)
    requires forall c :: c in changes <==> HasChanged(operations, read, c.path) && c.contentHash == read(c.path)
    ensures updated == Refreshed(operations, read)
  {
    assert forall k :: 0 <= k < |changes| ==> changes[k] in changes;
    RecordedAre(operations, read, changes);
    forall p | p in operations
      ensures updated[p] == operations[p].(contentHash := read(p))
    {
      assert FileChange(p, read(p)) in changes <==> HasChanged(operations, read, p);
    }
  }

  function Paths(changes: seq<FileChange>): seq<string> {
    seq(|changes|, i requires 0 <= i < |changes| => changes[i].path)
  }

  /** The notice names every changed file once and no other, by path. */
  lemma NoticeNamesTheChanges(tracked: Tracked, read: FileSystem, order: seq<string>, rank: string -> int)
    requires IsOrder(order, tracked)
    ensures var files := Paths(Detected(tracked, read, order, rank));
            && (forall p :: p in files <==> HasChanged(tracked, read, p))
            && |files| == |Collected(tracked, read, order)|
            && forall i, j :: 0 <= i < j < |files| ==> rank(files[i]) <= rank(files[j])
  {
    var changes := Detected(tracked, read, order, rank);
    DetectedAreTheChanges(tracked, read, order, rank);
    SortKeeps(Collected(tracked, read, order), rank);
    forall p
      ensures p in Paths(changes) <==> HasChanged(tracked, read, p)
    {
      if HasChanged(tracked, read, p) {
        assert FileChange(p, read(p)) in changes;
        var i :| 0 <= i < |changes| && changes[i] == FileChange(p, read(p));
        assert Paths(changes)[i] == p;
      }
      if p in Paths(changes) {
        var i :| 0 <= i < |changes| && Paths(changes)[i] == p;
        assert changes[i] in changes;
      }
    }
  }

  /** A second update while the files stay as they are finds nothing, in whatever order the reads
      finish, so it adds no notice. */
  lemma SecondUpdateIsSilent(tracked: Tracked, read: FileSystem, order: seq<string>, rank: string -> int)
    requires IsOrder(order, Refreshed(tracked, read))
    ensures Detected(Refreshed(tracked, read), read, order, rank) == []
    ensures Refreshed(Refreshed(tracked, read), read) == Refreshed(tracked, read)
  {
    var again := Detected(Refreshed(tracked, read), read, order, rank);
    assert again != [] ==> again[0] in again;
    DetectedAreTheChanges(Refreshed(tracked, read), read, order, rank);
  }
}
