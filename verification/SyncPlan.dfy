/**
 The workspace sync plan of `crates/forge_app/src/workspace_status.rs`: local and remote file
 hashes are compared by absolute path, and the plan says what to delete from the remote and what
 to upload to it.
 */
module SyncPlans {

  import opened Prelude

  datatype FileHash = FileHash(path: string, hash: string)

  datatype SyncStatus = InSync | Modified | New | Deleted

  datatype FileStatus = FileStatus(path: string, status: SyncStatus)

  datatype SyncPaths = SyncPaths(delete: seq<string>, upload: seq<string>)

  // ----- paths -----

  predicate IsAbsolute(path: string) {
    path != "" && path[0] == '/'
  }

  function Absolutize(base: string, path: string): string {
    if IsAbsolute(path) then path
    else if base == "" || base[|base| - 1] == '/' then base + path
    else base + "/" + path
  }

  function AbsolutizeAll(base: string, files: seq<FileHash>): seq<FileHash> {
    seq(|files|, i requires 0 <= i < |files| => FileHash(Absolutize(base, files[i].path), files[i].hash))
  }

  /** A relative path comes to lie directly below the base directory: behind it, with one
      separator between them unless the base ends in one or is empty. */
  lemma AbsolutizedIsBelowBase(base: string, path: string)
    requires !IsAbsolute(path)
    ensures var full := Absolutize(base, path);
            && base <= full && |path| <= |full| && full[|full| - |path|..] == path
            && full[|base|..|full| - |path|] == if base == "" || base[|base| - 1] == '/' then "" else "/"
  {
  }

  // The order of paths: character by character, as the ordered set keeps them.
  predicate Less(a: string, b: string) {
    b != "" && (a == "" || a[0] < b[0] || (a[0] == b[0] && Less(a[1..], b[1..])))
  }

  lemma {:induction false} LessIsTotal(a: string, b: string)
    ensures a == b || Less(a, b) || Less(b, a)
    ensures !(Less(a, b) && Less(b, a)) && !Less(a, a)
    decreases |a|
  {
    if a != "" && b != "" {
      LessIsTotal(a[1..], b[1..]);
      LessIsTotal(a[1..], a[1..]);
      assert a == [a[0]] + a[1..] && b == [b[0]] + b[1..];
    } else if a != "" {
      LessIsTotal(a[1..], a[1..]);
    }
  }

  lemma {:induction false} LessIsTransitive(a: string, b: string, c: string)
    requires Less(a, b) && Less(b, c)
    ensures Less(a, c)
    decreases |a|
  {
    if a != "" && a[0] == b[0] == c[0] {
      LessIsTransitive(a[1..], b[1..], c[1..]);
    }
  }

  // The first k characters agree, and there one path ends or has the smaller character.
  ghost predicate LessAt(a: string, b: string, k: int) {
    && 0 <= k <= |a| && k < |b|
    && (forall i :: 0 <= i < k ==> a[i] == b[i])
    && (k == |a| || a[k] < b[k])
  }

  lemma LessAtNext(a: string, b: string, k: int)
    requires a != "" && b != "" && 0 <= k
    ensures LessAt(a, b, k + 1) <==> a[0] == b[0] && LessAt(a[1..], b[1..], k)
  {
    if a[0] == b[0] && LessAt(a[1..], b[1..], k) {
      forall i | 0 <= i < k + 1
        ensures a[i] == b[i]
      {
        assert i > 0 ==> a[1..][i - 1] == b[1..][i - 1];
      }
    }
  }

  /** One path is less than another exactly when it is a proper prefix of it or has the smaller
      character at the first place where they differ. */
  lemma {:induction false} LessIff(a: string, b: string)
    ensures Less(a, b) <==> exists k :: LessAt(a, b, k)
    decreases |a|
  {
    if a != "" && b != "" && a[0] == b[0] {
      LessIff(a[1..], b[1..]);
      forall k | 0 <= k
        ensures LessAt(a, b, k + 1) <==> LessAt(a[1..], b[1..], k)
      {
        LessAtNext(a, b, k);
      }
      if k :| LessAt(a, b, k) {
        LessAtNext(a, b, k - 1);
      }
      if j :| LessAt(a[1..], b[1..], j) {
        LessAtNext(a, b, j);
      }
    } else if Less(a, b) {
      assert LessAt(a, b, 0);
    }
  }

  ghost predicate Ascending(paths: seq<string>) {
    forall i, j :: 0 <= i < j < |paths| ==> Less(paths[i], paths[j])
  }

  // The paths are exactly those of the set, each once, in order.
  ghost predicate IsSorting(paths: seq<string>, s: set<string>) {
    Ascending(paths) && forall p :: p in s <==> p in paths
  }

  /** There is only one way to list a set of paths in order, so the plan is determined by the
      sets it lists. */
  lemma {:induction false} SortingIsUnique(a: seq<string>, b: seq<string>, s: set<string>)
    requires IsSorting(a, s) && IsSorting(b, s)
    ensures a == b
    decreases |a|
  {
    assert a != [] ==> a[0] in s && b != [];
    assert b != [] ==> b[0] in s && a != [];
    if a != [] {
      SameHead(a, b, s);
      TailSorts(a, s);
      TailSorts(b, s);
      SortingIsUnique(a[1..], b[1..], s - {a[0]});
    }
  }

  lemma SameHead(a: seq<string>, b: seq<string>, s: set<string>)
    requires IsSorting(a, s) && IsSorting(b, s) && a != [] && b != []
    ensures a[0] == b[0]
  {
    assert a[0] in s && b[0] in s;
    var i :| 0 <= i < |b| && b[i] == a[0];
    var j :| 0 <= j < |a| && a[j] == b[0];
    LessIsTotal(a[0], b[0]);
  }

  lemma TailSorts(a: seq<string>, s: set<string>)
    requires IsSorting(a, s) && a != []
    ensures IsSorting(a[1..], s - {a[0]})
  {
    LessIsTotal(a[0], a[0]);
    assert forall i :: 0 <= i < |a[1..]| ==> a[1..][i] == a[i + 1];
    forall p | p in s && p != a[0]
      ensures p in a[1..]
    {
      var i :| 0 <= i < |a| && a[i] == p;
      assert a[1..][i - 1] == p;
    }
  }

  method SortPaths(s: set<string>) returns (paths: seq<string>)
    ensures IsSorting(paths, s)
  {
    paths := [];
    var left := s;
    while left != {}
      invariant left <= s && IsSorting(paths, s - left)
      decreases left
    {
      var p :| p in left;
      left := left - {p};
      var k := |paths|;
      while k > 0 && Less(p, paths[k - 1])
        invariant 0 <= k <= |paths|
        invariant k < |paths| ==> Less(p, paths[k])
      {
        k := k - 1;
      }
      InsertSorts(paths, k, p, s - left - {p});
      assert s - left == (s - left - {p}) + {p};
      paths := InsertedAt(paths, k, p);
    }
  }

  lemma InsertSorts(paths: seq<string>, k: nat, p: string, s: set<string>)
    requires IsSorting(paths, s) && p !in s
    requires k <= |paths| && (k < |paths| ==> Less(p, paths[k])) && (k > 0 ==> !Less(p, paths[k - 1]))
    ensures IsSorting(InsertedAt(paths, k, p), s + {p})
  {
    var r := InsertedAt(paths, k, p);
    if k > 0 {
      assert paths[k - 1] in s;
      LessIsTotal(p, paths[k - 1]);
    }
    forall i, j | 0 <= i < j < |r|
      ensures Less(r[i], r[j])
    {
      if j == k && i < k - 1 {
        LessIsTransitive(paths[i], paths[k - 1], p);
      } else if i == k && k < j - 1 {
        LessIsTransitive(p, paths[k], paths[j - 1]);
      }
    }
    InsertedMembers(paths, k, p);
  }

  // ----- the plan -----

  type Hashes = map<string, string>

  // Collecting into a map: the last entry for a path counts.
  function ToMap(files: seq<FileHash>): Hashes {
    if files == [] then map[]
    else ToMap(files[..|files| - 1])[files[|files| - 1].path := files[|files| - 1].hash]
  }

  function StatusOf(remote: Hashes, local: Hashes, path: string): SyncStatus
    requires path in local || path in remote
  {
    if path in local && path in remote then if local[path] == remote[path] then InSync else Modified
    else if path in local then New
    else Deleted
  }

  // The i-th file is the last with its path.
  ghost predicate LastWithPath(files: seq<FileHash>, i: int) {
    0 <= i < |files| && forall k :: i < k < |files| ==> files[k].path != files[i].path
  }

  /** In the map of a list of files each path has the hash of its last entry. */
  lemma {:induction false} LastEntryCounts(files: seq<FileHash>, i: int)
    requires LastWithPath(files, i)
    ensures files[i].path in ToMap(files) && ToMap(files)[files[i].path] == files[i].hash
  {
    if i < |files| - 1 {
      LastEntryCounts(files[..|files| - 1], i);
    }
  }

  lemma {:induction false} KeysArePaths(files: seq<FileHash>, path: string)
    ensures path in ToMap(files) <==> exists i :: LastWithPath(files, i) && files[i].path == path
  {
    if files != [] {
      var n := |files| - 1;
      KeysArePaths(files[..n], path);
      if files[n].path == path {
        assert LastWithPath(files, n);
      } else if i :| LastWithPath(files[..n], i) && files[..n][i].path == path {
        assert LastWithPath(files, i);
      }
      if i :| LastWithPath(files, i) && files[i].path == path && i < n {
        assert LastWithPath(files[..n], i);
      }
    }
  }

  /** The four statuses in terms of what is on either side. */
  lemma StatusIff(remote: Hashes, local: Hashes, path: string)
    requires path in local || path in remote
    ensures StatusOf(remote, local, path) == New <==> path !in remote
    ensures StatusOf(remote, local, path) == Deleted <==> path !in local
    ensures StatusOf(remote, local, path) == InSync <==> path in local && path in remote && local[path] == remote[path]
    ensures StatusOf(remote, local, path) == Modified <==> path in local && path in remote && local[path] != remote[path]
  {
  }

  function ToDelete(remote: Hashes, local: Hashes): set<string> {
    set p | p in remote && StatusOf(remote, local, p) == Deleted
  }

  function ToUpload(remote: Hashes, local: Hashes): set<string> {
    set p | p in local && (StatusOf(remote, local, p) == Modified || StatusOf(remote, local, p) == New)
  }

  method Collect(files: seq<FileHash>) returns (m: Hashes)
    ensures m == ToMap(files)
  {
    m := map[];
    for i := 0 to |files|
      invariant m == ToMap(files[..i])
    {
      assert files[..i + 1][..i] == files[..i];
      m := m[files[i].path := files[i].hash];
    }
    assert files[..|files|] == files;
  }

  // `remoteFiles` are absolute, as the constructor leaves them.
  datatype WorkspaceStatus = WorkspaceStatus(baseDir: string, remoteFiles: seq<FileHash>) {

    static function Create(baseDir: string, remoteFiles: seq<FileHash>): WorkspaceStatus {
      WorkspaceStatus(baseDir, AbsolutizeAll(baseDir, remoteFiles))
    }

    function Remote(): Hashes {
      ToMap(remoteFiles)
    }

    function Local(files: seq<FileHash>): Hashes {
      ToMap(AbsolutizeAll(baseDir, files))
    }

    method FileStatuses(localFiles: seq<FileHash>) returns (statuses: seq<FileStatus>, ghost paths: seq<string>)
      ensures IsSorting(paths, Local(localFiles).Keys + Remote().Keys)
      ensures |statuses| == |paths|
      ensures forall i :: 0 <= i < |paths| ==>
                && paths[i] in Local(localFiles).Keys + Remote().Keys
                && statuses[i] == FileStatus(paths[i], StatusOf(Remote(), Local(localFiles), paths[i]))
    {
      var local := Collect(AbsolutizeAll(baseDir, localFiles));
      var remote := Collect(remoteFiles);
      var all := SortPaths(local.Keys + remote.Keys);
      paths := all;
      statuses := [];
      for i := 0 to |all|
        invariant |statuses| == i
        invariant forall k :: 0 <= k < |all| ==> all[k] in local.Keys + remote.Keys
        invariant forall k :: 0 <= k < i ==> statuses[k] == FileStatus(all[k], StatusOf(remote, local, all[k]))
      {
        var path, status := all[i], Deleted;
        if path in local && path in remote {
          status := if local[path] == remote[path] then InSync else Modified;
        } else if path in local {
          status := New;
        }
        statuses := statuses + [FileStatus(path, status)];
      }
    }

    /** The two lists are exactly the paths to delete and to upload, each sorted. */
    method GetSyncPaths(localFiles: seq<FileHash>) returns (plan: SyncPaths)
      ensures IsSorting(plan.delete, ToDelete(Remote(), Local(localFiles)))
      ensures IsSorting(plan.upload, ToUpload(Remote(), Local(localFiles)))
    {
      var statuses, paths := FileStatuses(localFiles);
      ghost var gone, sent := ToDelete(Remote(), Local(localFiles)), ToUpload(Remote(), Local(localFiles));
      var delete: seq<string>, upload: seq<string> := [], [];
      for i := 0 to |statuses|
        invariant Picked(delete, paths, i, gone) && Picked(upload, paths, i, sent)
      {
        PickedNext(delete, paths, i, gone);
        PickedNext(upload, paths, i, sent);
        match statuses[i].status
        case Modified => upload := upload + [statuses[i].path];
        case New => upload := upload + [statuses[i].path];
        case Deleted => delete := delete + [statuses[i].path];
        case InSync =>
      }
      PickedAll(delete, paths, gone, Local(localFiles).Keys + Remote().Keys);
      PickedAll(upload, paths, sent, Local(localFiles).Keys + Remote().Keys);
      plan := SyncPaths(delete, upload);
    }
  }

  // Those of the first n paths that are wanted, in order.
  ghost predicate Picked(picked: seq<string>, paths: seq<string>, n: nat, wanted: set<string>) {
    && n <= |paths|
    && Ascending(picked)
    && (forall p :: p in picked <==> p in paths[..n] && p in wanted)
  }

  lemma PickedNext(picked: seq<string>, paths: seq<string>, n: nat, wanted: set<string>)
    requires n < |paths| && Ascending(paths) && Picked(picked, paths, n, wanted)
    ensures Picked(if paths[n] in wanted then picked + [paths[n]] else picked, paths, n + 1, wanted)
  {
    assert paths[..n + 1] == paths[..n] + [paths[n]];
    forall k | 0 <= k < |picked|
      ensures Less(picked[k], paths[n])
    {
      assert picked[k] in paths[..n];
      var i :| 0 <= i < n && paths[i] == picked[k];
    }
  }

  lemma PickedAll(picked: seq<string>, paths: seq<string>, wanted: set<string>, all: set<string>)
    requires Picked(picked, paths, |paths|, wanted) && IsSorting(paths, all) && wanted <= all
    ensures IsSorting(picked, wanted)
  {
    assert paths[..|paths|] == paths;
  }

  // ----- what carrying out a plan does -----

  // The remote hashes once `delete` is removed and `upload` is sent with its local hash.
  function Applied(remote: Hashes, local: Hashes, delete: set<string>, upload: set<string>): Hashes
    requires upload <= local.Keys
  {
    (remote - delete) + map p | p in upload :: local[p]
  }

  /** Carrying out the plan turns the remote files into the local ones; the two lists have no path
      in common, and no plan that achieves this does with less of either. */
  lemma PlanConvergesAndIsLeast(remote: Hashes, local: Hashes)
    ensures ToUpload(remote, local) <= local.Keys
    ensures Applied(remote, local, ToDelete(remote, local), ToUpload(remote, local)) == local
    ensures ToDelete(remote, local) !! ToUpload(remote, local)
    ensures forall delete, upload :: upload <= local.Keys && Applied(remote, local, delete, upload) == local ==>
              ToDelete(remote, local) <= delete && ToUpload(remote, local) <= upload
  {
    forall delete: set<string>, upload: set<string> |
      upload <= local.Keys && Applied(remote, local, delete, upload) == local
      ensures ToDelete(remote, local) <= delete && ToUpload(remote, local) <= upload
    {
      var after := Applied(remote, local, delete, upload);
      forall p | p in ToDelete(remote, local)
        ensures p in delete
      {
        assert p !in after;
      }
      forall p | p in ToUpload(remote, local)
        ensures p in upload
      {
        assert p in after && after[p] == local[p];
      }
    }
  }

  // A relative base directory other than the empty path is joined on again every time.
  predicate IsStable(base: string) {
    base == "" || IsAbsolute(base)
  }

  lemma StableIff(base: string, path: string)
    ensures Absolutize(base, Absolutize(base, path)) == Absolutize(base, path) <==> IsStable(base) || IsAbsolute(path)
  {
  }

  /** Absolutizing any list twice is absolutizing it once exactly when the base directory is
      absolute or empty. */
  lemma AbsolutizeTwiceIff(base: string)
    ensures (forall files :: AbsolutizeAll(base, AbsolutizeAll(base, files)) == AbsolutizeAll(base, files)) <==> IsStable(base)
  {
    if IsStable(base) {
      forall files
        ensures AbsolutizeAll(base, AbsolutizeAll(base, files)) == AbsolutizeAll(base, files)
      {
        AbsolutizeTwice(base, files);
      }
    } else {
      var files := [FileHash("x", "")];
      StableIff(base, "x");
      assert AbsolutizeAll(base, AbsolutizeAll(base, files))[0] != AbsolutizeAll(base, files)[0];
    }
  }

  lemma AbsolutizeTwice(base: string, files: seq<FileHash>)
    requires IsStable(base)
    ensures AbsolutizeAll(base, AbsolutizeAll(base, files)) == AbsolutizeAll(base, files)
  {
    forall i | 0 <= i < |files|
      ensures Absolutize(base, Absolutize(base, files[i].path)) == Absolutize(base, files[i].path)
    {
      StableIff(base, files[i].path);
    }
  }

  // Planning again after the plan was carried out finds nothing to do, whatever list the remote
  // then reports for its files.
  ghost predicate NothingLeft(base: string, remoteFiles: seq<FileHash>, localFiles: seq<FileHash>, reported: seq<FileHash>) {
    var w := WorkspaceStatus.Create(base, remoteFiles);
    var local, again := w.Local(localFiles), WorkspaceStatus.Create(base, reported);
    PlanConvergesAndIsLeast(w.Remote(), local);
    ToMap(reported) == Applied(w.Remote(), local, ToDelete(w.Remote(), local), ToUpload(w.Remote(), local)) ==>
      ToDelete(again.Remote(), local) == {} && ToUpload(again.Remote(), local) == {}
  }

  /** Planning again after any plan was carried out gives two empty lists exactly when the base
      directory is absolute or empty. */
  lemma ReplanIsEmptyIff(base: string)
    ensures (forall remoteFiles, localFiles, reported :: NothingLeft(base, remoteFiles, localFiles, reported)) <==> IsStable(base)
  {
    if IsStable(base) {
      forall remoteFiles, localFiles, reported
        ensures NothingLeft(base, remoteFiles, localFiles, reported)
      {
        ReplanIsEmpty(base, remoteFiles, localFiles, reported);
      }
    } else {
      RelativeBaseReplans(base);
    }
  }

  lemma ReplanIsEmpty(base: string, remoteFiles: seq<FileHash>, localFiles: seq<FileHash>, reported: seq<FileHash>)
    requires IsStable(base)
    ensures NothingLeft(base, remoteFiles, localFiles, reported)
  {
    var w := WorkspaceStatus.Create(base, remoteFiles);
    var local := w.Local(localFiles);
    PlanConvergesAndIsLeast(w.Remote(), local);
    if ToMap(reported) == local {
      KeysAreAbsolutized(base, localFiles);
      PathsAreKeys(reported);
      assert AbsolutizeAll(base, reported) == reported;
    }
  }

  // One new file: the remote reports it by its relative path, and the next plan uploads it anew.
  lemma RelativeBaseReplans(base: string)
    requires !IsStable(base)
    ensures var sent := Absolutize(base, "x"); !NothingLeft(base, [], [FileHash("x", "h")], [FileHash(sent, "h")])
  {
    var sent := Absolutize(base, "x");
    var files, reported := [FileHash("x", "h")], [FileHash(sent, "h")];
    StableIff(base, "x");
    ToMapOfOne(FileHash(sent, "h"));
    ToMapOfOne(FileHash(Absolutize(base, sent), "h"));
    assert AbsolutizeAll(base, files) == reported;
    assert AbsolutizeAll(base, reported) == [FileHash(Absolutize(base, sent), "h")];
    assert AbsolutizeAll(base, []) == [];
    var local: Hashes := map[sent := "h"];
    PlanConvergesAndIsLeast(map[], local);
    assert sent in ToUpload(WorkspaceStatus.Create(base, reported).Remote(), local);
  }

  lemma ToMapOfOne(f: FileHash)
    ensures ToMap([f]) == map[f.path := f.hash]
  {
    assert [f][..0] == [];
  }

  lemma {:induction false} KeysAreAbsolutized(base: string, files: seq<FileHash>)
    requires IsStable(base)
    ensures forall p :: p in ToMap(AbsolutizeAll(base, files)) ==> Absolutize(base, p) == p
  {
    if files != [] {
      KeysAreAbsolutized(base, files[..|files| - 1]);
      StableIff(base, files[|files| - 1].path);
      assert AbsolutizeAll(base, files)[..|files| - 1] == AbsolutizeAll(base, files[..|files| - 1]);
    }
  }

  lemma {:induction false} PathsAreKeys(files: seq<FileHash>)
    ensures forall i :: 0 <= i < |files| ==> files[i].path in ToMap(files)
  {
    if files != [] {
      PathsAreKeys(files[..|files| - 1]);
    }
  }
}
