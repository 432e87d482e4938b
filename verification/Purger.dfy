/** Planning a purge: which policy each file is checked against, and what the check says. */
module Purging {
  import opened Wrappers

  /** The components of an absolute path. */
  type Path = seq<string>

  datatype Intervals = Intervals(access: Option<nat>, creation: Option<nat>, modification: Option<nat>)

  datatype DirectoryPolicy = DirectoryPolicy(path: Path, threshold: nat, large: Intervals, small: Intervals)

  datatype FileInfo =
    | Symlink
    | Missing
    | Denied
    | Regular(size: nat, atime: int, ctime: int, mtime: int)

  datatype FileClass = Large | Small

  datatype FileReason = ATime | CTime | MTime

  datatype FileRecord = FileRecord(path: Path, fileClass: FileClass, reason: FileReason, interval: int, criterion: nat)

  /** `UnboundLocalError`: a file that may not be looked at leaves nothing to check. */
  datatype PlanError = NothingToCheck

  /** A directory that a walk comes by, with the names of its files. */
  datatype Dir = Dir(root: Path, files: seq<string>)

  datatype Plan = Plan(files: seq<FileRecord>, directories: seq<Path>)

  /** A call of `_check_file`, as the debug log tells it. */
  datatype Check = Check(root: Path, file: string, policy: DirectoryPolicy)

  // ----- one file

  /** Older than an interval that is set and not zero. */
  predicate Expired(limit: Option<nat>, time: int, when: int) {
    limit.GetOr(0) != 0 && time + limit.GetOr(0) < when
  }

  /** `_check_file` */
  function CheckFile(path: Path, info: FileInfo, policy: DirectoryPolicy, when: int): Result<Option<FileRecord>, PlanError> {
    match info
    case Symlink => Ok(None)
    case Missing => Ok(None)
    case Denied => Err(NothingToCheck)
    case Regular(size, atime, ctime, mtime) =>
      var large := size >= policy.threshold;
      var limits := if large then policy.large else policy.small;
      var fileClass := if large then Large else Small;
      if Expired(limits.access, atime, when) then
        Ok(Some(FileRecord(path, fileClass, ATime, when - atime, limits.access.value)))
      else if Expired(limits.creation, ctime, when) then
        Ok(Some(FileRecord(path, fileClass, CTime, when - ctime, limits.creation.value)))
      else if Expired(limits.modification, mtime, when) then
        Ok(Some(FileRecord(path, fileClass, MTime, when - mtime, limits.modification.value)))
      else Ok(None)
  }

  /** Only a file that may not be looked at makes the check fail. */
  lemma OnlyDeniedFails(path: Path, info: FileInfo, policy: DirectoryPolicy, when: int)
    ensures CheckFile(path, info, policy, when).Err? <==> info.Denied?
  {
  }

  /** A file that would be purged would also be purged later. */
  lemma PurgedStaysPurged(path: Path, info: FileInfo, policy: DirectoryPolicy, when: int, later: int)
    requires when <= later
    ensures var now, then_ := CheckFile(path, info, policy, when), CheckFile(path, info, policy, later);
            now.Ok? && now.value.Some? ==> then_.Ok? && then_.value.Some?
  {
  }

  /** What is purged has outlived the interval it is purged for, and that interval is not zero. */
  lemma PurgedIsOld(path: Path, info: FileInfo, policy: DirectoryPolicy, when: int)
    ensures var r := CheckFile(path, info, policy, when);
            r.Ok? && r.value.Some? ==> r.value.value.path == path && r.value.value.interval > r.value.value.criterion > 0
  {
  }

  /**
   What a record says of a file: its size class is large from the threshold on, the reason is
   the first of access, creation and modification whose time, plus the interval set for the
   class, lies before now, and it gives the file's age and that interval.
   */
  predicate Says(rec: FileRecord, path: Path, size: nat, atime: int, ctime: int, mtime: int, policy: DirectoryPolicy, when: int) {
    var limits := if rec.fileClass.Large? then policy.large else policy.small;
    && rec.path == path && (rec.fileClass.Large? <==> policy.threshold <= size)
    && rec.criterion > 0 && rec.interval > rec.criterion
    && (match rec.reason
        case ATime => limits.access == Some(rec.criterion) && rec.interval == when - atime
        case CTime => limits.creation == Some(rec.criterion) && rec.interval == when - ctime && Kept(limits.access, when - atime)
        case MTime => && limits.modification == Some(rec.criterion) && rec.interval == when - mtime
                      && Kept(limits.access, when - atime) && Kept(limits.creation, when - ctime))
  }

  /** A file of this age is not purged for this interval. */
  predicate Kept(limit: Option<nat>, age: int) {
    limit.None? || limit.value == 0 || age <= limit.value
  }

  /** The record of a file is exactly what it should be, and a file without one is not too old for anything. */
  lemma CheckTells(path: Path, info: FileInfo, policy: DirectoryPolicy, when: int, rec: FileRecord)
    ensures CheckFile(path, info, policy, when) == Ok(Some(rec)) <==>
              info.Regular? && Says(rec, path, info.size, info.atime, info.ctime, info.mtime, policy, when)
    ensures CheckFile(path, info, policy, when) == Ok(None) <==>
              info.Symlink? || info.Missing?
              || (info.Regular?
                  && var limits := if policy.threshold <= info.size then policy.large else policy.small;
                     Kept(limits.access, when - info.atime) && Kept(limits.creation, when - info.ctime) && Kept(limits.modification, when - info.mtime))
  {
  }

  // ----- paths

  ghost predicate PathOk(path: Path) {
    forall c | c in path :: c != ""
  }

  /** The length of a path written out. */
  function Written(path: Path): nat {
    if path == [] then 1 else Slashed(path)
  }

  function Slashed(path: Path): nat {
    if path == [] then 0 else Slashed(path[..|path| - 1]) + 1 + |path[|path| - 1]|
  }

  lemma {:induction false} DeeperIsLonger(a: Path, b: Path)
    requires a <= b && a != b && PathOk(b)
    ensures Slashed(a) + 2 <= Slashed(b) && Written(a) < Written(b)
  {
    var front := b[..|b| - 1];
    assert b[|b| - 1] in b;
    if a != front {
      assert forall c | c in front :: c in b;
      DeeperIsLonger(a, front);
    }
  }

  function InsertPath(path: Path, paths: seq<Path>): seq<Path> {
    if paths == [] || Written(path) <= Written(paths[0]) then [path] + paths
    else [paths[0]] + InsertPath(path, paths[1..])
  }

  /** `sorted` by the length of the path written out. */
  function SortPaths(paths: seq<Path>): seq<Path> {
    if paths == [] then [] else InsertPath(paths[0], SortPaths(paths[1..]))
  }

  ghost predicate Ascending(paths: seq<Path>) {
    forall j, k | 0 <= j < k < |paths| :: Written(paths[j]) <= Written(paths[k])
  }

  lemma {:induction false} InsertKeeps(path: Path, paths: seq<Path>)
    requires Ascending(paths)
    ensures Ascending(InsertPath(path, paths))
    ensures forall p :: p in InsertPath(path, paths) <==> p == path || p in paths
  {
    if paths == [] || Written(path) <= Written(paths[0]) {
    } else {
      InsertKeeps(path, paths[1..]);
      assert paths == [paths[0]] + paths[1..];
      var rest := InsertPath(path, paths[1..]);
      forall k | 0 <= k < |rest| ensures Written(paths[0]) <= Written(rest[k]) {
        assert rest[k] in rest;
      }
    }
  }

  lemma {:induction false} SortKeeps(paths: seq<Path>)
    ensures Ascending(SortPaths(paths))
    ensures forall p :: p in SortPaths(paths) <==> p in paths
  {
    if paths != [] {
      SortKeeps(paths[1..]);
      InsertKeeps(paths[0], SortPaths(paths[1..]));
      assert paths == [paths[0]] + paths[1..];
    }
  }

  // ----- policies

  function PathsOf(policies: seq<DirectoryPolicy>): seq<Path> {
    seq(|policies|, k requires 0 <= k < |policies| => policies[k].path)
  }

  /** The first policy listed for a path. */
  ghost predicate FirstPolicy(policies: seq<DirectoryPolicy>, path: Path, policy: DirectoryPolicy) {
    exists k :: 0 <= k < |policies| && policies[k] == policy && policy.path == path
                && forall j | 0 <= j < k :: policies[j].path != path
  }

  /** `_get_directory_policy` */
  method GetDirectoryPolicy(policies: seq<DirectoryPolicy>, path: Path) returns (policy: Option<DirectoryPolicy>)
    ensures policy.Some? ==> FirstPolicy(policies, path, policy.value)
    ensures policy.None? ==> path !in PathsOf(policies)
  {
    for k := 0 to |policies|
      invariant forall j | 0 <= j < k :: policies[j].path != path
    {
      if policies[k].path == path {
        return Some(policies[k]);
      }
    }
    policy := None;
  }

  /** The deepest of some directories that a path lies in: all the others it lies in enclose it. */
  ghost predicate IsDeepest(directory: Path, directories: seq<Path>, root: Path) {
    directory in directories && directory <= root && forall d | d in directories && d <= root :: d <= directory
  }

  ghost predicate Covered(root: Path, directories: seq<Path>) {
    exists d :: d in directories && d <= root
  }

  /** `_check_visited` */
  method CheckVisited(root: Path, visited: seq<Path>) returns (found: bool)
    ensures found <==> Covered(root, visited)
  {
    for k := 0 to |visited|
      invariant forall j | 0 <= j < k :: !(visited[j] <= root)
    {
      if visited[k] <= root {
        assert visited[k] in visited;
        return true;
      }
    }
    found := false;
  }

  // ----- the plan

  ghost predicate TreeOk(tree: seq<Dir>) {
    && (forall j, k | 0 <= j < k < |tree| :: tree[j].root != tree[k].root)
    && (forall dir | dir in tree :: PathOk(dir.root) && forall a, b | 0 <= a < b < |dir.files| :: dir.files[a] != dir.files[b])
  }

  /** The policy a directory's files are to be checked against: the first one listed for the deepest path. */
  ghost predicate Governs(policy: DirectoryPolicy, policies: seq<DirectoryPolicy>, root: Path) {
    IsDeepest(policy.path, PathsOf(policies), root) && FirstPolicy(policies, policy.path, policy)
  }

  /** A log of checks is right: each of a file of the tree, by the policy that governs it, and none twice. */
  ghost predicate LogOk(log: seq<Check>, tree: seq<Dir>, policies: seq<DirectoryPolicy>) {
    && (forall c | c in log :: Governs(c.policy, policies, c.root) && exists dir :: dir in tree && dir.root == c.root && c.file in dir.files)
    && (forall a, b | 0 <= a < b < |log| :: !(log[a].root == log[b].root && log[a].file == log[b].file))
  }

  /** Some check of the log is of this file. */
  ghost predicate Logged(root: Path, file: string, log: seq<Check>) {
    exists k :: 0 <= k < |log| && log[k].root == root && log[k].file == file
  }

  /** The records that the checks of a log give. */
  function Records(log: seq<Check>, info: Path -> FileInfo, when: int): seq<FileRecord> {
    if log == [] then []
    else
      var last := log[|log| - 1];
      var path := last.root + [last.file];
      var r := CheckFile(path, info(path), last.policy, when);
      Records(log[..|log| - 1], info, when) + (if r.Ok? && r.value.Some? then [r.value.value] else [])
  }

  /**
   A plan is right for the checks made: it has one record for every file checked that is too
   old, says of it what it should, and has no others.
   */
  ghost predicate PlanOk(files: seq<FileRecord>, log: seq<Check>, info: Path -> FileInfo, when: int) {
    && (forall rec | rec in files :: exists c | c in log ::
          var x := info(c.root + [c.file]);
          x.Regular? && Says(rec, c.root + [c.file], x.size, x.atime, x.ctime, x.mtime, c.policy, when))
    && (forall c | c in log && info(c.root + [c.file]).Regular? ::
          var x := info(c.root + [c.file]);
          var limits := if c.policy.threshold <= x.size then c.policy.large else c.policy.small;
          || (exists rec | rec in files :: Says(rec, c.root + [c.file], x.size, x.atime, x.ctime, x.mtime, c.policy, when))
          || (Kept(limits.access, when - x.atime) && Kept(limits.creation, when - x.ctime) && Kept(limits.modification, when - x.mtime)))
    && (forall a, b | 0 <= a < b < |files| :: files[a].path != files[b].path)
  }

  lemma {:induction false} RecordsAre(log: seq<Check>, info: Path -> FileInfo, when: int, rec: FileRecord)
    ensures rec in Records(log, info, when) <==>
              exists c | c in log :: CheckFile(c.root + [c.file], info(c.root + [c.file]), c.policy, when) == Ok(Some(rec))
  {
    hide CheckFile;
    if log != [] {
      var n := |log| - 1;
      RecordsAre(log[..n], info, when, rec);
      assert log == log[..n] + [log[n]];
    }
  }

  lemma {:induction false} RecordsApart(log: seq<Check>, info: Path -> FileInfo, when: int)
    requires forall a, b | 0 <= a < b < |log| :: !(log[a].root == log[b].root && log[a].file == log[b].file)
    ensures forall a, b | 0 <= a < b < |Records(log, info, when)| :: Records(log, info, when)[a].path != Records(log, info, when)[b].path
  {
    hide CheckFile;
    if log != [] {
      var n := |log| - 1;
      RecordsApart(log[..n], info, when);
      var before, path := Records(log[..n], info, when), log[n].root + [log[n].file];
      PurgedIsOld(path, info(path), log[n].policy, when);
      forall a | 0 <= a < |before| ensures before[a].path != path {
        RecordsAre(log[..n], info, when, before[a]);
        var c :| c in log[..n] && CheckFile(c.root + [c.file], info(c.root + [c.file]), c.policy, when) == Ok(Some(before[a]));
        var k :| 0 <= k < n && log[..n][k] == c;
        PurgedIsOld(c.root + [c.file], info(c.root + [c.file]), c.policy, when);
        PathParts(c.root, c.file, log[n].root, log[n].file);
      }
    }
  }

  lemma PathParts(root: Path, file: string, other: Path, name: string)
    ensures root + [file] == other + [name] ==> root == other && file == name
  {
    assert (root + [file])[..|root|] == root && (other + [name])[..|other|] == other;
  }

  lemma RecordsNext(log: seq<Check>, c: Check, info: Path -> FileInfo, when: int)
    ensures var r := CheckFile(c.root + [c.file], info(c.root + [c.file]), c.policy, when);
            Records(log + [c], info, when) == Records(log, info, when) + (if r.Ok? && r.value.Some? then [r.value.value] else [])
  {
    hide CheckFile;
    assert (log + [c])[..|log|] == log;
  }

  /** The records that the checks of a log give are the right plan for it. */
  lemma RecordsAreRight(log: seq<Check>, info: Path -> FileInfo, when: int)
    requires forall a, b | 0 <= a < b < |log| :: !(log[a].root == log[b].root && log[a].file == log[b].file)
    requires forall c | c in log :: !info(c.root + [c.file]).Denied?
    ensures PlanOk(Records(log, info, when), log, info, when)
  {
    hide CheckFile, Says, Kept, Records;
    var files := Records(log, info, when);
    RecordsApart(log, info, when);
    forall rec | rec in files
      ensures exists c | c in log ::
                var x := info(c.root + [c.file]);
                x.Regular? && Says(rec, c.root + [c.file], x.size, x.atime, x.ctime, x.mtime, c.policy, when)
    {
      RecordsAre(log, info, when, rec);
      var c :| c in log && CheckFile(c.root + [c.file], info(c.root + [c.file]), c.policy, when) == Ok(Some(rec));
      CheckTells(c.root + [c.file], info(c.root + [c.file]), c.policy, when, rec);
    }
    forall c | c in log && info(c.root + [c.file]).Regular?
      ensures var x := info(c.root + [c.file]);
              var limits := if c.policy.threshold <= x.size then c.policy.large else c.policy.small;
              || (exists rec | rec in files :: Says(rec, c.root + [c.file], x.size, x.atime, x.ctime, x.mtime, c.policy, when))
              || (Kept(limits.access, when - x.atime) && Kept(limits.creation, when - x.ctime) && Kept(limits.modification, when - x.mtime))
    {
      var path := c.root + [c.file];
      var r := CheckFile(path, info(path), c.policy, when);
      OnlyDeniedFails(path, info(path), c.policy, when);
      var some := FileRecord(path, Large, ATime, 0, 0);
      if r.value.Some? {
        RecordsAre(log, info, when, r.value.value);
        CheckTells(path, info(path), c.policy, when, r.value.value);
      } else {
        CheckTells(path, info(path), c.policy, when, some);
      }
    }
  }

  /** The files of these directories have all been logged, and no others. */
  ghost predicate LoggedExactly(tree: seq<Dir>, done: set<Path>, log: seq<Check>) {
    && (forall dir | dir in tree && dir.root in done :: forall file | file in dir.files :: Logged(dir.root, file, log))
    && (forall c | c in log :: c.root in done)
  }

  ghost function CoveredRoots(tree: seq<Dir>, directories: seq<Path>): set<Path> {
    set dir | dir in tree && Covered(dir.root, directories) :: dir.root
  }

  /** The checks of the files of one directory. */
  function ChecksOf(dir: Dir, policy: DirectoryPolicy): seq<Check> {
    seq(|dir.files|, k requires 0 <= k < |dir.files| => Check(dir.root, dir.files[k], policy))
  }

  ghost predicate Readable(dir: Dir, info: Path -> FileInfo) {
    forall file | file in dir.files :: !info(dir.root + [file]).Denied?
  }

  /** The innermost loop of `plan`. */
  method CheckDirectory(dir: Dir, policy: DirectoryPolicy, log: seq<Check>, purge: seq<FileRecord>, info: Path -> FileInfo, when: int)
    returns (r: Result<(seq<Check>, seq<FileRecord>), PlanError>)
    requires purge == Records(log, info, when)
    ensures r.Ok? <==> Readable(dir, info)
    ensures r.Ok? ==> r.value.0 == log + ChecksOf(dir, policy) && r.value.1 == Records(r.value.0, info, when)
  {
    hide CheckFile, Records;
    var checks, records := log, purge;
    assert log + ChecksOf(dir, policy)[..0] == log;
    for k := 0 to |dir.files|
      invariant checks == log + ChecksOf(dir, policy)[..k] && records == Records(checks, info, when)
      invariant forall j | 0 <= j < k :: !info(dir.root + [dir.files[j]]).Denied?
    {
      var path := dir.root + [dir.files[k]];
      var found := CheckFile(path, info(path), policy, when);
      OnlyDeniedFails(path, info(path), policy, when);
      if found.Err? {
        assert dir.files[k] in dir.files;
        return Err(found.error);
      }
      RecordsNext(checks, Check(dir.root, dir.files[k], policy), info, when);
      checks := checks + [Check(dir.root, dir.files[k], policy)];
      if found.value.Some? {
        records := records + [found.value.value];
      }
    }
    assert ChecksOf(dir, policy)[..|dir.files|] == ChecksOf(dir, policy);
    r := Ok((checks, records));
  }

  /** A directory not in any tree walked before lies deepest in the one walked now. */
  lemma DeepestNow(d: Path, visited: seq<Path>, directories: seq<Path>, root: Path)
    requires PathOk(root) && d in directories && d <= root && !Covered(root, visited)
    requires forall e | e in directories :: e in visited || Written(e) <= Written(d)
    ensures IsDeepest(d, directories, root)
  {
    forall e | e in directories && e <= root ensures e <= d {
      if |e| > |d| {
        assert d <= e && forall c | c in e :: c in root;
        DeeperIsLonger(d, e);
        assert false;
      }
    }
  }

  lemma LogGrows(log: seq<Check>, dir: Dir, policy: DirectoryPolicy, tree: seq<Dir>, policies: seq<DirectoryPolicy>, done: set<Path>)
    requires TreeOk(tree) && dir in tree && LogOk(log, tree, policies) && LoggedExactly(tree, done, log)
    requires dir.root !in done && Governs(policy, policies, dir.root)
    ensures LogOk(log + ChecksOf(dir, policy), tree, policies)
    ensures LoggedExactly(tree, done + {dir.root}, log + ChecksOf(dir, policy))
  {
    var more := ChecksOf(dir, policy);
    var all := log + more;
    forall c | c in all ensures Governs(c.policy, policies, c.root) && c.root in done + {dir.root}
      ensures exists e :: e in tree && e.root == c.root && c.file in e.files
    {
      if c in more {
        var k :| 0 <= k < |more| && more[k] == c;
        assert dir.root == c.root && c.file in dir.files;
      }
    }
    forall a, b | 0 <= a < b < |all| ensures !(all[a].root == all[b].root && all[a].file == all[b].file) {
      if a < |log| <= b {
        assert log[a] in log;
      }
    }
    forall e, file | e in tree && e.root in done + {dir.root} && file in e.files ensures Logged(e.root, file, all) {
      if e.root in done {
        assert Logged(e.root, file, log);
        var k :| 0 <= k < |log| && log[k].root == e.root && log[k].file == file;
        assert all[k] == log[k];
      } else {
        var m :| 0 <= m < |dir.files| && dir.files[m] == file;
        assert all[|log| + m] == Check(dir.root, file, policy);
      }
    }
  }

  lemma CoveredNext(tree: seq<Dir>, d: Path, visited: seq<Path>)
    ensures CoveredRoots(tree, [d] + visited) == CoveredRoots(tree, visited) + set dir | dir in tree && d <= dir.root :: dir.root
  {
    forall root ensures Covered(root, [d] + visited) <==> Covered(root, visited) || d <= root {
      if Covered(root, visited) {
        var e :| e in visited && e <= root;
        assert e in [d] + visited;
      }
      if d <= root {
        assert d in [d] + visited;
      }
    }
  }

  /** The roots in the first directories of a tree that lie in `d`. */
  ghost function Walked(tree: seq<Dir>, n: nat, d: Path): set<Path>
    requires n <= |tree|
  {
    set k | 0 <= k < n && d <= tree[k].root :: tree[k].root
  }

  lemma WalkedNext(tree: seq<Dir>, n: nat, d: Path)
    requires n < |tree|
    ensures Walked(tree, n + 1, d) == Walked(tree, n, d) + if d <= tree[n].root then {tree[n].root} else {}
  {
  }

  lemma WalkedAll(tree: seq<Dir>, d: Path)
    ensures Walked(tree, |tree|, d) == set dir | dir in tree && d <= dir.root :: dir.root
    ensures Walked(tree, 0, d) == {}
  {
  }

  /** A directory that no policy visited before covers, in the tree of `d`, is governed by the policy of `d`. */
  lemma GovernsNow(d: Path, visited: seq<Path>, policies: seq<DirectoryPolicy>, policy: DirectoryPolicy, root: Path)
    requires PathOk(root) && d in PathsOf(policies) && d <= root && !Covered(root, visited)
    requires forall e | e in PathsOf(policies) :: e in visited || Written(e) <= Written(d)
    requires FirstPolicy(policies, d, policy)
    ensures Governs(policy, policies, root)
  {
    DeepestNow(d, visited, PathsOf(policies), root);
  }

  ghost predicate AllRead(tree: seq<Dir>, roots: set<Path>, info: Path -> FileInfo) {
    forall dir | dir in tree && dir.root in roots :: Readable(dir, info)
  }

  /** The walk of one policy directory's tree, leaving out what has been visited. */
  method WalkTree(d: Path, policy: DirectoryPolicy, visited: seq<Path>, tree: seq<Dir>, ghost policies: seq<DirectoryPolicy>,
                  log: seq<Check>, purge: seq<FileRecord>, info: Path -> FileInfo, when: int)
    returns (r: Result<(seq<Check>, seq<FileRecord>), PlanError>)
    requires TreeOk(tree) && d in PathsOf(policies) && FirstPolicy(policies, d, policy)
    requires forall e | e in PathsOf(policies) :: e in visited || Written(e) <= Written(d)
    requires purge == Records(log, info, when) && LogOk(log, tree, policies)
    requires LoggedExactly(tree, CoveredRoots(tree, visited), log) && AllRead(tree, CoveredRoots(tree, visited), info)
    ensures r.Ok? <==> AllRead(tree, CoveredRoots(tree, [d] + visited), info)
    ensures r.Ok? ==>
              && r.value.1 == Records(r.value.0, info, when) && LogOk(r.value.0, tree, policies)
              && LoggedExactly(tree, CoveredRoots(tree, [d] + visited), r.value.0)
  {
    hide LogOk, LoggedExactly, Governs, FirstPolicy, ChecksOf, Readable, Walked, CoveredRoots, Covered, AllRead, Records;
    ghost var done, roots := CoveredRoots(tree, visited), CoveredRoots(tree, visited);
    var checks, records := log, purge;
    CoveredNext(tree, d, visited);
    WalkedAll(tree, d);
    for n := 0 to |tree|
      invariant roots == done + Walked(tree, n, d)
      invariant records == Records(checks, info, when) && LogOk(checks, tree, policies)
      invariant LoggedExactly(tree, roots, checks) && AllRead(tree, roots, info)
    {
      WalkedNext(tree, n, d);
      if d <= tree[n].root {
        var skip := CheckVisited(tree[n].root, visited);
        if !skip {
          GovernsNow(d, visited, policies, policy, tree[n].root);
          NotYet(tree, n, d, visited);
          var checked := CheckDirectory(tree[n], policy, checks, records, info, when);
          if checked.Err? {
            MustBeRead(tree, n, d, visited, info);
            return Err(checked.error);
          }
          LogGrows(checks, tree[n], policy, tree, policies, roots);
          OneMoreRead(tree, n, roots, info);
          checks, records, roots := checked.value.0, checked.value.1, roots + {tree[n].root};
        } else {
          InCovered(tree, n, visited);
        }
      }
    }
    r := Ok((checks, records));
  }

  lemma InCovered(tree: seq<Dir>, n: nat, directories: seq<Path>)
    requires n < |tree| && Covered(tree[n].root, directories)
    ensures tree[n].root in CoveredRoots(tree, directories)
  {
    assert tree[n] in tree;
  }

  lemma MustBeRead(tree: seq<Dir>, n: nat, d: Path, visited: seq<Path>, info: Path -> FileInfo)
    requires n < |tree| && d <= tree[n].root && !Readable(tree[n], info)
    ensures !AllRead(tree, CoveredRoots(tree, [d] + visited), info)
  {
    assert tree[n] in tree && d in [d] + visited;
    InCovered(tree, n, [d] + visited);
  }

  lemma NotYet(tree: seq<Dir>, n: nat, d: Path, visited: seq<Path>)
    requires TreeOk(tree) && n < |tree| && !Covered(tree[n].root, visited)
    ensures tree[n].root !in CoveredRoots(tree, visited) + Walked(tree, n, d) && PathOk(tree[n].root)
  {
  }

  lemma OneMoreRead(tree: seq<Dir>, n: nat, roots: set<Path>, info: Path -> FileInfo)
    requires TreeOk(tree) && n < |tree| && AllRead(tree, roots, info) && Readable(tree[n], info)
    ensures AllRead(tree, roots + {tree[n].root}, info)
  {
    forall dir | dir in tree && dir.root in roots + {tree[n].root} ensures Readable(dir, info) {
      if dir.root !in roots {
        var k :| 0 <= k < |tree| && tree[k] == dir;
      }
    }
  }

  /** `Purger` */
  class Purger {
    var plan: Option<Plan>

    constructor ()
      ensures plan.None?
    {
      plan := None;
    }

    /**
     `plan`. It succeeds if and only if every file under a policy directory may be looked at.
     Then every such file has been checked once, against the first policy listed for the
     deepest policy directory it lies in, no other file has been checked, and the plan is what
     the checks gave.
     */
    method MakePlan(policies: seq<DirectoryPolicy>, tree: seq<Dir>, info: Path -> FileInfo, when: int)
      returns (r: Result<seq<Check>, PlanError>)
      requires TreeOk(tree)
      modifies this
      ensures r.Ok? <==> AllRead(tree, CoveredRoots(tree, PathsOf(policies)), info)
      ensures r.Err? ==> plan.None?
      ensures r.Ok? ==>
                && LogOk(r.value, tree, policies) && LoggedExactly(tree, CoveredRoots(tree, PathsOf(policies)), r.value)
                && plan.Some? && plan.value.files == Records(r.value, info, when) && PlanOk(plan.value.files, r.value, info, when)
                && Ascending(plan.value.directories) && forall p :: p in plan.value.directories <==> p in PathsOf(policies)
    {
      hide LogOk, LoggedExactly, Readable, FirstPolicy, CoveredRoots, AllRead, Ascending, PlanOk, Records, Covered;
      plan := None;
      ghost var paths := PathsOf(policies);
      var directories := SortPaths(PathsOf(policies));
      SortKeeps(PathsOf(policies));
      var visited: seq<Path>, log: seq<Check>, purge: seq<FileRecord> := [], [], [];
      NothingLogged(tree, policies, info);
      NoRecords(info, when);
      assert directories + visited == directories;
      while directories != []
        invariant plan.None? && Ascending(directories + visited) && Ascending(directories) && forall p :: p in paths <==> p in directories || p in visited
        invariant purge == Records(log, info, when) && LogOk(log, tree, policies)
        invariant LoggedExactly(tree, CoveredRoots(tree, visited), log) && AllRead(tree, CoveredRoots(tree, visited), info)
        decreases |directories|
      {
        var consider := directories[|directories| - 1];
        var rest := directories[..|directories| - 1];
        LastIsLongest(directories);
        var policy := GetDirectoryPolicy(policies, consider);
        var walked := WalkTree(consider, policy.value, visited, tree, policies, log, purge, info, when);
        if walked.Err? {
          MoreCovered(tree, [consider] + visited, paths, info);
          return Err(walked.error);
        }
        log, purge := walked.value.0, walked.value.1;
        assert rest + ([consider] + visited) == directories + visited;
        visited, directories := [consider] + visited, rest;
      }
      assert directories + visited == visited;
      SameCovered(tree, visited, paths);
      LoggedReadable(tree, paths, policies, log, info);
      RecordsAreRight(log, info, when);
      plan := Some(Plan(purge, visited));
      r := Ok(log);
    }
  }

  lemma NoRecords(info: Path -> FileInfo, when: int)
    ensures Records([], info, when) == []
  {
  }

  lemma LoggedReadable(tree: seq<Dir>, paths: seq<Path>, policies: seq<DirectoryPolicy>, log: seq<Check>, info: Path -> FileInfo)
    requires TreeOk(tree) && LogOk(log, tree, policies) && LoggedExactly(tree, CoveredRoots(tree, paths), log)
    requires AllRead(tree, CoveredRoots(tree, paths), info)
    ensures forall a, b | 0 <= a < b < |log| :: !(log[a].root == log[b].root && log[a].file == log[b].file)
    ensures forall c | c in log :: !info(c.root + [c.file]).Denied?
  {
    forall c | c in log ensures !info(c.root + [c.file]).Denied? {
      var dir :| dir in tree && dir.root == c.root && c.file in dir.files;
      assert Readable(dir, info);
    }
  }

  lemma NothingLogged(tree: seq<Dir>, policies: seq<DirectoryPolicy>, info: Path -> FileInfo)
    ensures CoveredRoots(tree, []) == {} && LogOk([], tree, policies) && LoggedExactly(tree, {}, []) && AllRead(tree, {}, info)
  {
  }

  lemma LastIsLongest(directories: seq<Path>)
    requires Ascending(directories) && directories != []
    ensures var n := |directories| - 1;
            && Ascending(directories[..n])
            && (forall p | p in directories :: Written(p) <= Written(directories[n]))
            && forall p :: p in directories <==> p in directories[..n] || p == directories[n]
  {
    var n := |directories| - 1;
    assert directories == directories[..n] + [directories[n]];
  }

  lemma MoreCovered(tree: seq<Dir>, some: seq<Path>, all: seq<Path>, info: Path -> FileInfo)
    requires forall p | p in some :: p in all
    ensures AllRead(tree, CoveredRoots(tree, all), info) ==> AllRead(tree, CoveredRoots(tree, some), info)
  {
    forall root | Covered(root, some) ensures Covered(root, all) {
    }
  }

  lemma SameCovered(tree: seq<Dir>, a: seq<Path>, b: seq<Path>)
    requires forall p :: p in a <==> p in b
    ensures CoveredRoots(tree, a) == CoveredRoots(tree, b)
  {
    forall root ensures Covered(root, a) <==> Covered(root, b) {
    }
  }
}
