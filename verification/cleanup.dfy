/** The retention pass over one directory, and over the three artifact
    directories in turn. The directory's state (missing, unreadable, or its
    listing) and every delete attempt's answers are inputs. */
module Cleanup {
  import opened Wrappers
  import opened CleanupSelect
  import opened CleanupRetry

  /** What the directory looks like when the pass reaches it. */
  datatype Directory =
    | Missing(mkdirErr: Option<string>)   // stat said "does not exist"; the outcome of creating it
    | Unreadable(err: string)             // listing it failed
    | Listed(entries: seq<Entry>)         // its direct children

  datatype CleanupError =
    | CreateDirFailed(dir: string, cause: string)
    | ReadDirFailed(dir: string, cause: string)

  /** One deletion target and how its delete loop went. */
  datatype Deletion = Deletion(path: string, outcome: DeleteOutcome)

  /** What a pass over one directory did. */
  datatype DirReport = DirReport(created: bool, kept: seq<Entry>, deletions: seq<Deletion>)

  /** A child path; the path cleaning of `filepath.Join` is not modelled. */
  function JoinPath(dir: string, name: string): (p: string)
    ensures |p| == |dir| + 1 + |name|
    ensures p[..|dir|] == dir && p[|dir|] == '/' && p[|dir| + 1..] == name
  {
    dir + "/" + name
  }

  /** The result a pass over one directory must have: a missing directory is
      created and nothing is deleted (or the creation error is returned); an
      unreadable one is an error; otherwise the pass succeeds, keeps the
      selection's kept files, and runs the delete loop once on each target,
      in order, with that target's answers. */
  ghost predicate IsCleanupResult(dirPath: string, ext: string, keepCount: nat, dir: Directory,
                                  attempt: (nat, nat) -> Attempt, r: Result<DirReport, CleanupError>) {
    match dir
    case Missing(None) => r == Ok(DirReport(true, [], []))
    case Missing(Some(cause)) => r == Err(CreateDirFailed(dirPath, cause))
    case Unreadable(cause) => r == Err(ReadDirFailed(dirPath, cause))
    case Listed(entries) =>
      var plan := SelectTargets(Candidates(entries, ext), keepCount);
      && r.Ok?
      && !r.value.created
      && r.value.kept == plan.kept
      && |r.value.deletions| == |plan.targets|
      && forall k :: 0 <= k < |plan.targets| ==>
           && r.value.deletions[k].path == JoinPath(dirPath, plan.targets[k].name)
           && IsDeleteOutcome((a: nat) => attempt(k, a), r.value.deletions[k].outcome)
  }

  /** Total sleeps over all deletions of a pass. */
  function TotalSleeps(ds: seq<Deletion>): nat {
    if |ds| == 0 then 0 else TotalSleeps(ds[..|ds| - 1]) + ds[|ds| - 1].outcome.sleeps
  }

  /** Runs the delete loop once on each target, in order; a target that
      cannot be deleted never stops the loop. */
  method DeleteTargets(dirPath: string, targets: seq<Entry>, attempt: (nat, nat) -> Attempt)
    returns (deletions: seq<Deletion>)
    ensures |deletions| == |targets|
    ensures forall k :: 0 <= k < |targets| ==>
      && deletions[k].path == JoinPath(dirPath, targets[k].name)
      && IsDeleteOutcome((a: nat) => attempt(k, a), deletions[k].outcome)
    ensures TotalSleeps(deletions) <= MaxRetries * |targets|
  {
    deletions := [];
    var k := 0;
    while k < |targets|
      invariant 0 <= k <= |targets|
      invariant |deletions| == k
      invariant forall l :: 0 <= l < k ==>
        && deletions[l].path == JoinPath(dirPath, targets[l].name)
        && IsDeleteOutcome((a: nat) => attempt(l, a), deletions[l].outcome)
      invariant TotalSleeps(deletions) <= MaxRetries * k
    {
      var outcome := DeleteWithRetry((a: nat) => attempt(k, a));
      var d := Deletion(JoinPath(dirPath, targets[k].name), outcome);
      assert (deletions + [d])[..k] == deletions;
      deletions := deletions + [d];
      k := k + 1;
    }
  }

  /** Keeps the `keepCount` newest files with extension `ext` and tries to
      delete the rest. Individual delete failures never make it fail. */
  method CleanupDirectory(dirPath: string, ext: string, keepCount: nat, dir: Directory,
                          attempt: (nat, nat) -> Attempt)
    returns (r: Result<DirReport, CleanupError>)
    ensures IsCleanupResult(dirPath, ext, keepCount, dir, attempt, r)
    ensures dir.Listed? ==> r.Ok?
    ensures r.Ok? ==> TotalSleeps(r.value.deletions) <= MaxRetries * |r.value.deletions|
  {
    match dir {
      case Missing(mkdirErr) =>
        if mkdirErr.Some? {
          return Err(CreateDirFailed(dirPath, mkdirErr.value));
        }
        return Ok(DirReport(true, [], []));
      case Unreadable(cause) =>
        return Err(ReadDirFailed(dirPath, cause));
      case Listed(entries) =>
        var plan := SelectTargets(Candidates(entries, ext), keepCount);
        var deletions := DeleteTargets(dirPath, plan.targets, attempt);
        return Ok(DirReport(false, plan.kept, deletions));
    }
  }

  /** One artifact category: directory name, extension and how many to keep. */
  datatype Category = Category(dirName: string, ext: string, keepCount: nat)

  /** Reports keep 1 ".html", screenshots keep 3 ".png", videos keep 1 ".webm". */
  const Categories: seq<Category> := [
    Category("reports", ".html", 1),
    Category("screenshots", ".png", 3),
    Category("videos", ".webm", 1)
  ]

  datatype RunError =
    | GetwdFailed(cause: string)
    | CategoryFailed(index: nat, err: CleanupError)

  /** Runs the pass over the three categories, in order, under the working
      directory; the first failing category ends the run with its error and
      the later ones are not processed. `fs` gives each directory's state and
      `attempt` each delete attempt's answers, per directory. */
  method CleanupOldTestResults(cwd: Result<string, string>, fs: string -> Directory,
                               attempt: (string, nat, nat) -> Attempt)
    returns (done: seq<DirReport>, err: Option<RunError>)
    ensures cwd.Err? ==> done == [] && err == Some(GetwdFailed(cwd.error))
    ensures |done| <= |Categories|
    ensures err.None? <==> cwd.Ok? && |done| == |Categories|
    ensures cwd.Ok? ==> forall k :: 0 <= k < |done| ==>
      var c := Categories[k];
      var path := JoinPath(cwd.value, c.dirName);
      IsCleanupResult(path, c.ext, c.keepCount, fs(path), (i: nat, a: nat) => attempt(path, i, a), Ok(done[k]))
    ensures cwd.Ok? && err.Some? ==>
      && err.value.CategoryFailed?
      && err.value.index == |done| < |Categories|
      && var c := Categories[|done|];
         var path := JoinPath(cwd.value, c.dirName);
         IsCleanupResult(path, c.ext, c.keepCount, fs(path), (i: nat, a: nat) => attempt(path, i, a), Err(err.value.err))
  {
    if cwd.Err? {
      return [], Some(GetwdFailed(cwd.error));
    }
    done := [];
    var k := 0;
    while k < |Categories|
      invariant 0 <= k <= |Categories|
      invariant |done| == k
      invariant forall l :: 0 <= l < k ==>
        var c := Categories[l];
        var path := JoinPath(cwd.value, c.dirName);
        IsCleanupResult(path, c.ext, c.keepCount, fs(path), (i: nat, a: nat) => attempt(path, i, a), Ok(done[l]))
    {
      var c := Categories[k];
      var path := JoinPath(cwd.value, c.dirName);
      var r := CleanupDirectory(path, c.ext, c.keepCount, fs(path), (i: nat, a: nat) => attempt(path, i, a));
      if r.Err? {
        return done, Some(CategoryFailed(k, r.error));
      }
      done := done + [r.value];
      k := k + 1;
    }
    return done, None;
  }

  /** A missing directory that can be created yields success with zero
      deletions. */
  lemma MissingDirectoryNoDeletions(dirPath: string, ext: string, keepCount: nat,
                                    attempt: (nat, nat) -> Attempt, r: Result<DirReport, CleanupError>)
    requires IsCleanupResult(dirPath, ext, keepCount, Missing(None), attempt, r)
    ensures r.Ok? && r.value.created && |r.value.deletions| == 0
  {
  }

  /** With no more matching files than `keepCount`, nothing is deleted and
      every candidate is kept. */
  lemma FewFilesNoDeletions(dirPath: string, ext: string, keepCount: nat, entries: seq<Entry>,
                            attempt: (nat, nat) -> Attempt, r: Result<DirReport, CleanupError>)
    requires IsCleanupResult(dirPath, ext, keepCount, Listed(entries), attempt, r)
    requires |Candidates(entries, ext)| <= keepCount
    ensures r.Ok? && |r.value.deletions| == 0
    ensures multiset(r.value.kept) == multiset(Candidates(entries, ext))
  {
    var plan := SelectTargets(Candidates(entries, ext), keepCount);
    assert plan.kept + plan.targets == plan.kept;
  }

  /** With K matching files and K > keepCount, exactly K - keepCount files
      are targeted, keepCount are kept, and no kept file is older than a
      targeted one. */
  lemma ExcessFilesTargeted(dirPath: string, ext: string, keepCount: nat, entries: seq<Entry>,
                            attempt: (nat, nat) -> Attempt, r: Result<DirReport, CleanupError>)
    requires IsCleanupResult(dirPath, ext, keepCount, Listed(entries), attempt, r)
    ensures r.Ok?
    ensures |Candidates(entries, ext)| > keepCount ==>
      && |r.value.deletions| == |Candidates(entries, ext)| - keepCount
      && |r.value.kept| == keepCount
    ensures var targets := SelectTargets(Candidates(entries, ext), keepCount).targets;
      forall i, j :: 0 <= i < |r.value.kept| && 0 <= j < |targets| ==>
        r.value.kept[i].mtime >= targets[j].mtime
  {
  }
}
