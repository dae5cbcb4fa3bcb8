/** The Git-backed configuration store: one repository per shard, one file per target. */
module GitStore {
  import opened Names
  import opened Wrappers

  /** Commit identifiers; the empty one means that there is none. */
  type Hash = string

  const NO_COMMIT: Hash := ""

  /** A file: the directory of a vendor and the name of a target. */
  datatype Path = Path(vendor: Name, id: Name)

  datatype Target = Target(id: Name, shard: Name, vendor: Name)

  function PathOf(t: Target): Path {
    Path(t.vendor, t.id)
  }

  type Tree = map<Path, string>

  datatype Commit = Commit(id: Hash, tree: Tree)

  /** A repository: its working files, and its commits, oldest first. */
  datatype Repo = Repo(files: Tree, log: seq<Commit>)

  const NEW_REPO := Repo(map[], [])

  type Repos = map<Name, Repo>

  datatype Revision = Revision(id: Hash, path: Path, parent: Hash, changed: bool)
  datatype StoreError = NotExist | Cancelled

  function HeadTree(log: seq<Commit>): Tree {
    if log == [] then map[] else log[|log| - 1].tree
  }

  function HeadHash(log: seq<Commit>): Hash {
    if log == [] then NO_COMMIT else log[|log| - 1].id
  }

  predicate Differs(a: Tree, b: Tree, path: Path) {
    (path in a) != (path in b) || (path in a && path in b && a[path] != b[path])
  }

  /** Whether commit k changes a file; the first commit changes every file it has. */
  predicate Touched(log: seq<Commit>, k: nat, path: Path)
    requires k < |log|
  {
    if k == 0 then path in log[0].tree else Differs(log[k - 1].tree, log[k].tree, path)
  }

  /** The commits that touch a file, newest first. */
  function Touches(log: seq<Commit>, path: Path): seq<Hash> {
    if log == [] then []
    else
      var last := |log| - 1;
      (if Touched(log, last, path) then [log[last].id] else []) + Touches(log[..last], path)
  }

  lemma TouchesBack(log: seq<Commit>, k: nat, path: Path)
    requires k < |log|
    ensures Touches(log[..k + 1], path) ==
      (if Touched(log, k, path) then [log[k].id] else []) + Touches(log[..k], path)
  {
    assert log[..k + 1][..k] == log[..k];
    assert Touched(log[..k + 1], k, path) == Touched(log, k, path);
  }

  function Newest(hashes: seq<Hash>): Hash {
    if hashes == [] then NO_COMMIT else hashes[0]
  }

  /** The first commit from the head back that touches the file. */
  method LatestCommitForFile(log: seq<Commit>, path: Path) returns (found: Hash)
    ensures found == Newest(Touches(log, path))
  {
    var k := |log|;
    assert log[..k] == log;
    while k > 0
      invariant 0 <= k <= |log|
      invariant Touches(log, path) == Touches(log[..k], path)
    {
      k := k - 1;
      TouchesBack(log, k, path);
      if Touched(log, k, path) {
        return log[k].id;
      }
    }
    return NO_COMMIT;
  }

  /** `some` is the beginning of `all`, cut off at a limit that is 100 when it is not positive. */
  predicate UpTo<T(==)>(some: seq<T>, all: seq<T>, limit: int) {
    var max := if limit <= 0 then 100 else limit;
    some <= all && |some| <= max && (|some| < max ==> some == all)
  }

  /** The scan of a history query: from the head back until the limit is reached. */
  method TouchingCommits(log: seq<Commit>, path: Path, limit: int) returns (revs: seq<Hash>)
    ensures UpTo(revs, Touches(log, path), limit)
  {
    var max := limit;
    if max <= 0 {
      max := 100;
    }
    revs := [];
    var k := |log|;
    assert log[..k] == log;
    while k > 0 && |revs| < max
      invariant 0 <= k <= |log| && |revs| <= max
      invariant Touches(log, path) == revs + Touches(log[..k], path)
    {
      k := k - 1;
      TouchesBack(log, k, path);
      if Touched(log, k, path) {
        assert revs + ([log[k].id] + Touches(log[..k], path)) == revs + [log[k].id] + Touches(log[..k], path);
        revs := revs + [log[k].id];
      } else {
        assert [] + Touches(log[..k], path) == Touches(log[..k], path);
      }
    }
    assert k == 0 ==> revs + Touches(log[..k], path) == revs;
  }

  // ----- what each operation does

  function RepoAt(repos: Repos, shard: Name): Repo {
    if shard in repos then repos[shard] else NEW_REPO
  }

  /** Saving a file in a repository; git refuses a commit that changes nothing. */
  function SaveIn(repo: Repo, path: Path, content: string, hash: Hash): (Repo, Revision) {
    var before := if path in repo.files then repo.files[path] else "";
    var previous := Newest(Touches(repo.log, path));
    if before == content && previous != NO_COMMIT then (repo, Revision(previous, path, previous, false))
    else
      var files := repo.files[path := content];
      var tree := HeadTree(repo.log)[path := content];
      if tree == HeadTree(repo.log) then
        (Repo(files, repo.log), Revision(HeadHash(repo.log), path, HeadHash(repo.log), false))
      else
        (Repo(files, repo.log + [Commit(hash, tree)]), Revision(hash, path, previous, true))
  }

  function AfterSave(repos: Repos, t: Target, content: string, hash: Hash): Repos {
    repos[t.shard := SaveIn(RepoAt(repos, t.shard), PathOf(t), content, hash).0]
  }

  function Saved(repos: Repos, t: Target, content: string, hash: Hash): Revision {
    SaveIn(RepoAt(repos, t.shard), PathOf(t), content, hash).1
  }

  /** A file that the search for a target's name in all shards and vendors finds. */
  predicate Located(repos: Repos, id: Name, shard: Name, path: Path) {
    shard in repos && path in repos[shard].files && path.id == id
  }

  function LatestIn(repo: Repo, path: Path): (string, Hash)
    requires path in repo.files
  {
    var found := Newest(Touches(repo.log, path));
    (repo.files[path], if found != NO_COMMIT then found else HeadHash(repo.log))
  }

  class Store {
    var repos: Repos

    constructor ()
      ensures repos == map[]
    {
      repos := map[];
    }

    /** Saves a configuration, under the store's mutex; `hash` is the identifier git gives a new commit. */
    method Save(cancelled: bool, t: Target, content: string, hash: Hash) returns (r: Result<Revision, StoreError>)
      modifies this
      ensures cancelled ==> r == Err(Cancelled) && repos == old(repos)
      ensures !cancelled ==> r == Ok(Saved(old(repos), t, content, hash))
      ensures !cancelled ==> repos == AfterSave(old(repos), t, content, hash)
    {
      if cancelled {
        return Err(Cancelled);
      }
      if t.shard !in repos {
        repos := repos[t.shard := NEW_REPO];
      }
      var repo := repos[t.shard];
      var path := PathOf(t);
      var oldContent := if path in repo.files then repo.files[path] else "";
      var parent := HeadHash(repo.log);
      var previous := LatestCommitForFile(repo.log, path);
      if oldContent == content && previous != NO_COMMIT {
        return Ok(Revision(previous, path, previous, false));
      }
      var tree := HeadTree(repo.log)[path := content];
      if tree == HeadTree(repo.log) {
        repos := repos[t.shard := repo.(files := repo.files[path := content])];
        return Ok(Revision(parent, path, parent, false));
      }
      repos := repos[t.shard := Repo(repo.files[path := content], repo.log + [Commit(hash, tree)])];
      return Ok(Revision(hash, path, previous, true));
    }

    /** Some file of the target's name in any shard and vendor directory. */
    method LocateTargetFile(id: Name) returns (found: Option<(Name, Path)>)
      ensures match found
        case Some((shard, path)) => Located(repos, id, shard, path)
        case None => forall shard, path :: !Located(repos, id, shard, path)
    {
      var matches := set shard, path | shard in repos && path in repos[shard].files && path.id == id :: (shard, path);
      assert forall shard, path :: Located(repos, id, shard, path) ==> (shard, path) in matches;
      if matches == {} {
        return None;
      }
      var found' :| found' in matches;
      return Some(found');
    }

    method Latest(id: Name) returns (r: Result<(string, Hash), StoreError>)
      ensures r.Err? <==> forall shard, path :: !Located(repos, id, shard, path)
      ensures r.Ok? ==> exists shard, path :: Located(repos, id, shard, path) && r.value == LatestIn(repos[shard], path)
    {
      var found := LocateTargetFile(id);
      if found.None? {
        return Err(NotExist);
      }
      var (shard, path) := found.value;
      var repo := repos[shard];
      var head := LatestCommitForFile(repo.log, path);
      if head == NO_COMMIT {
        head := HeadHash(repo.log);
      }
      return Ok((repo.files[path], head));
    }

    method History(id: Name, limit: int) returns (r: Result<seq<Hash>, StoreError>)
      ensures r.Err? <==> forall shard, path :: !Located(repos, id, shard, path)
      ensures r.Ok? ==> exists shard, path ::
        Located(repos, id, shard, path) && UpTo(r.value, Touches(repos[shard].log, path), limit)
    {
      var found := LocateTargetFile(id);
      if found.None? {
        return Err(NotExist);
      }
      var (shard, path) := found.value;
      var revs := TouchingCommits(repos[shard].log, path, limit);
      return Ok(revs);
    }
  }
}
