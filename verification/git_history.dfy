/** Shared commit logs against per-target histories: after any interleaving of saves the store answers as a
    map from each target to its own versions would. */
module GitHistory {
  import opened Names
  import opened GitStore

  /** One save; `hash` is the identifier that git gives the commit if there is one. */
  datatype Write = Write(target: Target, content: string, hash: Hash)

  /** A changed save of one target. */
  datatype Version = Version(id: Hash, content: string)

  function Run(writes: seq<Write>): Repos {
    if writes == [] then map[]
    else
      var w := writes[|writes| - 1];
      AfterSave(Run(writes[..|writes| - 1]), w.target, w.content, w.hash)
  }

  /** The meaning of a save for its own target: a new version, newest first, unless nothing changed. */
  function NextVersions(vs: seq<Version>, content: string, hash: Hash): seq<Version> {
    if vs != [] && vs[0].content == content then vs else [Version(hash, content)] + vs
  }

  /** The history of one target, whatever else was saved. */
  function Versions(writes: seq<Write>, id: Name): seq<Version> {
    if writes == [] then []
    else
      var w := writes[|writes| - 1];
      var vs := Versions(writes[..|writes| - 1], id);
      if w.target.id == id then NextVersions(vs, w.content, w.hash) else vs
  }

  /** The same for one place: a target with its shard and vendor. */
  function VersionsAt(writes: seq<Write>, t: Target): seq<Version> {
    if writes == [] then []
    else
      var w := writes[|writes| - 1];
      var vs := VersionsAt(writes[..|writes| - 1], t);
      if w.target == t then NextVersions(vs, w.content, w.hash) else vs
  }

  function Ids(vs: seq<Version>): (ids: seq<Hash>)
    ensures |ids| == |vs| && forall i :: 0 <= i < |vs| ==> ids[i] == vs[i].id
  {
    seq(|vs|, i requires 0 <= i < |vs| => vs[i].id)
  }

  /** Commit identifiers are not empty. */
  ghost predicate Identified(writes: seq<Write>) {
    forall i :: 0 <= i < |writes| ==> writes[i].hash != NO_COMMIT
  }

  /** Every target keeps its shard and vendor. */
  ghost predicate Stable(writes: seq<Write>, place: Name -> Target) {
    && Identified(writes)
    && (forall id :: place(id).id == id)
    && (forall i :: 0 <= i < |writes| ==> writes[i].target == place(writes[i].target.id))
  }

  // ----- one repository

  /** Working files are as committed, and commits have identifiers. */
  ghost predicate Committed(repo: Repo) {
    repo.files == HeadTree(repo.log) && forall k :: 0 <= k < |repo.log| ==> repo.log[k].id != NO_COMMIT
  }

  /** The repository has these versions of a file. */
  ghost predicate Holds(repo: Repo, path: Path, vs: seq<Version>) {
    && Touches(repo.log, path) == Ids(vs)
    && (path in repo.files <==> vs != [])
    && (vs != [] ==> repo.files[path] == vs[0].content && vs[0].id != NO_COMMIT)
  }

  lemma TouchesGrow(log: seq<Commit>, c: Commit, path: Path)
    ensures Touches(log + [c], path) ==
      (if Touched(log + [c], |log|, path) then [c.id] else []) + Touches(log, path)
  {
    assert (log + [c])[..|log|] == log;
  }

  /** A commit on top of the head touches exactly the file it writes, if that changes. */
  lemma CommitTouches(log: seq<Commit>, path: Path, content: string, hash: Hash, other: Path)
    ensures var more := log + [Commit(hash, HeadTree(log)[path := content])];
      Touched(more, |log|, other) <==> other == path && !(path in HeadTree(log) && HeadTree(log)[path] == content)
  {
  }

  lemma SaveChanges(repo: Repo, path: Path, content: string, hash: Hash, vs: seq<Version>)
    requires Committed(repo) && Holds(repo, path, vs) && (vs == [] || vs[0].content != content)
    ensures SaveIn(repo, path, content, hash) ==
      (Repo(repo.files[path := content], repo.log + [Commit(hash, HeadTree(repo.log)[path := content])]),
       Revision(hash, path, Newest(Ids(vs)), true))
  {
    assert path in HeadTree(repo.log)[path := content] && HeadTree(repo.log)[path := content][path] == content;
  }

  lemma SaveUnchanged(repo: Repo, path: Path, content: string, hash: Hash, vs: seq<Version>)
    requires Holds(repo, path, vs) && vs != [] && vs[0].content == content
    ensures SaveIn(repo, path, content, hash) == (repo, Revision(vs[0].id, path, vs[0].id, false))
  {
  }

  lemma SaveCommitted(repo: Repo, path: Path, content: string, hash: Hash)
    requires Committed(repo) && hash != NO_COMMIT
    ensures Committed(SaveIn(repo, path, content, hash).0)
  {
    if path in repo.files {
      InTreeTouched(repo.log, path);
    }
  }

  /** A file in the head tree was touched by some commit. */
  lemma {:induction false} InTreeTouched(log: seq<Commit>, path: Path)
    requires path in HeadTree(log) && forall k :: 0 <= k < |log| ==> log[k].id != NO_COMMIT
    ensures Newest(Touches(log, path)) != NO_COMMIT
  {
    var last := |log| - 1;
    if !Touched(log, last, path) {
      InTreeTouched(log[..last], path);
    }
  }

  lemma TouchesHere(log: seq<Commit>, path: Path, content: string, hash: Hash)
    requires !(path in HeadTree(log) && HeadTree(log)[path] == content)
    ensures Touches(log + [Commit(hash, HeadTree(log)[path := content])], path) == [hash] + Touches(log, path)
  {
    TouchesGrow(log, Commit(hash, HeadTree(log)[path := content]), path);
    CommitTouches(log, path, content, hash, path);
  }

  lemma HoldsNext(repo: Repo, path: Path, vs: seq<Version>, v: Version)
    requires Touches(repo.log, path) == [v.id] + Ids(vs) && v.id != NO_COMMIT
    requires path in repo.files && repo.files[path] == v.content
    ensures Holds(repo, path, [v] + vs)
  {
    hide Touches;
    assert Ids([v] + vs) == [v.id] + Ids(vs);
  }

  /** A save gives its file the next version. */
  lemma SaveHere(repo: Repo, path: Path, content: string, hash: Hash, vs: seq<Version>)
    requires Committed(repo) && Holds(repo, path, vs) && hash != NO_COMMIT
    ensures Committed(SaveIn(repo, path, content, hash).0)
    ensures Holds(SaveIn(repo, path, content, hash).0, path, NextVersions(vs, content, hash))
  {
    SaveCommitted(repo, path, content, hash);
    if vs != [] && vs[0].content == content {
      SaveUnchanged(repo, path, content, hash, vs);
    } else {
      SaveChanges(repo, path, content, hash, vs);
      TouchesHere(repo.log, path, content, hash);
      hide SaveIn, Touches;
      HoldsNext(SaveIn(repo, path, content, hash).0, path, vs, Version(hash, content));
    }
  }

  /** And leaves every other file as it is. */
  lemma SaveElsewhere(repo: Repo, path: Path, content: string, hash: Hash, other: Path, vs: seq<Version>)
    requires Committed(repo) && other != path && Holds(repo, other, vs)
    ensures Holds(SaveIn(repo, path, content, hash).0, other, vs)
  {
    var c := Commit(hash, HeadTree(repo.log)[path := content]);
    TouchesGrow(repo.log, c, other);
    CommitTouches(repo.log, path, content, hash, other);
    assert [] + Touches(repo.log, other) == Touches(repo.log, other);
  }

  // ----- all repositories, over a run

  lemma {:induction false} RunCommitted(writes: seq<Write>, shard: Name)
    requires Identified(writes)
    ensures Committed(RepoAt(Run(writes), shard))
  {
    if writes != [] {
      var w, before := writes[|writes| - 1], writes[..|writes| - 1];
      RunCommitted(before, shard);
      if w.target.shard == shard {
        SaveCommitted(RepoAt(Run(before), shard), PathOf(w.target), w.content, w.hash);
      }
    }
  }

  /** After any interleaving of saves each place has, in the log shared by its shard, exactly the versions of
      the saves to that place. */
  lemma {:induction false} RunHolds(writes: seq<Write>, t: Target)
    requires Identified(writes)
    ensures Holds(RepoAt(Run(writes), t.shard), PathOf(t), VersionsAt(writes, t))
  {
    if writes == [] {
      assert Ids([]) == [];
    } else {
      var w, before := writes[|writes| - 1], writes[..|writes| - 1];
      var vs := VersionsAt(before, t);
      RunHolds(before, t);
      RunCommitted(before, t.shard);
      var repo := RepoAt(Run(before), t.shard);
      if w.target == t {
        SaveHere(repo, PathOf(t), w.content, w.hash, vs);
      } else if w.target.shard == t.shard {
        SaveElsewhere(repo, PathOf(w.target), w.content, w.hash, PathOf(t), vs);
      }
    }
  }

  /** The search by name finds the file of every place of the target that was saved to, and no other. */
  lemma LocatedAt(writes: seq<Write>, id: Name, shard: Name, path: Path)
    requires Identified(writes)
    ensures Located(Run(writes), id, shard, path) <==>
            path.id == id && VersionsAt(writes, Target(path.id, shard, path.vendor)) != []
    ensures Located(Run(writes), id, shard, path) ==>
      var vs := VersionsAt(writes, Target(path.id, shard, path.vendor));
      LatestIn(Run(writes)[shard], path) == (vs[0].content, vs[0].id)
  {
    RunHolds(writes, Target(path.id, shard, path.vendor));
  }

  /** A save reports a change exactly for the first save to its place or for different content. */
  lemma SaveAt(writes: seq<Write>, w: Write)
    requires Identified(writes + [w])
    ensures var vs := VersionsAt(writes, w.target); var next := VersionsAt(writes + [w], w.target);
      && next == NextVersions(vs, w.content, w.hash)
      && Saved(Run(writes), w.target, w.content, w.hash) ==
         Revision(next[0].id, PathOf(w.target), Newest(Ids(vs)), vs == [] || vs[0].content != w.content)
  {
    var more := writes + [w];
    assert more[|more| - 1] == w && more[..|more| - 1] == writes;
    assert forall i :: 0 <= i < |writes| ==> more[i] == writes[i];
    var t, vs := w.target, VersionsAt(writes, w.target);
    RunHolds(writes, t);
    RunCommitted(writes, t.shard);
    var repo := RepoAt(Run(writes), t.shard);
    if vs != [] && vs[0].content == w.content {
      SaveUnchanged(repo, PathOf(t), w.content, w.hash, vs);
    } else {
      SaveChanges(repo, PathOf(t), w.content, w.hash, vs);
    }
  }

  // ----- targets that keep their place

  lemma {:induction false} StableVersions(writes: seq<Write>, place: Name -> Target, id: Name)
    requires Stable(writes, place)
    ensures VersionsAt(writes, place(id)) == Versions(writes, id)
  {
    if writes != [] {
      StableVersions(writes[..|writes| - 1], place, id);
    }
  }

  /** After any interleaving of saves a target's file has exactly the target's own versions. */
  lemma RunAgrees(writes: seq<Write>, place: Name -> Target, id: Name)
    requires Stable(writes, place)
    ensures Holds(RepoAt(Run(writes), place(id).shard), PathOf(place(id)), Versions(writes, id))
  {
    RunHolds(writes, place(id));
    StableVersions(writes, place, id);
  }

  /** Versions are of saves to that place. */
  lemma {:induction false} VersionWritten(writes: seq<Write>, t: Target) returns (a: nat)
    requires VersionsAt(writes, t) != []
    ensures a < |writes| && writes[a].target == t && writes[a].hash == VersionsAt(writes, t)[0].id
  {
    var last := |writes| - 1;
    var vs := VersionsAt(writes[..last], t);
    if writes[last].target == t && !(vs != [] && vs[0].content == writes[last].content) {
      a := last;
    } else {
      a := VersionWritten(writes[..last], t);
    }
  }

  /** The search by name finds the file of the target and no other, as soon as there is a version. */
  lemma LocatedIff(writes: seq<Write>, place: Name -> Target, id: Name, shard: Name, path: Path)
    requires Stable(writes, place)
    ensures Located(Run(writes), id, shard, path) <==>
      Versions(writes, id) != [] && shard == place(id).shard && path == PathOf(place(id))
  {
    LocatedAt(writes, id, shard, path);
    StableVersions(writes, place, id);
    if Located(Run(writes), id, shard, path) {
      var a := VersionWritten(writes, Target(path.id, shard, path.vendor));
    }
  }

  /** A save reports a change exactly for the first save of its target or for different content; its
      identifier and its parent are those of the target's own versions. */
  lemma SaveMeans(writes: seq<Write>, place: Name -> Target, w: Write)
    requires Stable(writes + [w], place)
    ensures var vs := Versions(writes, w.target.id); var next := Versions(writes + [w], w.target.id);
      && Saved(Run(writes), w.target, w.content, w.hash) ==
         Revision(next[0].id, PathOf(w.target), Newest(Ids(vs)), vs == [] || vs[0].content != w.content)
      && next[0].content == w.content
  {
    var more := writes + [w];
    assert more[|writes|] == w;
    assert forall i :: 0 <= i < |writes| ==> more[i] == writes[i];
    hide Saved;
    StableVersions(writes, place, w.target.id);
    StableVersions(more, place, w.target.id);
    SaveAt(writes, w);
  }

  /** The latest configuration of a target is its last saved content, with the identifier of its last change. */
  lemma LatestMeans(writes: seq<Write>, place: Name -> Target, id: Name, shard: Name, path: Path)
    requires Stable(writes, place) && Located(Run(writes), id, shard, path)
    ensures var vs := Versions(writes, id);
      vs != [] && LatestIn(Run(writes)[shard], path) == (vs[0].content, vs[0].id)
  {
    LocatedIff(writes, place, id, shard, path);
    RunAgrees(writes, place, id);
  }

  /** The history of a target lists exactly its changed saves, newest first: all of them, or as many as the
      limit allows, which is 100 when it is not positive. */
  lemma HistoryMeans(writes: seq<Write>, place: Name -> Target, id: Name, shard: Name, path: Path, limit: int,
                     revs: seq<Hash>)
    requires Stable(writes, place) && Located(Run(writes), id, shard, path)
    requires UpTo(revs, Touches(Run(writes)[shard].log, path), limit)
    ensures var vs, max := Versions(writes, id), if limit <= 0 then 100 else limit;
      && |revs| == (if |vs| <= max then |vs| else max)
      && forall k :: 0 <= k < |revs| ==> revs[k] == vs[k].id
  {
    LocatedIff(writes, place, id, shard, path);
    RunAgrees(writes, place, id);
  }

  // ----- targets that move

  ghost predicate Written(writes: seq<Write>, id: Name) {
    exists i :: 0 <= i < |writes| && writes[i].target.id == id
  }

  /** Where the target was saved last. */
  function LastPlace(writes: seq<Write>, id: Name): (t: Target)
    requires Written(writes, id)
    ensures t.id == id
  {
    var last := |writes| - 1;
    if writes[last].target.id == id then writes[last].target else LastPlace(writes[..last], id)
  }

  /** What the last save of the target left: its content, and the identifier that the save returned. */
  function LastSave(writes: seq<Write>, id: Name): (string, Hash)
    requires Written(writes, id)
  {
    var last := |writes| - 1;
    var w := writes[last];
    if w.target.id == id then (w.content, Saved(Run(writes[..last]), w.target, w.content, w.hash).id)
    else LastSave(writes[..last], id)
  }

  lemma {:induction false} LastSaveMeans(writes: seq<Write>, id: Name)
    requires Written(writes, id) && Identified(writes)
    ensures var vs := VersionsAt(writes, LastPlace(writes, id));
      vs != [] && LastSave(writes, id) == (vs[0].content, vs[0].id)
  {
    var last := |writes| - 1;
    var before, w := writes[..last], writes[last];
    if w.target.id == id {
      assert before + [w] == writes;
      SaveAt(before, w);
    } else {
      LastSaveMeans(before, id);
    }
  }

  lemma {:induction false} WrittenHasVersions(writes: seq<Write>, i: nat)
    requires i < |writes|
    ensures VersionsAt(writes, writes[i].target) != []
  {
    var last := |writes| - 1;
    if i < last {
      WrittenHasVersions(writes[..last], i);
    }
  }

  /** Git never gives an identifier twice. */
  ghost predicate DistinctIds(writes: seq<Write>) {
    forall i, j :: 0 <= i < j < |writes| ==> writes[i].hash != writes[j].hash
  }

  /** All saves of the target were to one shard and vendor. */
  ghost predicate KeptPlace(writes: seq<Write>, id: Name) {
    forall i, j :: (0 <= i < |writes| && 0 <= j < |writes| &&
                    writes[i].target.id == id && writes[j].target.id == id) ==>
      writes[i].target == writes[j].target
  }

  /** Whatever file the search by name picks, it is what the last save left. */
  ghost predicate LatestRight(writes: seq<Write>, id: Name)
    requires Written(writes, id)
  {
    forall shard, path :: Located(Run(writes), id, shard, path) ==>
      LatestIn(Run(writes)[shard], path) == LastSave(writes, id)
  }

  lemma {:induction false} LastPlaceWritten(writes: seq<Write>, id: Name)
    requires Written(writes, id)
    ensures exists i :: 0 <= i < |writes| && writes[i].target == LastPlace(writes, id)
  {
    var last := |writes| - 1;
    if writes[last].target.id != id {
      LastPlaceWritten(writes[..last], id);
      var i :| 0 <= i < last && writes[..last][i].target == LastPlace(writes[..last], id);
      assert writes[i].target == LastPlace(writes, id);
    }
  }

  lemma KeptIsRight(writes: seq<Write>, id: Name)
    requires Written(writes, id) && Identified(writes) && KeptPlace(writes, id)
    ensures LatestRight(writes, id)
  {
    hide Run, LastSave, LatestIn;
    LastSaveMeans(writes, id);
    LastPlaceWritten(writes, id);
    forall shard, path | Located(Run(writes), id, shard, path)
      ensures LatestIn(Run(writes)[shard], path) == LastSave(writes, id)
    {
      LocatedAt(writes, id, shard, path);
      var a := VersionWritten(writes, Target(path.id, shard, path.vendor));
    }
  }

  lemma MovedIsWrong(writes: seq<Write>, id: Name, i: nat)
    requires Written(writes, id) && Identified(writes) && DistinctIds(writes)
    requires i < |writes| && writes[i].target.id == id && writes[i].target != LastPlace(writes, id)
    ensures !LatestRight(writes, id)
  {
    hide Run, LastSave, LatestIn, Located;
    var t, u := writes[i].target, LastPlace(writes, id);
    LastSaveMeans(writes, id);
    WrittenHasVersions(writes, i);
    LocatedAt(writes, id, t.shard, PathOf(t));
    var a := VersionWritten(writes, t);
    var b := VersionWritten(writes, u);
    assert VersionsAt(writes, t)[0].id != VersionsAt(writes, u)[0].id;
  }

  /** Whichever of the files found by name is read, it is what the last save left, exactly when the target
      never moved to another shard or vendor. */
  lemma LatestRightIff(writes: seq<Write>, id: Name)
    requires Written(writes, id) && Identified(writes) && DistinctIds(writes)
    ensures LatestRight(writes, id) <==> KeptPlace(writes, id)
  {
    if KeptPlace(writes, id) {
      KeptIsRight(writes, id);
    } else {
      var i, j :| 0 <= i < |writes| && 0 <= j < |writes| && writes[i].target.id == id && writes[j].target.id == id &&
                  writes[i].target != writes[j].target;
      MovedIsWrong(writes, id, if writes[i].target != LastPlace(writes, id) then i else j);
    }
  }

  /** For example: once a target moves to another shard, the search by name still finds the file it left
      behind, with the old content. */
  lemma MovedTargetIsStale(a: Write, b: Write)
    requires a.target.id == b.target.id && a.target.shard != b.target.shard
    requires a.hash != NO_COMMIT
    ensures var repos := Run([a, b]); var shard, path := a.target.shard, PathOf(a.target);
      Located(repos, b.target.id, shard, path) && LatestIn(repos[shard], path) == (a.content, a.hash)
  {
    assert [a, b][..1] == [a] && [a][..0] == [];
    var repo := Repo(map[PathOf(a.target) := a.content], [Commit(a.hash, map[PathOf(a.target) := a.content])]);
    assert Ids([]) == [];
    SaveChanges(NEW_REPO, PathOf(a.target), a.content, a.hash, []);
    assert [] + repo.log == repo.log;
    assert Run([a]) == map[a.target.shard := repo];
    assert Run([a, b])[a.target.shard] == repo;
    assert repo.log[..0] == [];
    assert Touches(repo.log, PathOf(a.target)) == [a.hash] + [];
  }
}
