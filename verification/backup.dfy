/** Backups: what a handler reads, saves and records, and why the recorded diffs replay. */
module Backups {
  import opened Names
  import opened Wrappers
  import opened EditScripts
  import opened Diffs
  import opened GitStore
  import opened GitHistory

  datatype Status = Changed | NoChange | Failed

  /** The record of a first version has no diff text. */
  function FirstRecord(target: Name, id: Hash): DiffResult {
    DiffResult(target, "", id, "", 0, 0)
  }

  /** There is a version to compare the saved one with. */
  predicate Compares(previous: Option<(string, Hash)>, rev: Revision) {
    previous.Some? && previous.value.1 != NO_COMMIT && rev.changed
  }

  /** What a handler records, given what it read before saving, if there was anything. */
  function RecordOf(target: Name, previous: Option<(string, Hash)>, rev: Revision, content: string): DiffResult {
    if Compares(previous, rev) then DiffOf(target, previous.value.1, rev.id, previous.value.0, content)
    else FirstRecord(target, rev.id)
  }

  /** The configuration that a search by name finds, if any. */
  ghost predicate Finds(repos: Repos, id: Name, previous: Option<(string, Hash)>) {
    match previous
    case None => forall shard, path :: !Located(repos, id, shard, path)
    case Some(v) => exists shard, path :: Located(repos, id, shard, path) && v == LatestIn(repos[shard], path)
  }

  class BackupRunner {
    const storage: Store
    /** The recorded diffs of all targets, oldest first. */
    var records: seq<DiffResult>

    constructor ()
      ensures records == [] && fresh(storage) && storage.repos == map[]
    {
      storage := new Store();
      records := [];
    }

    /** The part of a handler from reading the latest configuration to recording the diff. The two flags are
        the state of the context at the save and at the diff: cancelled in between, the version is saved and
        its diff is lost. */
    method Handle(saveCancelled: bool, diffCancelled: bool, t: Target, content: string, hash: Hash)
      returns (status: Status, ghost previous: Option<(string, Hash)>)
      modifies this, storage
      ensures Finds(old(storage.repos), t.id, previous)
      ensures saveCancelled ==> status == Failed && storage.repos == old(storage.repos) && records == old(records)
      ensures !saveCancelled ==>
        var rev := Saved(old(storage.repos), t, content, hash);
        var lost := diffCancelled && Compares(previous, rev);
        && storage.repos == AfterSave(old(storage.repos), t, content, hash)
        && status == (if lost then Failed else if rev.changed then Changed else NoChange)
        && records == old(records) + (if rev.changed && !lost then [RecordOf(t.id, previous, rev, content)] else [])
    {
      var latest := storage.Latest(t.id);
      previous := if latest.Ok? then Some(latest.value) else None;
      var saved := storage.Save(saveCancelled, t, content, hash);
      if saved.Err? {
        return Failed, previous;
      }
      var rev := saved.value;
      var diff := FirstRecord(t.id, rev.id);
      if latest.Ok? && latest.value.1 != NO_COMMIT && rev.changed {
        var compared := UnifiedDiff(diffCancelled, t.id, latest.value.1, rev.id, latest.value.0, content);
        if compared.Err? {
          return Failed, previous;
        }
        diff := compared.value;
      }
      if rev.changed {
        records := records + [diff];
      }
      return if rev.changed then Changed else NoChange, previous;
    }
  }

  // ----- replay

  /** One backup among those of all targets: its save, and how many saves came before it read the latest
      configuration. */
  datatype Backup = Backup(write: Write, readAt: nat)

  function Front(backups: seq<Backup>): seq<Backup>
    requires backups != []
  {
    backups[..|backups| - 1]
  }

  function Writes(backups: seq<Backup>): (writes: seq<Write>)
    ensures |writes| == |backups|
  {
    if backups == [] then [] else Writes(Front(backups)) + [backups[|backups| - 1].write]
  }

  lemma {:induction false} WritesPrefix(backups: seq<Backup>, n: nat)
    requires n <= |backups|
    ensures Writes(backups[..n]) == Writes(backups)[..n]
  {
    if n < |backups| {
      WritesPrefix(Front(backups), n);
      assert Front(backups)[..n] == backups[..n];
    } else {
      assert backups[..n] == backups;
    }
  }

  /** No save of this target among the saves from `a` on. */
  ghost predicate Quiet(writes: seq<Write>, a: nat, id: Name) {
    forall i :: a <= i < |writes| ==> writes[i].target.id != id
  }

  /** Backups of one target run one at a time; those of other targets interleave freely. */
  ghost predicate OneAtATime(backups: seq<Backup>) {
    backups != [] ==>
      var b, before := backups[|backups| - 1], Front(backups);
      OneAtATime(before) && b.readAt <= |before| && Quiet(Writes(before), b.readAt, b.write.target.id)
  }

  /** The change that the last backup saved, if it saved one. */
  ghost predicate LastChanged(before: seq<Backup>, w: Write) {
    Saved(Run(Writes(before)), w.target, w.content, w.hash).changed
  }

  /** A record follows from what its backup read. */
  ghost predicate LastRecorded(before: seq<Backup>, b: Backup, record: DiffResult)
    requires b.readAt <= |before|
  {
    exists previous ::
      Finds(Run(Writes(before[..b.readAt])), b.write.target.id, previous) &&
      record == RecordOf(b.write.target.id, previous,
                         Saved(Run(Writes(before)), b.write.target, b.write.content, b.write.hash),
                         b.write.content)
  }

  /** What the last backup adds to the records of a target. */
  ghost predicate Extends(before: seq<Backup>, b: Backup, id: Name, rs: seq<DiffResult>, records: seq<DiffResult>)
    requires b.readAt <= |before|
  {
    if b.write.target.id != id || !LastChanged(before, b.write) then records == rs
    else exists r :: records == rs + [r] && LastRecorded(before, b, r)
  }

  /** `records` is what the handlers of one target recorded. */
  ghost predicate Recorded(backups: seq<Backup>, id: Name, records: seq<DiffResult>)
    requires OneAtATime(backups)
  {
    if backups == [] then records == []
    else
      var b, before := backups[|backups| - 1], Front(backups);
      exists rs :: Recorded(before, id, rs) && Extends(before, b, id, rs, records)
  }

  /** The records one after the other, applied to the lines of a configuration. */
  function Replay(records: seq<DiffResult>, lines: Lines): Option<Lines> {
    if records == [] then Some(lines)
    else
      match (Replay(records[..|records| - 1], lines), ParseDiff(records[|records| - 1].text))
      case (Some(before), Some(ops)) => Apply(ops, before)
      case _ => None
  }

  /** Saves of other targets do not change what a target has. */
  lemma {:induction false} QuietKeeps(writes: seq<Write>, a: nat, id: Name)
    requires a <= |writes| && Quiet(writes, a, id)
    ensures Versions(writes, id) == Versions(writes[..a], id)
    decreases |writes|
  {
    if a < |writes| {
      var before := writes[..|writes| - 1];
      QuietKeeps(before, a, id);
      assert before[..a] == writes[..a];
    } else {
      assert writes[..a] == writes;
    }
  }

  /** What was read is the newest version, or that there is none. */
  ghost predicate ReadNewest(vs: seq<Version>, previous: Option<(string, Hash)>) {
    previous == if vs == [] then None else Some((vs[0].content, vs[0].id))
  }

  /** What is found by name is the newest version. */
  lemma FoundMeans(writes: seq<Write>, place: Name -> Target, id: Name, previous: Option<(string, Hash)>)
    requires Stable(writes, place) && Finds(Run(writes), id, previous)
    ensures ReadNewest(Versions(writes, id), previous)
  {
    match previous
    case None =>
      LocatedIff(writes, place, id, place(id).shard, PathOf(place(id)));
    case Some(v) =>
      var shard, path :| Located(Run(writes), id, shard, path) && v == LatestIn(Run(writes)[shard], path);
      LatestMeans(writes, place, id, shard, path);
  }

  lemma StablePrefix(writes: seq<Write>, place: Name -> Target, n: nat)
    requires Stable(writes, place) && n <= |writes|
    ensures Stable(writes[..n], place)
  {
  }

  /** What a backup read is still the newest version when it saves. */
  lemma ReadIsCurrent(backups: seq<Backup>, place: Name -> Target, id: Name, readAt: nat,
                      previous: Option<(string, Hash)>)
    requires readAt <= |backups| && Quiet(Writes(backups), readAt, id)
    requires Stable(Writes(backups), place) && Finds(Run(Writes(backups[..readAt])), id, previous)
    ensures ReadNewest(Versions(Writes(backups), id), previous)
  {
    var writes := Writes(backups);
    WritesPrefix(backups, readAt);
    StablePrefix(writes, place, readAt);
    FoundMeans(writes[..readAt], place, id, previous);
    QuietKeeps(writes, readAt, id);
  }

  /** How many lines a text has. */
  ghost function LineCount(text: string): nat {
    |SplitLines(text)|
  }

  /** There is a record from each version to the next, whose counters balance the numbers of lines. */
  ghost predicate Chained(records: seq<DiffResult>, vs: seq<Version>, id: Name) {
    && |records| == |vs|
    && forall k :: 0 <= k < |records| ==>
      && records[k].target == id && records[k].to == vs[|vs| - 1 - k].id
      && records[k].from == (if k == 0 then NO_COMMIT else vs[|vs| - k].id)
      && (k == 0 ==> records[k].added == 0 && records[k].removed == 0)
      && (k > 0 ==> LineCount(vs[|vs| - k].content) + records[k].added ==
                    LineCount(vs[|vs| - 1 - k].content) + records[k].removed)
  }

  /** And the records after the first one carry the first version to the newest. */
  ghost predicate Replays(records: seq<DiffResult>, vs: seq<Version>, id: Name) {
    && Chained(records, vs, id)
    && (vs != [] ==> Replay(records[1..], SplitLines(vs[|vs| - 1].content)) == Some(SplitLines(vs[0].content)))
  }

  /** The record of a save that makes a new version. */
  function NewRecord(vs: seq<Version>, w: Write): DiffResult {
    if vs == [] then FirstRecord(w.target.id, w.hash)
    else DiffOf(w.target.id, vs[0].id, w.hash, vs[0].content, w.content)
  }

  lemma RecordIsNew(vs: seq<Version>, w: Write, rev: Revision, previous: Option<(string, Hash)>)
    requires ReadNewest(vs, previous) && rev.changed && rev.id == w.hash && (vs != [] ==> vs[0].id != NO_COMMIT)
    ensures RecordOf(w.target.id, previous, rev, w.content) == NewRecord(vs, w)
  {
  }

  lemma ChainedMore(records: seq<DiffResult>, vs: seq<Version>, w: Write)
    requires Chained(records, vs, w.target.id)
    ensures Chained(records + [NewRecord(vs, w)], [Version(w.hash, w.content)] + vs, w.target.id)
  {
    hide SplitLines, DiffText;
    if vs != [] {
      NoChangesIff(SplitLines(vs[0].content), SplitLines(w.content));
    }
  }

  /** One more version and the diff to it. */
  lemma ReplaysMore(records: seq<DiffResult>, vs: seq<Version>, w: Write)
    requires Replays(records, vs, w.target.id) && '\n' !in w.hash && (vs != [] ==> '\n' !in vs[0].id)
    ensures Replays(records + [NewRecord(vs, w)], [Version(w.hash, w.content)] + vs, w.target.id)
  {
    ChainedMore(records, vs, w);
    var d := NewRecord(vs, w);
    var more := (records + [d])[1..];
    assert |records| == |vs|;
    hide Chained, SplitLines;
    if vs == [] {
      assert more == [];
    } else {
      assert more == records[1..] + [d];
      assert more[..|more| - 1] == records[1..] && more[|more| - 1] == d;
      DiffReversible(w.target.id, vs[0].id, w.hash, vs[0].content, w.content);
    }
  }

  ghost predicate OneLine(id: Hash) {
    id != NO_COMMIT && '\n' !in id
  }

  lemma {:induction false} VersionIds(writes: seq<Write>, id: Name)
    requires forall i :: 0 <= i < |writes| ==> OneLine(writes[i].hash)
    ensures forall i :: 0 <= i < |Versions(writes, id)| ==> OneLine(Versions(writes, id)[i].id)
  {
    if writes != [] {
      var w, vs := writes[|writes| - 1], Versions(writes[..|writes| - 1], id);
      VersionIds(writes[..|writes| - 1], id);
      assert OneLine(w.hash);
      forall i | 0 <= i < |Versions(writes, id)| ensures OneLine(Versions(writes, id)[i].id) {
        assert Versions(writes, id) == vs || Versions(writes, id) == [Version(w.hash, w.content)] + vs;
      }
    }
  }

  /** Commit identifiers, as git gives them, contain no newline. */
  ghost predicate OneLineIds(writes: seq<Write>) {
    forall i :: 0 <= i < |writes| ==> OneLine(writes[i].hash)
  }

  /** What a save by name and content does to the versions of its target. */
  lemma SaveNext(writes: seq<Write>, place: Name -> Target, w: Write)
    requires Stable(writes + [w], place)
    ensures Stable(writes, place)
    ensures var vs := Versions(writes, w.target.id); var rev := Saved(Run(writes), w.target, w.content, w.hash);
      && rev.changed == (vs == [] || vs[0].content != w.content)
      && (rev.changed ==> rev.id == w.hash)
      && Versions(writes + [w], w.target.id) == if rev.changed then [Version(w.hash, w.content)] + vs else vs
  {
    assert (writes + [w])[..|writes|] == writes;
    StablePrefix(writes + [w], place, |writes|);
    SaveMeans(writes, place, w);
  }

  lemma OtherVersions(writes: seq<Write>, w: Write, id: Name)
    requires w.target.id != id
    ensures Versions(writes + [w], id) == Versions(writes, id)
  {
    assert (writes + [w])[..|writes|] == writes;
  }

  /** A changed backup records the diff from the newest version. */
  lemma {:induction false} LastRecord(before: seq<Backup>, b: Backup, place: Name -> Target, record: DiffResult)
    requires b.readAt <= |before| && Quiet(Writes(before), b.readAt, b.write.target.id)
    requires Stable(Writes(before) + [b.write], place) && OneLineIds(Writes(before))
    requires LastChanged(before, b.write) && LastRecorded(before, b, record)
    ensures record == NewRecord(Versions(Writes(before), b.write.target.id), b.write)
  {
    var writes, w := Writes(before), b.write;
    SaveNext(writes, place, w);
    var rev := Saved(Run(writes), w.target, w.content, w.hash);
    var previous :|
      Finds(Run(Writes(before[..b.readAt])), w.target.id, previous) &&
      record == RecordOf(w.target.id, previous, rev, w.content);
    ReadIsCurrent(before, place, w.target.id, b.readAt, previous);
    VersionIds(writes, w.target.id);
    RecordIsNew(Versions(writes, w.target.id), w, rev, previous);
  }

  lemma {:induction false} ChangedStep(before: seq<Backup>, b: Backup, place: Name -> Target,
                                       rs: seq<DiffResult>, record: DiffResult)
    requires b.readAt <= |before| && Quiet(Writes(before), b.readAt, b.write.target.id)
    requires Stable(Writes(before) + [b.write], place) && OneLineIds(Writes(before) + [b.write])
    requires LastChanged(before, b.write) && LastRecorded(before, b, record)
    requires Replays(rs, Versions(Writes(before), b.write.target.id), b.write.target.id)
    ensures Replays(rs + [record], Versions(Writes(before) + [b.write], b.write.target.id), b.write.target.id)
  {
    var writes, w := Writes(before), b.write;
    OneLinePrefix(writes, w);
    LastRecord(before, b, place, record);
    SaveNext(writes, place, w);
    VersionIds(writes, w.target.id);
    ReplaysMore(rs, Versions(writes, w.target.id), w);
  }

  lemma OneLinePrefix(writes: seq<Write>, w: Write)
    requires OneLineIds(writes + [w])
    ensures OneLineIds(writes) && OneLine(w.hash)
  {
    assert (writes + [w])[|writes|] == w;
    assert forall i :: 0 <= i < |writes| ==> (writes + [w])[i] == writes[i];
  }

  lemma UnchangedStep(before: seq<Backup>, w: Write, place: Name -> Target)
    requires Stable(Writes(before) + [w], place) && !LastChanged(before, w)
    ensures Versions(Writes(before) + [w], w.target.id) == Versions(Writes(before), w.target.id)
  {
    SaveNext(Writes(before), place, w);
  }

  lemma StableFront(writes: seq<Write>, w: Write, place: Name -> Target)
    requires Stable(writes + [w], place)
    ensures Stable(writes, place)
  {
    assert (writes + [w])[..|writes|] == writes;
    StablePrefix(writes + [w], place, |writes|);
  }

  lemma {:induction false} ReplaysExtended(before: seq<Backup>, b: Backup, place: Name -> Target, id: Name,
                                           rs: seq<DiffResult>, records: seq<DiffResult>)
    requires b.readAt <= |before| && Quiet(Writes(before), b.readAt, b.write.target.id)
    requires Stable(Writes(before) + [b.write], place) && OneLineIds(Writes(before) + [b.write])
    requires Extends(before, b, id, rs, records) && Replays(rs, Versions(Writes(before), id), id)
    ensures Replays(records, Versions(Writes(before) + [b.write], id), id)
  {
    hide LastChanged, LastRecorded, Replays, Quiet, Stable, OneLineIds, Versions;
    if b.write.target.id != id {
      OtherVersions(Writes(before), b.write, id);
    } else if !LastChanged(before, b.write) {
      UnchangedStep(before, b.write, place);
    } else {
      var r :| records == rs + [r] && LastRecorded(before, b, r);
      ChangedStep(before, b, place, rs, r);
    }
  }

  /** For backups of a target run one at a time, interleaved with any others, the diffs recorded after the
      first turn the lines of the first saved configuration into the lines of the latest. */
  lemma {:induction false} HistoryReplays(backups: seq<Backup>, place: Name -> Target, id: Name,
                                          records: seq<DiffResult>)
    requires OneAtATime(backups) && Stable(Writes(backups), place) && OneLineIds(Writes(backups))
    requires Recorded(backups, id, records)
    ensures Replays(records, Versions(Writes(backups), id), id)
    decreases |backups|
  {
    if backups == [] {
      assert records == [] && Versions(Writes(backups), id) == [];
    } else {
      hide Extends, Replays, Quiet, Stable, OneLineIds, Versions;
      var b, before := backups[|backups| - 1], Front(backups);
      var rs :| Recorded(before, id, rs) && Extends(before, b, id, rs, records);
      StableFront(Writes(before), b.write, place);
      OneLinePrefix(Writes(before), b.write);
      HistoryReplays(before, place, id, rs);
      ReplaysExtended(before, b, place, id, rs, records);
    }
  }

  // ----- the handler and the relation

  /** The records of one target. */
  function RecordsOf(records: seq<DiffResult>, id: Name): seq<DiffResult> {
    if records == [] then []
    else
      var last := |records| - 1;
      RecordsOf(records[..last], id) + if records[last].target == id then [records[last]] else []
  }

  lemma RecordsAppend(records: seq<DiffResult>, r: DiffResult, id: Name)
    ensures RecordsOf(records + [r], id) == RecordsOf(records, id) + if r.target == id then [r] else []
  {
    assert (records + [r])[..|records|] == records;
  }

  lemma RunNext(writes: seq<Write>, w: Write)
    ensures Run(writes + [w]) == AfterSave(Run(writes), w.target, w.content, w.hash)
  {
    assert (writes + [w])[..|writes|] == writes;
  }

  lemma RecordTarget(target: Name, previous: Option<(string, Hash)>, rev: Revision, content: string)
    ensures RecordOf(target, previous, rev, content).target == target
  {
  }

  /** A backup that reads when all the others are done comes after them. */
  lemma BackupNext(backups: seq<Backup>, b: Backup)
    requires OneAtATime(backups) && b.readAt == |backups|
    ensures var more := backups + [b];
      && Front(more) == backups && more[|more| - 1] == b
      && Writes(more) == Writes(backups) + [b.write] && OneAtATime(more)
  {
    var more := backups + [b];
    assert more[..|backups|] == backups;
    hide Writes;
    assert Quiet(Writes(backups), |backups|, b.write.target.id);
    WritesNext(backups, b);
  }

  lemma WritesNext(backups: seq<Backup>, b: Backup)
    ensures Writes(backups + [b]) == Writes(backups) + [b.write]
  {
    assert (backups + [b])[..|backups|] == backups;
  }

  lemma {:induction false} RecordedNext(backups: seq<Backup>, b: Backup, id: Name, rs: seq<DiffResult>,
                                        records: seq<DiffResult>)
    requires OneAtATime(backups) && OneAtATime(backups + [b]) && b.readAt <= |backups|
    requires Recorded(backups, id, rs) && Extends(backups, b, id, rs, records)
    ensures Recorded(backups + [b], id, records)
  {
    hide Extends, OneAtATime;
    assert Front(backups + [b]) == backups && (backups + [b])[|backups|] == b;
  }

  /** The records of a target before and after a handler, as the relation has them. */
  lemma ExtendsNext(backups: seq<Backup>, b: Backup, previous: Option<(string, Hash)>, records: seq<DiffResult>,
                    id: Name)
    requires b.readAt == |backups| && Finds(Run(Writes(backups)), b.write.target.id, previous)
    ensures var w := b.write; var rev := Saved(Run(Writes(backups)), w.target, w.content, w.hash);
      Extends(backups, b, id, RecordsOf(records, id), RecordsOf(
        records + (if rev.changed then [RecordOf(w.target.id, previous, rev, w.content)] else []), id))
  {
    var w := b.write;
    var rev := Saved(Run(Writes(backups)), w.target, w.content, w.hash);
    var r := RecordOf(w.target.id, previous, rev, w.content);
    assert backups[..|backups|] == backups;
    assert rev.changed ==> LastRecorded(backups, b, r);
    assert rev.changed == LastChanged(backups, w);
    RecordTarget(w.target.id, previous, rev, w.content);
    hide LastRecorded, LastChanged, Saved, RecordOf, Finds, Run, Writes;
    if rev.changed {
      RecordsAppend(records, r, id);
      hide RecordsOf;
      assert RecordsOf(records, id) + [] == RecordsOf(records, id);
    } else {
      assert records + [] == records;
    }
  }

  /** What the handler does, when no diff is lost, is what `Recorded` says of the next backup, for the target
      of the handler and for all others. */
  lemma {:induction false} HandleIsRecorded(backups: seq<Backup>, t: Target, content: string, hash: Hash,
                                            previous: Option<(string, Hash)>, records: seq<DiffResult>, id: Name)
    requires OneAtATime(backups) && Recorded(backups, id, RecordsOf(records, id))
    requires Finds(Run(Writes(backups)), t.id, previous)
    ensures var more := backups + [Backup(Write(t, content, hash), |backups|)];
      var rev := Saved(Run(Writes(backups)), t, content, hash);
      && Run(Writes(more)) == AfterSave(Run(Writes(backups)), t, content, hash)
      && OneAtATime(more)
      && Recorded(more, id, RecordsOf(
           records + (if rev.changed then [RecordOf(t.id, previous, rev, content)] else []), id))
  {
    hide OneAtATime, Recorded, Extends, Finds, Run, Writes, Saved, AfterSave, RecordOf, RecordsOf;
    var b := Backup(Write(t, content, hash), |backups|);
    BackupNext(backups, b);
    RunNext(Writes(backups), b.write);
    ExtendsNext(backups, b, previous, records, id);
    var rev := Saved(Run(Writes(backups)), t, content, hash);
    RecordedNext(backups, b, id, RecordsOf(records, id), RecordsOf(
      records + (if rev.changed then [RecordOf(t.id, previous, rev, content)] else []), id));
  }
}
