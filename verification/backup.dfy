/**
 * The three backup strategies of an entry: copy every source to its own
 * destination, or pack all sources into one 7z or zip archive named after
 * the first source. Each strategy first resolves the sources (an error
 * there is logged as a warning and the entry is skipped), then names the
 * destinations, then prunes old outputs.
 *
 * The copying and archiving themselves are outside the model: the file
 * system they leave behind is a parameter, and so is whether the archiver
 * succeeded. The clock reading of the `i`-th destination naming is
 * `clock(i)`.
 */
module Backup {
  import opened Wrappers
  import opened Paths
  import opened EnvPath
  import opened Entries
  import opened DateStamp
  import opened Rename
  import opened Sources
  import opened Prune

  datatype Strategy = CopyEach | SevenZip | ZipFile

  /** What one run of a strategy amounts to. */
  datatype Outcome =
    | Skipped(reason: SourceError)                             // the sources did not resolve: a warning, nothing else
    | Finished(targets: seq<string>, pruned: PruneState)       // written, then pruned
    | PruneRejected(targets: seq<string>, error: PruneError)   // the prune failed and the returned promise rejects
    | ArchiveFailed(target: string)                            // 7z reported an error: it is logged and nothing is pruned
    | ArchiveRejected(target: string)                          // writing the zip failed: the returned promise rejects
    | Unsettled(target: string, error: PruneError)             // the prune after a 7z archive failed inside the event handler

  /** The destinations of the copy strategy, one per source, the `i`-th named at clock reading `clock(i)`. */
  function CopyTargets(to: string, sources: seq<string>, e: Entry, clock: nat -> DateTime, env: Env, ops: PathOps): seq<string> {
    seq(|sources|, i requires 0 <= i < |sources| => ResolvePathTo(to, ops.base(sources[i]), e, clock(i), env, ops).path)
  }

  /** The single archive path, named after the first source. */
  function ArchiveTarget(to: string, sources: seq<string>, e: Entry, clock: nat -> DateTime, env: Env, ops: PathOps): string
    requires |sources| > 0
  {
    ResolvePathTo(to, ops.base(sources[0]), e, clock(0), env, ops).path
  }

  /** The prune result as the strategy reports it. */
  function AfterPrune(targets: seq<string>, pr: Result<PruneState, PruneError>): Outcome {
    match pr
    case Success(st) => Finished(targets, st)
    case Failure(err) => PruneRejected(targets, err)
  }

  /**
   * One run of a strategy. `fs` is the file system the sources are resolved
   * against, `written` the one after copying or archiving, which the prune
   * lists and removes from.
   */
  function RunBackup(s: Strategy, e: Entry, to: string, env: Env, fs: FileSystem, written: FileSystem,
                     ops: PathOps, clock: nat -> DateTime, removeOk: string -> bool, archiveOk: bool): (o: Outcome)
    ensures o.Skipped? <==> ConvertFromToArray(e, env, fs, ops).Failure?
    ensures o.Skipped? ==> o.reason == ConvertFromToArray(e, env, fs, ops).error
    ensures (o.ArchiveFailed? || o.ArchiveRejected? || o.Unsettled?) ==> s != CopyEach
    ensures o.ArchiveFailed? || o.Unsettled? ==> s == SevenZip
    ensures o.ArchiveRejected? ==> s == ZipFile
    ensures (o.Finished? || o.PruneRejected?) && s != CopyEach ==> |o.targets| == 1
  {
    match ConvertFromToArray(e, env, fs, ops)
    case Failure(err) => Skipped(err)
    case Success(sources) =>
      match s
      case CopyEach =>
        AfterPrune(CopyTargets(to, sources, e, clock, env, ops), DeleteOldBackups(e, sources, to, env, written, ops, removeOk))
      case SevenZip =>
        var target := ArchiveTarget(to, sources, e, clock, env, ops);
        if !archiveOk then ArchiveFailed(target)
        else
          (match DeleteOldBackups(e, [sources[0]], to, env, written, ops, removeOk)
           case Success(st) => Finished([target], st)
           case Failure(err) => Unsettled(target, err))
      case ZipFile =>
        var target := ArchiveTarget(to, sources, e, clock, env, ops);
        if !archiveOk then ArchiveRejected(target)
        else AfterPrune([target], DeleteOldBackups(e, [sources[0]], to, env, written, ops, removeOk))
  }

  // ---------------------------------------------------------------------
  // Properties
  // ---------------------------------------------------------------------

  /** Copying writes one destination per resolved source and prunes for every source. */
  lemma CopyPrunesEverySource(e: Entry, to: string, env: Env, fs: FileSystem, written: FileSystem, ops: PathOps,
                              clock: nat -> DateTime, removeOk: string -> bool, archiveOk: bool)
    requires ConvertFromToArray(e, env, fs, ops).Success?
    ensures var sources := ConvertFromToArray(e, env, fs, ops).value;
      var o := RunBackup(CopyEach, e, to, env, fs, written, ops, clock, removeOk, archiveOk);
      && (o.Finished? || o.PruneRejected?)
      && |o.targets| == |sources|
      && (forall i :: 0 <= i < |sources| ==> o.targets[i] == ResolvePathTo(to, ops.base(sources[i]), e, clock(i), env, ops).path)
      && (o.Finished? <==> DeleteOldBackups(e, sources, to, env, written, ops, removeOk).Success?)
      && (o.Finished? ==> o.pruned == DeleteOldBackups(e, sources, to, env, written, ops, removeOk).value)
  {
  }

  /**
   * An archive is named after the first resolved source and, once written,
   * is pruned for that source alone: the other sources' names play no part.
   */
  lemma ArchivePrunesFirstOnly(s: Strategy, e: Entry, to: string, env: Env, fs: FileSystem, written: FileSystem,
                               ops: PathOps, clock: nat -> DateTime, removeOk: string -> bool)
    requires s != CopyEach && ConvertFromToArray(e, env, fs, ops).Success?
    ensures var sources := ConvertFromToArray(e, env, fs, ops).value;
      var o := RunBackup(s, e, to, env, fs, written, ops, clock, removeOk, true);
      var pr := DeleteOldBackups(e, [sources[0]], to, env, written, ops, removeOk);
      && (o.Finished? <==> pr.Success?)
      && (o.Finished? ==> o.targets == [ResolvePathTo(to, ops.base(sources[0]), e, clock(0), env, ops).path] && o.pruned == pr.value)
      && (pr.Failure? && s == SevenZip ==> o == Unsettled(ResolvePathTo(to, ops.base(sources[0]), e, clock(0), env, ops).path, pr.error))
      && (pr.Failure? && s == ZipFile ==> o == PruneRejected([ResolvePathTo(to, ops.base(sources[0]), e, clock(0), env, ops).path], pr.error))
  {
  }

  /** A failed archive is never pruned after; 7z logs the failure, zip rejects. */
  lemma ArchiveFailureNoPrune(s: Strategy, e: Entry, to: string, env: Env, fs: FileSystem, written: FileSystem,
                              ops: PathOps, clock: nat -> DateTime, removeOk: string -> bool)
    requires s != CopyEach && ConvertFromToArray(e, env, fs, ops).Success?
    ensures var o := RunBackup(s, e, to, env, fs, written, ops, clock, removeOk, false);
      (s == SevenZip ==> o.ArchiveFailed?) && (s == ZipFile ==> o.ArchiveRejected?)
  {
  }

  /**
   * The archive lands in the resolved `to\subfolder` folder, the one the
   * prune lists, under the base name the template gives the first source
   * followed by the archive's extension (for a `7z` or `zip` compression).
   */
  lemma ArchiveNamedAfterFirst(e: Entry, to: string, sources: seq<string>, clock: nat -> DateTime, env: Env, ops: PathOps)
    requires |sources| > 0 && e.rename != ""
    ensures ArchiveTarget(to, sources, e, clock, env, ops)
      == ops.normalize(ResolvePath(to + "\\" + e.subfolder, env, ops) + "\\"
                       + ResolveRenamePattern(e, ops.base(sources[0]), clock(0)) + Extension(e.compression))
    ensures exists raw: string :: (ArchiveTarget(to, sources, e, clock, env, ops) == ops.normalize(raw)
      && EndsWith(raw, ResolveRenamePattern(e, ops.base(sources[0]), clock(0)) + Extension(e.compression)))
  {
  }

  /**
   * With a single source, the prune after copying and the prune after a
   * successful archive are the same: the strategies differ in what they
   * prune only when there are several sources.
   */
  lemma SingleSourceSamePrune(s: Strategy, e: Entry, to: string, env: Env, fs: FileSystem, written: FileSystem,
                              ops: PathOps, clock: nat -> DateTime, removeOk: string -> bool)
    requires s != CopyEach
    requires var r := ConvertFromToArray(e, env, fs, ops); r.Success? && |r.value| == 1
    ensures var c := RunBackup(CopyEach, e, to, env, fs, written, ops, clock, removeOk, true);
      var a := RunBackup(s, e, to, env, fs, written, ops, clock, removeOk, true);
      && (c.Finished? <==> a.Finished?)
      && (c.Finished? ==> c.pruned == a.pruned && c.targets == a.targets)
  {
    var sources := ConvertFromToArray(e, env, fs, ops).value;
    assert [sources[0]] == sources;
    CopyPrunesEverySource(e, to, env, fs, written, ops, clock, removeOk, true);
    ArchivePrunesFirstOnly(s, e, to, env, fs, written, ops, clock, removeOk);
  }

  /** An entry without a rename template or with `keep` 0 never loses an output, whatever the strategy. */
  lemma NoTemplateNoPrune(s: Strategy, e: Entry, to: string, env: Env, fs: FileSystem, written: FileSystem,
                          ops: PathOps, clock: nat -> DateTime, removeOk: string -> bool)
    requires e.rename == "" || e.keep == 0
    requires ConvertFromToArray(e, env, fs, ops).Success?
    ensures var o := RunBackup(s, e, to, env, fs, written, ops, clock, removeOk, true);
      o.Finished? && o.pruned == PruneState(written, [], [])
  {
  }
}
