/**
 * The pruning step of one entry. Nothing happens unless the entry has a
 * rename template and a non-zero `keep`. Otherwise the destination folder
 * is listed once, and for each source its pattern selects the matching
 * names; when more than `keep` match, each is stat-ed for its birth time,
 * they are sorted newest first, and everything after the first `keep` is
 * removed, each removal on its own: a failed one is logged and the next is
 * still tried.
 *
 * Removal is reduced to dropping the path from the file-system map; the
 * outcome of each removal is a parameter.
 */
module Prune {
  import opened Wrappers
  import opened Paths
  import opened EnvPath
  import opened Entries
  import opened PrunePattern
  import opened PruneSelect
  import opened Text

  datatype PruneError =
    | ListingFailed(folder: string)      // the destination folder is missing or not a directory
    | PatternOutsideModel(text: string)  // the pattern text uses syntax outside the modelled fragment
    | StatFailed(path: string)           // a listed name no longer exists when it is stat-ed
    | NegativeKeep                       // a negative `keep` reads a candidate before the first one

  /** The prune so far: the file system, and the paths removed and not removable, in order. */
  datatype PruneState = PruneState(fs: FileSystem, deleted: seq<string>, failed: seq<string>)

  /** The path of a listed name, joined with a Windows separator as the code does. */
  function PathIn(folder: string, name: string): string {
    folder + "\\" + name
  }

  /** The listed names the pattern accepts, in listing order. */
  function Matching(p: seq<PTok>, names: seq<string>): (r: seq<string>)
    ensures |r| <= |names|
  {
    if |names| == 0 then []
    else (if PatternTest(p, names[0]) then [names[0]] else []) + Matching(p, names[1..])
  }

  /** The names whose path this prune has not removed yet. */
  function NotDeleted(folder: string, names: seq<string>, deleted: seq<string>): (r: seq<string>)
    ensures |r| <= |names|
    ensures forall i :: 0 <= i < |r| ==> PathIn(folder, r[i]) !in deleted
  {
    if |names| == 0 then []
    else (if PathIn(folder, names[0]) !in deleted then [names[0]] else []) + NotDeleted(folder, names[1..], deleted)
  }

  /** The birth time of every name, or the first path that does not exist. */
  function Stat(folder: string, names: seq<string>, fs: FileSystem): (r: Result<seq<Candidate>, PruneError>)
    ensures r.Success? ==> |r.value| == |names|
    ensures r.Success? ==> forall i :: 0 <= i < |names| ==>
      PathIn(folder, names[i]) in fs && r.value[i] == Candidate(names[i], fs[PathIn(folder, names[i])].birthtime)
    ensures r.Failure? <==> exists i :: 0 <= i < |names| && PathIn(folder, names[i]) !in fs
  {
    if |names| == 0 then Success([])
    else
      var path := PathIn(folder, names[0]);
      if path !in fs then Failure(StatFailed(path))
      else
        match Stat(folder, names[1..], fs)
        case Failure(err) =>
          assert forall i :: 0 <= i < |names[1..]| ==> names[1..][i] == names[i + 1];
          Failure(err)
        case Success(cs) =>
          assert forall i :: 1 <= i < |names| ==> names[i] == names[1..][i - 1];
          Success([Candidate(names[0], fs[path].birthtime)] + cs)
  }

  /** Removes each victim in turn; a removal that fails is recorded and the next one is still tried. */
  function RemoveAll(folder: string, victims: seq<Candidate>, st: PruneState, removeOk: string -> bool): (r: PruneState)
    ensures |r.deleted| + |r.failed| == |st.deleted| + |st.failed| + |victims|
    ensures |r.deleted| >= |st.deleted| && r.deleted[..|st.deleted|] == st.deleted
    ensures |r.failed| >= |st.failed| && r.failed[..|st.failed|] == st.failed
  {
    if |victims| == 0 then st
    else
      var path := PathIn(folder, victims[0].name);
      var next :=
        if removeOk(path) then PruneState(st.fs - {path}, st.deleted + [path], st.failed)
        else PruneState(st.fs, st.deleted, st.failed + [path]);
      var r := RemoveAll(folder, victims[1..], next, removeOk);
      assert r.deleted[..|st.deleted|] == r.deleted[..|next.deleted|][..|st.deleted|];
      assert r.failed[..|st.failed|] == r.failed[..|next.failed|][..|st.failed|];
      r
  }

  /**
   * The prune for one source. `skipDeleted` chooses between the code as
   * written (`false`: the names come from the one listing taken before the
   * first source) and the corrected step (`true`: names this prune has
   * already removed are left out).
   */
  function PruneSource(e: Entry, folder: string, listing: seq<string>, clock: string, item: string,
                       st: PruneState, ops: PathOps, removeOk: string -> bool, skipDeleted: bool): Result<PruneState, PruneError>
  {
    var text := SourcePattern(clock, ops.base(item), e.compression);
    match ParsePattern(text)
    case None => Failure(PatternOutsideModel(text))
    case Some(p) =>
      var names := if skipDeleted then NotDeleted(folder, listing, st.deleted) else listing;
      var matched := Matching(p, names);
      if |matched| <= e.keep then Success(st)
      else
        match Stat(folder, matched, st.fs)
        case Failure(err) => Failure(err)
        case Success(cands) =>
          if e.keep < 0 then Failure(NegativeKeep)
          else Success(RemoveAll(folder, Victims(SortNewestFirst(cands), e.keep), st, removeOk))
  }

  /** The sources in order; the first error ends the prune. */
  function PruneSources(e: Entry, folder: string, listing: seq<string>, clock: string, items: seq<string>,
                        st: PruneState, ops: PathOps, removeOk: string -> bool, skipDeleted: bool): Result<PruneState, PruneError>
    decreases |items|
  {
    if |items| == 0 then Success(st)
    else
      match PruneSource(e, folder, listing, clock, items[0], st, ops, removeOk, skipDeleted)
      case Failure(err) => Failure(err)
      case Success(st1) => PruneSources(e, folder, listing, clock, items[1..], st1, ops, removeOk, skipDeleted)
  }

  function PruneEntry(e: Entry, from: seq<string>, to: string, env: Env, fs: FileSystem, ops: PathOps,
                      removeOk: string -> bool, skipDeleted: bool): (r: Result<PruneState, PruneError>)
    ensures e.rename == "" || e.keep == 0 ==> r == Success(PruneState(fs, [], []))
  {
    if e.rename == "" || e.keep == 0 then Success(PruneState(fs, [], []))
    else
      var folder := ResolvePath(to + "\\" + e.subfolder, env, ops);
      if folder !in fs || !fs[folder].Dir? then Failure(ListingFailed(folder))
      else PruneSources(e, folder, fs[folder].children, ClockPattern(e.rename), from, PruneState(fs, [], []), ops, removeOk, skipDeleted)
  }

  /** The pruning step as the code writes it. */
  function DeleteOldBackupsAsWritten(e: Entry, from: seq<string>, to: string, env: Env, fs: FileSystem, ops: PathOps,
                                     removeOk: string -> bool): Result<PruneState, PruneError>
  {
    PruneEntry(e, from, to, env, fs, ops, removeOk, false)
  }

  /** The pruning step with names already removed by this prune left out of later sources' matches. */
  function DeleteOldBackups(e: Entry, from: seq<string>, to: string, env: Env, fs: FileSystem, ops: PathOps,
                            removeOk: string -> bool): Result<PruneState, PruneError>
  {
    PruneEntry(e, from, to, env, fs, ops, removeOk, true)
  }

  // ---------------------------------------------------------------------
  // Properties
  // ---------------------------------------------------------------------

  /** The matched names are exactly the listed names the pattern accepts. */
  lemma {:induction false} MatchingMembership(p: seq<PTok>, names: seq<string>, x: string)
    ensures x in Matching(p, names) <==> x in names && PatternTest(p, x)
  {
    if |names| > 0 {
      MatchingMembership(p, names[1..], x);
      assert names == [names[0]] + names[1..];
    }
  }

  /** The paths of the victims, in order. */
  function VictimPaths(folder: string, vs: seq<Candidate>): (r: seq<string>)
    ensures |r| == |vs|
  {
    if |vs| == 0 then [] else [PathIn(folder, vs[0].name)] + VictimPaths(folder, vs[1..])
  }

  /** The paths removal was tried on during a run from `st` to `r`. */
  function Attempted(st: PruneState, r: PruneState): seq<string>
    requires |r.deleted| >= |st.deleted| && |r.failed| >= |st.failed|
  {
    r.deleted[|st.deleted|..] + r.failed[|st.failed|..]
  }

  /** Every victim's removal is tried once, whether or not earlier ones failed. */
  lemma {:induction false} RemoveAllAttempts(folder: string, victims: seq<Candidate>, st: PruneState, removeOk: string -> bool)
    ensures var r := RemoveAll(folder, victims, st, removeOk);
      multiset(Attempted(st, r)) == multiset(VictimPaths(folder, victims))
  {
    var r := RemoveAll(folder, victims, st, removeOk);
    if |victims| == 0 {
      assert Attempted(st, r) == [];
    } else {
      var path := PathIn(folder, victims[0].name);
      var next :=
        if removeOk(path) then PruneState(st.fs - {path}, st.deleted + [path], st.failed)
        else PruneState(st.fs, st.deleted, st.failed + [path]);
      RemoveAllAttempts(folder, victims[1..], next, removeOk);
      assert r == RemoveAll(folder, victims[1..], next, removeOk);
      AttemptedStep(st, next, r, path);
      assert VictimPaths(folder, victims) == [path] + VictimPaths(folder, victims[1..]);
    }
  }

  /** One more tried path, recorded either as removed or as failed. */
  lemma AttemptedStep(st: PruneState, next: PruneState, r: PruneState, path: string)
    requires (next.deleted == st.deleted + [path] && next.failed == st.failed)
          || (next.deleted == st.deleted && next.failed == st.failed + [path])
    requires |r.deleted| >= |next.deleted| && r.deleted[..|next.deleted|] == next.deleted
    requires |r.failed| >= |next.failed| && r.failed[..|next.failed|] == next.failed
    ensures multiset(Attempted(st, r)) == multiset{path} + multiset(Attempted(next, r))
  {
    var d0, d1 := r.deleted[|st.deleted|..], r.deleted[|next.deleted|..];
    var f0, f1 := r.failed[|st.failed|..], r.failed[|next.failed|..];
    if next.deleted == st.deleted + [path] && next.failed == st.failed {
      assert d0 == [path] + d1 by {
        assert r.deleted[|st.deleted|] == path;
      }
      assert f0 == f1;
      assert Attempted(st, r) == [path] + Attempted(next, r);
    } else {
      assert f0 == [path] + f1 by {
        assert r.failed[|st.failed|] == path;
      }
      assert d0 == d1;
      assert multiset(Attempted(st, r)) == multiset(d1) + multiset(f0);
    }
  }

  /**
   * A removed path is one whose removal succeeded and it is gone from the
   * file system; a recorded failure is one whose removal failed; and the
   * file system loses exactly the removed paths, every other entry kept as
   * it was.
   */
  lemma {:induction false} RemoveAllEffect(folder: string, victims: seq<Candidate>, st: PruneState, removeOk: string -> bool)
    ensures RemovalEffect(st, RemoveAll(folder, victims, st, removeOk), removeOk)
  {
    if |victims| > 0 {
      var r := RemoveAll(folder, victims, st, removeOk);
      var path := PathIn(folder, victims[0].name);
      var next :=
        if removeOk(path) then PruneState(st.fs - {path}, st.deleted + [path], st.failed)
        else PruneState(st.fs, st.deleted, st.failed + [path]);
      RemoveAllEffect(folder, victims[1..], next, removeOk);
      assert r == RemoveAll(folder, victims[1..], next, removeOk);
      RemovalEffectStep(st, next, r, path, removeOk);
    }
  }

  /**
   * Between state `st` and a later state `r`: every newly removed path is one
   * whose removal succeeded, every newly failed one is one whose removal
   * failed, and the file system lost exactly the newly removed paths, every
   * other entry kept as it was.
   */
  ghost predicate RemovalEffect(st: PruneState, r: PruneState, removeOk: string -> bool)
    requires |r.deleted| >= |st.deleted| && |r.failed| >= |st.failed|
  {
    && (forall i :: |st.deleted| <= i < |r.deleted| ==> removeOk(r.deleted[i]))
    && (forall i :: |st.failed| <= i < |r.failed| ==> !removeOk(r.failed[i]))
    && (forall k :: k in r.fs <==> k in st.fs && k !in r.deleted[|st.deleted|..])
    && (forall k :: k in r.fs ==> r.fs[k] == st.fs[k])
  }

  /** One removal attempt followed by the rest keeps the removal effect. */
  lemma RemovalEffectStep(st: PruneState, next: PruneState, r: PruneState, path: string, removeOk: string -> bool)
    requires next == if removeOk(path) then PruneState(st.fs - {path}, st.deleted + [path], st.failed)
                     else PruneState(st.fs, st.deleted, st.failed + [path])
    requires |r.deleted| >= |next.deleted| && r.deleted[..|next.deleted|] == next.deleted
    requires |r.failed| >= |next.failed| && r.failed[..|next.failed|] == next.failed
    requires RemovalEffect(next, r, removeOk)
    ensures RemovalEffect(st, r, removeOk)
  {
    if removeOk(path) {
      assert r.deleted[|st.deleted|..] == [path] + r.deleted[|next.deleted|..] by {
        assert r.deleted[|st.deleted|] == next.deleted[|st.deleted|];
      }
      assert r.deleted[|st.deleted|] == path;
    } else {
      assert r.deleted[|st.deleted|..] == r.deleted[|next.deleted|..];
      assert r.failed[|st.failed|] == next.failed[|st.failed|] == path;
    }
  }

  /** With no more matches than `keep`, a source's prune changes nothing. */
  lemma WithinKeepNothingRemoved(e: Entry, folder: string, listing: seq<string>, clock: string, item: string,
                                 st: PruneState, ops: PathOps, removeOk: string -> bool, skipDeleted: bool, p: seq<PTok>)
    requires ParsePattern(SourcePattern(clock, ops.base(item), e.compression)) == Some(p)
    requires |Matching(p, if skipDeleted then NotDeleted(folder, listing, st.deleted) else listing)| <= e.keep
    ensures PruneSource(e, folder, listing, clock, item, st, ops, removeOk, skipDeleted) == Success(st)
  {
  }

  /**
   * With more matches than a non-negative `keep`, all of which exist: the
   * matches are stat-ed, exactly `count - keep` removals are tried, they are
   * the victims of the newest-first split, and no victim is newer than any
   * match that stays.
   */
  lemma BeyondKeepOldestRemoved(e: Entry, folder: string, listing: seq<string>, clock: string, item: string,
                                st: PruneState, ops: PathOps, removeOk: string -> bool, skipDeleted: bool, p: seq<PTok>)
    requires e.keep >= 0
    requires ParsePattern(SourcePattern(clock, ops.base(item), e.compression)) == Some(p)
    requires var matched := Matching(p, if skipDeleted then NotDeleted(folder, listing, st.deleted) else listing);
      |matched| > e.keep && forall i :: 0 <= i < |matched| ==> PathIn(folder, matched[i]) in st.fs
    ensures var matched := Matching(p, if skipDeleted then NotDeleted(folder, listing, st.deleted) else listing);
      var r := PruneSource(e, folder, listing, clock, item, st, ops, removeOk, skipDeleted);
      && Stat(folder, matched, st.fs).Success?
      && var sorted := SortNewestFirst(Stat(folder, matched, st.fs).value);
      && r == Success(RemoveAll(folder, Victims(sorted, e.keep), st, removeOk))
      && |Attempted(st, r.value)| == |matched| - e.keep
      && multiset(Attempted(st, r.value)) == multiset(VictimPaths(folder, Victims(sorted, e.keep)))
      && (forall v, w :: v in Victims(sorted, e.keep) && w in Survivors(sorted, e.keep) ==> v.birthtime <= w.birthtime)
  {
    var matched := Matching(p, if skipDeleted then NotDeleted(folder, listing, st.deleted) else listing);
    BeyondKeepRemoves(e, folder, listing, clock, item, st, ops, removeOk, skipDeleted, p);
    VictimsAttempted(folder, Stat(folder, matched, st.fs).value, e.keep, st, removeOk);
  }

  /** With more matches than a non-negative `keep`, all existing, the prune removes the victims of the split. */
  lemma BeyondKeepRemoves(e: Entry, folder: string, listing: seq<string>, clock: string, item: string,
                          st: PruneState, ops: PathOps, removeOk: string -> bool, skipDeleted: bool, p: seq<PTok>)
    requires e.keep >= 0
    requires ParsePattern(SourcePattern(clock, ops.base(item), e.compression)) == Some(p)
    requires var matched := Matching(p, if skipDeleted then NotDeleted(folder, listing, st.deleted) else listing);
      |matched| > e.keep && forall i :: 0 <= i < |matched| ==> PathIn(folder, matched[i]) in st.fs
    ensures var matched := Matching(p, if skipDeleted then NotDeleted(folder, listing, st.deleted) else listing);
      && Stat(folder, matched, st.fs).Success?
      && PruneSource(e, folder, listing, clock, item, st, ops, removeOk, skipDeleted)
         == Success(RemoveAll(folder, Victims(SortNewestFirst(Stat(folder, matched, st.fs).value), e.keep), st, removeOk))
  {
  }

  /** Removing the victims of a newest-first split tries `count - keep` paths, the victims' paths, none newer than a survivor. */
  lemma VictimsAttempted(folder: string, cands: seq<Candidate>, keep: nat, st: PruneState, removeOk: string -> bool)
    requires |cands| > keep
    ensures var sorted := SortNewestFirst(cands);
      var r := RemoveAll(folder, Victims(sorted, keep), st, removeOk);
      && |Attempted(st, r)| == |cands| - keep
      && multiset(Attempted(st, r)) == multiset(VictimPaths(folder, Victims(sorted, keep)))
      && (forall v, w :: v in Victims(sorted, keep) && w in Survivors(sorted, keep) ==> v.birthtime <= w.birthtime)
  {
    var sorted := SortNewestFirst(cands);
    SplitKeepsNewest(cands, keep);
    RemoveAllAttempts(folder, Victims(sorted, keep), st, removeOk);
  }

  // ---------------------------------------------------------------------
  // The corrected step never stats a removed name
  // ---------------------------------------------------------------------

  /** Every listed name of the folder exists. */
  predicate ListingExists(fs: FileSystem, folder: string, listing: seq<string>) {
    forall i :: 0 <= i < |listing| ==> PathIn(folder, listing[i]) in fs
  }

  /** The state differs from the original file system exactly by the removed paths. */
  ghost predicate Tracks(fs0: FileSystem, st: PruneState) {
    forall k :: k in st.fs <==> k in fs0 && k !in st.deleted
  }

  lemma {:induction false} NotDeletedExist(fs0: FileSystem, st: PruneState, folder: string, listing: seq<string>)
    requires ListingExists(fs0, folder, listing) && Tracks(fs0, st)
    ensures ListingExists(st.fs, folder, NotDeleted(folder, listing, st.deleted))
  {
    if |listing| > 0 {
      assert ListingExists(fs0, folder, listing[1..]) by {
        forall i | 0 <= i < |listing[1..]| ensures PathIn(folder, listing[1..][i]) in fs0 {
          assert listing[1..][i] == listing[i + 1];
        }
      }
      NotDeletedExist(fs0, st, folder, listing[1..]);
    }
  }

  lemma MatchingExist(fs: FileSystem, folder: string, p: seq<PTok>, names: seq<string>)
    requires ListingExists(fs, folder, names)
    ensures ListingExists(fs, folder, Matching(p, names))
  {
    var m := Matching(p, names);
    forall i | 0 <= i < |m| ensures PathIn(folder, m[i]) in fs {
      MatchingMembership(p, names, m[i]);
      var j :| 0 <= j < |names| && names[j] == m[i];
    }
  }

  lemma RemoveAllTracks(fs0: FileSystem, folder: string, victims: seq<Candidate>, st: PruneState, removeOk: string -> bool)
    requires Tracks(fs0, st)
    ensures Tracks(fs0, RemoveAll(folder, victims, st, removeOk))
  {
    var r := RemoveAll(folder, victims, st, removeOk);
    RemoveAllEffect(folder, victims, st, removeOk);
    assert r.deleted == st.deleted + r.deleted[|st.deleted|..];
  }

  lemma {:induction false} CorrectedSourcesNeverStatFail(e: Entry, folder: string, listing: seq<string>, clock: string,
                                                         items: seq<string>, fs0: FileSystem, st: PruneState, ops: PathOps,
                                                         removeOk: string -> bool)
    requires ListingExists(fs0, folder, listing) && Tracks(fs0, st)
    ensures var r := PruneSources(e, folder, listing, clock, items, st, ops, removeOk, true);
      !(r.Failure? && r.error.StatFailed?)
    decreases |items|
  {
    if |items| > 0 {
      var text := SourcePattern(clock, ops.base(items[0]), e.compression);
      if ParsePattern(text).Some? {
        var p := ParsePattern(text).value;
        var names := NotDeleted(folder, listing, st.deleted);
        var matched := Matching(p, names);
        NotDeletedExist(fs0, st, folder, listing);
        MatchingExist(st.fs, folder, p, names);
        if |matched| > e.keep && e.keep >= 0 {
          var cands := Stat(folder, matched, st.fs).value;
          RemoveAllTracks(fs0, folder, Victims(SortNewestFirst(cands), e.keep), st, removeOk);
        }
        var r1 := PruneSource(e, folder, listing, clock, items[0], st, ops, removeOk, true);
        if r1.Success? {
          CorrectedSourcesNeverStatFail(e, folder, listing, clock, items[1..], fs0, r1.value, ops, removeOk);
        }
      }
    }
  }

  /**
   * When the folder's listing names only existing paths, the corrected
   * pruning step never fails for want of a path it is about to stat.
   */
  lemma CorrectedNeverStatFails(e: Entry, from: seq<string>, to: string, env: Env, fs: FileSystem, ops: PathOps,
                                removeOk: string -> bool)
    requires var folder := ResolvePath(to + "\\" + e.subfolder, env, ops);
      folder in fs && fs[folder].Dir? ==> ListingExists(fs, folder, fs[folder].children)
    ensures var r := DeleteOldBackups(e, from, to, env, fs, ops, removeOk);
      !(r.Failure? && r.error.StatFailed?)
  {
    var folder := ResolvePath(to + "\\" + e.subfolder, env, ops);
    if !(e.rename == "" || e.keep == 0) && folder in fs && fs[folder].Dir? {
      CorrectedSourcesNeverStatFail(e, folder, fs[folder].children, ClockPattern(e.rename), from, fs,
                                    PruneState(fs, [], []), ops, removeOk);
    }
  }

  // ---------------------------------------------------------------------
  // The listing taken once: a removed name is stat-ed again
  // ---------------------------------------------------------------------

  lemma ClockOfStamp()
    ensures ClockPattern("/s") == "\\d{14}"
  {
    var a := "/s";
    assert a[0..2] == "/s";
    assert a[2..] == "";
    assert ReplaceAll(a, "/s", "\\d{14}") == "\\d{14}";
    ReplaceAllAbsent("\\d{14}", "/d", "\\d{8}");
    ReplaceAllAbsent("\\d{14}", "/t", "\\d{6}");
  }

  lemma StampPattern(base: string, compression: string)
    requires compression != "7z" && compression != "zip"
    ensures ParsePattern(SourcePattern(ClockPattern("/s"), base, compression)) == Some(Repeat(PDigit, 14))
  {
    StampText(base, compression);
    ParseStamp();
  }

  lemma StampText(base: string, compression: string)
    requires compression != "7z" && compression != "zip"
    ensures SourcePattern(ClockPattern("/s"), base, compression) == "\\d{14}"
  {
    ClockOfStamp();
    ReplaceAllAbsent("\\d{14}", "/o", base);
    assert SourcePattern("\\d{14}", base, compression) == "\\d{14}" + "";
  }

  lemma ParseStamp()
    ensures ParsePattern("\\d{14}") == Some(Repeat(PDigit, 14))
  {
    ClockUnit14("");
    assert "\\d{14}" + "" == "\\d{14}";
    assert ParsePattern("") == Some([]);
    assert Repeat(PDigit, 14) + [] == Repeat(PDigit, 14);
  }

  lemma StampMatches(n: string)
    requires |n| == 14 && Text.AllDigits(n)
    ensures PatternTest(Repeat(PDigit, 14), n)
  {
    assert n[0..] == n;
    assert FullMatch(Repeat(PDigit, 14), n[0..]);
  }

  lemma PathInDistinct(folder: string, a: string, b: string)
    requires a != b
    ensures PathIn(folder, a) != PathIn(folder, b)
  {
    var pre := folder + "\\";
    assert (pre + a)[|pre|..] == a;
    assert (pre + b)[|pre|..] == b;
  }

  /** The situation both versions are compared on. */
  predicate TwoStamps(e: Entry, folder: string, fs: FileSystem, older: string, newer: string) {
    && e.rename == "/s" && e.keep == 1 && e.compression == ""
    && |older| == 14 && Text.AllDigits(older) && |newer| == 14 && Text.AllDigits(newer) && older != newer
    && folder in fs && fs[folder].Dir? && fs[folder].children == [older, newer]
    && PathIn(folder, older) in fs && fs[PathIn(folder, older)].birthtime == 1
    && PathIn(folder, newer) in fs && fs[PathIn(folder, newer)].birthtime == 2
  }

  lemma MatchBoth(p: seq<PTok>, older: string, newer: string)
    requires PatternTest(p, older) && PatternTest(p, newer)
    ensures Matching(p, [older, newer]) == [older, newer]
    ensures Matching(p, [newer]) == [newer]
  {
    assert [older, newer][1..] == [newer];
    assert Matching(p, [newer]) == [newer] + Matching(p, []);
  }

  lemma StatBoth(folder: string, older: string, newer: string, fs: FileSystem)
    requires PathIn(folder, older) in fs && PathIn(folder, newer) in fs
    ensures Stat(folder, [older, newer], fs)
         == Success([Candidate(older, fs[PathIn(folder, older)].birthtime), Candidate(newer, fs[PathIn(folder, newer)].birthtime)])
  {
    assert [older, newer][1..] == [newer];
    assert [newer][1..] == [];
    assert Stat(folder, [], fs) == Success([]);
    assert [Candidate(newer, fs[PathIn(folder, newer)].birthtime)] + [] == [Candidate(newer, fs[PathIn(folder, newer)].birthtime)];
    assert Stat(folder, [newer], fs) == Success([Candidate(newer, fs[PathIn(folder, newer)].birthtime)]);
    var c1 := Candidate(older, fs[PathIn(folder, older)].birthtime);
    var c2 := Candidate(newer, fs[PathIn(folder, newer)].birthtime);
    assert [c1] + [c2] == [c1, c2];
    assert Stat(folder, [older, newer], fs) == Success([c1] + [c2]);
  }

  lemma SortTwo(c1: Candidate, c2: Candidate)
    requires c1.birthtime < c2.birthtime
    ensures SortNewestFirst([c1, c2]) == [c2, c1]
  {
    assert [c1, c2][1..] == [c2];
    assert [c2][1..] == [];
    assert SortNewestFirst([c2]) == Insert(c2, []) == [c2];
    assert Insert(c1, [c2]) == [c2] + Insert(c1, []);
  }

  lemma RemoveOne(folder: string, c: Candidate, st: PruneState, removeOk: string -> bool)
    requires removeOk(PathIn(folder, c.name))
    ensures var path := PathIn(folder, c.name);
      RemoveAll(folder, [c], st, removeOk) == PruneState(st.fs - {path}, st.deleted + [path], st.failed)
  {
    assert [c][1..] == [];
  }

  /** A source's prune once its pattern, matches and stat results are known. */
  lemma PruneSourceSteps(e: Entry, folder: string, listing: seq<string>, clock: string, item: string,
                         st: PruneState, ops: PathOps, removeOk: string -> bool, skipDeleted: bool,
                         p: seq<PTok>, matched: seq<string>, cands: seq<Candidate>)
    requires ParsePattern(SourcePattern(clock, ops.base(item), e.compression)) == Some(p)
    requires Matching(p, if skipDeleted then NotDeleted(folder, listing, st.deleted) else listing) == matched
    requires |matched| > e.keep >= 0 && Stat(folder, matched, st.fs) == Success(cands)
    ensures PruneSource(e, folder, listing, clock, item, st, ops, removeOk, skipDeleted)
         == Success(RemoveAll(folder, Victims(SortNewestFirst(cands), e.keep), st, removeOk))
  {
  }

  /** The first source of either version removes the older output and keeps the newer one. */
  lemma FirstSourceRemovesOlder(e: Entry, folder: string, fs: FileSystem, older: string, newer: string,
                                item: string, ops: PathOps, removeOk: string -> bool, skipDeleted: bool)
    requires TwoStamps(e, folder, fs, older, newer) && removeOk(PathIn(folder, older))
    ensures PruneSource(e, folder, [older, newer], ClockPattern("/s"), item, PruneState(fs, [], []), ops, removeOk, skipDeleted)
         == Success(PruneState(fs - {PathIn(folder, older)}, [PathIn(folder, older)], []))
  {
    var p := Repeat(PDigit, 14);
    var st := PruneState(fs, [], []);
    StampPattern(ops.base(item), e.compression);
    StampMatches(older);
    StampMatches(newer);
    MatchBoth(p, older, newer);
    assert NotDeleted(folder, [older, newer], []) == [older, newer] by {
      assert [older, newer][1..] == [newer];
      assert NotDeleted(folder, [newer], []) == [newer];
    }
    var c1 := Candidate(older, 1);
    var c2 := Candidate(newer, 2);
    StatBoth(folder, older, newer, fs);
    PruneSourceSteps(e, folder, [older, newer], ClockPattern("/s"), item, st, ops, removeOk, skipDeleted,
                     p, [older, newer], [c1, c2]);
    SortTwo(c1, c2);
    assert Victims([c2, c1], 1) == [c1];
    RemoveOne(folder, c1, st, removeOk);
  }

  /**
   * As written, the second source stats the output the first one removed:
   * with two outputs named by `/s`, `keep` 1 and two sources, the prune
   * fails even though every removal succeeded.
   */
  lemma StaleListingAborts(e: Entry, from: seq<string>, to: string, env: Env, fs: FileSystem, ops: PathOps,
                           removeOk: string -> bool, older: string, newer: string)
    requires |from| == 2
    requires TwoStamps(e, ResolvePath(to + "\\" + e.subfolder, env, ops), fs, older, newer)
    requires removeOk(PathIn(ResolvePath(to + "\\" + e.subfolder, env, ops), older))
    ensures DeleteOldBackupsAsWritten(e, from, to, env, fs, ops, removeOk)
         == Failure(StatFailed(PathIn(ResolvePath(to + "\\" + e.subfolder, env, ops), older)))
  {
    var folder := ResolvePath(to + "\\" + e.subfolder, env, ops);
    var gone := PathIn(folder, older);
    var st1 := PruneState(fs - {gone}, [gone], []);
    FirstSourceRemovesOlder(e, folder, fs, older, newer, from[0], ops, removeOk, false);
    SecondSourceStatsRemoved(e, folder, fs, older, newer, from[1], ops, removeOk);
    TwoSources(e, folder, [older, newer], ClockPattern("/s"), from, PruneState(fs, [], []), st1, ops, removeOk, false);
    ClockOfStamp();
    EntryUnfold(e, from, to, env, fs, ops, removeOk, false);
  }

  /** Two sources: the second starts from the state the first leaves. */
  lemma TwoSources(e: Entry, folder: string, listing: seq<string>, clock: string, items: seq<string>,
                   st: PruneState, st1: PruneState, ops: PathOps, removeOk: string -> bool, skipDeleted: bool)
    requires |items| == 2
    requires PruneSource(e, folder, listing, clock, items[0], st, ops, removeOk, skipDeleted) == Success(st1)
    ensures PruneSources(e, folder, listing, clock, items, st, ops, removeOk, skipDeleted)
         == PruneSource(e, folder, listing, clock, items[1], st1, ops, removeOk, skipDeleted)
  {
    assert items[1..][0] == items[1];
    assert items[1..][1..] == [];
    assert PruneSources(e, folder, listing, clock, items, st, ops, removeOk, skipDeleted)
        == PruneSources(e, folder, listing, clock, items[1..], st1, ops, removeOk, skipDeleted);
    match PruneSource(e, folder, listing, clock, items[1], st1, ops, removeOk, skipDeleted)
    case Failure(_) =>
    case Success(st2) =>
      assert PruneSources(e, folder, listing, clock, items[1..][1..], st2, ops, removeOk, skipDeleted) == Success(st2);
  }

  /** The entry's prune when it is switched on and its destination folder can be listed. */
  lemma EntryUnfold(e: Entry, from: seq<string>, to: string, env: Env, fs: FileSystem, ops: PathOps,
                    removeOk: string -> bool, skipDeleted: bool)
    requires e.rename != "" && e.keep != 0
    requires ResolvePath(to + "\\" + e.subfolder, env, ops) in fs && fs[ResolvePath(to + "\\" + e.subfolder, env, ops)].Dir?
    ensures var folder := ResolvePath(to + "\\" + e.subfolder, env, ops);
      PruneEntry(e, from, to, env, fs, ops, removeOk, skipDeleted)
        == PruneSources(e, folder, fs[folder].children, ClockPattern(e.rename), from, PruneState(fs, [], []), ops, removeOk, skipDeleted)
  {
  }

  lemma SecondSourceStatsRemoved(e: Entry, folder: string, fs: FileSystem, older: string, newer: string,
                                 item: string, ops: PathOps, removeOk: string -> bool)
    requires TwoStamps(e, folder, fs, older, newer)
    ensures var gone := PathIn(folder, older);
      PruneSource(e, folder, [older, newer], ClockPattern("/s"), item, PruneState(fs - {gone}, [gone], []), ops, removeOk, false)
        == Failure(StatFailed(gone))
  {
    var gone := PathIn(folder, older);
    var p := Repeat(PDigit, 14);
    StampPattern(ops.base(item), e.compression);
    StampMatches(older);
    StampMatches(newer);
    MatchBoth(p, older, newer);
    assert Stat(folder, [older, newer], fs - {gone}) == Failure(StatFailed(gone));
  }

  lemma SecondSourceSkipsRemoved(e: Entry, folder: string, fs: FileSystem, older: string, newer: string,
                                 item: string, ops: PathOps, removeOk: string -> bool)
    requires TwoStamps(e, folder, fs, older, newer)
    ensures var st1 := PruneState(fs - {PathIn(folder, older)}, [PathIn(folder, older)], []);
      PruneSource(e, folder, [older, newer], ClockPattern("/s"), item, st1, ops, removeOk, true) == Success(st1)
  {
    var gone := PathIn(folder, older);
    var p := Repeat(PDigit, 14);
    StampPattern(ops.base(item), e.compression);
    StampMatches(older);
    StampMatches(newer);
    MatchBoth(p, older, newer);
    PathInDistinct(folder, newer, older);
    assert [older, newer][1..] == [newer];
    assert NotDeleted(folder, [newer], [gone]) == [newer];
    assert NotDeleted(folder, [older, newer], [gone]) == [newer];
  }

  /** The corrected step, on the same situation, removes the older output once and succeeds. */
  lemma CorrectedRemovesOnce(e: Entry, from: seq<string>, to: string, env: Env, fs: FileSystem, ops: PathOps,
                             removeOk: string -> bool, older: string, newer: string)
    requires |from| == 2
    requires TwoStamps(e, ResolvePath(to + "\\" + e.subfolder, env, ops), fs, older, newer)
    requires removeOk(PathIn(ResolvePath(to + "\\" + e.subfolder, env, ops), older))
    ensures var gone := PathIn(ResolvePath(to + "\\" + e.subfolder, env, ops), older);
      DeleteOldBackups(e, from, to, env, fs, ops, removeOk) == Success(PruneState(fs - {gone}, [gone], []))
  {
    var folder := ResolvePath(to + "\\" + e.subfolder, env, ops);
    var gone := PathIn(folder, older);
    var st1 := PruneState(fs - {gone}, [gone], []);
    FirstSourceRemovesOlder(e, folder, fs, older, newer, from[0], ops, removeOk, true);
    SecondSourceSkipsRemoved(e, folder, fs, older, newer, from[1], ops, removeOk);
    TwoSources(e, folder, [older, newer], ClockPattern("/s"), from, PruneState(fs, [], []), st1, ops, removeOk, true);
    ClockOfStamp();
    EntryUnfold(e, from, to, env, fs, ops, removeOk, true);
  }
}
