/**
 * Source resolution: the entry's `from` field (one path or a list of paths)
 * becomes the list of existing paths to back up. Placeholders are expanded
 * and each path resolved; a path that does not exist contributes nothing (a
 * warning is logged); an existing directory, when the entry has a non-empty
 * `match` wildcard, contributes its matching children instead of itself;
 * every other existing path contributes itself. An empty result is an error.
 */
module Sources {
  import opened Wrappers
  import opened Paths
  import opened EnvPath
  import opened Entries
  import Wildcard

  datatype SourceError =
    | NoFileOrFolderMatch  // the resolved list is empty
    | FromNotAString       // `from` is absent: resolving `undefined` throws a TypeError

  /** The list of configured paths; a single path is a one-element list. */
  function FromArray(spec: FromSpec): Option<seq<string>> {
    match spec
    case FromPath(p) => Some([p])
    case FromList(ps) => Some(ps)
    case FromMissing => None
  }

  /** The children of `dir` whose names the wildcard accepts, joined under `dir`, in listing order. */
  function MatchingChildren(dir: string, names: seq<string>, w: string, ops: PathOps): (r: seq<string>)
    ensures |r| <= |names|
  {
    if |names| == 0 then []
    else (if Wildcard.Matches(w, names[0]) then [ops.join(dir, names[0])] else [])
         + MatchingChildren(dir, names[1..], w, ops)
  }

  /** What one configured path adds to the resolved list. */
  function Contribution(p: string, w: string, env: Env, fs: FileSystem, ops: PathOps): seq<string> {
    var abs := ResolvePath(p, env, ops);
    if abs !in fs then []
    else if fs[abs].Dir? && w != "" then MatchingChildren(abs, fs[abs].children, w, ops)
    else [abs]
  }

  /** Reference definition: the contributions of the configured paths, concatenated in order. */
  function Gather(ps: seq<string>, w: string, env: Env, fs: FileSystem, ops: PathOps): seq<string> {
    if |ps| == 0 then [] else Contribution(ps[0], w, env, fs, ops) + Gather(ps[1..], w, env, fs, ops)
  }

  /** Reference definition of the whole step, error cases included. */
  function ConvertFromToArray(e: Entry, env: Env, fs: FileSystem, ops: PathOps): (r: Result<seq<string>, SourceError>)
    ensures r.Success? ==> |r.value| > 0
    ensures r == Failure(FromNotAString) <==> e.from.FromMissing?
    ensures r == Failure(NoFileOrFolderMatch) <==> !e.from.FromMissing? && Gather(FromArray(e.from).value, e.wildcard, env, fs, ops) == []
  {
    match FromArray(e.from)
    case None => Failure(FromNotAString)
    case Some(ps) =>
      var found := Gather(ps, e.wildcard, env, fs, ops);
      if |found| == 0 then Failure(NoFileOrFolderMatch) else Success(found)
  }

  /** The resolved paths that do not exist, each of which the code reports with a warning. */
  function MissingPaths(ps: seq<string>, env: Env, fs: FileSystem, ops: PathOps): (r: seq<string>)
    ensures forall x :: x in r ==> x !in fs
  {
    if |ps| == 0 then []
    else
      var abs := ResolvePath(ps[0], env, ops);
      (if abs !in fs then [abs] else []) + MissingPaths(ps[1..], env, fs, ops)
  }

  lemma {:induction false} GatherAppend(ps: seq<string>, p: string, w: string, env: Env, fs: FileSystem, ops: PathOps)
    ensures Gather(ps + [p], w, env, fs, ops) == Gather(ps, w, env, fs, ops) + Contribution(p, w, env, fs, ops)
  {
    if |ps| == 0 {
      assert ps + [p] == [p];
    } else {
      assert (ps + [p])[1..] == ps[1..] + [p];
      GatherAppend(ps[1..], p, w, env, fs, ops);
    }
  }

  lemma GatherPrefixStep(ps: seq<string>, i: nat, w: string, env: Env, fs: FileSystem, ops: PathOps)
    requires i < |ps|
    ensures Gather(ps[..i + 1], w, env, fs, ops) == Gather(ps[..i], w, env, fs, ops) + Contribution(ps[i], w, env, fs, ops)
  {
    assert ps[..i + 1] == ps[..i] + [ps[i]];
    GatherAppend(ps[..i], ps[i], w, env, fs, ops);
  }

  /** The code's loop: resolve each configured path in turn and append what it contributes. */
  method ResolveSources(e: Entry, env: Env, fs: FileSystem, ops: PathOps) returns (r: Result<seq<string>, SourceError>)
    ensures r == ConvertFromToArray(e, env, fs, ops)
  {
    var fromArray: seq<string>;
    match e.from {
      case FromPath(p) => fromArray := [p];
      case FromList(ps) => fromArray := ps;
      case FromMissing => return Failure(FromNotAString);
    }
    var found := GatherLoop(fromArray, e.wildcard, env, fs, ops);
    if |found| == 0 {
      return Failure(NoFileOrFolderMatch);
    }
    return Success(found);
  }

  /** The loop of `ResolveSources` over the configured paths. */
  method GatherLoop(ps: seq<string>, w: string, env: Env, fs: FileSystem, ops: PathOps) returns (found: seq<string>)
    ensures found == Gather(ps, w, env, fs, ops)
  {
    found := [];
    var i := 0;
    while i < |ps|
      invariant 0 <= i <= |ps|
      invariant found == Gather(ps[..i], w, env, fs, ops)
    {
      var abs := ResolvePath(ps[i], env, ops);
      var added: seq<string> := [];
      if abs in fs {
        if fs[abs].Dir? && w != "" {
          added := MatchingChildren(abs, fs[abs].children, w, ops);
        } else {
          added := [abs];
        }
      }
      GatherPrefixStep(ps, i, w, env, fs, ops);
      found := found + added;
      i := i + 1;
    }
    assert ps[..i] == ps;
  }

  /** Resolution keeps the order of the configured paths. */
  lemma {:induction false} GatherConcat(ps: seq<string>, qs: seq<string>, w: string, env: Env, fs: FileSystem, ops: PathOps)
    ensures Gather(ps + qs, w, env, fs, ops) == Gather(ps, w, env, fs, ops) + Gather(qs, w, env, fs, ops)
  {
    if |ps| == 0 {
      assert ps + qs == qs;
    } else {
      assert (ps + qs)[1..] == ps[1..] + qs;
      GatherConcat(ps[1..], qs, w, env, fs, ops);
    }
  }

  /** A resolved path comes from exactly one contribution of a configured path. */
  lemma {:induction false} GatherMembership(ps: seq<string>, x: string, w: string, env: Env, fs: FileSystem, ops: PathOps)
    ensures x in Gather(ps, w, env, fs, ops) <==> exists i :: 0 <= i < |ps| && x in Contribution(ps[i], w, env, fs, ops)
  {
    if |ps| > 0 {
      GatherMembership(ps[1..], x, w, env, fs, ops);
      if exists i :: 0 <= i < |ps| && x in Contribution(ps[i], w, env, fs, ops) {
        var i :| 0 <= i < |ps| && x in Contribution(ps[i], w, env, fs, ops);
        if i > 0 {
          assert ps[1..][i - 1] == ps[i];
        }
      }
      if x in Gather(ps[1..], w, env, fs, ops) {
        var i :| 0 <= i < |ps[1..]| && x in Contribution(ps[1..][i], w, env, fs, ops);
        assert ps[1..][i] == ps[i + 1];
      }
    }
  }

  /** The children kept are exactly the joins of the children the wildcard accepts. */
  lemma {:induction false} MatchingChildrenMembership(dir: string, names: seq<string>, w: string, ops: PathOps, x: string)
    ensures x in MatchingChildren(dir, names, w, ops)
        <==> exists i :: 0 <= i < |names| && Wildcard.Matches(w, names[i]) && x == ops.join(dir, names[i])
  {
    if |names| > 0 {
      MatchingChildrenMembership(dir, names[1..], w, ops, x);
      if exists i :: 0 <= i < |names| && Wildcard.Matches(w, names[i]) && x == ops.join(dir, names[i]) {
        var i :| 0 <= i < |names| && Wildcard.Matches(w, names[i]) && x == ops.join(dir, names[i]);
        if i > 0 {
          assert names[1..][i - 1] == names[i];
        }
      }
      if x in MatchingChildren(dir, names[1..], w, ops) {
        var i :| 0 <= i < |names[1..]| && Wildcard.Matches(w, names[1..][i]) && x == ops.join(dir, names[1..][i]);
        assert names[1..][i] == names[i + 1];
      }
    }
  }

  /**
   * Filtering then joining keeps the listing order: the children kept from
   * two consecutive stretches of the listing are those of the first
   * stretch followed by those of the second.
   */
  lemma {:induction false} MatchingChildrenConcat(dir: string, a: seq<string>, b: seq<string>, w: string, ops: PathOps)
    ensures MatchingChildren(dir, a + b, w, ops) == MatchingChildren(dir, a, w, ops) + MatchingChildren(dir, b, w, ops)
  {
    if |a| == 0 {
      assert a + b == b;
    } else {
      assert (a + b)[1..] == a[1..] + b;
      MatchingChildrenConcat(dir, a[1..], b, w, ops);
    }
  }

  /**
   * The three kinds of contribution: nothing for a path that does not
   * exist; for a directory with a non-empty wildcard, only joins of its
   * accepted children (the directory itself only if the platform's join
   * yields it); the path itself otherwise.
   */
  lemma ContributionCases(p: string, w: string, env: Env, fs: FileSystem, ops: PathOps, x: string)
    ensures var abs := ResolvePath(p, env, ops);
      && (abs !in fs ==> Contribution(p, w, env, fs, ops) == [])
      && (abs in fs && fs[abs].Dir? && w != "" ==>
            (x in Contribution(p, w, env, fs, ops) <==>
               exists i :: 0 <= i < |fs[abs].children| && Wildcard.Matches(w, fs[abs].children[i])
                           && x == ops.join(abs, fs[abs].children[i])))
      && (abs in fs && !(fs[abs].Dir? && w != "") ==> Contribution(p, w, env, fs, ops) == [abs])
  {
    var abs := ResolvePath(p, env, ops);
    if abs in fs && fs[abs].Dir? && w != "" {
      MatchingChildrenMembership(abs, fs[abs].children, w, ops, x);
    }
  }

  /** A single configured path behaves exactly as a one-element list. */
  lemma SingleIsOneElementList(e: Entry, p: string, env: Env, fs: FileSystem, ops: PathOps)
    ensures ConvertFromToArray(e.(from := FromPath(p)), env, fs, ops)
         == ConvertFromToArray(e.(from := FromList([p])), env, fs, ops)
  {
  }

  /** A path that does not exist adds nothing, wherever it appears in the list. */
  lemma MissingPathIgnored(ps: seq<string>, qs: seq<string>, p: string, w: string, env: Env, fs: FileSystem, ops: PathOps)
    requires ResolvePath(p, env, ops) !in fs
    ensures Gather(ps + [p] + qs, w, env, fs, ops) == Gather(ps + qs, w, env, fs, ops)
  {
    GatherConcat(ps + [p], qs, w, env, fs, ops);
    GatherAppend(ps, p, w, env, fs, ops);
    assert Contribution(p, w, env, fs, ops) == [];
    assert Gather(ps + [p], w, env, fs, ops) == Gather(ps, w, env, fs, ops);
    GatherConcat(ps, qs, w, env, fs, ops);
  }
}
