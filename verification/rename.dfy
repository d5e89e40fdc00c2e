/**
 * Destination naming: the rename template is expanded against the clock
 * reading and the entry, and the compression chooses the extension.
 */
module Rename {
  import opened Text
  import opened Template
  import opened DateStamp
  import opened Entries
  import opened Paths
  import opened EnvPath

  /** The six tokens, in the order the code replaces them. */
  function RenameSubst(e: Entry, base: string, d: DateTime): Subst {
    var f := GetFormattedDate(d);
    Six(f.timestamp, f.yyyyMMdd, f.hhmmss, base, e.name, e.subfolder)
  }

  /** The rename template with each token replaced everywhere, one token after another. */
  function ResolveRenamePattern(e: Entry, base: string, d: DateTime): string {
    var f := GetFormattedDate(d);
    var r := ReplaceAll(e.rename, "/s", f.timestamp);
    var r := ReplaceAll(r, "/d", f.yyyyMMdd);
    var r := ReplaceAll(r, "/t", f.hhmmss);
    var r := ReplaceAll(r, "/o", base);
    var r := ReplaceAll(r, "/n", e.name);
    ReplaceAll(r, "/b", e.subfolder)
  }

  lemma RenameIsReplaceEach(e: Entry, base: string, d: DateTime)
    ensures ResolveRenamePattern(e, base, d) == ReplaceEach(e.rename, RenameSubst(e, base, d))
  {
    var subs := RenameSubst(e, base, d);
    var f := GetFormattedDate(d);
    var r1 := ReplaceAll(e.rename, "/s", f.timestamp);
    var r2 := ReplaceAll(r1, "/d", f.yyyyMMdd);
    var r3 := ReplaceAll(r2, "/t", f.hhmmss);
    var r4 := ReplaceAll(r3, "/o", base);
    var r5 := ReplaceAll(r4, "/n", e.name);
    var r6 := ReplaceAll(r5, "/b", e.subfolder);
    assert ReplaceEach(e.rename, subs) == ReplaceEach(r1, subs[1..]);
    assert ReplaceEach(r1, subs[1..]) == ReplaceEach(r2, subs[2..]);
    assert ReplaceEach(r2, subs[2..]) == ReplaceEach(r3, subs[3..]);
    assert ReplaceEach(r3, subs[3..]) == ReplaceEach(r4, subs[4..]);
    assert ReplaceEach(r4, subs[4..]) == ReplaceEach(r5, subs[5..]);
    assert ReplaceEach(r5, subs[5..]) == ReplaceEach(r6, subs[6..]);
  }

  /**
   * On a template whose only slashes start tokens, with a slash-free base
   * name and entry name, every `/s`, `/d`, `/t`, `/o`, `/n` and `/b` is
   * replaced by its value wherever it occurs and every other piece is kept
   * verbatim. The subfolder may hold slashes: it is inserted last.
   */
  lemma RenameTemplate(ps: seq<Piece>, e: Entry, base: string, d: DateTime)
    requires Plain(ps) && e.rename == Render(ps)
    requires '/' !in base && '/' !in e.name
    ensures ResolveRenamePattern(e, base, d) == Instantiate(ps, RenameSubst(e, base, d))
  {
    RenameSubstButLast(e, base, d);
    RenameIsReplaceEach(e, base, d);
    ReplaceEachInstantiate(ps, RenameSubst(e, base, d));
  }

  lemma RenameSubstButLast(e: Entry, base: string, d: DateTime)
    requires '/' !in base && '/' !in e.name
    ensures SlashFreeButLast(RenameSubst(e, base, d))
  {
    var f := GetFormattedDate(d);
    DigitsOnly(d);
    SixButLast(f.timestamp, f.yyyyMMdd, f.hhmmss, base, e.name, e.subfolder);
  }

  /**
   * The chain re-scans what it has inserted: an entry name holding `/b`
   * gets the subfolder spliced into it, so `/n` with name `x/b` and
   * subfolder `Y` gives `xY`, not the name itself.
   */
  lemma NameSplicesSubfolder(e: Entry, base: string, d: DateTime)
    requires e.rename == "/n" && e.name == "x/b" && e.subfolder == "Y"
    ensures ResolveRenamePattern(e, base, d) == "xY"
    ensures Instantiate([Token('n')], RenameSubst(e, base, d)) == "x/b"
  {
    var f := GetFormattedDate(d);
    SpliceChain(f.timestamp, f.yyyyMMdd, f.hhmmss, base);
    SpliceLookup(f.timestamp, f.yyyyMMdd, f.hhmmss, base);
  }

  lemma SpliceChain(ts: string, ds: string, hs: string, base: string)
    ensures ReplaceAll(ReplaceAll(ReplaceAll(ReplaceAll(ReplaceAll(ReplaceAll(
              "/n", "/s", ts), "/d", ds), "/t", hs), "/o", base), "/n", "x/b"), "/b", "Y") == "xY"
  {
    OtherToken('n', 's', ts);
    OtherToken('n', 'd', ds);
    OtherToken('n', 't', hs);
    OtherToken('n', 'o', base);
    WholeToken('n', "x/b");
    var a := "x/b";
    assert a[..2] != "/b" && a[1..] == "/b";
    assert ReplaceAll(a, "/b", "Y") == ['x'] + ReplaceAll(a[1..], "/b", "Y");
    WholeToken('b', "Y");
  }

  lemma SpliceLookup(ts: string, ds: string, hs: string, base: string)
    ensures Instantiate([Token('n')], Six(ts, ds, hs, base, "x/b", "Y")) == "x/b"
  {
    var subs := Six(ts, ds, hs, base, "x/b", "Y");
    assert Lookup(subs, 'n') == Lookup(subs[1..], 'n') == Lookup(subs[2..], 'n')
        == Lookup(subs[3..], 'n') == Lookup(subs[4..], 'n') == "x/b";
    assert [Token('n')][1..] == [];
  }

  /** The first four replacements: clock tokens and the base name. */
  function ClockAndBase(rename: string, base: string, d: DateTime): string {
    var f := GetFormattedDate(d);
    ReplaceAll(ReplaceAll(ReplaceAll(ReplaceAll(rename, "/s", f.timestamp), "/d", f.yyyyMMdd), "/t", f.hhmmss), "/o", base)
  }

  /**
   * A template whose tokens are all among `/s`, `/d`, `/t` and `/o`, with a
   * slash-free base name, is named the same whatever the entry name and
   * subfolder: after the first four replacements no slash is left for the
   * `/n` and `/b` replacements to find.
   */
  lemma NameUnused(ps: seq<Piece>, e: Entry, base: string, d: DateTime)
    requires Plain(ps) && e.rename == Render(ps)
    requires forall i :: 0 <= i < |ps| && ps[i].Token? ==> ps[i].k in "sdto"
    requires '/' !in base
    ensures ResolveRenamePattern(e, base, d) == ResolveRenamePattern(e.(name := "", subfolder := ""), base, d)
  {
    var r4 := ClockAndBase(e.rename, base, d);
    ClockAndBaseSlashFree(ps, e.rename, base, d);
    ReplaceAllAbsent(r4, "/n", e.name);
    ReplaceAllAbsent(r4, "/b", e.subfolder);
    ReplaceAllAbsent(r4, "/n", "");
    ReplaceAllAbsent(r4, "/b", "");
  }

  lemma ClockAndBaseSlashFree(ps: seq<Piece>, rename: string, base: string, d: DateTime)
    requires Plain(ps) && rename == Render(ps)
    requires forall i :: 0 <= i < |ps| && ps[i].Token? ==> ps[i].k in "sdto"
    requires '/' !in base
    ensures '/' !in ClockAndBase(rename, base, d)
  {
    var f := GetFormattedDate(d);
    DigitsOnly(d);
    FourSlashFree(ps, rename, f.timestamp, f.yyyyMMdd, f.hhmmss, base);
  }

  lemma FourSlashFree(ps: seq<Piece>, rename: string, ts: string, ds: string, hs: string, base: string)
    requires Plain(ps) && rename == Render(ps)
    requires forall i :: 0 <= i < |ps| && ps[i].Token? ==> ps[i].k in "sdto"
    requires '/' !in ts && '/' !in ds && '/' !in hs && '/' !in base
    ensures '/' !in ReplaceAll(ReplaceAll(ReplaceAll(ReplaceAll(rename, "/s", ts), "/d", ds), "/t", hs), "/o", base)
  {
    var four := [('s', ts), ('d', ds), ('t', hs), ('o', base)];
    assert SlashFree(four);
    FourChain(rename, four);
    ReplaceEachInstantiate(ps, four);
    forall i | 0 <= i < |ps| && ps[i].Token? ensures Covers(four, ps[i].k) {
      FourCovers(four, ps[i].k);
    }
    InstantiateSlashFree(ps, four);
  }

  lemma FourChain(rename: string, four: Subst)
    requires |four| == 4 && four[0].0 == 's' && four[1].0 == 'd' && four[2].0 == 't' && four[3].0 == 'o'
    ensures ReplaceEach(rename, four)
         == ReplaceAll(ReplaceAll(ReplaceAll(ReplaceAll(rename, "/s", four[0].1), "/d", four[1].1), "/t", four[2].1), "/o", four[3].1)
  {
    var r1 := ReplaceAll(rename, "/s", four[0].1);
    var r2 := ReplaceAll(r1, "/d", four[1].1);
    var r3 := ReplaceAll(r2, "/t", four[2].1);
    var r4 := ReplaceAll(r3, "/o", four[3].1);
    assert ReplaceEach(rename, four) == ReplaceEach(r1, four[1..]);
    assert ReplaceEach(r1, four[1..]) == ReplaceEach(r2, four[2..]);
    assert ReplaceEach(r2, four[2..]) == ReplaceEach(r3, four[3..]);
    assert ReplaceEach(r3, four[3..]) == ReplaceEach(r4, four[4..]);
  }

  lemma FourCovers(four: Subst, k: char)
    requires |four| == 4 && four[0].0 == 's' && four[1].0 == 'd' && four[2].0 == 't' && four[3].0 == 'o'
    requires k in "sdto"
    ensures Covers(four, k)
  {
    assert "sdto" == ['s', 'd', 't', 'o'];
    var i :| 0 <= i < 4 && "sdto"[i] == k;
    assert four[i].0 == k;
  }

  /**
   * A template with a slash that starts no token is outside the one-pass
   * reading: in `//o` the base name `nX` lands after a slash, and the `/n`
   * pass then replaces the `/n` this forms, giving `NX` with name `N`.
   */
  lemma StraySlashSplices(e: Entry, d: DateTime)
    requires e.rename == "//o" && e.name == "N" && e.subfolder == "S"
    ensures ResolveRenamePattern(e, "nX", d) == "NX"
  {
    var f := GetFormattedDate(d);
    StrayChain(f.timestamp, f.yyyyMMdd, f.hhmmss);
  }

  lemma StrayChain(ts: string, ds: string, hs: string)
    ensures ReplaceAll(ReplaceAll(ReplaceAll(ReplaceAll(ReplaceAll(ReplaceAll(
              "//o", "/s", ts), "/d", ds), "/t", hs), "/o", "nX"), "/n", "N"), "/b", "S") == "NX"
  {
    StrayStep('s', ts);
    StrayStep('d', ds);
    StrayStep('t', hs);
    var a := "//o";
    assert a[..2] != "/o" && a[1..] == "/o";
    assert ReplaceAll(a, "/o", "nX") == ['/'] + ReplaceAll(a[1..], "/o", "nX");
    WholeToken('o', "nX");
    var b := ['/'] + "nX";
    assert b == "/nX" && b[..2] == "/n" && b[2..] == "X";
    ReplaceAllAbsent("X", "/n", "N");
    assert ReplaceAll(b, "/n", "N") == "N" + ReplaceAll("X", "/n", "N") == "NX";
    ReplaceAllAbsent("NX", "/b", "S");
  }

  /** A pass for another letter leaves `//o` alone. */
  lemma StrayStep(k: char, r: string)
    requires k != 'o' && k != '/'
    ensures ReplaceAll("//o", ['/', k], r) == "//o"
  {
    var a := "//o";
    assert a[..2][1] == '/' && ['/', k][1] == k;
    assert a[1..] == "/o";
    assert ReplaceAll(a, ['/', k], r) == ['/'] + ReplaceAll(a[1..], ['/', k], r);
    OtherToken('o', k, r);
  }

  /** A token is replaced whole by its value. */
  lemma WholeToken(k: char, r: string)
    ensures ReplaceAll(['/', k], ['/', k], r) == r
  {
    assert ReplaceAll(['/', k], ['/', k], r) == r + ReplaceAll([], ['/', k], r);
  }

  /** Another token is left alone. */
  lemma OtherToken(j: char, k: char, r: string)
    requires j != k
    ensures ReplaceAll(['/', j], ['/', k], r) == ['/', j]
  {
    var a := ['/', j];
    assert a[..2] == a && a[1] != ['/', k][1];
    assert ReplaceAll(a, ['/', k], r) == ['/'] + ReplaceAll(a[1..], ['/', k], r);
    assert ReplaceAll(a[1..], ['/', k], r) == [j] + ReplaceAll([], ['/', k], r);
  }

  /** The six pairs, with their values left abstract. */
  function Six(s: string, d: string, t: string, o: string, n: string, b: string): Subst {
    [('s', s), ('d', d), ('t', t), ('o', o), ('n', n), ('b', b)]
  }

  lemma SixButLast(s: string, d: string, t: string, o: string, n: string, b: string)
    requires '/' !in s && '/' !in d && '/' !in t && '/' !in o && '/' !in n
    ensures SlashFreeButLast(Six(s, d, t, o, n, b))
  {
  }

  lemma SixMissing(s: string, d: string, t: string, o: string, n: string, b: string, k: char)
    requires k !in "sdtonb"
    ensures Lookup(Six(s, d, t, o, n, b), k) == ['/', k]
  {
    var subs := Six(s, d, t, o, n, b);
    assert k != 's' && k != 'd' && k != 't' && k != 'o' && k != 'n' && k != 'b' by {
      assert "sdtonb" == ['s', 'd', 't', 'o', 'n', 'b'];
    }
    forall i | 0 <= i < |subs| ensures subs[i].0 != k {
    }
    LookupMissing(subs, k);
  }

  lemma DigitsOnly(d: DateTime)
    ensures var f := GetFormattedDate(d); '/' !in f.timestamp && '/' !in f.yyyyMMdd && '/' !in f.hhmmss
  {
    var f := GetFormattedDate(d);
    NoSlashInNumber(d.year);
    PadNoSlash(d.month);
    PadNoSlash(d.day);
    PadNoSlash(d.hour);
    PadNoSlash(d.minute);
    PadNoSlash(d.second);
  }

  lemma PadNoSlash(x: nat)
    ensures '/' !in Pad(x)
  {
    assert forall i :: 0 <= i < |Pad(x)| ==> IsDigit(Pad(x)[i]);
  }

  lemma NoSlashInNumber(y: int)
    ensures '/' !in IntToString(y)
  {
    var r := IntToString(y);
    if y >= 0 {
      assert forall i :: 0 <= i < |r| ==> IsDigit(r[i]);
    } else {
      assert forall i :: 0 <= i < |r[1..]| ==> IsDigit(r[1..][i]);
      assert forall i :: 1 <= i < |r| ==> r[i] == r[1..][i - 1];
    }
  }

  /** A token letter the code does not know keeps its own spelling. */
  lemma OtherTokensKept(e: Entry, base: string, d: DateTime, k: char)
    requires k !in "sdtonb"
    ensures Lookup(RenameSubst(e, base, d), k) == ['/', k]
  {
    var f := GetFormattedDate(d);
    SixMissing(f.timestamp, f.yyyyMMdd, f.hhmmss, base, e.name, e.subfolder, k);
  }

  /**
   * Example: `/n_/d_/o` with name `N`, subfolder `B` and base `file.txt` on
   * 2024-03-05 (any time of day) gives `N_20240305_file.txt`.
   */
  lemma ExampleRename(e: Entry, d: DateTime)
    requires e.rename == "/n_/d_/o" && e.name == "N" && e.subfolder == "B"
    requires d.year == 2024 && d.month == 3 && d.day == 5
    ensures ResolveRenamePattern(e, "file.txt", d) == "N_20240305_file.txt"
  {
    var subs := RenameSubst(e, "file.txt", d);
    ExampleAsInstance(e, d);
    ExampleLookups(e, d);
    ExampleInstantiate(subs);
  }

  /** The example template, read as pieces, is the one-pass substitution of its tokens. */
  lemma ExampleAsInstance(e: Entry, d: DateTime)
    requires e.rename == "/n_/d_/o" && e.name == "N" && e.subfolder == "B"
    ensures ResolveRenamePattern(e, "file.txt", d)
         == Instantiate([Token('n'), Literal("_"), Token('d'), Literal("_"), Token('o')], RenameSubst(e, "file.txt", d))
  {
    ExampleTemplate();
    RenameTemplate([Token('n'), Literal("_"), Token('d'), Literal("_"), Token('o')], e, "file.txt", d);
  }

  lemma ExampleInstantiate(subs: Subst)
    requires Lookup(subs, 'n') == "N" && Lookup(subs, 'd') == "20240305" && Lookup(subs, 'o') == "file.txt"
    ensures Instantiate([Token('n'), Literal("_"), Token('d'), Literal("_"), Token('o')], subs)
         == "N_20240305_file.txt"
  {
    NameDateBase(subs, "N", "20240305", "file.txt");
    assert "N" + "_" + "20240305" + "_" + "file.txt" == "N_20240305_file.txt";
  }

  /** The example's pieces give the name, the date and the base, separated by underscores. */
  lemma NameDateBase(subs: Subst, n: string, d: string, o: string)
    requires Lookup(subs, 'n') == n && Lookup(subs, 'd') == d && Lookup(subs, 'o') == o
    ensures Instantiate([Token('n'), Literal("_"), Token('d'), Literal("_"), Token('o')], subs)
         == n + "_" + d + "_" + o
  {
    var ps := [Token('n'), Literal("_"), Token('d'), Literal("_"), Token('o')];
    assert Instantiate(ps[4..], subs) == o by {
      assert ps[4..][1..] == [];
    }
    assert Instantiate(ps[3..], subs) == "_" + o by {
      assert ps[3..][1..] == ps[4..];
    }
    assert Instantiate(ps[2..], subs) == d + "_" + o by {
      assert ps[2..][1..] == ps[3..];
    }
    assert Instantiate(ps[1..], subs) == "_" + d + "_" + o by {
      assert ps[1..][1..] == ps[2..];
    }
    assert ps[0..][1..] == ps[1..];
  }

  lemma ExampleTemplate()
    ensures var ps := [Token('n'), Literal("_"), Token('d'), Literal("_"), Token('o')];
      Plain(ps) && Render(ps) == "/n_/d_/o"
  {
    var ps := [Token('n'), Literal("_"), Token('d'), Literal("_"), Token('o')];
    assert Render(ps[4..]) == "/o";
    assert Render(ps[3..]) == "_/o";
    assert Render(ps[2..]) == "/d_/o";
    assert Render(ps[1..]) == "_/d_/o";
  }

  lemma ExampleDate(d: DateTime)
    requires d.year == 2024 && d.month == 3 && d.day == 5
    ensures GetFormattedDate(d).yyyyMMdd == "20240305"
  {
    ExampleYear();
    PadSmall(3);
    PadSmall(5);
    assert GetFormattedDate(d).yyyyMMdd == "2024" + "03" + "05";
  }

  lemma ExampleLookups(e: Entry, d: DateTime)
    requires e.name == "N" && d.year == 2024 && d.month == 3 && d.day == 5
    ensures var subs := RenameSubst(e, "file.txt", d);
      Lookup(subs, 'n') == "N" && Lookup(subs, 'd') == "20240305" && Lookup(subs, 'o') == "file.txt"
  {
    var subs := RenameSubst(e, "file.txt", d);
    ExampleDate(d);
    assert Lookup(subs, 'd') == Lookup(subs[1..], 'd');
    assert Lookup(subs, 'o') == Lookup(subs[1..], 'o') == Lookup(subs[2..], 'o') == Lookup(subs[3..], 'o');
    assert Lookup(subs, 'n') == Lookup(subs[1..], 'n') == Lookup(subs[2..], 'n')
        == Lookup(subs[3..], 'n') == Lookup(subs[4..], 'n');
  }

  /** The extension the compression string selects. */
  function Extension(compression: string): string {
    if compression == "7z" then ".7z"
    else if compression == "zip" then ".zip"
    else ""
  }

  /** The destination of one source: its folder, its base name, and the full path. */
  datatype Destination = Destination(dir: string, basename: string, path: string)

  /**
   * The naming part of resolving a destination. The creation of a missing
   * destination folder is a side effect outside the model.
   */
  function ResolvePathTo(backupPath: string, base: string, e: Entry, d: DateTime, env: Env, ops: PathOps): (dst: Destination)
    ensures dst.dir == ResolvePath(backupPath + "\\" + e.subfolder, env, ops)
    ensures e.rename == "" ==> dst.basename == base
    ensures e.rename != "" ==> dst.basename == ResolveRenamePattern(e, base, d)
    ensures dst.path == ops.normalize(dst.dir + "\\" + dst.basename + Extension(e.compression))
    ensures exists raw: string :: dst.path == ops.normalize(raw) && EndsWith(raw, dst.basename + Extension(e.compression))
  {
    var dir := ResolvePath(backupPath + "\\" + e.subfolder, env, ops);
    var basename := if e.rename != "" then ResolveRenamePattern(e, base, d) else base;
    var file := basename + Extension(e.compression);
    var raw := dir + "\\" + basename + Extension(e.compression);
    assert raw == (dir + "\\") + file;
    EndsWithConcat(dir + "\\", file);
    assert EndsWith(raw, basename + Extension(e.compression));
    Destination(dir, basename, ops.normalize(raw))
  }

  predicate EndsWith(s: string, suffix: string) {
    |s| >= |suffix| && s[|s| - |suffix|..] == suffix
  }

  lemma EndsWithConcat(a: string, b: string)
    ensures EndsWith(a + b, b)
  {
    assert (a + b)[|a + b| - |b|..] == b;
  }

  /** Exactly `7z` and `zip` add an extension, and each adds its own. */
  lemma ExtensionChoice(c: string)
    ensures Extension(c) == ".7z" <==> c == "7z"
    ensures Extension(c) == ".zip" <==> c == "zip"
    ensures Extension(c) == "" <==> c != "7z" && c != "zip"
  {
  }
}
