/**
 * The pattern the pruning step uses to recognise earlier outputs of an
 * entry. The rename template is rewritten into regular-expression text:
 * `/s`, `/d` and `/t` become `\d{14}`, `\d{8}` and `\d{6}`, `/o` becomes the
 * source's base name (inserted unescaped), `.7z` or `.zip` is appended for
 * those two compressions, and the text is anchored at the end only. `/n`
 * and `/b` are not translated.
 *
 * The regular expression is modelled by the fragment such texts use:
 * literal characters, `\`-escaped punctuation, `.`, `\d` and `\d{n}`. Every
 * other construct makes the parse fail, which the pruning step reports as
 * a pattern outside the model.
 */
module PrunePattern {
  import opened Wrappers
  import opened Text
  import opened Template
  import opened DateStamp
  import opened Entries
  import Rename

  /** The template with the three clock tokens rewritten; done once per entry. */
  function ClockPattern(rename: string): string {
    var r := ReplaceAll(rename, "/s", "\\d{14}");
    var r := ReplaceAll(r, "/d", "\\d{8}");
    ReplaceAll(r, "/t", "\\d{6}")
  }

  /** The suffix appended for the two archive compressions. */
  function CompressionSuffix(compression: string): string {
    if compression == "7z" || compression == "zip" then "." + compression else ""
  }

  /** The regular-expression text for one source, without its closing `$`. */
  function SourcePattern(clock: string, base: string, compression: string): string {
    ReplaceAll(clock, "/o", base) + CompressionSuffix(compression)
  }

  function PatternText(rename: string, base: string, compression: string): string {
    SourcePattern(ClockPattern(rename), base, compression)
  }

  // ---------------------------------------------------------------------
  // The regular-expression fragment
  // ---------------------------------------------------------------------

  /** One single-character position of a pattern. */
  datatype PTok = PLit(c: char) | PDigit | PAny

  predicate TokMatches(t: PTok, c: char) {
    match t
    case PLit(l) => c == l
    case PDigit => IsDigit(c)
    case PAny => !IsLineTerminator(c)
  }

  /** `p` matches all of `s`, position by position. */
  predicate FullMatch(p: seq<PTok>, s: string) {
    |p| == |s| && forall i :: 0 <= i < |p| ==> TokMatches(p[i], s[i])
  }

  /** The test of a pattern anchored only at the end: some match runs to the end of the name. */
  predicate PatternTest(p: seq<PTok>, name: string) {
    exists k :: 0 <= k <= |name| && FullMatch(p, name[k..])
  }

  /** Regular-expression syntax characters other than `.` and `\`. */
  predicate IsMeta(c: char) {
    || c == '^' || c == '$' || c == '*' || c == '+' || c == '?' || c == '('
    || c == ')' || c == '[' || c == ']' || c == '{' || c == '}' || c == '|'
  }

  predicate IsAlnum(c: char) {
    ('a' <= c <= 'z') || ('A' <= c <= 'Z') || IsDigit(c)
  }

  /** Characters that stand for themselves, `.` aside, in pattern text. */
  predicate SafeChar(c: char) {
    !IsMeta(c) && c != '\\'
  }

  predicate SafeText(t: string) {
    forall i :: 0 <= i < |t| ==> SafeChar(t[i])
  }

  function Repeat(t: PTok, n: nat): (r: seq<PTok>)
    ensures |r| == n && forall i :: 0 <= i < n ==> r[i] == t
  {
    if n == 0 then [] else [t] + Repeat(t, n - 1)
  }

  /** The number of leading decimal digits. */
  function DigitRun(s: string): (n: nat)
    ensures n <= |s| && AllDigits(s[..n])
    ensures n < |s| ==> !IsDigit(s[n])
  {
    if |s| > 0 && IsDigit(s[0]) then
      var n := 1 + DigitRun(s[1..]);
      assert s[..n] == [s[0]] + s[1..][..n - 1];
      n
    else 0
  }

  /** A `{n}` quantifier at the head of `s`: its count and the text after it. */
  function Quantifier(s: string): (r: Option<(nat, string)>)
    ensures r.Some? ==> |r.value.1| < |s|
  {
    if |s| == 0 || s[0] != '{' then None
    else
      var k := DigitRun(s[1..]);
      if k > 0 && k + 1 < |s| && s[k + 1] == '}' then
        assert s[1..][..k] == s[1..k + 1];
        Some((DigitsValue(s[1..k + 1]), s[k + 2..]))
      else None
  }

  function Prepend(x: seq<PTok>, r: Option<seq<PTok>>): Option<seq<PTok>> {
    match r
    case None => None
    case Some(y) => Some(x + y)
  }

  /**
   * The first element of a non-empty pattern text: its positions and the
   * number of characters it spans, or `None` outside the modelled fragment.
   */
  function Unit(t: string): (u: Option<(seq<PTok>, nat)>)
    requires |t| > 0
    ensures u.Some? ==> 0 < u.value.1 <= |t|
  {
    if t[0] == '\\' then
      if |t| < 2 then None
      else if t[1] == 'd' then
        if |t| > 2 && t[2] == '{' then
          match Quantifier(t[2..])
          case None => None
          case Some(q) => Some((Repeat(PDigit, q.0), |t| - |q.1|))
        else Some(([PDigit], 2))
      else if IsAlnum(t[1]) then None
      else Some(([PLit(t[1])], 2))
    else if t[0] == '.' then Some(([PAny], 1))
    else if IsMeta(t[0]) then None
    else Some(([PLit(t[0])], 1))
  }

  /** The pattern text as positions, or `None` outside the modelled fragment. */
  function ParsePattern(t: string): Option<seq<PTok>>
    decreases |t|
  {
    if |t| == 0 then Some([])
    else
      match Unit(t)
      case None => None
      case Some(u) => Prepend(u.0, ParsePattern(t[u.1..]))
  }

  /** How a safe character reads as a pattern position. */
  function TokOf(c: char): PTok {
    if c == '.' then PAny else PLit(c)
  }

  function SafeTokens(t: string): (r: seq<PTok>)
    ensures |r| == |t| && forall i :: 0 <= i < |t| ==> r[i] == TokOf(t[i])
  {
    if |t| == 0 then [] else [TokOf(t[0])] + SafeTokens(t[1..])
  }

  // ---------------------------------------------------------------------
  // Matching
  // ---------------------------------------------------------------------

  /** The pattern has a fixed width, so only the last `|p|` characters of a name decide. */
  lemma WidthFixesPosition(p: seq<PTok>, name: string)
    ensures PatternTest(p, name) <==> |p| <= |name| && FullMatch(p, name[|name| - |p|..])
  {
    if PatternTest(p, name) {
      var k :| 0 <= k <= |name| && FullMatch(p, name[k..]);
      assert k == |name| - |p|;
    }
  }

  /** Without a start anchor, any prefix added to a matching name still matches. */
  lemma PrefixStillMatches(p: seq<PTok>, pre: string, name: string)
    requires PatternTest(p, name)
    ensures PatternTest(p, pre + name)
  {
    var k :| 0 <= k <= |name| && FullMatch(p, name[k..]);
    assert (pre + name)[|pre| + k..] == name[k..];
  }

  lemma FullMatchConcat(p: seq<PTok>, q: seq<PTok>, s: string, t: string)
    requires FullMatch(p, s) && FullMatch(q, t)
    ensures FullMatch(p + q, s + t)
  {
    forall i | 0 <= i < |p + q| ensures TokMatches((p + q)[i], (s + t)[i]) {
      if i >= |p| {
        assert (p + q)[i] == q[i - |p|] && (s + t)[i] == t[i - |p|];
      }
    }
  }

  /** Safe text matches its own positions, a `.` included. */
  lemma SafeTokensMatch(t: string)
    ensures FullMatch(SafeTokens(t), t)
  {
  }

  lemma DigitsMatch(n: nat, s: string)
    requires |s| == n && AllDigits(s)
    ensures FullMatch(Repeat(PDigit, n), s)
  {
  }

  // ---------------------------------------------------------------------
  // Parsing the text the pruning step builds
  // ---------------------------------------------------------------------

  lemma PrependEmpty(r: Option<seq<PTok>>)
    ensures Prepend([], r) == r
  {
    if r.Some? {
      assert [] + r.value == r.value;
    }
  }

  lemma PrependAssoc(x: seq<PTok>, y: seq<PTok>, r: Option<seq<PTok>>)
    ensures Prepend(x, Prepend(y, r)) == Prepend(x + y, r)
  {
    if r.Some? {
      assert x + (y + r.value) == (x + y) + r.value;
    }
  }

  /** Safe text parses character by character, whatever follows it. */
  lemma {:induction false} ParseSafe(t: string, rest: string)
    requires SafeText(t)
    ensures ParsePattern(t + rest) == Prepend(SafeTokens(t), ParsePattern(rest))
  {
    if |t| == 0 {
      assert t + rest == rest;
      PrependEmpty(ParsePattern(rest));
    } else {
      assert (t + rest)[0] == t[0];
      assert Unit(t + rest) == Some(([TokOf(t[0])], 1));
      assert (t + rest)[1..] == t[1..] + rest;
      ParseSafe(t[1..], rest);
      PrependAssoc([TokOf(t[0])], SafeTokens(t[1..]), ParsePattern(rest));
    }
  }

  lemma {:induction false} DigitRunOf(ds: string, rest: string)
    requires AllDigits(ds) && |rest| > 0 && !IsDigit(rest[0])
    ensures DigitRun(ds + rest) == |ds|
  {
    if |ds| == 0 {
      assert ds + rest == rest;
    } else {
      assert (ds + rest)[1..] == ds[1..] + rest;
      assert AllDigits(ds[1..]) by {
        forall i | 0 <= i < |ds[1..]| ensures IsDigit(ds[1..][i]) {
          assert ds[1..][i] == ds[i + 1];
        }
      }
      DigitRunOf(ds[1..], rest);
    }
  }

  /** `\d{n}` for a written count parses as `n` digit positions. */
  lemma ParseDigitUnit(ds: string, rest: string)
    requires |ds| > 0 && AllDigits(ds)
    ensures ParsePattern("\\d{" + ds + "}" + rest) == Prepend(Repeat(PDigit, DigitsValue(ds)), ParsePattern(rest))
  {
    var t := "\\d{" + ds + "}" + rest;
    var s := t[2..];
    assert s == "{" + (ds + ("}" + rest));
    assert s[1..] == ds + ("}" + rest);
    DigitRunOf(ds, "}" + rest);
    assert s[|ds| + 1] == '}';
    assert s[1..|ds| + 1] == ds;
    assert s[|ds| + 2..] == rest;
    assert Quantifier(s) == Some((DigitsValue(ds), rest));
    assert Unit(t) == Some((Repeat(PDigit, DigitsValue(ds)), |t| - |rest|));
    assert t[|t| - |rest|..] == rest;
  }

  /** The three clock fragments. */
  lemma ClockUnit14(rest: string)
    ensures ParsePattern("\\d{14}" + rest) == Prepend(Repeat(PDigit, 14), ParsePattern(rest))
  {
    assert AllDigits("14");
    assert DigitsValue("14") == 14 by {
      assert "14"[..1] == "1";
    }
    assert "\\d{14}" + rest == "\\d{" + "14" + "}" + rest;
    ParseDigitUnit("14", rest);
  }

  lemma ClockUnit8(rest: string)
    ensures ParsePattern("\\d{8}" + rest) == Prepend(Repeat(PDigit, 8), ParsePattern(rest))
  {
    assert AllDigits("8") && DigitsValue("8") == 8;
    assert "\\d{8}" + rest == "\\d{" + "8" + "}" + rest;
    ParseDigitUnit("8", rest);
  }

  lemma ClockUnit6(rest: string)
    ensures ParsePattern("\\d{6}" + rest) == Prepend(Repeat(PDigit, 6), ParsePattern(rest))
  {
    assert AllDigits("6") && DigitsValue("6") == 6;
    assert "\\d{6}" + rest == "\\d{" + "6" + "}" + rest;
    ParseDigitUnit("6", rest);
  }

  /** The substitution the pattern text amounts to for one source. */
  function PatternSubst(base: string): Subst {
    [('s', "\\d{14}"), ('d', "\\d{8}"), ('t', "\\d{6}"), ('o', base)]
  }

  /** The text of a template whose literals and token letters read as themselves. */
  predicate SafeTemplate(ps: seq<Piece>) {
    forall i :: 0 <= i < |ps| ==> SafePiece(ps[i])
  }

  predicate SafePiece(p: Piece) {
    match p
    case Literal(t) => SafeText(t)
    case Token(k) => SafeChar(k)
  }

  /** The positions each piece of a template becomes; `/n`, `/b` and unknown tokens stay literal. */
  function PieceTokensOf(p: Piece, base: string): seq<PTok> {
    match p
    case Literal(t) => SafeTokens(t)
    case Token(k) =>
      if k == 's' then Repeat(PDigit, 14)
      else if k == 'd' then Repeat(PDigit, 8)
      else if k == 't' then Repeat(PDigit, 6)
      else if k == 'o' then SafeTokens(base)
      else SafeTokens(['/', k])
  }

  function PieceTokens(ps: seq<Piece>, base: string): seq<PTok> {
    if |ps| == 0 then [] else PieceTokensOf(ps[0], base) + PieceTokens(ps[1..], base)
  }

  /** The text a piece becomes under a substitution. */
  function PieceText(p: Piece, subs: Subst): string {
    match p
    case Literal(t) => t
    case Token(k) => Lookup(subs, k)
  }

  lemma PatternLookup(base: string, k: char)
    ensures Lookup(PatternSubst(base), k) ==
      if k == 's' then "\\d{14}" else if k == 'd' then "\\d{8}" else if k == 't' then "\\d{6}"
      else if k == 'o' then base else ['/', k]
  {
    var subs := PatternSubst(base);
    if k != 's' {
      assert Lookup(subs, k) == Lookup(subs[1..], k);
      if k != 'd' {
        assert Lookup(subs[1..], k) == Lookup(subs[2..], k);
        if k != 't' {
          assert Lookup(subs[2..], k) == Lookup(subs[3..], k);
          if k != 'o' {
            assert Lookup(subs[3..], k) == Lookup(subs[4..], k);
            assert subs[4..] == [];
          }
        }
      }
    }
  }

  /** One filled piece parses into its positions, whatever follows it. */
  lemma ParsePiece(p: Piece, base: string, tail: string)
    requires SafeText(base)
    requires SafePiece(p)
    ensures ParsePattern(PieceText(p, PatternSubst(base)) + tail)
         == Prepend(PieceTokensOf(p, base), ParsePattern(tail))
  {
    match p
    case Literal(t) =>
      ParseSafe(t, tail);
    case Token(k) =>
      PatternLookup(base, k);
      if k == 's' {
        ClockUnit14(tail);
      } else if k == 'd' {
        ClockUnit8(tail);
      } else if k == 't' {
        ClockUnit6(tail);
      } else if k == 'o' {
        ParseSafe(base, tail);
      } else {
        ParseSafe(['/', k], tail);
      }
  }

  lemma InstantiateStep(ps: seq<Piece>, subs: Subst)
    requires |ps| > 0
    ensures Instantiate(ps, subs) == PieceText(ps[0], subs) + Instantiate(ps[1..], subs)
  {
  }

  lemma SafeTemplateTail(ps: seq<Piece>)
    requires |ps| > 0 && SafeTemplate(ps)
    ensures SafePiece(ps[0]) && SafeTemplate(ps[1..])
  {
    forall i | 0 <= i < |ps[1..]| ensures SafePiece(ps[1..][i]) {
      assert ps[1..][i] == ps[i + 1];
    }
  }

  /** The filled template parses piece by piece. */
  lemma {:induction false} ParsePieces(ps: seq<Piece>, base: string, rest: string)
    requires SafeTemplate(ps) && SafeText(base)
    ensures ParsePattern(Instantiate(ps, PatternSubst(base)) + rest)
         == Prepend(PieceTokens(ps, base), ParsePattern(rest))
  {
    if |ps| == 0 {
      PrependEmpty(ParsePattern(rest));
      assert Instantiate(ps, PatternSubst(base)) + rest == rest;
    } else {
      SafeTemplateTail(ps);
      ParsePieces(ps[1..], base, rest);
      ParsePiecesStep(ps, base, rest);
    }
  }

  lemma ParsePiecesStep(ps: seq<Piece>, base: string, rest: string)
    requires |ps| > 0 && SafePiece(ps[0]) && SafeText(base)
    requires ParsePattern(Instantiate(ps[1..], PatternSubst(base)) + rest)
          == Prepend(PieceTokens(ps[1..], base), ParsePattern(rest))
    ensures ParsePattern(Instantiate(ps, PatternSubst(base)) + rest)
         == Prepend(PieceTokens(ps, base), ParsePattern(rest))
  {
    var subs := PatternSubst(base);
    var tail := Instantiate(ps[1..], subs) + rest;
    InstantiateRest(ps, subs, rest);
    ParsePiece(ps[0], base, tail);
    PieceTokensStep(ps, base);
    Combine(Instantiate(ps, subs) + rest, PieceText(ps[0], subs), tail, rest,
            PieceTokensOf(ps[0], base), PieceTokens(ps[1..], base));
  }

  lemma InstantiateRest(ps: seq<Piece>, subs: Subst, rest: string)
    requires |ps| > 0
    ensures Instantiate(ps, subs) + rest == PieceText(ps[0], subs) + (Instantiate(ps[1..], subs) + rest)
  {
    InstantiateStep(ps, subs);
  }

  lemma PieceTokensStep(ps: seq<Piece>, base: string)
    requires |ps| > 0
    ensures PieceTokens(ps, base) == PieceTokensOf(ps[0], base) + PieceTokens(ps[1..], base)
  {
  }

  lemma Combine(whole: string, head: string, tail: string, rest: string, x: seq<PTok>, y: seq<PTok>)
    requires whole == head + tail
    requires ParsePattern(head + tail) == Prepend(x, ParsePattern(tail))
    requires ParsePattern(tail) == Prepend(y, ParsePattern(rest))
    ensures ParsePattern(whole) == Prepend(x + y, ParsePattern(rest))
  {
    PrependAssoc(x, y, ParsePattern(rest));
  }

  /** For a plain template the code's replacement chain yields the filled template plus the suffix. */
  lemma PatternTextIsInstantiate(ps: seq<Piece>, base: string, compression: string)
    requires Plain(ps) && '/' !in base
    ensures PatternText(Render(ps), base, compression)
         == Instantiate(ps, PatternSubst(base)) + CompressionSuffix(compression)
  {
    var subs := PatternSubst(base);
    var r0 := Render(ps);
    var r1 := ReplaceAll(r0, "/s", "\\d{14}");
    var r2 := ReplaceAll(r1, "/d", "\\d{8}");
    var r3 := ReplaceAll(r2, "/t", "\\d{6}");
    var r4 := ReplaceAll(r3, "/o", base);
    assert ReplaceEach(r0, subs) == ReplaceEach(r1, subs[1..]);
    assert ReplaceEach(r1, subs[1..]) == ReplaceEach(r2, subs[2..]);
    assert ReplaceEach(r2, subs[2..]) == ReplaceEach(r3, subs[3..]);
    assert ReplaceEach(r3, subs[3..]) == ReplaceEach(r4, subs[4..]);
    assert SlashFree(subs);
    ReplaceEachInstantiate(ps, subs);
  }

  /** The prune pattern's suffix is the extension the destination naming adds. */
  lemma SuffixIsExtension(compression: string)
    ensures CompressionSuffix(compression) == Rename.Extension(compression)
    ensures SafeText(CompressionSuffix(compression))
  {
    if compression == "7z" {
      SafeSuffix(".7z");
    } else if compression == "zip" {
      SafeSuffix(".zip");
    }
  }

  lemma SafeSuffix(t: string)
    requires t == ".7z" || t == ".zip"
    ensures SafeText(t)
  {
    forall i | 0 <= i < |t| ensures SafeChar(t[i]) {
      assert t[i] in ".7zip";
    }
  }

  /** Where a value of the right shape fills each clock token, the name matches the template's positions. */
  lemma {:induction false} NameMatchesPieces(ps: seq<Piece>, subs: Subst, base: string)
    requires forall i :: 0 <= i < |ps| && ps[i].Token? ==> ps[i].k in "sdto"
    requires |Lookup(subs, 's')| == 14 && AllDigits(Lookup(subs, 's'))
    requires |Lookup(subs, 'd')| == 8 && AllDigits(Lookup(subs, 'd'))
    requires |Lookup(subs, 't')| == 6 && AllDigits(Lookup(subs, 't'))
    requires Lookup(subs, 'o') == base
    ensures FullMatch(PieceTokens(ps, base), Instantiate(ps, subs))
  {
    if |ps| > 0 {
      assert forall i :: 0 <= i < |ps[1..]| && ps[1..][i].Token? ==> ps[1..][i].k in "sdto" by {
        forall i | 0 <= i < |ps[1..]| && ps[1..][i].Token? ensures ps[1..][i].k in "sdto" {
          assert ps[1..][i] == ps[i + 1];
        }
      }
      NameMatchesPieces(ps[1..], subs, base);
      assert ps[0].Token? ==> ps[0].k in "sdto";
      PieceMatches(ps[0], subs, base);
      InstantiateStep(ps, subs);
      FullMatchConcat(PieceTokensOf(ps[0], base), PieceTokens(ps[1..], base),
                      PieceText(ps[0], subs), Instantiate(ps[1..], subs));
    }
  }

  lemma PieceMatches(p: Piece, subs: Subst, base: string)
    requires p.Token? ==> p.k in "sdto"
    requires |Lookup(subs, 's')| == 14 && AllDigits(Lookup(subs, 's'))
    requires |Lookup(subs, 'd')| == 8 && AllDigits(Lookup(subs, 'd'))
    requires |Lookup(subs, 't')| == 6 && AllDigits(Lookup(subs, 't'))
    requires Lookup(subs, 'o') == base
    ensures FullMatch(PieceTokensOf(p, base), PieceText(p, subs))
  {
    match p
    case Literal(t) =>
      SafeTokensMatch(t);
    case Token(k) =>
      if k == 'o' {
        SafeTokensMatch(base);
      }
  }

  /** The whole pattern of a safe template, suffix included, lies inside the modelled fragment. */
  lemma ParseWholePattern(ps: seq<Piece>, base: string, compression: string)
    requires Plain(ps) && SafeTemplate(ps) && SafeText(base) && '/' !in base
    ensures ParsePattern(PatternText(Render(ps), base, compression))
         == Some(PieceTokens(ps, base) + SafeTokens(Rename.Extension(compression)))
  {
    var ext := CompressionSuffix(compression);
    PatternTextIsInstantiate(ps, base, compression);
    SuffixIsExtension(compression);
    ParsePieces(ps, base, ext);
    ParseSafe(ext, "");
    assert ext + "" == ext;
    assert ParsePattern("") == Some([]);
    assert SafeTokens(ext) + [] == SafeTokens(ext);
    assert ParsePattern(ext) == Some(SafeTokens(ext));
  }

  /**
   * The connection between naming and pruning: for a template built from
   * safe literals and the tokens `/s`, `/d`, `/t` and `/o`, a safe base name
   * and a valid date with a four-digit year, whatever the entry name and
   * subfolder (nested folders included), the name the destination step
   * gives an output (extension included) is matched by the pattern the
   * pruning step builds for the same source, and so is any name ending in it.
   */
  lemma OwnOutputMatches(ps: seq<Piece>, e: Entry, base: string, d: DateTime, pre: string)
    requires Plain(ps) && SafeTemplate(ps) && e.rename == Render(ps)
    requires forall i :: 0 <= i < |ps| && ps[i].Token? ==> ps[i].k in "sdto"
    requires SafeText(base) && '/' !in base
    requires Valid(d) && DateStamp.FourDigitYear(d)
    ensures var p := ParsePattern(PatternText(e.rename, base, e.compression));
      && p.Some?
      && PatternTest(p.value, pre + (Rename.ResolveRenamePattern(e, base, d) + Rename.Extension(e.compression)))
  {
    var ext := Rename.Extension(e.compression);
    var name := Rename.ResolveRenamePattern(e, base, d);
    var p := PieceTokens(ps, base) + SafeTokens(ext);
    ParseWholePattern(ps, base, e.compression);
    OwnNameMatches(ps, e, base, d);
    PrefixStillMatches(p, pre, name + ext);
  }

  lemma OwnNameMatches(ps: seq<Piece>, e: Entry, base: string, d: DateTime)
    requires Plain(ps) && e.rename == Render(ps)
    requires forall i :: 0 <= i < |ps| && ps[i].Token? ==> ps[i].k in "sdto"
    requires '/' !in base
    requires Valid(d) && DateStamp.FourDigitYear(d)
    ensures PatternTest(PieceTokens(ps, base) + SafeTokens(Rename.Extension(e.compression)),
                        Rename.ResolveRenamePattern(e, base, d) + Rename.Extension(e.compression))
  {
    var ext := Rename.Extension(e.compression);
    var blank := e.(name := "", subfolder := "");
    var subs := Rename.RenameSubst(blank, base, d);
    Rename.NameUnused(ps, e, base, d);
    Rename.RenameTemplate(ps, blank, base, d);
    RenameLookups(blank, base, d);
    NameMatchesPieces(ps, subs, base);
    SafeTokensMatch(ext);
    FullMatchConcat(PieceTokens(ps, base), SafeTokens(ext), Instantiate(ps, subs), ext);
    assert (Instantiate(ps, subs) + ext)[0..] == Instantiate(ps, subs) + ext;
  }

  lemma RenameLookups(e: Entry, base: string, d: DateTime)
    requires Valid(d) && DateStamp.FourDigitYear(d)
    ensures var subs := Rename.RenameSubst(e, base, d);
      && |Lookup(subs, 's')| == 14 && AllDigits(Lookup(subs, 's'))
      && |Lookup(subs, 'd')| == 8 && AllDigits(Lookup(subs, 'd'))
      && |Lookup(subs, 't')| == 6 && AllDigits(Lookup(subs, 't'))
      && Lookup(subs, 'o') == base
  {
    var subs := Rename.RenameSubst(e, base, d);
    var f := GetFormattedDate(d);
    assert Lookup(subs, 's') == f.timestamp;
    assert Lookup(subs, 'd') == Lookup(subs[1..], 'd') == f.yyyyMMdd;
    assert Lookup(subs, 't') == Lookup(subs[1..], 't') == Lookup(subs[2..], 't') == f.hhmmss;
    assert Lookup(subs, 'o') == Lookup(subs[1..], 'o') == Lookup(subs[2..], 'o') == Lookup(subs[3..], 'o') == base;
  }

  /**
   * `/n` and `/b` (and any unknown token) stay as a literal slash in the
   * pattern, so a template that uses one never matches a name without a
   * slash: such an entry is never pruned.
   */
  lemma UntranslatedTokenNeverMatches(ps: seq<Piece>, base: string, compression: string, j: nat, name: string)
    requires Plain(ps) && SafeTemplate(ps) && SafeText(base) && '/' !in base
    requires j < |ps| && ps[j].Token? && ps[j].k !in "sdto"
    requires '/' !in name
    ensures var p := ParsePattern(PatternText(Render(ps), base, compression));
      p.Some? && !PatternTest(p.value, name)
  {
    ParseWholePattern(ps, base, compression);
    var p := PieceTokens(ps, base) + SafeTokens(Rename.Extension(compression));
    var at := SlashPosition(ps, base, j);
    assert p[at] == PLit('/');
    forall k | 0 <= k <= |name| ensures !FullMatch(p, name[k..]) {
      if |p| == |name[k..]| {
        assert name[k..][at] == name[k + at];
        assert !TokMatches(p[at], name[k..][at]);
      }
    }
  }

  /** An untranslated token puts a literal slash among the positions. */
  lemma {:induction false} SlashPosition(ps: seq<Piece>, base: string, j: nat) returns (at: nat)
    requires j < |ps| && ps[j].Token? && ps[j].k !in "sdto"
    ensures at < |PieceTokens(ps, base)| && PieceTokens(ps, base)[at] == PLit('/')
  {
    var head := PieceTokensOf(ps[0], base);
    if j == 0 {
      at := 0;
    } else {
      assert ps[1..][j - 1] == ps[j];
      var a := SlashPosition(ps[1..], base, j - 1);
      at := |head| + a;
    }
  }
}
