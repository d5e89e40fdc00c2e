/**
 * The `match` wildcard of a backup entry. The code escapes the regular
 * expression metacharacters of the wildcard, rewrites `*` to `.*`, `?` to `.`
 * and `;` to `|`, wraps the text in `^…$` and compiles it case-insensitively.
 * The model keeps that text pipeline, reads the resulting regular expression
 * back as alternatives of glob tokens, and gives it the meaning of a regular
 * expression test: because `^` and `$` wrap the whole `|`-joined text, only
 * the first alternative is anchored at the start and only the last at the end.
 */
module Wildcard {
  import opened Text

  datatype Glob = Lit(c: char) | One | Star

  /** The characters the code escapes with a backslash. */
  predicate IsRegexMeta(c: char) {
    || c == '.' || c == '+' || c == '^' || c == '$' || c == '{' || c == '}'
    || c == '(' || c == ')' || c == '|' || c == '[' || c == ']' || c == '\\'
  }

  /** The three wildcard operators. */
  predicate IsOperator(c: char) {
    c == '*' || c == '?' || c == ';'
  }

  /** Step 1 of the code: escape every metacharacter. */
  function EscapeText(w: string): string {
    if |w| == 0 then "" else (if IsRegexMeta(w[0]) then ['\\', w[0]] else [w[0]]) + EscapeText(w[1..])
  }

  /** The body of the regular expression the code builds (without the `^` and `$` around it). */
  function RegexBody(w: string): string {
    ReplaceAll(ReplaceAll(ReplaceAll(EscapeText(w), "*", ".*"), "?", "."), ";", "|")
  }

  /** Adds a token at the front of the first alternative. */
  function Cons(g: Glob, alts: seq<seq<Glob>>): (r: seq<seq<Glob>>)
    requires |alts| >= 1
    ensures |r| == |alts| && r[0] == [g] + alts[0] && r[1..] == alts[1..]
  {
    [[g] + alts[0]] + alts[1..]
  }

  /**
   * Reads the regular-expression body back: `\c` is the literal `c`, `.*` any
   * run, `.` any one character, `|` separates alternatives, anything else is
   * itself.
   */
  function ParseBody(t: string): (alts: seq<seq<Glob>>)
    ensures |alts| >= 1
    decreases |t|
  {
    if |t| == 0 then [[]]
    else if t[0] == '|' then [[]] + ParseBody(t[1..])
    else if t[0] == '\\' && |t| >= 2 then Cons(Lit(t[1]), ParseBody(t[2..]))
    else if t[0] == '.' && |t| >= 2 && t[1] == '*' then Cons(Star, ParseBody(t[2..]))
    else if t[0] == '.' then Cons(One, ParseBody(t[1..]))
    else Cons(Lit(t[0]), ParseBody(t[1..]))
  }

  /** The token a non-separator wildcard character stands for. */
  function GlobOf(c: char): Glob {
    if c == '*' then Star else if c == '?' then One else Lit(c)
  }

  /** Reference translation: split at `;`, then map each character to its token. */
  function Compile(w: string): (alts: seq<seq<Glob>>)
    ensures |alts| >= 1
    ensures ';' !in w ==> |alts| == 1
  {
    if |w| == 0 then [[]]
    else if w[0] == ';' then [[]] + Compile(w[1..])
    else Cons(GlobOf(w[0]), Compile(w[1..]))
  }

  /** Full match of one alternative, case-insensitive for literals; `.` never takes a line terminator. */
  predicate GlobMatch(p: seq<Glob>, s: string)
    decreases |p|, |s|
  {
    if |p| == 0 then |s| == 0
    else match p[0]
      case Lit(c) => |s| > 0 && FoldEq(s[0], c) && GlobMatch(p[1..], s[1..])
      case One => |s| > 0 && !IsLineTerminator(s[0]) && GlobMatch(p[1..], s[1..])
      case Star => GlobMatch(p[1..], s) || (|s| > 0 && !IsLineTerminator(s[0]) && GlobMatch(p, s[1..]))
  }

  /** Some substring `s[i..j]` matches `p`, starting at 0 when anchored at the start and ending at `|s|` when anchored at the end. */
  predicate BranchMatches(atStart: bool, p: seq<Glob>, atEnd: bool, s: string) {
    exists i, j :: 0 <= i <= j <= |s| && (atStart ==> i == 0) && (atEnd ==> j == |s|) && GlobMatch(p, s[i..j])
  }

  /** `RegExp.prototype.test` of `^a0|a1|…|an$`: `^` binds to the first alternative, `$` to the last. */
  predicate RegexTest(alts: seq<seq<Glob>>, s: string) {
    exists k :: 0 <= k < |alts| && BranchMatches(k == 0, alts[k], k == |alts| - 1, s)
  }

  /** Whether the regular expression the code compiles from wildcard `w` accepts `name`. */
  predicate Matches(w: string, name: string) {
    RegexTest(ParseBody(RegexBody(w)), name)
  }

  /** How one wildcard character ends up in the regular-expression body. */
  function EncodeChar(c: char): string {
    if c == '*' then ".*"
    else if c == '?' then "."
    else if c == ';' then "|"
    else if IsRegexMeta(c) then ['\\', c]
    else [c]
  }

  function Encode(w: string): string {
    if |w| == 0 then "" else EncodeChar(w[0]) + Encode(w[1..])
  }

  lemma EncodeCharSteps(c: char)
    ensures ReplaceAll(ReplaceAll(ReplaceAll(if IsRegexMeta(c) then ['\\', c] else [c], "*", ".*"), "?", "."), ";", "|")
         == EncodeChar(c)
  {
    if c == '*' {
      StarSteps();
    } else if c == '?' {
      QuestionSteps();
    } else if c == ';' {
      SemicolonSteps();
    } else if IsRegexMeta(c) {
      OperatorFree(['\\', c]);
    } else {
      OperatorFree([c]);
    }
  }

  lemma OperatorFree(e: string)
    requires |e| <= 2 && forall i :: 0 <= i < |e| ==> e[i] != '*' && e[i] != '?' && e[i] != ';'
    ensures ReplaceAll(ReplaceAll(ReplaceAll(e, "*", ".*"), "?", "."), ";", "|") == e
  {
    ChainAbsent(e);
  }

  lemma StarSteps()
    ensures ReplaceAll(ReplaceAll(ReplaceAll("*", "*", ".*"), "?", "."), ";", "|") == ".*"
  {
    assert ReplaceAll("*", "*", ".*") == ".*" + ReplaceAll([], "*", ".*");
    ChainAbsentTail(".*");
  }

  lemma QuestionSteps()
    ensures ReplaceAll(ReplaceAll(ReplaceAll("?", "*", ".*"), "?", "."), ";", "|") == "."
  {
    ReplaceAllAbsent("?", "*", ".*");
    assert ReplaceAll("?", "?", ".") == "." + ReplaceAll([], "?", ".");
    ReplaceAllAbsent(".", ";", "|");
  }

  lemma SemicolonSteps()
    ensures ReplaceAll(ReplaceAll(ReplaceAll(";", "*", ".*"), "?", "."), ";", "|") == "|"
  {
    ReplaceAllAbsent(";", "*", ".*");
    ReplaceAllAbsent(";", "?", ".");
    assert ReplaceAll(";", ";", "|") == "|" + ReplaceAll([], ";", "|");
  }

  /** A string without any wildcard operator passes the operator replacements unchanged. */
  lemma ChainAbsent(e: string)
    requires '*' !in e && '?' !in e && ';' !in e
    ensures ReplaceAll(ReplaceAll(ReplaceAll(e, "*", ".*"), "?", "."), ";", "|") == e
  {
    ReplaceAllAbsent(e, "*", ".*");
    ChainAbsentTail(e);
  }

  lemma ChainAbsentTail(e: string)
    requires '?' !in e && ';' !in e
    ensures ReplaceAll(ReplaceAll(e, "?", "."), ";", "|") == e
  {
    ReplaceAllAbsent(e, "?", ".");
    ReplaceAllAbsent(e, ";", "|");
  }

  /** The escape-then-replace chain is one character-by-character translation. */
  lemma {:induction false} RegexBodyIsEncode(w: string)
    ensures RegexBody(w) == Encode(w)
  {
    if |w| > 0 {
      RegexBodyIsEncode(w[1..]);
      var e := if IsRegexMeta(w[0]) then ['\\', w[0]] else [w[0]];
      var rest := EscapeText(w[1..]);
      assert EscapeText(w) == e + rest;
      ReplaceAllConcat(e, rest, "*", ".*");
      var e1 := ReplaceAll(e, "*", ".*");
      var r1 := ReplaceAll(rest, "*", ".*");
      ReplaceAllConcat(e1, r1, "?", ".");
      var e2 := ReplaceAll(e1, "?", ".");
      var r2 := ReplaceAll(r1, "?", ".");
      ReplaceAllConcat(e2, r2, ";", "|");
      EncodeCharSteps(w[0]);
    }
  }

  /** Reading back a translated wildcard gives its reference translation. */
  lemma {:induction false} ParseEncode(w: string)
    ensures ParseBody(Encode(w)) == Compile(w)
  {
    if |w| > 0 {
      ParseEncode(w[1..]);
      if |w| > 1 {
        assert Encode(w[1..])[0] == EncodeChar(w[1])[0];
      }
      ParseEncodeChar(w[0], Encode(w[1..]));
    }
  }

  /** Parsing one encoded character followed by text that does not start with `*`. */
  lemma ParseEncodeChar(c: char, rest: string)
    requires |rest| > 0 ==> rest[0] != '*'
    ensures ParseBody(EncodeChar(c) + rest)
         == if c == ';' then [[]] + ParseBody(rest) else Cons(GlobOf(c), ParseBody(rest))
  {
    if c == '*' {
      ParseStar(rest);
    } else if c == '?' {
      ParseDot(rest);
    } else if c == ';' {
      ParseBar(rest);
    } else if IsRegexMeta(c) {
      ParseEscaped(c, rest);
    } else {
      ParsePlain(c, rest);
    }
  }

  lemma ParseStar(rest: string)
    ensures ParseBody(".*" + rest) == Cons(Star, ParseBody(rest))
  {
    var t := ".*" + rest;
    assert t[0] == '.' && t[1] == '*' && t[2..] == rest;
  }

  lemma ParseDot(rest: string)
    requires |rest| > 0 ==> rest[0] != '*'
    ensures ParseBody("." + rest) == Cons(One, ParseBody(rest))
  {
    var t := "." + rest;
    assert t[0] == '.' && t[1..] == rest;
    assert |t| >= 2 ==> t[1] == rest[0];
    ParseDotHead(t);
  }

  /** A `.` not followed by `*` is a one-character wildcard. */
  lemma ParseDotHead(t: string)
    requires |t| > 0 && t[0] == '.' && !(|t| >= 2 && t[1] == '*')
    ensures ParseBody(t) == Cons(One, ParseBody(t[1..]))
  {
  }

  lemma ParseBar(rest: string)
    ensures ParseBody("|" + rest) == [[]] + ParseBody(rest)
  {
    var t := "|" + rest;
    assert t[0] == '|' && t[1..] == rest;
  }

  lemma ParseEscaped(c: char, rest: string)
    ensures ParseBody(['\\', c] + rest) == Cons(Lit(c), ParseBody(rest))
  {
    var t := ['\\', c] + rest;
    assert t[0] == '\\' && t[1] == c && t[2..] == rest;
  }

  lemma ParsePlain(c: char, rest: string)
    requires !IsRegexMeta(c)
    ensures ParseBody([c] + rest) == Cons(Lit(c), ParseBody(rest))
  {
    var t := [c] + rest;
    assert c != '|' && c != '\\' && c != '.';
    assert t[0] == c && t[1..] == rest;
  }

  /** The regular expression the code builds denotes exactly the reference translation. */
  lemma RegexRoundTrip(w: string)
    ensures ParseBody(RegexBody(w)) == Compile(w)
  {
    RegexBodyIsEncode(w);
    ParseEncode(w);
  }

  /** Matching a concatenation splits the subject at some point. */
  lemma {:induction false} GlobMatchConcat(p: seq<Glob>, q: seq<Glob>, s: string)
    ensures GlobMatch(p + q, s) <==> exists k :: 0 <= k <= |s| && GlobMatch(p, s[..k]) && GlobMatch(q, s[k..])
    decreases |p|, |s|
  {
    if |p| == 0 {
      ConcatNone(p, q, s);
    } else if p[0].Star? {
      GlobMatchConcat(p[1..], q, s);
      if |s| > 0 {
        GlobMatchConcat(p, q, s[1..]);
      }
      ConcatStar(p, q, s);
    } else {
      if |s| > 0 {
        GlobMatchConcat(p[1..], q, s[1..]);
      }
      ConcatSingle(p, q, s);
    }
  }

  lemma ConcatNone(p: seq<Glob>, q: seq<Glob>, s: string)
    requires |p| == 0
    ensures GlobMatch(p + q, s) <==> exists k :: 0 <= k <= |s| && GlobMatch(p, s[..k]) && GlobMatch(q, s[k..])
  {
    assert p + q == q;
    if GlobMatch(q, s) {
      assert s[..0] == [] && s[0..] == s;
    }
  }

  /** Whether a non-`*` token takes the character `c`. */
  predicate Takes(g: Glob, c: char) {
    match g
    case Lit(d) => FoldEq(c, d)
    case One => !IsLineTerminator(c)
    case Star => false
  }

  /** A list headed by a non-`*` token matches exactly by taking the first character and matching the rest. */
  lemma MatchSingle(p: seq<Glob>, s: string)
    requires |p| > 0 && !p[0].Star?
    ensures GlobMatch(p, s) <==> |s| > 0 && Takes(p[0], s[0]) && GlobMatch(p[1..], s[1..])
  {
  }

  lemma ConcatSingle(p: seq<Glob>, q: seq<Glob>, s: string)
    requires |p| > 0 && !p[0].Star?
    requires |s| > 0 ==> (GlobMatch(p[1..] + q, s[1..]) <==>
      exists k :: 0 <= k <= |s[1..]| && GlobMatch(p[1..], s[1..][..k]) && GlobMatch(q, s[1..][k..]))
    ensures GlobMatch(p + q, s) <==> exists k :: 0 <= k <= |s| && GlobMatch(p, s[..k]) && GlobMatch(q, s[k..])
  {
    HeadOfConcat(p, q);
    MatchSingle(p + q, s);
    if |s| > 0 {
      if GlobMatch(p + q, s) {
        var k :| 0 <= k <= |s[1..]| && GlobMatch(p[1..], s[1..][..k]) && GlobMatch(q, s[1..][k..]);
        assert s[..k + 1][1..] == s[1..][..k] && s[k + 1..] == s[1..][k..];
        MatchSingle(p, s[..k + 1]);
      }
      if exists k :: 0 <= k <= |s| && GlobMatch(p, s[..k]) && GlobMatch(q, s[k..]) {
        var k :| 0 <= k <= |s| && GlobMatch(p, s[..k]) && GlobMatch(q, s[k..]);
        MatchSingle(p, s[..k]);
        assert s[..k][1..] == s[1..][..k - 1] && s[k..] == s[1..][k - 1..];
      }
    } else {
      forall k | 0 <= k <= |s| ensures !GlobMatch(p, s[..k]) {
        MatchSingle(p, s[..k]);
      }
    }
  }

  lemma ConcatStar(p: seq<Glob>, q: seq<Glob>, s: string)
    requires |p| > 0 && p[0].Star?
    requires GlobMatch(p[1..] + q, s) <==>
      exists k :: 0 <= k <= |s| && GlobMatch(p[1..], s[..k]) && GlobMatch(q, s[k..])
    requires |s| > 0 ==> (GlobMatch(p + q, s[1..]) <==>
      exists k :: 0 <= k <= |s[1..]| && GlobMatch(p, s[1..][..k]) && GlobMatch(q, s[1..][k..]))
    ensures GlobMatch(p + q, s) <==> exists k :: 0 <= k <= |s| && GlobMatch(p, s[..k]) && GlobMatch(q, s[k..])
  {
    HeadOfConcat(p, q);
    MatchStar(p + q, s);
    if GlobMatch(p + q, s) && !GlobMatch(p[1..] + q, s) {
      var k :| 0 <= k <= |s[1..]| && GlobMatch(p, s[1..][..k]) && GlobMatch(q, s[1..][k..]);
      StarTakesFirst(p, s, k);
    }
    if exists k :: 0 <= k <= |s| && GlobMatch(p, s[..k]) && GlobMatch(q, s[k..]) {
      var k :| 0 <= k <= |s| && GlobMatch(p, s[..k]) && GlobMatch(q, s[k..]);
      if !GlobMatch(p[1..], s[..k]) {
        StarSplitFirst(p, s, k);
      }
    }
  }

  /** A list headed by `*` matches by skipping the star, or by letting it take the first character. */
  lemma MatchStar(p: seq<Glob>, s: string)
    requires |p| > 0 && p[0].Star?
    ensures GlobMatch(p, s) <==> GlobMatch(p[1..], s) || (|s| > 0 && !IsLineTerminator(s[0]) && GlobMatch(p, s[1..]))
  {
  }

  lemma HeadOfConcat(p: seq<Glob>, q: seq<Glob>)
    requires |p| > 0
    ensures (p + q)[0] == p[0] && (p + q)[1..] == p[1..] + q
  {
  }

  lemma StarTakesFirst(p: seq<Glob>, s: string, k: nat)
    requires |p| > 0 && p[0].Star? && |s| > 0 && !IsLineTerminator(s[0])
    requires k <= |s| - 1 && GlobMatch(p, s[1..][..k])
    ensures GlobMatch(p, s[..k + 1]) && s[k + 1..] == s[1..][k..]
  {
    assert s[..k + 1][1..] == s[1..][..k];
    MatchStar(p, s[..k + 1]);
  }

  lemma StarSplitFirst(p: seq<Glob>, s: string, k: nat)
    requires |p| > 0 && p[0].Star? && k <= |s|
    requires GlobMatch(p, s[..k]) && !GlobMatch(p[1..], s[..k])
    ensures k > 0 && !IsLineTerminator(s[0]) && GlobMatch(p, s[1..][..k - 1]) && s[k..] == s[1..][k - 1..]
  {
    MatchStar(p, s[..k]);
    assert s[..k][1..] == s[1..][..k - 1];
  }

  /** `*` matches exactly the runs free of line terminators, the empty run included. */
  lemma {:induction false} StarMatches(s: string)
    ensures GlobMatch([Star], s) <==> forall i :: 0 <= i < |s| ==> !IsLineTerminator(s[i])
  {
    assert [Star][1..] == [];
    if |s| > 0 {
      StarMatches(s[1..]);
      assert forall i :: 0 < i < |s| ==> s[i] == s[1..][i - 1];
    }
  }

  /** `?` matches exactly one character that is not a line terminator. */
  lemma OneMatches(s: string)
    ensures GlobMatch([One], s) <==> |s| == 1 && !IsLineTerminator(s[0])
  {
    assert [One][1..] == [];
  }

  /** The tokens of a wildcard without operators: one literal per character. */
  lemma {:induction false} CompilePlain(w: string)
    requires forall i :: 0 <= i < |w| ==> !IsOperator(w[i])
    ensures Compile(w) == [Literals(w)]
  {
    if |w| > 0 {
      CompilePlain(w[1..]);
    }
  }

  function Literals(w: string): (p: seq<Glob>)
    ensures |p| == |w|
  {
    if |w| == 0 then [] else [Lit(w[0])] + Literals(w[1..])
  }

  lemma {:induction false} LiteralsMatch(w: string, s: string)
    ensures GlobMatch(Literals(w), s) <==> |s| == |w| && forall i :: 0 <= i < |w| ==> FoldEq(s[i], w[i])
  {
    if |w| > 0 {
      var p := Literals(w);
      assert p[0] == Lit(w[0]) && p[1..] == Literals(w[1..]);
      if |s| > 0 {
        LiteralsMatch(w[1..], s[1..]);
        if |s| == |w| && forall i :: 0 <= i < |w| ==> FoldEq(s[i], w[i]) {
          assert forall i :: 0 <= i < |w[1..]| ==> FoldEq(s[1..][i], w[1..][i]) by {
            forall i | 0 <= i < |w[1..]| ensures FoldEq(s[1..][i], w[1..][i]) {
              assert FoldEq(s[i + 1], w[i + 1]);
            }
          }
        }
        if GlobMatch(p, s) {
          forall i | 0 <= i < |w| ensures FoldEq(s[i], w[i]) {
            if i > 0 {
              assert s[i] == s[1..][i - 1] && w[i] == w[1..][i - 1];
            }
          }
        }
      }
    }
  }

  /**
   * Every character other than `*`, `?` and `;` (metacharacters such as `.`,
   * `+`, `$` and brackets included) matches only itself, up to ASCII case:
   * an operator-free wildcard accepts exactly the names that spell it.
   */
  lemma PlainWildcardMatches(w: string, name: string)
    requires forall i :: 0 <= i < |w| ==> !IsOperator(w[i])
    ensures Matches(w, name) <==> |name| == |w| && forall i :: 0 <= i < |w| ==> FoldEq(name[i], w[i])
  {
    RegexRoundTrip(w);
    CompilePlain(w);
    LiteralsMatch(w, name);
    if Matches(w, name) {
      var i, j :| 0 <= i <= j <= |name| && i == 0 && j == |name| && GlobMatch(Literals(w), name[i..j]);
      assert name[i..j] == name;
    }
    if GlobMatch(Literals(w), name) {
      assert name[0..|name|] == name;
      assert BranchMatches(true, Literals(w), true, name);
      assert Compile(w)[0] == Literals(w);
      assert BranchMatches(0 == 0, Compile(w)[0], 0 == |Compile(w)| - 1, name);
    }
  }

  /** Without `;` the single alternative must match the whole name. */
  lemma WholeNameWithoutSeparator(w: string, name: string)
    requires ';' !in w
    ensures |Compile(w)| == 1
    ensures Matches(w, name) <==> GlobMatch(Compile(w)[0], name)
  {
    RegexRoundTrip(w);
    if Matches(w, name) {
      var i, j :| 0 <= i <= j <= |name| && i == 0 && j == |name| && GlobMatch(Compile(w)[0], name[i..j]);
      assert name[i..j] == name;
    }
    if GlobMatch(Compile(w)[0], name) {
      assert name[0..|name|] == name;
      assert BranchMatches(true, Compile(w)[0], true, name);
    }
  }

  /**
   * With `;` the first alternative is anchored only at the start and the last
   * only at the end: a name that merely starts with a match of the first, or
   * merely ends with a match of the last, is accepted.
   */
  lemma SeparatorAnchoring(w: string, name: string, k: nat)
    requires ';' in w && k <= |name|
    ensures |Compile(w)| >= 2
    ensures GlobMatch(Compile(w)[0], name[..k]) ==> Matches(w, name)
    ensures GlobMatch(Compile(w)[|Compile(w)| - 1], name[k..]) ==> Matches(w, name)
  {
    SeparatorSplits(w);
    PrefixAnchored(w, name, k);
    SuffixAnchored(w, name, k);
  }

  lemma PrefixAnchored(w: string, name: string, k: nat)
    requires |Compile(w)| >= 2 && k <= |name|
    ensures GlobMatch(Compile(w)[0], name[..k]) ==> Matches(w, name)
  {
    var alts := Compile(w);
    if GlobMatch(alts[0], name[..k]) {
      FirstAltPrefix(alts, name, k);
      RegexRoundTrip(w);
    }
  }

  lemma SuffixAnchored(w: string, name: string, k: nat)
    requires |Compile(w)| >= 2 && k <= |name|
    ensures GlobMatch(Compile(w)[|Compile(w)| - 1], name[k..]) ==> Matches(w, name)
  {
    var alts := Compile(w);
    var last := alts[|alts| - 1];
    if GlobMatch(last, name[k..]) {
      LastAltSuffix(alts, name, k);
      RegexRoundTrip(w);
    }
  }

  /** With two or more alternatives, the first one needs only to match a prefix. */
  lemma FirstAltPrefix(alts: seq<seq<Glob>>, name: string, k: nat)
    requires |alts| >= 2 && k <= |name| && GlobMatch(alts[0], name[..k])
    ensures RegexTest(alts, name)
  {
    assert name[0..k] == name[..k];
    assert BranchMatches(true, alts[0], false, name);
  }

  /** With two or more alternatives, the last one needs only to match a suffix. */
  lemma LastAltSuffix(alts: seq<seq<Glob>>, name: string, k: nat)
    requires |alts| >= 2 && k <= |name| && GlobMatch(alts[|alts| - 1], name[k..])
    ensures RegexTest(alts, name)
  {
    assert name[k..|name|] == name[k..];
    assert BranchMatches(false, alts[|alts| - 1], true, name);
  }

  lemma {:induction false} SeparatorSplits(w: string)
    requires ';' in w
    ensures |Compile(w)| >= 2
  {
    if w[0] != ';' {
      assert ';' in w[1..] by {
        var i :| 0 <= i < |w| && w[i] == ';';
        assert w[1..][i - 1] == ';';
      }
      SeparatorSplits(w[1..]);
    }
  }

  /** The first alternative of `a;…` is the translation of `a`; the rest come from what follows. */
  lemma {:induction false} CompileHead(a: string, b: string)
    requires ';' !in a
    ensures Compile(a + b)[0] == Compile(a)[0] + Compile(b)[0]
  {
    if |a| > 0 {
      assert (a + b)[1..] == a[1..] + b;
      CompileHead(a[1..], b);
    } else {
      assert a + b == b;
    }
  }

  /** A literal tail preceded by `*` matches any name that ends with that tail. */
  lemma StarThenLiterals(lit: string, pre: string)
    requires forall i :: 0 <= i < |pre| ==> !IsLineTerminator(pre[i])
    ensures GlobMatch([Star] + Literals(lit), pre + lit)
  {
    var s := pre + lit;
    StarMatches(pre);
    LiteralsMatch(lit, lit);
    assert s[..|pre|] == pre && s[|pre|..] == lit;
    GlobMatchConcat([Star], Literals(lit), s);
  }

  /**
   * The anchoring quirk on the usual `*.a;*.b` shape: every name that merely
   * starts with some `stem` followed by `a` is accepted, whatever follows.
   */
  lemma TwoExtensionsAcceptPrefix(a: string, b: string, stem: string, tail: string)
    requires forall i :: 0 <= i < |a| ==> !IsOperator(a[i])
    requires forall i :: 0 <= i < |stem| ==> !IsLineTerminator(stem[i])
    ensures Matches("*" + a + ";*" + b, stem + a + tail)
  {
    var w := "*" + a + ";*" + b;
    var name := stem + a + tail;
    assert w == ("*" + a) + (";*" + b);
    assert ';' !in "*" + a by {
      forall i | 0 <= i < |"*" + a| ensures ("*" + a)[i] != ';' {
        if i > 0 { assert ("*" + a)[i] == a[i - 1]; }
      }
    }
    CompileHead("*" + a, ";*" + b);
    CompilePlain(a);
    assert ("*" + a)[1..] == a;
    assert Compile("*" + a) == Cons(Star, Compile(a));
    assert Compile(";*" + b)[0] == [];
    assert Compile(w)[0] == [Star] + Literals(a);
    StarThenLiterals(a, stem);
    assert name[..|stem| + |a|] == stem + a;
    assert ';' in w by { assert w[1 + |a|] == ';'; }
    SeparatorAnchoring(w, name, |stem| + |a|);
  }
}
