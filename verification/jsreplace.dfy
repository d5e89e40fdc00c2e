/**
 * `String.prototype.replace` with a global regular expression and a STRING
 * replacement, as the rename step and the pruning step call it. Such a
 * replacement is not inserted verbatim: `$$`, `$&`, `` $` `` and `$'` in it
 * stand for `$`, the matched text, the text before the match and the text
 * after it. The rest of the model inserts values verbatim (Text.ReplaceAll),
 * which is what the code evidently intends; this module keeps the
 * behaviour as written and exhibits the difference.
 */
module JsReplace {
  import opened Text
  import opened Entries
  import opened DateStamp
  import Rename

  /** The expansion of a replacement string for a match without capture groups. */
  function Substitution(repl: string, matched: string, before: string, after: string): string
    decreases |repl|
  {
    if |repl| == 0 then ""
    else if repl[0] == '$' && |repl| >= 2 && repl[1] in "$&`'" then
      (if repl[1] == '$' then "$"
       else if repl[1] == '&' then matched
       else if repl[1] == '`' then before
       else after)
      + Substitution(repl[2..], matched, before, after)
    else [repl[0]] + Substitution(repl[1..], matched, before, after)
  }

  /** Global replacement scanning `s` from index `i`; before/after texts are taken from the whole of `s`. */
  function ReplaceFrom(s: string, i: nat, tok: string, repl: string): string
    requires |tok| > 0 && i <= |s|
    decreases |s| - i
  {
    if i == |s| then ""
    else if i + |tok| <= |s| && s[i..i + |tok|] == tok then
      Substitution(repl, tok, s[..i], s[i + |tok|..]) + ReplaceFrom(s, i + |tok|, tok, repl)
    else [s[i]] + ReplaceFrom(s, i + 1, tok, repl)
  }

  function JsReplaceAll(s: string, tok: string, repl: string): string
    requires |tok| > 0
  {
    ReplaceFrom(s, 0, tok, repl)
  }

  lemma {:induction false} SubstitutionPlain(repl: string, matched: string, before: string, after: string)
    requires '$' !in repl
    ensures Substitution(repl, matched, before, after) == repl
  {
    if |repl| > 0 {
      SubstitutionPlain(repl[1..], matched, before, after);
    }
  }

  lemma {:induction false} ReplaceFromPlain(s: string, i: nat, tok: string, repl: string)
    requires |tok| > 0 && i <= |s| && '$' !in repl
    ensures ReplaceFrom(s, i, tok, repl) == ReplaceAll(s[i..], tok, repl)
    decreases |s| - i
  {
    if i < |s| {
      var t := s[i..];
      if i + |tok| <= |s| && s[i..i + |tok|] == tok {
        assert t[..|tok|] == s[i..i + |tok|];
        assert t[|tok|..] == s[i + |tok|..];
        SubstitutionPlain(repl, tok, s[..i], s[i + |tok|..]);
        ReplaceFromPlain(s, i + |tok|, tok, repl);
      } else {
        if |tok| <= |t| {
          assert t[..|tok|] == s[i..i + |tok|];
        }
        assert t[1..] == s[i + 1..];
        ReplaceFromPlain(s, i + 1, tok, repl);
      }
    }
  }

  /** Without a `$` in the replacement, the as-written replacement is the verbatim one. */
  lemma AgreesWithoutDollar(s: string, tok: string, repl: string)
    requires |tok| > 0 && '$' !in repl
    ensures JsReplaceAll(s, tok, repl) == ReplaceAll(s, tok, repl)
  {
    ReplaceFromPlain(s, 0, tok, repl);
    assert s[0..] == s;
  }

  /** The rename step as the code writes it. */
  function ResolveRenamePatternAsWritten(e: Entry, base: string, d: DateTime): string {
    var f := GetFormattedDate(d);
    var r := JsReplaceAll(e.rename, "/s", f.timestamp);
    var r := JsReplaceAll(r, "/d", f.yyyyMMdd);
    var r := JsReplaceAll(r, "/t", f.hhmmss);
    var r := JsReplaceAll(r, "/o", base);
    var r := JsReplaceAll(r, "/n", e.name);
    JsReplaceAll(r, "/b", e.subfolder)
  }

  /** Where the token does not occur, nothing is replaced, whatever the replacement. */
  predicate OccursAt(s: string, k: int, tok: string) {
    0 <= k && k + |tok| <= |s| && s[k..k + |tok|] == tok
  }

  lemma {:induction false} ReplaceFromNoMatch(s: string, i: nat, tok: string, repl: string)
    requires |tok| > 0 && i <= |s|
    requires forall k :: i <= k ==> !OccursAt(s, k, tok)
    ensures ReplaceFrom(s, i, tok, repl) == s[i..]
    decreases |s| - i
  {
    if i < |s| {
      assert !OccursAt(s, i, tok);
      ReplaceFromNoMatch(s, i + 1, tok, repl);
      assert s[i..] == [s[i]] + s[i + 1..];
    }
  }

  /**
   * Counterexample: with the template `/o`, a source named `a$$b` is backed
   * up as `a$b`, where the verbatim rename keeps `a$$b`.
   */
  lemma DollarInBaseCounterexample(e: Entry, d: DateTime)
    requires e.rename == "/o" && e.name == "" && e.subfolder == ""
    ensures ResolveRenamePatternAsWritten(e, "a$$b", d) == "a$b"
    ensures Rename.ResolveRenamePattern(e, "a$$b", d) == "a$$b"
  {
    var f := GetFormattedDate(d);
    AsWrittenOnO(f.timestamp, f.yyyyMMdd, f.hhmmss);
    VerbatimOnO(f.timestamp, f.yyyyMMdd, f.hhmmss);
  }

  lemma AsWrittenOnO(ts: string, date: string, time: string)
    ensures var r := JsReplaceAll(JsReplaceAll(JsReplaceAll("/o", "/s", ts), "/d", date), "/t", time);
      JsReplaceAll(JsReplaceAll(JsReplaceAll(r, "/o", "a$$b"), "/n", ""), "/b", "") == "a$b"
  {
    forall k | 0 <= k ensures !OccursAt("/o", k, "/s") && !OccursAt("/o", k, "/d") && !OccursAt("/o", k, "/t") {
      if k == 0 { assert "/o"[0..2] == "/o"; }
    }
    ReplaceFromNoMatch("/o", 0, "/s", ts);
    ReplaceFromNoMatch("/o", 0, "/d", date);
    ReplaceFromNoMatch("/o", 0, "/t", time);
    assert JsReplaceAll("/o", "/o", "a$$b") == "a$b" by {
      assert ReplaceFrom("/o", 0, "/o", "a$$b") == Substitution("a$$b", "/o", "", "") + ReplaceFrom("/o", 2, "/o", "a$$b");
      assert Substitution("a$$b", "/o", "", "") == "a" + Substitution("$$b", "/o", "", "");
      assert Substitution("$$b", "/o", "", "") == "$" + Substitution("b", "/o", "", "");
    }
    forall k | 0 <= k ensures !OccursAt("a$b", k, "/n") && !OccursAt("a$b", k, "/b") {
      if k + 2 <= 3 { assert "a$b"[k] != '/'; }
    }
    ReplaceFromNoMatch("a$b", 0, "/n", "");
    ReplaceFromNoMatch("a$b", 0, "/b", "");
  }

  lemma VerbatimOnO(ts: string, date: string, time: string)
    ensures var r := ReplaceAll(ReplaceAll(ReplaceAll("/o", "/s", ts), "/d", date), "/t", time);
      ReplaceAll(ReplaceAll(ReplaceAll(r, "/o", "a$$b"), "/n", ""), "/b", "") == "a$$b"
  {
    assert ReplaceAll("/o", "/s", ts) == "/o" by {
      assert ReplaceAll("/o", "/s", ts) == ['/'] + ReplaceAll("o", "/s", ts);
    }
    assert ReplaceAll("/o", "/d", date) == "/o" by {
      assert ReplaceAll("/o", "/d", date) == ['/'] + ReplaceAll("o", "/d", date);
    }
    assert ReplaceAll("/o", "/t", time) == "/o" by {
      assert ReplaceAll("/o", "/t", time) == ['/'] + ReplaceAll("o", "/t", time);
    }
    assert ReplaceAll("/o", "/o", "a$$b") == "a$$b" by {
      assert ReplaceAll("/o", "/o", "a$$b") == "a$$b" + ReplaceAll("", "/o", "a$$b");
    }
    ReplaceAllAbsent("a$$b", "/n", "");
    ReplaceAllAbsent("a$$b", "/b", "");
  }
}
