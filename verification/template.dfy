/**
 * Naming templates as a sequence of literal text and two-character `/k`
 * tokens. Both the rename step and the pruning step of the engine rewrite a
 * template by a chain of global replacements, one token letter at a time;
 * this module proves that, for templates whose only slashes start tokens and
 * whose replacement values contain no slash (the last one excepted), the
 * chain amounts to filling every token with its value in one pass.
 */
module Template {
  import opened Text

  datatype Piece = Literal(t: string) | Token(k: char)

  /** The characters a piece contributes to the template text. */
  function Spell(p: Piece): string {
    match p
    case Literal(t) => t
    case Token(k) => ['/', k]
  }

  /** The template text. */
  function Render(ps: seq<Piece>): string {
    if |ps| == 0 then "" else Spell(ps[0]) + Render(ps[1..])
  }

  /** Every slash of the rendered template starts a token. */
  predicate Plain(ps: seq<Piece>) {
    forall i :: 0 <= i < |ps| ==> PlainPiece(ps[i])
  }

  /** A literal without slashes, or a token whose letter is not a slash. */
  predicate PlainPiece(p: Piece) {
    match p
    case Literal(t) => '/' !in t
    case Token(k) => k != '/'
  }

  /** A substitution list: token letters paired with values, applied in order. */
  type Subst = seq<(char, string)>

  predicate SlashFree(subs: Subst) {
    forall i :: 0 <= i < |subs| ==> subs[i].0 != '/' && '/' !in subs[i].1
  }

  /**
   * No letter is a slash, and only the last value may hold one: nothing
   * re-scans the text the last replacement inserts.
   */
  predicate SlashFreeButLast(subs: Subst) {
    && (forall i :: 0 <= i < |subs| ==> subs[i].0 != '/')
    && (forall i :: 0 <= i < |subs| - 1 ==> '/' !in subs[i].1)
  }

  /** The value the first matching pair gives a token; an unmatched token keeps its own spelling. */
  function Lookup(subs: Subst, k: char): string {
    if |subs| == 0 then ['/', k]
    else if subs[0].0 == k then subs[0].1
    else Lookup(subs[1..], k)
  }

  /** A letter without a pair keeps its own spelling. */
  lemma {:induction false} LookupMissing(subs: Subst, k: char)
    requires forall i :: 0 <= i < |subs| ==> subs[i].0 != k
    ensures Lookup(subs, k) == ['/', k]
  {
    if |subs| > 0 {
      assert forall i :: 0 <= i < |subs[1..]| ==> subs[1..][i].0 != k by {
        forall i | 0 <= i < |subs[1..]| ensures subs[1..][i].0 != k {
          assert subs[1..][i] == subs[i + 1];
        }
      }
      LookupMissing(subs[1..], k);
    }
  }

  /** Reference meaning of a substitution: every piece replaced by its value, in one pass. */
  function Instantiate(ps: seq<Piece>, subs: Subst): string {
    if |ps| == 0 then ""
    else
      (match ps[0]
       case Literal(t) => t
       case Token(k) => Lookup(subs, k))
      + Instantiate(ps[1..], subs)
  }

  /** Every `Token(k)` piece becomes the literal `r`. */
  function Fill(ps: seq<Piece>, k: char, r: string): (qs: seq<Piece>)
    ensures |qs| == |ps|
    ensures forall i :: 0 <= i < |ps| ==> qs[i] == (if ps[i] == Token(k) then Literal(r) else ps[i])
  {
    if |ps| == 0 then []
    else [if ps[0] == Token(k) then Literal(r) else ps[0]] + Fill(ps[1..], k, r)
  }

  /** The pieces after each pair of `subs` has been filled in, in order. */
  function FillAll(ps: seq<Piece>, subs: Subst): seq<Piece>
    decreases |subs|
  {
    if |subs| == 0 then ps else FillAll(Fill(ps, subs[0].0, subs[0].1), subs[1..])
  }

  /** Chained global replacement of `/k` by its value, in the order of `subs`. */
  function ReplaceEach(s: string, subs: Subst): string
    decreases |subs|
  {
    if |subs| == 0 then s else ReplaceEach(ReplaceAll(s, ['/', subs[0].0], subs[0].1), subs[1..])
  }

  /** One global replacement of `/k` on a plain template fills exactly the `k` tokens. */
  lemma {:induction false} ReplaceRender(ps: seq<Piece>, k: char, r: string)
    requires Plain(ps) && k != '/'
    ensures ReplaceAll(Render(ps), ['/', k], r) == Render(Fill(ps, k, r))
  {
    if |ps| > 0 {
      PlainTail(ps);
      ReplaceRender(ps[1..], k, r);
      ReplacePiece(ps[0], k, r);
      var a := Spell(ps[0]);
      ReplaceAllConcat(a, Render(ps[1..]), ['/', k], r);
      FillStep(ps, k, r);
    }
  }

  lemma PlainTail(ps: seq<Piece>)
    requires Plain(ps) && |ps| > 0
    ensures PlainPiece(ps[0]) && Plain(ps[1..])
  {
    forall i | 0 <= i < |ps[1..]| ensures PlainPiece(ps[1..][i]) {
      assert ps[1..][i] == ps[i + 1];
    }
  }

  /** The replacement on one piece, which never ends in a slash. */
  lemma ReplacePiece(p: Piece, k: char, r: string)
    requires PlainPiece(p) && k != '/'
    ensures var a := Spell(p); |a| == 0 || a[|a| - 1] != '/'
    ensures ReplaceAll(Spell(p), ['/', k], r) == Spell(if p == Token(k) then Literal(r) else p)
  {
    var tok := ['/', k];
    var a := Spell(p);
    match p
    case Literal(t) =>
      ReplaceAllAbsent(t, tok, r);
    case Token(j) =>
      if j == k {
        assert ReplaceAll(a, tok, r) == r + ReplaceAll([], tok, r);
      } else {
        assert a[..2] != tok;
        assert ReplaceAll(a, tok, r) == ['/'] + ReplaceAll(a[1..], tok, r);
        assert ReplaceAll(a[1..], tok, r) == [j] + ReplaceAll([], tok, r);
      }
  }

  /** Filling splits into the first piece and the rest. */
  lemma FillStep(ps: seq<Piece>, k: char, r: string)
    requires |ps| > 0
    ensures Render(Fill(ps, k, r)) == Spell(if ps[0] == Token(k) then Literal(r) else ps[0]) + Render(Fill(ps[1..], k, r))
  {
    var qs := Fill(ps, k, r);
    assert qs[1..] == Fill(ps[1..], k, r);
  }

  /** Filling with a slash-free value keeps a template plain. */
  lemma FillPlain(ps: seq<Piece>, k: char, r: string)
    requires Plain(ps) && '/' !in r
    ensures Plain(Fill(ps, k, r))
  {
    var qs := Fill(ps, k, r);
    forall i | 0 <= i < |qs| ensures PlainPiece(qs[i]) {
      assert PlainPiece(ps[i]);
    }
  }

  /** The chained replacements on a plain template fill the tokens, pass by pass. */
  lemma {:induction false} ReplaceEachRender(ps: seq<Piece>, subs: Subst)
    requires Plain(ps) && SlashFreeButLast(subs)
    ensures ReplaceEach(Render(ps), subs) == Render(FillAll(ps, subs))
    decreases |subs|
  {
    if |subs| > 0 {
      ReplaceRender(ps, subs[0].0, subs[0].1);
      var qs := Fill(ps, subs[0].0, subs[0].1);
      if |subs| == 1 {
        assert subs[1..] == [];
      } else {
        FillPlain(ps, subs[0].0, subs[0].1);
        ButLastTail(subs);
        ReplaceEachRender(qs, subs[1..]);
      }
    }
  }

  lemma ButLastTail(subs: Subst)
    requires SlashFreeButLast(subs) && |subs| > 0
    ensures SlashFreeButLast(subs[1..])
  {
    forall i | 0 <= i < |subs[1..]| ensures subs[1..][i].0 != '/' {
      assert subs[1..][i] == subs[i + 1];
    }
    forall i | 0 <= i < |subs[1..]| - 1 ensures '/' !in subs[1..][i].1 {
      assert subs[1..][i] == subs[i + 1];
    }
  }

  /** Filling one token and then the rest is the same as looking each token up in the whole list. */
  lemma {:induction false} InstantiateFill(ps: seq<Piece>, k: char, r: string, rest: Subst)
    ensures Instantiate(Fill(ps, k, r), rest) == Instantiate(ps, [(k, r)] + rest)
  {
    if |ps| > 0 {
      InstantiateFill(ps[1..], k, r, rest);
      var subs := [(k, r)] + rest;
      assert subs[1..] == rest;
      match ps[0]
      case Literal(t) =>
      case Token(j) =>
    }
  }

  lemma {:induction false} RenderIsInstantiateEmpty(ps: seq<Piece>)
    ensures Render(ps) == Instantiate(ps, [])
  {
    if |ps| > 0 {
      RenderIsInstantiateEmpty(ps[1..]);
    }
  }

  /** Filling all pairs in order renders to the one-pass instantiation. */
  lemma {:induction false} FillAllInstantiate(ps: seq<Piece>, subs: Subst)
    ensures Render(FillAll(ps, subs)) == Instantiate(ps, subs)
    decreases |subs|
  {
    if |subs| == 0 {
      RenderIsInstantiateEmpty(ps);
    } else {
      FillAllInstantiate(Fill(ps, subs[0].0, subs[0].1), subs[1..]);
      InstantiateFill(ps, subs[0].0, subs[0].1, subs[1..]);
      assert [(subs[0].0, subs[0].1)] + subs[1..] == subs;
    }
  }

  /**
   * Main property: on a plain template whose values are slash-free, except
   * perhaps the last one filled, the chain of global replacements equals the
   * one-pass instantiation, so each token is replaced everywhere it occurs
   * and all other text is kept verbatim.
   */
  lemma ReplaceEachInstantiate(ps: seq<Piece>, subs: Subst)
    requires Plain(ps) && SlashFreeButLast(subs)
    ensures ReplaceEach(Render(ps), subs) == Instantiate(ps, subs)
  {
    ReplaceEachRender(ps, subs);
    FillAllInstantiate(ps, subs);
  }

  /** The letters for which `subs` has a pair. */
  predicate Covers(subs: Subst, k: char) {
    exists i :: 0 <= i < |subs| && subs[i].0 == k
  }

  /** A plain template whose tokens all have a pair renders, once filled, without any slash. */
  lemma {:induction false} FillAllSlashFree(ps: seq<Piece>, subs: Subst)
    requires Plain(ps) && SlashFree(subs)
    requires forall i :: 0 <= i < |ps| && ps[i].Token? ==> Covers(subs, ps[i].k)
    ensures '/' !in Render(FillAll(ps, subs))
  {
    FillAllInstantiate(ps, subs);
    InstantiateSlashFree(ps, subs);
  }

  lemma {:induction false} LookupSlashFree(subs: Subst, k: char)
    requires SlashFree(subs) && Covers(subs, k)
    ensures '/' !in Lookup(subs, k)
  {
    if subs[0].0 != k {
      var i :| 0 <= i < |subs| && subs[i].0 == k;
      assert subs[1..][i - 1] == subs[i];
      assert SlashFree(subs[1..]) by {
        forall j | 0 <= j < |subs[1..]| ensures subs[1..][j].0 != '/' && '/' !in subs[1..][j].1 {
          assert subs[1..][j] == subs[j + 1];
        }
      }
      LookupSlashFree(subs[1..], k);
    }
  }

  lemma {:induction false} InstantiateSlashFree(ps: seq<Piece>, subs: Subst)
    requires Plain(ps) && SlashFree(subs)
    requires forall i :: 0 <= i < |ps| && ps[i].Token? ==> Covers(subs, ps[i].k)
    ensures '/' !in Instantiate(ps, subs)
  {
    if |ps| > 0 {
      assert Plain(ps[1..]) by {
        forall i | 0 <= i < |ps[1..]| ensures match ps[1..][i] case Literal(t) => '/' !in t case Token(j) => j != '/' {
          assert ps[1..][i] == ps[i + 1];
        }
      }
      assert forall i :: 0 <= i < |ps[1..]| && ps[1..][i].Token? ==> Covers(subs, ps[1..][i].k) by {
        forall i | 0 <= i < |ps[1..]| && ps[1..][i].Token? ensures Covers(subs, ps[1..][i].k) {
          assert ps[1..][i] == ps[i + 1];
        }
      }
      InstantiateSlashFree(ps[1..], subs);
      match ps[0]
      case Literal(t) =>
        assert Plain(ps) ==> '/' !in t;
      case Token(k) =>
        LookupSlashFree(subs, k);
    }
  }
}
