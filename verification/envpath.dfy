/**
 * `%NAME%` placeholders in a configured path. The code replaces every match
 * of `%([^%]+)%`, left to right and without overlap, by the value of the
 * environment variable; a variable that is not set is turned into the text
 * `undefined` (the replacement function returns `undefined`, which is
 * converted to a string). The result is then resolved and normalized.
 */
module EnvPath {
  import opened Paths

  type Env = map<string, string>

  /** The index of the first `%` in `s` at or after `i`, or `|s|` when there is none. */
  function NextPercent(s: string, i: nat): (j: nat)
    requires i <= |s|
    ensures i <= j <= |s|
    ensures j < |s| ==> s[j] == '%'
    ensures forall k :: i <= k < j ==> s[k] != '%'
    decreases |s| - i
  {
    if i == |s| || s[i] == '%' then i else NextPercent(s, i + 1)
  }

  /** What the replacement function yields for a variable name. */
  function EnvValue(env: Env, name: string): string {
    if name in env then env[name] else "undefined"
  }

  /** The placeholder expansion the code performs. */
  function Substitute(s: string, env: Env): string
    decreases |s|
  {
    if |s| == 0 then ""
    else if s[0] == '%' && 1 < NextPercent(s, 1) < |s| then
      var j := NextPercent(s, 1);
      EnvValue(env, s[1..j]) + Substitute(s[j + 1..], env)
    else [s[0]] + Substitute(s[1..], env)
  }

  /** A configured path turned into an absolute one. */
  function ResolvePath(p: string, env: Env, ops: PathOps): string {
    ops.normalize(ops.resolve(Substitute(p, env)))
  }

  /** A path written as plain text and placeholders. */
  datatype Segment = Text(t: string) | Var(name: string)

  predicate WellFormed(segs: seq<Segment>) {
    forall i :: 0 <= i < |segs| ==>
      match segs[i]
      case Text(t) => '%' !in t
      case Var(n) => |n| > 0 && '%' !in n
  }

  function Spell(segs: seq<Segment>): string {
    if |segs| == 0 then ""
    else (match segs[0] case Text(t) => t case Var(n) => "%" + n + "%") + Spell(segs[1..])
  }

  /** Reference meaning: every placeholder replaced by its value, text kept. */
  function Expand(segs: seq<Segment>, env: Env): string {
    if |segs| == 0 then ""
    else (match segs[0] case Text(t) => t case Var(n) => EnvValue(env, n)) + Expand(segs[1..], env)
  }

  /** Text without `%` passes through unchanged. */
  lemma {:induction false} SubstituteText(t: string, rest: string, env: Env)
    requires '%' !in t
    ensures Substitute(t + rest, env) == t + Substitute(rest, env)
  {
    if |t| > 0 {
      assert (t + rest)[0] == t[0] && (t + rest)[1..] == t[1..] + rest;
      SubstituteText(t[1..], rest, env);
    } else {
      assert t + rest == rest;
    }
  }

  /** A placeholder of a non-empty, `%`-free name is replaced by its value. */
  lemma SubstituteVar(n: string, rest: string, env: Env)
    requires |n| > 0 && '%' !in n
    ensures Substitute("%" + n + "%" + rest, env) == EnvValue(env, n) + Substitute(rest, env)
  {
    var s := "%" + n + "%" + rest;
    var j := NextPercent(s, 1);
    assert s[|n| + 1] == '%';
    assert forall k :: 1 <= k < |n| + 1 ==> s[k] == n[k - 1];
    assert j == |n| + 1;
    assert s[1..j] == n;
    assert s[j + 1..] == rest;
  }

  /**
   * Every well-formed placeholder is replaced by its value, and the text
   * around placeholders is kept verbatim.
   */
  lemma {:induction false} SubstituteSpell(segs: seq<Segment>, env: Env)
    requires WellFormed(segs)
    ensures Substitute(Spell(segs), env) == Expand(segs, env)
  {
    if |segs| > 0 {
      assert WellFormed(segs[1..]) by {
        forall i | 0 <= i < |segs[1..]|
          ensures match segs[1..][i] case Text(t) => '%' !in t case Var(n) => |n| > 0 && '%' !in n
        {
          assert segs[1..][i] == segs[i + 1];
        }
      }
      SubstituteSpell(segs[1..], env);
      match segs[0]
      case Text(t) =>
        assert '%' !in t by { assert WellFormed(segs) ==> '%' !in t; }
        SubstituteText(t, Spell(segs[1..]), env);
      case Var(n) =>
        assert |n| > 0 && '%' !in n by { assert WellFormed(segs) ==> |n| > 0 && '%' !in n; }
        SubstituteVar(n, Spell(segs[1..]), env);
    }
  }

  /** A variable that is not set becomes the text `undefined`, not the empty string. */
  lemma UnsetVariable(n: string, env: Env)
    requires |n| > 0 && '%' !in n && n !in env
    ensures Substitute("%" + n + "%", env) == "undefined"
  {
    SubstituteVar(n, "", env);
    assert "%" + n + "%" + "" == "%" + n + "%";
  }

  /** `%%` encloses no name and is kept as it is. */
  lemma EmptyName(env: Env)
    ensures Substitute("%%", env) == "%%"
  {
    assert NextPercent("%%", 1) == 1;
    assert "%%"[1..] == "%";
    assert NextPercent("%", 1) == 1;
  }

  /** Matches do not overlap: in `%A%B%` only `A` is a name, and `B%` is kept. */
  lemma NoOverlap(env: Env)
    ensures Substitute("%A%B%", env) == EnvValue(env, "A") + "B%"
  {
    SubstituteVar("A", "B%", env);
    assert "%A%B%" == "%" + "A" + "%" + "B%";
    SubstituteText("B", "%", env);
    assert "B%" == "B" + "%";
    assert NextPercent("%", 1) == 1;
  }
}
