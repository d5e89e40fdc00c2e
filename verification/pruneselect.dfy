/**
 * The retention choice of the pruning step: the matching outputs, each
 * with its birth time, are sorted newest first and everything after the
 * first `keep` of them is deleted.
 */
module PruneSelect {

  /** A matching output: its name in the destination folder and its birth time. */
  datatype Candidate = Candidate(name: string, birthtime: int)

  predicate NewestFirst(s: seq<Candidate>) {
    forall i, j :: 0 <= i < j < |s| ==> s[i].birthtime >= s[j].birthtime
  }

  /** Places `c` before the first element no newer than it, so earlier-listed ties stay first. */
  function Insert(c: Candidate, s: seq<Candidate>): (r: seq<Candidate>)
    ensures multiset(r) == multiset(s) + multiset{c}
    ensures |r| == |s| + 1
  {
    if |s| == 0 || s[0].birthtime <= c.birthtime then
      [c] + s
    else
      assert s == [s[0]] + s[1..];
      [s[0]] + Insert(c, s[1..])
  }

  /** An upper bound on the birth times survives insertion. */
  lemma InsertBounded(c: Candidate, s: seq<Candidate>, b: int)
    requires c.birthtime <= b && forall i :: 0 <= i < |s| ==> s[i].birthtime <= b
    ensures forall i :: 0 <= i < |Insert(c, s)| ==> Insert(c, s)[i].birthtime <= b
  {
    var r := Insert(c, s);
    forall i | 0 <= i < |r| ensures r[i].birthtime <= b {
      assert r[i] in multiset(s) + multiset{c};
    }
  }

  lemma {:induction false} InsertNewestFirst(c: Candidate, s: seq<Candidate>)
    requires NewestFirst(s)
    ensures NewestFirst(Insert(c, s))
  {
    if |s| > 0 && s[0].birthtime > c.birthtime {
      InsertNewestFirst(c, s[1..]);
      InsertBounded(c, s[1..], s[0].birthtime);
    }
  }

  /** The candidates of `s` born at time `t`, in their order in `s`. */
  function BornAt(s: seq<Candidate>, t: int): seq<Candidate> {
    if |s| == 0 then []
    else (if s[0].birthtime == t then [s[0]] else []) + BornAt(s[1..], t)
  }

  /**
   * Insertion puts `c` ahead of every element born at the same time and
   * leaves the order among the others alone.
   */
  lemma {:induction false} InsertBornAt(c: Candidate, s: seq<Candidate>)
    ensures forall t :: BornAt(Insert(c, s), t) == (if c.birthtime == t then [c] else []) + BornAt(s, t)
  {
    if |s| == 0 || s[0].birthtime <= c.birthtime {
      assert ([c] + s)[1..] == s;
    } else {
      InsertBornAt(c, s[1..]);
      assert Insert(c, s) == [s[0]] + Insert(c, s[1..]);
      assert s == [s[0]] + s[1..];
      forall t ensures BornAt([s[0]] + Insert(c, s[1..]), t) == (if c.birthtime == t then [c] else []) + BornAt([s[0]] + s[1..], t) {
        InsertBornAtStep(c, s[0], Insert(c, s[1..]), s[1..], t);
      }
    }
  }

  /** One step of insertion past an element `x` strictly newer than `c`. */
  lemma InsertBornAtStep(c: Candidate, x: Candidate, r: seq<Candidate>, s: seq<Candidate>, t: int)
    requires x.birthtime > c.birthtime
    requires BornAt(r, t) == (if c.birthtime == t then [c] else []) + BornAt(s, t)
    ensures BornAt([x] + r, t) == (if c.birthtime == t then [c] else []) + BornAt([x] + s, t)
  {
    assert ([x] + r)[1..] == r;
    assert ([x] + s)[1..] == s;
  }

  /**
   * The matching outputs from newest to oldest, as the code's comparator
   * orders them. The sort is stable: outputs born at the same time keep
   * the order in which they were listed.
   */
  function SortNewestFirst(xs: seq<Candidate>): (r: seq<Candidate>)
    ensures NewestFirst(r)
    ensures multiset(r) == multiset(xs)
    ensures |r| == |xs|
    ensures forall t :: BornAt(r, t) == BornAt(xs, t)
  {
    if |xs| == 0 then []
    else
      assert xs == [xs[0]] + xs[1..];
      var r := SortNewestFirst(xs[1..]);
      InsertNewestFirst(xs[0], r);
      InsertBornAt(xs[0], r);
      Insert(xs[0], r)
  }

  lemma {:induction false} BornAtMember(s: seq<Candidate>, t: int, x: Candidate)
    requires x in BornAt(s, t)
    ensures x in s && x.birthtime == t
  {
    if x != s[0] || s[0].birthtime != t {
      BornAtMember(s[1..], t, x);
    }
  }

  /**
   * Newest first and ties in listing order determine the order completely:
   * two newest-first sequences with the same candidates at every birth
   * time, in the same order, are equal. So the sort's result is the one
   * a stable sort with the code's comparator produces.
   */
  lemma {:induction false} StableOrderUnique(a: seq<Candidate>, b: seq<Candidate>)
    requires NewestFirst(a) && NewestFirst(b)
    requires forall t :: BornAt(a, t) == BornAt(b, t)
    ensures a == b
  {
    if |a| > 0 {
      BornHead(a);
      assert |b| > 0;
      TailsAgree(a, b);
      StableOrderUnique(a[1..], b[1..]);
      assert a == [a[0]] + a[1..] && b == [b[0]] + b[1..];
    } else if |b| > 0 {
      BornHead(b);
      assert false;
    }
  }

  /**
   * The sort's result is the only newest-first arrangement that keeps
   * outputs born at the same time in listing order, which is what the
   * stable `Array.prototype.sort` gives with the code's comparator.
   */
  lemma SortIsTheStableSort(xs: seq<Candidate>, r: seq<Candidate>)
    requires NewestFirst(r)
    requires forall t :: BornAt(r, t) == BornAt(xs, t)
    ensures r == SortNewestFirst(xs)
  {
    StableOrderUnique(r, SortNewestFirst(xs));
  }

  /** The first candidate is among those born at its own time, ahead of the rest. */
  lemma BornHead(s: seq<Candidate>)
    requires |s| > 0
    ensures BornAt(s, s[0].birthtime) == [s[0]] + BornAt(s[1..], s[0].birthtime)
  {
  }

  /** In a newest-first sequence nothing is newer than the first candidate. */
  lemma NewestBound(s: seq<Candidate>, t: int)
    requires NewestFirst(s) && |s| > 0 && BornAt(s, t) != []
    ensures t <= s[0].birthtime
  {
    var x := BornAt(s, t)[0];
    BornAtMember(s, t, x);
    var i :| 0 <= i < |s| && s[i] == x;
  }

  /** Two such sequences start with the same candidate and agree on their tails. */
  lemma TailsAgree(a: seq<Candidate>, b: seq<Candidate>)
    requires NewestFirst(a) && NewestFirst(b) && |a| > 0 && |b| > 0
    requires forall t :: BornAt(a, t) == BornAt(b, t)
    ensures a[0] == b[0]
    ensures forall t :: BornAt(a[1..], t) == BornAt(b[1..], t)
  {
    HeadsAgree(a, b, BornAt(a, a[0].birthtime), BornAt(a, b[0].birthtime));
    forall t ensures BornAt(a[1..], t) == BornAt(b[1..], t) {
      TailAt(a, b, t, BornAt(a, t));
    }
  }

  lemma HeadsAgree(a: seq<Candidate>, b: seq<Candidate>, atA: seq<Candidate>, atB: seq<Candidate>)
    requires NewestFirst(a) && NewestFirst(b) && |a| > 0 && |b| > 0
    requires atA == BornAt(a, a[0].birthtime) == BornAt(b, a[0].birthtime)
    requires atB == BornAt(a, b[0].birthtime) == BornAt(b, b[0].birthtime)
    ensures a[0] == b[0] && BornAt(a[1..], a[0].birthtime) == BornAt(b[1..], a[0].birthtime)
  {
    BornHead(a);
    BornHead(b);
    NewestBound(a, b[0].birthtime);
    NewestBound(b, a[0].birthtime);
    assert atA[0] == a[0] && atA[0] == b[0];
    assert atA[1..] == BornAt(a[1..], a[0].birthtime) == BornAt(b[1..], a[0].birthtime);
  }

  lemma TailAt(a: seq<Candidate>, b: seq<Candidate>, t: int, at: seq<Candidate>)
    requires |a| > 0 && |b| > 0 && a[0] == b[0]
    requires BornAt(a[1..], a[0].birthtime) == BornAt(b[1..], a[0].birthtime)
    requires at == BornAt(a, t) == BornAt(b, t)
    ensures BornAt(a[1..], t) == BornAt(b[1..], t)
  {
    if t != a[0].birthtime {
      assert b[0].birthtime != t;
      assert BornAt(a, t) == BornAt(a[1..], t);
      assert BornAt(b, t) == BornAt(b[1..], t);
    }
  }

  /** The `keep` newest outputs, which stay. */
  function Survivors(sorted: seq<Candidate>, keep: nat): seq<Candidate> {
    if keep < |sorted| then sorted[..keep] else sorted
  }

  /** Everything after the first `keep`, which the code deletes. */
  function Victims(sorted: seq<Candidate>, keep: nat): seq<Candidate> {
    if keep < |sorted| then sorted[keep..] else []
  }

  /**
   * The retention invariant: the survivors and the victims together are
   * the matching outputs; exactly `count - keep` of them (none when the
   * count is at most `keep`) are victims; and no victim is newer than any
   * survivor.
   */
  lemma SplitKeepsNewest(xs: seq<Candidate>, keep: nat)
    ensures var s := SortNewestFirst(xs);
      && multiset(Survivors(s, keep)) + multiset(Victims(s, keep)) == multiset(xs)
      && |Victims(s, keep)| == (if |xs| > keep then |xs| - keep else 0)
      && |Survivors(s, keep)| == (if |xs| > keep then keep else |xs|)
      && forall v, w :: v in Victims(s, keep) && w in Survivors(s, keep) ==> v.birthtime <= w.birthtime
  {
    SplitSorted(SortNewestFirst(xs), xs, keep);
  }

  /** The retention invariant for any newest-first arrangement of the matches. */
  lemma SplitSorted(s: seq<Candidate>, xs: seq<Candidate>, keep: nat)
    requires NewestFirst(s) && multiset(s) == multiset(xs)
    ensures && multiset(Survivors(s, keep)) + multiset(Victims(s, keep)) == multiset(xs)
      && |Victims(s, keep)| == (if |xs| > keep then |xs| - keep else 0)
      && |Survivors(s, keep)| == (if |xs| > keep then keep else |xs|)
      && forall v, w :: v in Victims(s, keep) && w in Survivors(s, keep) ==> v.birthtime <= w.birthtime
  {
    assert |s| == |multiset(s)| == |multiset(xs)| == |xs|;
    if keep < |s| {
      assert s == s[..keep] + s[keep..];
      SplitOrdered(s, keep);
    }
  }

  /** In a newest-first sequence, nothing after position `keep` is newer than anything before it. */
  lemma SplitOrdered(s: seq<Candidate>, keep: nat)
    requires NewestFirst(s) && keep < |s|
    ensures forall v, w :: v in s[keep..] && w in s[..keep] ==> v.birthtime <= w.birthtime
  {
    forall v, w | v in s[keep..] && w in s[..keep] ensures v.birthtime <= w.birthtime {
      var i :| keep <= i < |s| && s[i] == v;
      var j :| 0 <= j < keep && s[j] == w;
    }
  }
}
