/** Reachability over successor sets. */
module Chains {

  ghost predicate Step(succ: seq<set<nat>>, u: nat, v: nat) {
    u < |succ| && v in succ[u]
  }

  ghost predicate Chain(succ: seq<set<nat>>, p: seq<nat>, u: nat, v: nat) {
    |p| > 0 && p[0] == u && p[|p| - 1] == v && forall i :: 0 <= i < |p| - 1 ==> Step(succ, p[i], p[i + 1])
  }

  /** `v` is `u` or follows it over successor edges. */
  ghost predicate Reaches(succ: seq<set<nat>>, u: nat, v: nat) {
    exists p :: Chain(succ, p, u, v)
  }

  lemma ReachesSelf(succ: seq<set<nat>>, u: nat)
    ensures Reaches(succ, u, u)
  {
    assert Chain(succ, [u], u, u);
  }

  lemma StepReaches(succ: seq<set<nat>>, u: nat, v: nat, w: nat)
    requires Step(succ, u, v) && Reaches(succ, v, w)
    ensures Reaches(succ, u, w)
  {
    var p :| Chain(succ, p, v, w);
    assert Chain(succ, [u] + p, u, w);
  }

  /** What holds at the start of a chain and is handed on along edges holds at its end. */
  lemma {:induction false} CarriedAlong(succ: seq<set<nat>>, p: seq<nat>, u: nat, v: nat, good: set<nat>)
    requires Chain(succ, p, u, v) && u in good
    requires forall a: nat, b: nat :: a in good && Step(succ, a, b) ==> b in good
    ensures v in good
    decreases |p|
  {
    if |p| > 1 {
      assert Step(succ, p[0], p[0 + 1]);
      assert Chain(succ, p[1..], p[1], v);
      CarriedAlong(succ, p[1..], p[1], v, good);
    }
  }

  /** More edges, more chains. */
  lemma ReachesMore(succ: seq<set<nat>>, succ': seq<set<nat>>, u: nat, v: nat)
    requires Reaches(succ, u, v)
    requires forall a: nat, b: nat :: Step(succ, a, b) ==> Step(succ', a, b)
    ensures Reaches(succ', u, v)
  {
    var p :| Chain(succ, p, u, v);
    assert Chain(succ', p, u, v);
  }

  lemma {:induction false} ChainTrans(succ: seq<set<nat>>, p: seq<nat>, u: nat, v: nat, w: nat)
    requires Chain(succ, p, u, v) && Reaches(succ, v, w)
    ensures Reaches(succ, u, w)
    decreases |p|
  {
    if |p| > 1 {
      assert Step(succ, p[0], p[0 + 1]);
      assert Chain(succ, p[1..], p[1], v);
      ChainTrans(succ, p[1..], p[1], v, w);
      StepReaches(succ, u, p[1], w);
    }
  }

  lemma ReachesTrans(succ: seq<set<nat>>, u: nat, v: nat, w: nat)
    requires Reaches(succ, u, v) && Reaches(succ, v, w)
    ensures Reaches(succ, u, w)
  {
    var p :| Chain(succ, p, u, v);
    ChainTrans(succ, p, u, v, w);
  }

  lemma ReachesStep(succ: seq<set<nat>>, u: nat, v: nat, w: nat)
    requires Reaches(succ, u, v) && Step(succ, v, w)
    ensures Reaches(succ, u, w)
  {
    ReachesSelf(succ, w);
    StepReaches(succ, v, w, w);
    ReachesTrans(succ, u, v, w);
  }

  lemma FirstStep(succ: seq<set<nat>>, u: nat, v: nat) returns (w: nat)
    requires Reaches(succ, u, v) && u != v
    ensures Step(succ, u, w) && Reaches(succ, w, v)
  {
    var p :| Chain(succ, p, u, v);
    assert Step(succ, p[0], p[0 + 1]);
    w := p[1];
    assert Chain(succ, p[1..], w, v);
  }
}
