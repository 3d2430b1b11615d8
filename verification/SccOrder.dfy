/** Passes over the graph of SCCs: the topological order and the removal of unused file-static SCCs. */
module SccOrder {

  /** `calleeScc[k]` and `callerScc[k]`: the other SCCs that SCC `k` calls and is called from. */
  datatype Links = Links(calleeScc: seq<set<nat>>, callerScc: seq<set<nat>>)

  /**
   * The links between the SCCs of one call graph: the two directions mirror each other, and SCCs are numbered
   * callees first, which is the order in which the depth-first construction closes them.
   */
  ghost predicate Numbered(l: Links) {
    && |l.calleeScc| == |l.callerScc|
    && (forall k: nat, c: nat :: k < |l.calleeScc| && c in l.calleeScc[k] ==> c < k)
    && (forall k: nat, c: nat :: k < |l.calleeScc| && c < |l.calleeScc| ==>
          (c in l.calleeScc[k] <==> k in l.callerScc[c]))
    && (forall k: nat, c: nat :: k < |l.callerScc| && c in l.callerScc[k] ==> k < c < |l.callerScc|)
  }

  ghost predicate Distinct(vec: seq<nat>) {
    forall i, j :: 0 <= i < j < |vec| ==> vec[i] != vec[j]
  }

  ghost predicate CallersFirst(l: Links, vec: seq<nat>) {
    forall i, j :: 0 <= i < |vec| && 0 <= j < |vec| && vec[i] < |l.calleeScc| && vec[j] in l.calleeScc[vec[i]]
      ==> i < j
  }

  /** No listed SCC is called by one listed after it. */
  ghost predicate NoBackCalls(l: Links, vec: seq<nat>) {
    && (forall i :: 0 <= i < |vec| ==> vec[i] < |l.calleeScc|)
    && (forall i, j :: 0 <= i < j < |vec| ==> vec[i] !in l.calleeScc[vec[j]])
  }

  /** `vec` lists every SCC exactly once, each caller SCC before all of its callee SCCs. */
  ghost predicate Topological(l: Links, vec: seq<nat>) {
    && (forall i :: 0 <= i < |vec| ==> vec[i] < |l.calleeScc|)
    && (forall k: nat :: k < |l.calleeScc| ==> k in vec)
    && Distinct(vec)
    && CallersFirst(l, vec)
  }

  /** Every listed SCC has all of its callers listed before it. */
  ghost predicate CallersListed(l: Links, vec: seq<nat>) {
    forall i, c: nat :: 0 <= i < |vec| && vec[i] < |l.callerScc| && c in l.callerScc[vec[i]] ==> c in vec[..i]
  }

  /** An SCC that is not listed yet still waits for a caller beyond the first `done` list entries. */
  ghost predicate Waits(l: Links, vec: seq<nat>, done: nat, k: nat)
    requires done <= |vec|
  {
    k < |l.callerScc| && exists c :: c in l.callerScc[k] && c !in vec[..done]
  }

  ghost predicate SortInv(l: Links, vec: seq<nat>, done: nat) {
    && done <= |vec|
    && (forall i :: 0 <= i < |vec| ==> vec[i] < |l.calleeScc|)
    && Distinct(vec)
    && CallersListed(l, vec)
    && (forall k: nat :: k < |l.calleeScc| && k !in vec ==> Waits(l, vec, done, k))
  }

  /** If nothing is left to process, nothing is missing: the unlisted SCC with the largest number has no reason to
      wait. */
  lemma {:induction false} NothingWaits(l: Links, vec: seq<nat>, k: nat)
    requires Numbered(l) && SortInv(l, vec, |vec|) && k < |l.calleeScc|
    ensures k in vec
    decreases |l.calleeScc| - k
  {
    if k !in vec {
      assert Waits(l, vec, |vec|, k);
      var c :| c in l.callerScc[k] && c !in vec[..|vec|];
      assert vec[..|vec|] == vec;
      assert k in l.calleeScc[c];
      NothingWaits(l, vec, c);
    }
  }

  lemma ListedIsTopological(l: Links, vec: seq<nat>)
    requires Numbered(l) && SortInv(l, vec, |vec|)
    ensures Topological(l, vec)
  {
    forall k: nat | k < |l.calleeScc|
      ensures k in vec
    {
      NothingWaits(l, vec, k);
    }
    forall i, j | 0 <= i < |vec| && 0 <= j < |vec| && vec[j] in l.calleeScc[vec[i]]
      ensures i < j
    {
      assert vec[i] in l.callerScc[vec[j]];
      assert vec[i] in vec[..j];
    }
  }

  /** SCCs without callers start the list; the list then grows while it is being walked. */
  method SCCTopologicalSort(l: Links) returns (vec: seq<nat>)
    requires Numbered(l)
    ensures Topological(l, vec)
  {
    vec := [];
    for k := 0 to |l.callerScc|
      invariant forall c: nat :: c in vec <==> c < k && l.callerScc[c] == {}
      invariant Distinct(vec)
    {
      if l.callerScc[k] == {} {
        vec := vec + [k];
      }
    }
    StartsSorted(l, vec);
    var i := 0;
    while i < |vec|
      invariant SortInv(l, vec, i)
      decreases Unprocessed(l, vec, i)
    {
      ghost var before := vec;
      vec := EnqueueCallees(l, vec, i);
      ProcessedGrows(l, before, vec, i);
      i := i + 1;
    }
    ListedIsTopological(l, vec);
  }

  ghost function Unprocessed(l: Links, vec: seq<nat>, done: nat): set<nat>
    requires done <= |vec|
  {
    set k: nat | k < |l.calleeScc| && k !in vec[..done]
  }

  lemma ProcessedGrows(l: Links, vec: seq<nat>, vec': seq<nat>, i: nat)
    requires i < |vec| && vec <= vec' && Distinct(vec') && vec'[i] < |l.calleeScc|
    ensures Unprocessed(l, vec', i + 1) < Unprocessed(l, vec, i)
  {
    assert vec'[..i + 1] == vec[..i] + [vec[i]];
    assert vec[i] in Unprocessed(l, vec, i) && vec[i] !in Unprocessed(l, vec', i + 1);
  }

  lemma StartsSorted(l: Links, vec: seq<nat>)
    requires Numbered(l) && Distinct(vec)
    requires forall c: nat :: c in vec <==> c < |l.callerScc| && l.callerScc[c] == {}
    ensures SortInv(l, vec, 0)
  {
    assert forall i :: 0 <= i < |vec| ==> vec[i] in vec;
    forall k: nat | k < |l.calleeScc| && k !in vec
      ensures Waits(l, vec, 0, k)
    {
      var c :| c in l.callerScc[k];
      assert c !in vec[..0];
    }
  }

  /** Whether every caller of SCC `k` is listed. */
  method AllCallersListed(l: Links, vec: seq<nat>, k: nat) returns (all: bool)
    requires k < |l.callerScc|
    ensures all <==> forall c :: c in l.callerScc[k] ==> c in vec
  {
    var todo := l.callerScc[k];
    all := true;
    while todo != {}
      invariant todo <= l.callerScc[k]
      invariant all ==> forall c :: c in l.callerScc[k] && c !in todo ==> c in vec
      invariant !all ==> exists c :: c in l.callerScc[k] && c !in vec
      decreases |todo|
    {
      var c :| c in todo;
      if c !in vec {
        return false;
      }
      todo := todo - {c};
    }
  }

  /** The callees of entry `i` that are still missing are appended if all of their callers are listed. */
  method EnqueueCallees(l: Links, vec0: seq<nat>, i: nat) returns (vec: seq<nat>)
    requires Numbered(l) && SortInv(l, vec0, i) && i < |vec0|
    ensures vec0 <= vec
    ensures SortInv(l, vec, i + 1)
  {
    vec := vec0;
    var todo := l.calleeScc[vec[i]];
    while todo != {}
      invariant todo <= l.calleeScc[vec0[i]]
      invariant vec0 <= vec
      invariant SortInv(l, vec, i)
      invariant forall c :: c in l.calleeScc[vec0[i]] && c !in todo && c !in vec ==> Waits(l, vec, i + 1, c)
      decreases |todo|
    {
      var callee :| callee in todo;
      todo := todo - {callee};
      if callee !in vec {
        var all := AllCallersListed(l, vec, callee);
        if all {
          AppendKeeps(l, vec, i, callee);
          vec := vec + [callee];
        }
      }
    }
    WalkOn(l, vec, i);
  }

  lemma AppendKeeps(l: Links, vec: seq<nat>, i: nat, k: nat)
    requires Numbered(l) && SortInv(l, vec, i) && i < |vec| && k < |l.calleeScc| && k !in vec
    requires forall c :: c in l.callerScc[k] ==> c in vec
    ensures SortInv(l, vec + [k], i)
    ensures (vec + [k])[..i] == vec[..i] && (vec + [k])[..i + 1] == vec[..i + 1]
  {
    var vec' := vec + [k];
    assert vec'[..i] == vec[..i] && vec'[..i + 1] == vec[..i + 1];
    forall j, c: nat | 0 <= j < |vec'| && vec'[j] < |l.callerScc| && c in l.callerScc[vec'[j]]
      ensures c in vec'[..j]
    {
      assert vec'[..j] == vec[..j];
      assert vec[..|vec|] == vec;
    }
    forall c: nat | c < |l.calleeScc| && c !in vec'
      ensures Waits(l, vec', i, c)
    {
      assert c !in vec && Waits(l, vec, i, c);
    }
  }

  lemma WalkOn(l: Links, vec: seq<nat>, i: nat)
    requires Numbered(l) && SortInv(l, vec, i) && i < |vec|
    requires forall c: nat :: c in l.calleeScc[vec[i]] && c !in vec ==> Waits(l, vec, i + 1, c)
    ensures SortInv(l, vec, i + 1)
  {
    forall k: nat | k < |l.calleeScc| && k !in vec
      ensures Waits(l, vec, i + 1, k)
    {
      assert Waits(l, vec, i, k);
      var c :| c in l.callerScc[k] && c !in vec[..i];
      assert vec[..i + 1] == vec[..i] + [vec[i]];
      if c == vec[i] {
        assert k in l.calleeScc[vec[i]];
      }
    }
  }

  // ---------------------------------------------------------------------------------------------
  // Removal of SCCs nobody can call.
  // ---------------------------------------------------------------------------------------------

  /** An SCC stays if it is pinned (some member may be called from elsewhere) or a caller SCC stays. */
  ghost predicate Stays(l: Links, pinned: set<nat>, k: nat)
    requires Numbered(l) && k < |l.callerScc|
    decreases |l.callerScc| - k
  {
    k in pinned || exists c :: c in l.callerScc[k] && Stays(l, pinned, c)
  }

  ghost predicate SccPath(l: Links, p: seq<nat>, u: nat, v: nat) {
    && |p| > 0 && p[0] == u && p[|p| - 1] == v
    && (forall i :: 0 <= i < |p| ==> p[i] < |l.calleeScc|)
    && (forall i :: 0 <= i < |p| - 1 ==> p[i + 1] in l.calleeScc[p[i]])
  }

  /** The SCC is pinned, or is reached over callee links from a pinned SCC. */
  ghost predicate ReachedFromPinned(l: Links, pinned: set<nat>, k: nat) {
    exists u, p :: u in pinned && SccPath(l, p, u, k)
  }

  lemma {:induction false} StaysIsReached(l: Links, pinned: set<nat>, k: nat)
    requires Numbered(l) && k < |l.callerScc| && Stays(l, pinned, k)
    ensures ReachedFromPinned(l, pinned, k)
    decreases |l.callerScc| - k
  {
    if k in pinned {
      assert SccPath(l, [k], k, k);
    } else {
      var c :| c in l.callerScc[k] && Stays(l, pinned, c);
      StaysIsReached(l, pinned, c);
      var u, p :| u in pinned && SccPath(l, p, u, c);
      assert SccPath(l, p + [k], u, k);
    }
  }

  lemma {:induction false} ReachedStays(l: Links, pinned: set<nat>, u: nat, p: seq<nat>, k: nat)
    requires Numbered(l) && k < |l.callerScc| && u in pinned && SccPath(l, p, u, k)
    ensures Stays(l, pinned, k)
    decreases |p|
  {
    if |p| > 1 {
      var q := p[..|p| - 1];
      var c := q[|q| - 1];
      assert p[|p| - 2 + 1] in l.calleeScc[p[|p| - 2]];
      ReachedStays(l, pinned, u, q, c);
    }
  }

  ghost function StayingPart(l: Links, pinned: set<nat>, vec: seq<nat>): seq<nat>
    requires Numbered(l) && forall i :: 0 <= i < |vec| ==> vec[i] < |l.callerScc|
  {
    if vec == [] then []
    else
      var last := vec[|vec| - 1];
      StayingPart(l, pinned, vec[..|vec| - 1]) + (if Stays(l, pinned, last) then [last] else [])
  }

  lemma {:induction false} StayingPartMembers(l: Links, pinned: set<nat>, vec: seq<nat>, k: nat)
    requires Numbered(l) && forall i :: 0 <= i < |vec| ==> vec[i] < |l.callerScc|
    ensures k in StayingPart(l, pinned, vec) <==> k in vec && Stays(l, pinned, k)
  {
    if vec != [] {
      StayingPartMembers(l, pinned, vec[..|vec| - 1], k);
      assert vec == vec[..|vec| - 1] + [vec[|vec| - 1]];
    }
  }

  /** Leaving SCCs out keeps the order: no repetition and no call from a later entry to an earlier one. */
  lemma {:induction false} StayingPartOrdered(l: Links, pinned: set<nat>, vec: seq<nat>)
    requires Numbered(l) && Distinct(vec) && NoBackCalls(l, vec)
    ensures Distinct(StayingPart(l, pinned, vec)) && NoBackCalls(l, StayingPart(l, pinned, vec))
  {
    if vec != [] {
      var rest, last := vec[..|vec| - 1], vec[|vec| - 1];
      StayingPartOrdered(l, pinned, rest);
      StayingBefore(l, pinned, vec);
      hide Numbered, Stays;
    }
  }

  /** What stays of the entries before the last one differs from it and is not called by it. */
  lemma StayingBefore(l: Links, pinned: set<nat>, vec: seq<nat>)
    requires Numbered(l) && Distinct(vec) && NoBackCalls(l, vec) && vec != []
    ensures var part, last := StayingPart(l, pinned, vec[..|vec| - 1]), vec[|vec| - 1];
      forall i {:trigger part[i]} :: 0 <= i < |part| ==> part[i] != last && part[i] !in l.calleeScc[last]
  {
    hide Stays, StayingPart;
    var rest, last := vec[..|vec| - 1], vec[|vec| - 1];
    var part := StayingPart(l, pinned, rest);
    forall i | 0 <= i < |part|
      ensures part[i] != last && part[i] !in l.calleeScc[last]
    {
      StayingPartMembers(l, pinned, rest, part[i]);
      assert part[i] in part;
      var j :| 0 <= j < |rest| && rest[j] == part[i];
      assert vec[j] == rest[j];
    }
  }

  lemma TopologicalNoBackCalls(l: Links, vec: seq<nat>)
    requires Topological(l, vec)
    ensures NoBackCalls(l, vec)
  {
  }

  /** Removing `scc` from the caller sets of its callees. */
  method RemoveCallerScc(callerScc: seq<set<nat>>, callees: set<nat>, scc: nat) returns (r: seq<set<nat>>)
    requires forall c :: c in callees ==> c < |callerScc|
    ensures |r| == |callerScc|
    ensures forall c :: 0 <= c < |r| ==> r[c] == if c in callees then callerScc[c] - {scc} else callerScc[c]
  {
    r := callerScc;
    var todo := callees;
    while todo != {}
      invariant todo <= callees && |r| == |callerScc|
      invariant forall c :: 0 <= c < |r| ==>
                  r[c] == if c in callees && c !in todo then callerScc[c] - {scc} else callerScc[c]
      decreases |todo|
    {
      var c :| c in todo;
      r := r[c := r[c] - {scc}];
      todo := todo - {c};
    }
  }

  /** The loop of the removal pass after `m` of the listed SCCs have been looked at. */
  ghost predicate RemoveInv(l: Links, pinned: set<nat>, top: seq<nat>, m: nat, vec: seq<nat>, idx: nat,
                            callerScc: seq<set<nat>>)
    requires Numbered(l) && Topological(l, top)
  {
    && m <= |top| && idx <= |vec|
    && vec[..idx] == StayingPart(l, pinned, top[..m])
    && vec[idx..] == top[m..]
    && CallersLeft(l, pinned, top[..m], callerScc)
  }

  /** The caller sets have lost exactly the SCCs among `seen` that do not stay. */
  ghost predicate CallersLeft(l: Links, pinned: set<nat>, seen: seq<nat>, callerScc: seq<set<nat>>)
    requires Numbered(l)
  {
    && |callerScc| == |l.callerScc|
    && (forall c, u: nat {:trigger u in callerScc[c]} {:trigger u in l.callerScc[c]} :: 0 <= c < |callerScc| ==>
          (u in callerScc[c] <==> u in l.callerScc[c] && !(u in seen && !Stays(l, pinned, u))))
  }

  lemma LeftCaller(l: Links, pinned: set<nat>, seen: seq<nat>, callerScc: seq<set<nat>>, c: nat, u: nat)
    requires Numbered(l) && CallersLeft(l, pinned, seen, callerScc) && c < |callerScc|
    ensures u in callerScc[c] <==> u in l.callerScc[c] && !(u in seen && !Stays(l, pinned, u))
  {
  }

  lemma SeenDropped(l: Links, pinned: set<nat>, seen: seq<nat>, v: nat, callerScc: seq<set<nat>>, r: seq<set<nat>>)
    requires Numbered(l) && CallersLeft(l, pinned, seen, callerScc)
    requires v < |l.callerScc| && !Stays(l, pinned, v) && |r| == |callerScc|
    requires forall c :: 0 <= c < |r| ==>
               r[c] == if c in l.calleeScc[v] then callerScc[c] - {v} else callerScc[c]
    ensures CallersLeft(l, pinned, seen + [v], r)
  {
    forall c, u: nat | 0 <= c < |r|
      ensures u in r[c] <==> u in l.callerScc[c] && !(u in seen + [v] && !Stays(l, pinned, u))
    {
      LeftCaller(l, pinned, seen, callerScc, c, u);
    }
  }

  lemma RemoveStarts(l: Links, pinned: set<nat>, top: seq<nat>)
    requires Numbered(l) && Topological(l, top)
    ensures RemoveInv(l, pinned, top, 0, top, 0, l.callerScc)
  {
  }

  lemma TurnPlaces(top: seq<nat>, m: nat, vec: seq<nat>, idx: nat)
    requires m <= |top| && idx < |vec| && vec[idx..] == top[m..]
    ensures m < |top| && vec[idx] == top[m] && vec[idx + 1..] == top[m + 1..]
  {
    assert |vec[idx..]| == |top[m..]|;
    assert vec[idx..][0] == top[m..][0];
    assert vec[idx + 1..] == vec[idx..][1..] == top[m..][1..];
  }

  /** Every caller of an SCC has had its turn before. */
  lemma CallerHadTurn(l: Links, top: seq<nat>, m: nat, c: nat)
    requires Numbered(l) && Topological(l, top) && m < |top|
    requires c in l.callerScc[top[m]]
    ensures c in top[..m]
  {
    assert c in top;
    var i :| 0 <= i < |top| && top[i] == c;
    assert top[m] in l.calleeScc[top[i]];
    assert i < m;
  }

  /** When all callers have been seen, the caller set is non-empty exactly if one of them stays. */
  lemma LeftCallersStay(l: Links, pinned: set<nat>, seen: seq<nat>, callerScc: seq<set<nat>>, scc: nat)
    requires Numbered(l) && CallersLeft(l, pinned, seen, callerScc) && scc < |l.callerScc|
    requires forall c: nat :: c in l.callerScc[scc] ==> c in seen
    ensures scc < |callerScc|
    ensures callerScc[scc] != {} || scc in pinned <==> Stays(l, pinned, scc)
  {
    if callerScc[scc] != {} {
      var c :| c in callerScc[scc];
      LeftCaller(l, pinned, seen, callerScc, scc, c);
    }
    if Stays(l, pinned, scc) && scc !in pinned {
      var c :| c in l.callerScc[scc] && Stays(l, pinned, c);
      LeftCaller(l, pinned, seen, callerScc, scc, c);
    }
  }

  lemma StayingPartNext(l: Links, pinned: set<nat>, top: seq<nat>, m: nat)
    requires Numbered(l) && m < |top| && (forall i :: 0 <= i < |top| ==> top[i] < |l.calleeScc|)
    ensures StayingPart(l, pinned, top[..m + 1]) ==
            StayingPart(l, pinned, top[..m]) + (if Stays(l, pinned, top[m]) then [top[m]] else [])
  {
    assert top[..m + 1][..m] == top[..m];
    hide Stays;
  }

  /** At an SCC's turn its current caller set is non-empty exactly if some caller SCC stays. */
  lemma AtTurn(l: Links, pinned: set<nat>, top: seq<nat>, m: nat, vec: seq<nat>, idx: nat, callerScc: seq<set<nat>>)
    requires Numbered(l) && Topological(l, top)
    requires RemoveInv(l, pinned, top, m, vec, idx, callerScc) && idx < |vec|
    ensures m < |top| && vec[idx] == top[m] && vec[idx + 1..] == top[m + 1..]
    ensures callerScc[top[m]] != {} || top[m] in pinned <==> Stays(l, pinned, top[m])
    ensures StayingPart(l, pinned, top[..m + 1]) ==
            StayingPart(l, pinned, top[..m]) + (if Stays(l, pinned, top[m]) then [top[m]] else [])
  {
    hide Stays, StayingPart, CallersLeft;
    TurnPlaces(top, m, vec, idx);
    forall c: nat | c in l.callerScc[top[m]]
      ensures c in top[..m]
    {
      CallerHadTurn(l, top, m, c);
    }
    LeftCallersStay(l, pinned, top[..m], callerScc, top[m]);
    StayingPartNext(l, pinned, top, m);
  }

  lemma DropStep(l: Links, pinned: set<nat>, top: seq<nat>, m: nat, vec: seq<nat>, idx: nat, callerScc: seq<set<nat>>,
                 r: seq<set<nat>>)
    requires Numbered(l) && Topological(l, top)
    requires RemoveInv(l, pinned, top, m, vec, idx, callerScc) && idx < |vec|
    requires m < |top| && !Stays(l, pinned, top[m]) && |r| == |callerScc|
    requires forall c :: 0 <= c < |r| ==>
               r[c] == if c in l.calleeScc[top[m]] then callerScc[c] - {top[m]} else callerScc[c]
    ensures RemoveInv(l, pinned, top, m + 1, vec[..idx] + vec[idx + 1..], idx, r)
  {
    var vec' := vec[..idx] + vec[idx + 1..];
    AtTurn(l, pinned, top, m, vec, idx, callerScc);
    assert vec'[..idx] == vec[..idx] && vec'[idx..] == vec[idx + 1..];
    assert top[..m + 1] == top[..m] + [top[m]];
    SeenDropped(l, pinned, top[..m], top[m], callerScc, r);
  }

  lemma KeepStep(l: Links, pinned: set<nat>, top: seq<nat>, m: nat, vec: seq<nat>, idx: nat, callerScc: seq<set<nat>>)
    requires Numbered(l) && Topological(l, top)
    requires RemoveInv(l, pinned, top, m, vec, idx, callerScc) && idx < |vec|
    requires m < |top| && Stays(l, pinned, top[m])
    ensures RemoveInv(l, pinned, top, m + 1, vec, idx + 1, callerScc)
  {
    AtTurn(l, pinned, top, m, vec, idx, callerScc);
    assert vec[..idx + 1] == vec[..idx] + [vec[idx]];
    assert top[..m + 1] == top[..m] + [top[m]];
  }

  lemma RemoveDone(l: Links, pinned: set<nat>, top: seq<nat>, m: nat, vec: seq<nat>, callerScc: seq<set<nat>>)
    requires Numbered(l) && Topological(l, top)
    requires RemoveInv(l, pinned, top, m, vec, |vec|, callerScc)
    ensures vec == StayingPart(l, pinned, top)
    ensures forall k: nat :: k in vec <==> k < |l.calleeScc| && ReachedFromPinned(l, pinned, k)
  {
    assert vec[..|vec|] == vec && top[..m] == top by {
      assert |vec[|vec|..]| == |top[m..]|;
    }
    forall k: nat
      ensures k in vec <==> k < |l.calleeScc| && ReachedFromPinned(l, pinned, k)
    {
      StayingPartMembers(l, pinned, top, k);
      if k in vec {
        StaysIsReached(l, pinned, k);
      }
      if k < |l.calleeScc| && ReachedFromPinned(l, pinned, k) {
        var u, p :| u in pinned && SccPath(l, p, u, k);
        ReachedStays(l, pinned, u, p, k);
      }
    }
  }

  /** One pass over the list, erasing as it goes: what is left is what a pinned SCC reaches, in the same order. */
  method RemoveFileStaticSCC(l: Links, top: seq<nat>, pinned: set<nat>) returns (vec: seq<nat>)
    requires Numbered(l) && Topological(l, top)
    ensures forall k: nat :: k in vec <==> k < |l.calleeScc| && ReachedFromPinned(l, pinned, k)
    ensures vec == StayingPart(l, pinned, top)
  {
    vec := top;
    var callerScc := l.callerScc;
    var idx := 0;
    ghost var m := 0;
    RemoveStarts(l, pinned, top);
    while idx < |vec|
      invariant RemoveInv(l, pinned, top, m, vec, idx, callerScc)
      decreases |top| - m
    {
      var sccNode := vec[idx];
      AtTurn(l, pinned, top, m, vec, idx, callerScc);
      if callerScc[sccNode] != {} || sccNode in pinned {
        KeepStep(l, pinned, top, m, vec, idx, callerScc);
        idx := idx + 1;
      } else {
        var r := RemoveCallerScc(callerScc, l.calleeScc[sccNode], sccNode);
        DropStep(l, pinned, top, m, vec, idx, callerScc, r);
        vec := vec[..idx] + vec[idx + 1..];
        callerScc := r;
      }
      m := m + 1;
    }
    RemoveDone(l, pinned, top, m, vec, callerScc);
  }
}
