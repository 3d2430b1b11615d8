/** Replacing globally escaping nodes by the three global nodes, as a function of the graph before trimming. */
module EscapeTrim {
  import opened EscapeNodes

  /** What is left of a deleted node. */
  const EMPTY_SLOT: Node := Node(NullSlot, NO_ESCAPE, {}, {}, {}, {}, map[], {})

  /** The node disappears: a globally escaping object, reference, or field whose objects disappear. */
  ghost predicate Doomed(n: Nodes, x: nat) {
    && !IsGlobal(x) && Status(n, x) == GLOBAL_ESCAPE
    && (IsObject(n, x) || Kind(n, x) == ReferenceNode
        || (IsField(n, x) && forall o :: o in Belongs(n, x) ==> Status(n, o) == GLOBAL_ESCAPE))
  }

  ghost predicate Gone(n: Nodes, k: nat, x: nat) {
    x < k && Doomed(n, x)
  }

  /** A globally escaping field of an object that stays: it now leads to the global object only. */
  ghost predicate Frozen(n: Nodes, k: nat, x: nat) {
    x < k && !IsGlobal(x) && IsField(n, x) && Status(n, x) == GLOBAL_ESCAPE && !Doomed(n, x)
  }

  /** A globally escaping argument stays, but nothing leads to it any more. */
  ghost predicate Sealed(n: Nodes, k: nat, x: nat) {
    x < k && !IsGlobal(x) && Kind(n, x) == ActualNode && Status(n, x) == GLOBAL_ESCAPE
  }

  /** A node whose `in` entries elsewhere have been removed. */
  ghost predicate Cut(n: Nodes, k: nat, x: nat) {
    Gone(n, k, x) || Frozen(n, k, x)
  }

  /** The node that stands for `x` once the first `k` nodes have been trimmed. */
  ghost function Rep(n: Nodes, k: nat, x: nat): nat {
    if !Gone(n, k, x) then x
    else if IsObject(n, x) then GLOBAL_OBJ
    else if Kind(n, x) == ReferenceNode then GLOBAL_REF
    else GLOBAL_FIELD
  }

  ghost function TrimmedPts(n: Nodes, k: nat, x: nat): set<nat> {
    if Gone(n, k, x) then {} else if Frozen(n, k, x) then {GLOBAL_OBJ} else set o | o in Pts(n, x) :: Rep(n, k, o)
  }

  ghost function TrimmedBy(n: Nodes, k: nat, x: nat): set<nat> {
    if Gone(n, k, x) then {} else set v | v in By(n, x) && !Cut(n, k, v)
  }

  ghost function TrimmedOuts(n: Nodes, k: nat, x: nat): set<nat> {
    if Gone(n, k, x) then {} else if Frozen(n, k, x) then {GLOBAL_OBJ}
    else set w | w in Outs(n, x) && !Sealed(n, k, w) :: Rep(n, k, w)
  }

  ghost function TrimmedIns(n: Nodes, k: nat, x: nat): set<nat> {
    if Gone(n, k, x) || Sealed(n, k, x) then {} else set v | v in Ins(n, x) && !Cut(n, k, v)
  }

  ghost function TrimmedBelongs(n: Nodes, k: nat, x: nat): set<nat> {
    if Gone(n, k, x) then {} else set o | o in Belongs(n, x) && !Gone(n, k, o)
  }

  ghost function TrimmedFields(n: Nodes, k: nat, x: nat): map<int, nat> {
    if Gone(n, k, x) then map[] else Fields(n, x)
  }

  ghost function TrimmedNode(n: Nodes, k: nat, x: nat): Node {
    if Gone(n, k, x) then EMPTY_SLOT
    else Node(Kind(n, x), Status(n, x), TrimmedIns(n, k, x), TrimmedOuts(n, k, x), TrimmedPts(n, k, x),
              TrimmedBy(n, k, x), Fields(n, x), TrimmedBelongs(n, k, x))
  }

  /** The graph after the first `k` nodes have been trimmed. */
  ghost function Trimmed(n: Nodes, k: nat): Nodes {
    seq(|n|, (x: nat) => TrimmedNode(n, k, x))
  }

  lemma TrimmedReads(n: Nodes, k: nat, x: nat)
    ensures var t := Trimmed(n, k);
      && |t| == |n|
      && Outs(t, x) == (if x < |n| then TrimmedOuts(n, k, x) else {})
      && Ins(t, x) == (if x < |n| then TrimmedIns(n, k, x) else {})
      && Pts(t, x) == (if x < |n| then TrimmedPts(n, k, x) else {})
      && By(t, x) == (if x < |n| then TrimmedBy(n, k, x) else {})
      && Fields(t, x) == (if x < |n| then TrimmedFields(n, k, x) else map[])
      && Belongs(t, x) == (if x < |n| then TrimmedBelongs(n, k, x) else {})
      && Kind(t, x) == (if Gone(n, k, x) then NullSlot else Kind(n, x))
      && Status(t, x) == (if Gone(n, k, x) then NO_ESCAPE else Status(n, x))
  {
    if x < |n| {
      assert Trimmed(n, k)[x] == TrimmedNode(n, k, x);
    } else {
      assert Kind(n, x) == NullSlot;
    }
  }

  // ---------------------------------------------------------------------------------------------
  // One node after the other.
  // ---------------------------------------------------------------------------------------------

  /** Nothing trimmed yet. */
  lemma TrimStarts(n: Nodes)
    ensures Trimmed(n, 0) == n
  {
    forall x: nat | x < |n|
      ensures TrimmedNode(n, 0, x) == n[x]
    {
      assert TrimmedOuts(n, 0, x) == Outs(n, x);
      assert TrimmedPts(n, 0, x) == Pts(n, x);
      assert TrimmedIns(n, 0, x) == Ins(n, x);
      assert TrimmedBy(n, 0, x) == By(n, x);
      assert TrimmedBelongs(n, 0, x) == Belongs(n, x);
    }
  }

  /** A node that does not escape globally, a global node and an empty slot are passed over. */
  lemma PassedOver(n: Nodes, k: nat)
    requires IsGlobal(k) || Status(n, k) != GLOBAL_ESCAPE || Kind(n, k) == NullSlot
    ensures Trimmed(n, k + 1) == Trimmed(n, k)
  {
    assert !Doomed(n, k);
    forall x: nat
      ensures (Gone(n, k + 1, x) <==> Gone(n, k, x)) && (Frozen(n, k + 1, x) <==> Frozen(n, k, x))
      ensures Sealed(n, k + 1, x) <==> Sealed(n, k, x)
    {
      assert x < k + 1 <==> x < k || x == k;
    }
    assert forall x: nat :: Rep(n, k + 1, x) == Rep(n, k, x);
    assert forall x: nat :: Cut(n, k + 1, x) <==> Cut(n, k, x);
    hide Gone, Frozen, Sealed, Rep, Cut, Doomed;
    forall x: nat | x < |n|
      ensures TrimmedNode(n, k + 1, x) == TrimmedNode(n, k, x)
    {
      assert TrimmedOuts(n, k + 1, x) == TrimmedOuts(n, k, x);
      assert TrimmedPts(n, k + 1, x) == TrimmedPts(n, k, x);
      assert TrimmedIns(n, k + 1, x) == TrimmedIns(n, k, x);
      assert TrimmedBy(n, k + 1, x) == TrimmedBy(n, k, x);
      assert TrimmedBelongs(n, k + 1, x) == TrimmedBelongs(n, k, x);
    }
  }

  /** Trimming node `k` changes no other node's fate. */
  lemma FatesStep(n: Nodes, k: nat)
    ensures forall x: nat {:trigger Gone(n, k + 1, x)} ::
              Gone(n, k + 1, x) <==> Gone(n, k, x) || (x == k && Doomed(n, k))
    ensures forall x: nat {:trigger Frozen(n, k + 1, x)} :: x != k ==> (Frozen(n, k + 1, x) <==> Frozen(n, k, x))
    ensures forall x: nat {:trigger Sealed(n, k + 1, x)} :: x != k ==> (Sealed(n, k + 1, x) <==> Sealed(n, k, x))
    ensures forall x: nat {:trigger Cut(n, k + 1, x)} :: x != k ==> (Cut(n, k + 1, x) <==> Cut(n, k, x))
    ensures forall x: nat {:trigger Rep(n, k + 1, x)} :: x != k ==> Rep(n, k + 1, x) == Rep(n, k, x)
    ensures Rep(n, k, k) == k && !Cut(n, k, k) && !Gone(n, k, k) && !Sealed(n, k, k) && !Frozen(n, k, k)
    ensures !IsGlobal(k) ==> forall x: nat {:trigger Rep(n, k, x)} :: Rep(n, k, x) == k ==> x == k
    ensures Doomed(n, k) ==> !Sealed(n, k + 1, k) && !Frozen(n, k + 1, k)
  {
  }

  ghost function Image(n: Nodes, k: nat, a: set<nat>): set<nat> {
    set o | o in a :: Rep(n, k, o)
  }

  lemma ImageStep(n: Nodes, k: nat, a: set<nat>)
    requires !IsGlobal(k)
    ensures Image(n, k + 1, a) == if k in a then Image(n, k, a) - {k} + {Rep(n, k + 1, k)} else Image(n, k, a)
    ensures Image(n, k, a - {k}) == Image(n, k, a) - {k}
  {
    FatesStep(n, k);
    hide Rep, Gone, Cut, Frozen, Sealed, Doomed;
    var b := if k in a then Image(n, k, a) - {k} + {Rep(n, k + 1, k)} else Image(n, k, a);
    forall r | r in Image(n, k + 1, a)
      ensures r in b
    {
      var o :| o in a && r == Rep(n, k + 1, o);
      assert o != k ==> Rep(n, k, o) in Image(n, k, a);
    }
    forall r | r in b
      ensures r in Image(n, k + 1, a)
    {
      if r == Rep(n, k + 1, k) && k in a {
      } else {
        var o :| o in a && r == Rep(n, k, o);
        assert o != k;
        assert Rep(n, k + 1, o) == r;
      }
    }
    forall r | r in Image(n, k, a) - {k}
      ensures r in Image(n, k, a - {k})
    {
      var o :| o in a && r == Rep(n, k, o);
      assert o in a - {k};
    }
  }

  ghost predicate LosesObject(n: Nodes, k: nat, x: nat) {
    Doomed(n, k) && IsObject(n, k) && x in TrimmedBy(n, k, k)
  }

  lemma PtsStep(n: Nodes, k: nat, x: nat)
    requires WellKinded(n) && PointsMirror(n) && !IsGlobal(k) && x != k
    ensures TrimmedPts(n, k + 1, x)
         == if LosesObject(n, k, x) then TrimmedPts(n, k, x) - {k} + {GLOBAL_OBJ} else TrimmedPts(n, k, x)
  {
    FatesStep(n, k);
    ImageStep(n, k, Pts(n, x));
    assert TrimmedPts(n, k, x)
        == if Gone(n, k, x) then {} else if Frozen(n, k, x) then {GLOBAL_OBJ} else Image(n, k, Pts(n, x));
    assert TrimmedPts(n, k + 1, x)
        == if Gone(n, k, x) then {} else if Frozen(n, k, x) then {GLOBAL_OBJ} else Image(n, k + 1, Pts(n, x));
    assert x in By(n, k) <==> k in Pts(n, x);
    assert k in Pts(n, x) ==> IsObject(n, k);
    if k in Pts(n, x) && !Doomed(n, k) {
      assert Rep(n, k + 1, k) == k;
      assert k in Image(n, k, Pts(n, x));
      assert Image(n, k, Pts(n, x)) - {k} + {k} == Image(n, k, Pts(n, x));
    }
  }

  ghost function Open(n: Nodes, k: nat, x: nat): set<nat> {
    set w | w in Outs(n, x) && !Sealed(n, k, w)
  }

  lemma TrimmedOutsIsImage(n: Nodes, k: nat, x: nat)
    requires !Cut(n, k, x)
    ensures TrimmedOuts(n, k, x) == Image(n, k, Open(n, k, x))
  {
  }

  /** Where edges to `k` lead once it has been trimmed. */
  ghost function Redirected(n: Nodes, k: nat): set<nat> {
    if Doomed(n, k) then {Rep(n, k + 1, k)} else if Sealed(n, k + 1, k) then {} else {k}
  }

  lemma OutsStep(n: Nodes, k: nat, x: nat)
    requires EdgesMirror(n) && !IsGlobal(k) && x != k
    ensures TrimmedOuts(n, k + 1, x)
         == if x in TrimmedIns(n, k, k) then TrimmedOuts(n, k, x) - {k} + Redirected(n, k) else TrimmedOuts(n, k, x)
  {
    FatesStep(n, k);
    assert x in Ins(n, k) <==> k in Outs(n, x);
    if !Cut(n, k, x) {
      OutsStepUncut(n, k, x);
    }
  }

  lemma OutsStepUncut(n: Nodes, k: nat, x: nat)
    requires !IsGlobal(k) && x != k && !Cut(n, k, x)
    ensures TrimmedOuts(n, k + 1, x)
         == if k in Outs(n, x) then TrimmedOuts(n, k, x) - {k} + Redirected(n, k) else TrimmedOuts(n, k, x)
  {
    FatesStep(n, k);
    TrimmedOutsIsImage(n, k, x);
    TrimmedOutsIsImage(n, k + 1, x);
    var a := Open(n, k, x);
    ImageStep(n, k, a);
    assert k in a <==> k in Outs(n, x);
    if Sealed(n, k + 1, k) {
      assert Open(n, k + 1, x) == a - {k};
      ImageStep(n, k, a - {k});
    } else {
      assert Open(n, k + 1, x) == a;
      if k in a && !Doomed(n, k) {
        assert Rep(n, k + 1, k) == k;
      }
    }
  }

  lemma InsStep(n: Nodes, k: nat, x: nat)
    requires EdgesMirror(n) && WellKinded(n) && !IsGlobal(k) && x != k
    ensures TrimmedIns(n, k + 1, x) == if Cut(n, k + 1, k) then TrimmedIns(n, k, x) - {k} else TrimmedIns(n, k, x)
    ensures k in TrimmedIns(n, k, x) ==> x in TrimmedOuts(n, k, k) && !IsObject(n, k)
  {
    FatesStep(n, k);
    if k in TrimmedIns(n, k, x) {
      assert x in Outs(n, k);
      assert Rep(n, k, x) == x;
    }
    hide Rep, Doomed, Frozen;
  }

  lemma ByStep(n: Nodes, k: nat, x: nat)
    requires PointsMirror(n) && WellKinded(n) && !IsGlobal(k) && x != k
    ensures TrimmedBy(n, k + 1, x) == if Cut(n, k + 1, k) then TrimmedBy(n, k, x) - {k} else TrimmedBy(n, k, x)
    ensures k in TrimmedBy(n, k, x) ==> x in TrimmedPts(n, k, k) && !IsObject(n, k)
  {
    FatesStep(n, k);
    if k in TrimmedBy(n, k, x) {
      assert x in Pts(n, k);
      assert Rep(n, k, x) == x;
    }
    hide Rep, Doomed, Frozen;
  }

  lemma BelongsStep(n: Nodes, k: nat, x: nat)
    requires Owned(n) && x != k
    ensures TrimmedBelongs(n, k + 1, x)
         == if Doomed(n, k) && Lists(n, k, x) then TrimmedBelongs(n, k, x) - {k} else TrimmedBelongs(n, k, x)
  {
    FatesStep(n, k);
    hide Doomed, Gone;
    assert k in Belongs(n, x) ==> Lists(n, k, x);
  }

  /** The fields of an object. */
  function FieldSet(n: Nodes, x: nat): set<nat> {
    set f | f in Fields(n, x) :: Fields(n, x)[f]
  }

  lemma OwnerIsObject(n: Nodes, k: nat, x: nat)
    requires Owned(n)
    ensures Lists(n, k, x) ==> IsObject(n, k)
    ensures Lists(n, k, x) <==> x in FieldSet(n, k)
  {
    if Lists(n, k, x) {
      var f :| f in Fields(n, k) && Fields(n, k)[f] == x;
      assert Belongs(n, x) == {k};
    }
  }

  /** How another node changes when node `k` is trimmed. */
  lemma OtherStep(n: Nodes, k: nat, x: nat)
    requires Inv(n) && !IsGlobal(k) && x != k && x < |n| && k < |n|
    ensures var t, o := Trimmed(n, k), IsObject(n, k); |t| == |n| && TrimmedNode(n, k + 1, x) == t[x].(
      pointsTo := if o && Doomed(n, k) && x in By(t, k) then Pts(t, x) - {k} + {GLOBAL_OBJ} else Pts(t, x),
      outs := if x in Ins(t, k) then Outs(t, x) - {k} + Redirected(n, k) else Outs(t, x),
      ins := if Cut(n, k + 1, k) then Ins(t, x) - {k} else Ins(t, x),
      pointsBy := if Cut(n, k + 1, k) then By(t, x) - {k} else By(t, x),
      belongsTo := if o && Doomed(n, k) && x in FieldSet(t, k) then Belongs(t, x) - {k} else Belongs(t, x))
    ensures k in Ins(Trimmed(n, k), x) ==> x in Outs(Trimmed(n, k), k) && !IsObject(n, k)
    ensures k in By(Trimmed(n, k), x) ==> x in Pts(Trimmed(n, k), k) && !IsObject(n, k)
  {
    PtsStep(n, k, x);
    OutsStep(n, k, x);
    InsStep(n, k, x);
    ByStep(n, k, x);
    BelongsStep(n, k, x);
    OwnerIsObject(n, k, x);
    FatesStep(n, k);
    TrimmedReads(n, k, x);
    TrimmedReads(n, k, k);
    assert Trimmed(n, k)[x] == TrimmedNode(n, k, x);
    assert FieldSet(Trimmed(n, k), k) == FieldSet(n, k);
    hide Inv, Doomed, Cut, Lists, Trimmed, TrimmedPts, TrimmedOuts, TrimmedIns, TrimmedBy, TrimmedBelongs;
  }

  // ---------------------------------------------------------------------------------------------
  // What the loops over a node's neighbours do.
  // ---------------------------------------------------------------------------------------------

  ghost function Edited(n: Nodes, ids: set<nat>, edit: Node -> Node): Nodes {
    seq(|n|, (x: nat) requires x < |n| => if x in ids then edit(n[x]) else n[x])
  }

  function SwapPointsTo(k: nat, g: nat): Node -> Node {
    (x: Node) => x.(pointsTo := x.pointsTo - {k} + {g})
  }

  function SwapOut(k: nat, g: nat): Node -> Node {
    (x: Node) => x.(outs := x.outs - {k} + {g})
  }

  function EraseOut(k: nat): Node -> Node {
    (x: Node) => x.(outs := x.outs - {k})
  }

  function EraseIn(k: nat): Node -> Node {
    (x: Node) => x.(ins := x.ins - {k})
  }

  function ErasePointsBy(k: nat): Node -> Node {
    (x: Node) => x.(pointsBy := x.pointsBy - {k})
  }

  function EraseBelongs(k: nat): Node -> Node {
    (x: Node) => x.(belongsTo := x.belongsTo - {k})
  }

  ghost function ObjectReplaced(t: Nodes, k: nat): Nodes {
    var a := Edited(t, By(t, k), SwapPointsTo(k, GLOBAL_OBJ));
    var b := Edited(a, Ins(a, k), SwapOut(k, GLOBAL_OBJ));
    var c := Edited(b, FieldSet(b, k), EraseBelongs(k));
    if k < |c| then c[k := EMPTY_SLOT] else c
  }

  lemma ObjectReplacedNode(t: Nodes, k: nat, x: nat)
    requires k < |t| && x < |t| && x != k
    ensures |ObjectReplaced(t, k)| == |t| && ObjectReplaced(t, k)[k] == EMPTY_SLOT
    ensures ObjectReplaced(t, k)[x] == t[x].(
      pointsTo := if x in By(t, k) then Pts(t, x) - {k} + {GLOBAL_OBJ} else Pts(t, x),
      outs := if x in Ins(t, k) then Outs(t, x) - {k} + {GLOBAL_OBJ} else Outs(t, x),
      belongsTo := if x in FieldSet(t, k) then Belongs(t, x) - {k} else Belongs(t, x))
  {
    var a := Edited(t, By(t, k), SwapPointsTo(k, GLOBAL_OBJ));
    assert Ins(a, k) == Ins(t, k) && Fields(a, k) == Fields(t, k);
    var b := Edited(a, Ins(a, k), SwapOut(k, GLOBAL_OBJ));
    assert Fields(b, k) == Fields(t, k);
  }

  lemma ObjectTrimmed(n: Nodes, k: nat)
    requires Inv(n) && Doomed(n, k) && IsObject(n, k)
    ensures ObjectReplaced(Trimmed(n, k), k) == Trimmed(n, k + 1)
  {
    hide *;
    var t := Trimmed(n, k);
    SlotAtTurn(n, k);
    forall x: nat | x < |n|
      ensures |ObjectReplaced(t, k)| == |n| && ObjectReplaced(t, k)[x] == TrimmedNode(n, k + 1, x)
    {
      if x != k {
        ObjectTrimmedOther(n, k, x);
      } else {
        ObjectReplacedTurn(t, k);
      }
    }
    ObjectReplacedTurn(t, k);
    IsTrimmed(ObjectReplaced(t, k), n, k + 1);
  }

  lemma ObjectTrimmedOther(n: Nodes, k: nat, x: nat)
    requires Inv(n) && Doomed(n, k) && IsObject(n, k) && x < |n| && x != k && k < |n|
    ensures |Trimmed(n, k)| == |n| && |ObjectReplaced(Trimmed(n, k), k)| == |n|
    ensures ObjectReplaced(Trimmed(n, k), k)[x] == TrimmedNode(n, k + 1, x)
  {
    hide *;
    var t := Trimmed(n, k);
    SlotAtTurn(n, k);
    OtherStep(n, k, x);
    GoneAtTurn(n, k);
    ObjectReplacedNode(t, k, x);
    ReadsAt(t, x);
    assert Ins(t, x) - {k} == Ins(t, x) && By(t, x) - {k} == By(t, x);
  }

  /** Node `k` disappears in its turn. */
  lemma SlotAtTurn(n: Nodes, k: nat)
    requires Doomed(n, k)
    ensures k < |n| == |Trimmed(n, k)| && !IsGlobal(k) && TrimmedNode(n, k + 1, k) == EMPTY_SLOT
  {
  }

  lemma GoneAtTurn(n: Nodes, k: nat)
    requires Doomed(n, k)
    ensures Cut(n, k + 1, k) && Redirected(n, k) == {Rep(n, k + 1, k)}
    ensures IsObject(n, k) ==> Rep(n, k + 1, k) == GLOBAL_OBJ
    ensures Kind(n, k) == ReferenceNode ==> Rep(n, k + 1, k) == GLOBAL_REF && !IsObject(n, k)
  {
  }

  lemma IsTrimmed(s: Nodes, n: Nodes, k: nat)
    requires |s| == |n| && forall x: nat {:trigger TrimmedNode(n, k, x)} :: x < |n| ==> s[x] == TrimmedNode(n, k, x)
    ensures s == Trimmed(n, k)
  {
    hide TrimmedNode;
  }

  lemma ReadsAt(t: Nodes, x: nat)
    requires x < |t|
    ensures t[x].pointsTo == Pts(t, x) && t[x].pointsBy == By(t, x) && t[x].ins == Ins(t, x)
    ensures t[x].outs == Outs(t, x) && t[x].belongsTo == Belongs(t, x)
  {
  }

  lemma ObjectReplacedTurn(t: Nodes, k: nat)
    requires k < |t|
    ensures |ObjectReplaced(t, k)| == |t| && ObjectReplaced(t, k)[k] == EMPTY_SLOT
  {
  }

  ghost function RefReplaced(t: Nodes, k: nat): Nodes {
    var a := Edited(t, Ins(t, k), SwapOut(k, GLOBAL_REF));
    var b := Edited(a, Outs(a, k), EraseIn(k));
    var c := Edited(b, Pts(b, k), ErasePointsBy(k));
    if k < |c| then c[k := EMPTY_SLOT] else c
  }

  /** The `out` nodes of a reference once its own edges to itself have been redirected. */
  ghost function SwappedOuts(t: Nodes, k: nat): set<nat> {
    if k in Ins(t, k) then Outs(t, k) - {k} + {GLOBAL_REF} else Outs(t, k)
  }

  lemma RefReplacedNode(t: Nodes, k: nat, x: nat)
    requires k < |t| && x < |t| && x != k
    ensures |RefReplaced(t, k)| == |t| && RefReplaced(t, k)[k] == EMPTY_SLOT
    ensures RefReplaced(t, k)[x] == t[x].(
      outs := if x in Ins(t, k) then Outs(t, x) - {k} + {GLOBAL_REF} else Outs(t, x),
      ins := if x in SwappedOuts(t, k) then Ins(t, x) - {k} else Ins(t, x),
      pointsBy := if x in Pts(t, k) then By(t, x) - {k} else By(t, x))
  {
    var a := Edited(t, Ins(t, k), SwapOut(k, GLOBAL_REF));
    assert Outs(a, k) == SwappedOuts(t, k);
    var b := Edited(a, Outs(a, k), EraseIn(k));
    assert Pts(b, k) == Pts(t, k);
  }

  lemma RefTrimmedOther(n: Nodes, k: nat, x: nat)
    requires Inv(n) && Doomed(n, k) && Kind(n, k) == ReferenceNode && x < |n| && x != k && k < |n|
    ensures |Trimmed(n, k)| == |n| && |RefReplaced(Trimmed(n, k), k)| == |n|
    ensures RefReplaced(Trimmed(n, k), k)[x] == TrimmedNode(n, k + 1, x)
  {
    hide *;
    var t := Trimmed(n, k);
    SlotAtTurn(n, k);
    OtherStep(n, k, x);
    GoneAtTurn(n, k);
    RefReplacedNode(t, k, x);
    ReadsAt(t, x);
    if x in Outs(t, k) {
      SwappedOthers(t, k, x);
    }
    assert x !in SwappedOuts(t, k) ==> Ins(t, x) - {k} == Ins(t, x);
    assert x !in Pts(t, k) ==> By(t, x) - {k} == By(t, x);
  }

  lemma SwappedOthers(t: Nodes, k: nat, x: nat)
    requires x != k && x in Outs(t, k)
    ensures x in SwappedOuts(t, k)
  {
  }

  lemma RefTrimmed(n: Nodes, k: nat)
    requires Inv(n) && Doomed(n, k) && Kind(n, k) == ReferenceNode
    ensures RefReplaced(Trimmed(n, k), k) == Trimmed(n, k + 1)
  {
    var t := Trimmed(n, k);
    forall x: nat | x < |n|
      ensures |RefReplaced(t, k)| == |n| && RefReplaced(t, k)[x] == TrimmedNode(n, k + 1, x)
    {
      if x != k {
        RefTrimmedOther(n, k, x);
      } else {
        FatesStep(n, k);
      }
    }
  }

  ghost function ActualReplaced(t: Nodes, k: nat): Nodes
    requires k < |t|
  {
    var a := Edited(t, Ins(t, k), EraseOut(k));
    a[k := a[k].(ins := {})]
  }

  lemma ActualTrimmed(n: Nodes, k: nat)
    requires Inv(n) && !IsGlobal(k) && Kind(n, k) == ActualNode && Status(n, k) == GLOBAL_ESCAPE
    ensures ActualReplaced(Trimmed(n, k), k) == Trimmed(n, k + 1)
  {
    var t := Trimmed(n, k);
    forall x: nat | x < |n|
      ensures ActualReplaced(t, k)[x] == TrimmedNode(n, k + 1, x)
    {
      FatesStep(n, k);
      TrimmedReads(n, k, x);
      TrimmedReads(n, k, k);
      if x != k {
        OtherStep(n, k, x);
        hide *;
      } else {
        SealedNode(n, k);
      }
    }
  }

  /** What trimming makes of a globally escaping argument. */
  lemma SealedNode(n: Nodes, k: nat)
    requires Inv(n) && !IsGlobal(k) && Kind(n, k) == ActualNode && Status(n, k) == GLOBAL_ESCAPE
    ensures TrimmedNode(n, k + 1, k)
         == Trimmed(n, k)[k].(ins := {}, outs := if k in TrimmedIns(n, k, k) then TrimmedOuts(n, k, k) - {k}
                                                 else TrimmedOuts(n, k, k))
  {
    FatesStep(n, k);
    TrimmedReads(n, k, k);
    KeptPts(n, k);
    OutsStepUncut2(n, k);
    assert !Doomed(n, k) && Sealed(n, k + 1, k) && !Cut(n, k + 1, k);
    assert k in Ins(n, k) <==> k in Outs(n, k);
    assert TrimmedBy(n, k + 1, k) == TrimmedBy(n, k, k);
    assert TrimmedBelongs(n, k + 1, k) == TrimmedBelongs(n, k, k);
  }

  lemma KeptPts(n: Nodes, k: nat)
    requires WellKinded(n) && !IsGlobal(k) && Kind(n, k) == ActualNode
    ensures TrimmedPts(n, k + 1, k) == TrimmedPts(n, k, k)
  {
    FatesStep(n, k);
    ImageStep(n, k, Pts(n, k));
    assert k !in Pts(n, k);
    assert TrimmedPts(n, k, k) == Image(n, k, Pts(n, k));
    assert TrimmedPts(n, k + 1, k) == Image(n, k + 1, Pts(n, k));
  }

  lemma OutsStepUncut2(n: Nodes, k: nat)
    requires !IsGlobal(k) && Kind(n, k) == ActualNode && Status(n, k) == GLOBAL_ESCAPE
    ensures TrimmedOuts(n, k + 1, k) == if k in Outs(n, k) then TrimmedOuts(n, k, k) - {k} else TrimmedOuts(n, k, k)
  {
    FatesStep(n, k);
    TrimmedOutsIsImage(n, k, k);
    TrimmedOutsIsImage(n, k + 1, k);
    var a := Open(n, k, k);
    ImageStep(n, k, a);
    ImageStep(n, k, a - {k});
    assert Sealed(n, k + 1, k);
    assert Open(n, k + 1, k) == a - {k};
  }

  ghost function FieldCleared(t: Nodes, k: nat): Nodes
    requires k < |t|
  {
    var a := Edited(t, Pts(t, k), ErasePointsBy(k));
    var b := a[k := a[k].(pointsTo := {GLOBAL_OBJ})];
    var c := Edited(b, Outs(b, k), EraseIn(k));
    c[k := c[k].(outs := {GLOBAL_OBJ})]
  }

  /** The owners in `rest`, and those that do not escape globally. */
  ghost function StayingOwners(d: Nodes, owners: set<nat>, rest: set<nat>): set<nat> {
    set o | o in owners && (o in rest || Status(d, o) != GLOBAL_ESCAPE)
  }

  ghost function FieldReplaced(t: Nodes, k: nat): Nodes
    requires k < |t|
  {
    var d := FieldCleared(t, k);
    var e := d[k := d[k].(belongsTo := StayingOwners(d, Belongs(d, k), {}))];
    if Belongs(e, k) != {} then e
    else
      var f := Edited(e, Ins(e, k), SwapOut(k, GLOBAL_FIELD));
      f[k := EMPTY_SLOT]
  }

  lemma FieldClearedNode(t: Nodes, k: nat, x: nat)
    requires k < |t| && x < |t|
    ensures |FieldCleared(t, k)| == |t|
    ensures FieldCleared(t, k)[x] == t[x].(
      pointsTo := if x == k then {GLOBAL_OBJ} else Pts(t, x),
      outs := if x == k then {GLOBAL_OBJ} else Outs(t, x),
      pointsBy := if x in Pts(t, k) then By(t, x) - {k} else By(t, x),
      ins := if x in Outs(t, k) then Ins(t, x) - {k} else Ins(t, x))
  {
    var a := Edited(t, Pts(t, k), ErasePointsBy(k));
    var b := a[k := a[k].(pointsTo := {GLOBAL_OBJ})];
    assert Outs(b, k) == Outs(t, k);
  }

  /** Every owner of a field node that goes has gone before it. */
  lemma OwnersWentFirst(n: Nodes, k: nat)
    requires Inv(n) && !IsGlobal(k) && IsField(n, k) && Status(n, k) == GLOBAL_ESCAPE
    ensures Doomed(n, k) ==> TrimmedBelongs(n, k, k) == {}
    ensures !Doomed(n, k) ==> TrimmedBelongs(n, k, k) != {}
    ensures forall o :: o in TrimmedBelongs(n, k, k) ==> o < |n| && !Gone(n, k, o) && Status(n, o) != GLOBAL_ESCAPE
    ensures k !in TrimmedBelongs(n, k, k)
  {
    if !Doomed(n, k) {
      var o :| o in Belongs(n, k) && Status(n, o) != GLOBAL_ESCAPE;
      assert o in TrimmedBelongs(n, k, k);
    }
    forall o | o in Belongs(n, k)
      ensures o < k && IsObject(n, o) && (Status(n, o) == GLOBAL_ESCAPE ==> Gone(n, k, o))
    {
      assert Lists(n, o, k);
      var f :| f in Fields(n, o) && Fields(n, o)[f] == k;
      if IsGlobal(o) {
        assert Belongs(n, GLOBAL_FIELD) == {0} by {
          assert Fields(n, GLOBAL_OBJ)[ANY_FIELD] == GLOBAL_FIELD;
        }
        GlobalOwner(n, o, f);
      }
    }
  }

  /** A field of a global node is the global field. */
  lemma GlobalOwner(n: Nodes, o: nat, f: int)
    requires Inv(n) && IsGlobal(o) && f in Fields(n, o)
    ensures IsGlobal(Fields(n, o)[f])
  {
    assert Belongs(n, Fields(n, o)[f]) == {o};
    assert IsObject(n, o);
    assert o == GLOBAL_OBJ by {
      assert Pts(n, o) == {o};
    }
  }

  lemma FieldReplacedNode(t: Nodes, k: nat, x: nat)
    requires k < |t| && x < |t| && k !in Belongs(t, k)
    ensures |FieldReplaced(t, k)| == |t|
    ensures (forall o :: o in Belongs(t, k) ==> Status(t, o) != GLOBAL_ESCAPE) && Belongs(t, k) != {} ==>
              FieldReplaced(t, k)[x] == FieldCleared(t, k)[x]
    ensures Belongs(t, k) == {} && x == k ==> FieldReplaced(t, k)[x] == EMPTY_SLOT
    ensures Belongs(t, k) == {} && x != k && x !in Ins(t, k) ==> FieldReplaced(t, k)[x] == FieldCleared(t, k)[x]
    ensures Belongs(t, k) == {} && x != k && x in Ins(t, k) ==>
              var y := FieldCleared(t, k)[x]; FieldReplaced(t, k)[x] == y.(outs := y.outs - {k} + {GLOBAL_FIELD})
  {
    FieldClearedNode(t, k, x);
    FieldClearedNode(t, k, k);
    var d := FieldCleared(t, k);
    assert Belongs(d, k) == Belongs(t, k);
    forall o | o in Belongs(t, k)
      ensures Status(d, o) == Status(t, o)
    {
      if o < |t| {
        FieldClearedNode(t, k, o);
      }
    }
    hide FieldCleared;
    var b := StayingOwners(d, Belongs(d, k), {});
    assert (forall o :: o in Belongs(t, k) ==> Status(t, o) != GLOBAL_ESCAPE) ==> b == Belongs(d, k);
    var e := d[k := d[k].(belongsTo := b)];
    assert Ins(e, k) - {k} == Ins(t, k) - {k};
  }

  /** How trimming leaves a globally escaping field whose object stays. */
  lemma FrozenNode(n: Nodes, k: nat)
    requires Inv(n) && Frozen(n, k + 1, k)
    ensures TrimmedNode(n, k + 1, k) == FieldCleared(Trimmed(n, k), k)[k]
  {
    hide *;
    var t := Trimmed(n, k);
    FrozenReads(n, k);
    FrozenNeighbours(n, k);
    FieldClearedNode(t, k, k);
    assert k !in Outs(t, k) ==> Ins(t, k) - {k} == Ins(t, k);
    assert By(t, k) - {k} == By(t, k);
  }

  lemma FrozenReads(n: Nodes, k: nat)
    requires Frozen(n, k + 1, k)
    ensures var t := Trimmed(n, k);
      && k < |n| == |t| && TrimmedNode(n, k + 1, k) == t[k].(
        ins := TrimmedIns(n, k + 1, k), outs := {GLOBAL_OBJ}, pointsTo := {GLOBAL_OBJ},
        pointsBy := TrimmedBy(n, k + 1, k), belongsTo := TrimmedBelongs(n, k + 1, k))
      && t[k].belongsTo == TrimmedBelongs(n, k, k)
  {
    hide TrimmedIns, TrimmedOuts, TrimmedPts, TrimmedBy, TrimmedBelongs, Doomed;
    assert !Gone(n, k + 1, k) && !Gone(n, k, k);
    assert TrimmedOuts(n, k + 1, k) == {GLOBAL_OBJ} by {
      FrozenOuts(n, k);
    }
    FrozenOuts(n, k);
  }

  lemma FrozenOuts(n: Nodes, k: nat)
    requires Frozen(n, k + 1, k)
    ensures TrimmedOuts(n, k + 1, k) == {GLOBAL_OBJ} == TrimmedPts(n, k + 1, k)
  {
  }

  lemma FrozenNeighbours(n: Nodes, k: nat)
    requires Inv(n) && Frozen(n, k + 1, k)
    ensures var t := Trimmed(n, k);
      && TrimmedBelongs(n, k + 1, k) == TrimmedBelongs(n, k, k) && TrimmedBy(n, k + 1, k) == By(t, k) == {}
      && TrimmedIns(n, k + 1, k) == Ins(t, k) - {k} && (k in Ins(t, k) ==> k in Outs(t, k))
  {
    FatesStep(n, k);
    TrimmedReads(n, k, k);
    assert By(n, k) == {} by {
      assert forall v: nat :: v in By(n, k) ==> k in Pts(n, v) && IsObject(n, k);
    }
    BackEdge(n, k, k);
    hide Doomed, Inv;
  }

  lemma FieldTrimmedOther(n: Nodes, k: nat, x: nat)
    requires Inv(n) && !IsGlobal(k) && IsField(n, k) && Status(n, k) == GLOBAL_ESCAPE && x < |n| && x != k && k < |n|
    ensures |Trimmed(n, k)| == |n| && |FieldReplaced(Trimmed(n, k), k)| == |n|
    ensures FieldReplaced(Trimmed(n, k), k)[x] == TrimmedNode(n, k + 1, x)
  {
    hide *;
    var t := Trimmed(n, k);
    FieldOwners(n, k);
    FieldAtTurn(n, k);
    OtherStep(n, k, x);
    FieldReplacedNode(t, k, x);
    FieldClearedNode(t, k, x);
    ReadsAt(t, x);
    BackEdge(n, k, x);
    assert x !in Outs(t, k) ==> Ins(t, x) - {k} == Ins(t, x);
    assert x !in Pts(t, k) ==> By(t, x) - {k} == By(t, x);
    assert x in Ins(t, k) ==> Outs(t, x) - {k} + {k} == Outs(t, x);
  }

  lemma FieldAtTurn(n: Nodes, k: nat)
    requires !IsGlobal(k) && IsField(n, k) && Status(n, k) == GLOBAL_ESCAPE
    ensures !IsObject(n, k) && Cut(n, k + 1, k) && Redirected(n, k) == if Doomed(n, k) then {GLOBAL_FIELD} else {k}
  {
  }

  /** An edge of the trimmed graph back to the node whose turn it is. */
  lemma BackEdge(n: Nodes, k: nat, x: nat)
    requires Inv(n) && !IsGlobal(k) && x < |n| && k < |n|
    ensures x in Ins(Trimmed(n, k), k) ==> k in Outs(Trimmed(n, k), x)
  {
    TrimmedReads(n, k, k);
    TrimmedReads(n, k, x);
    FatesStep(n, k);
    if x in TrimmedIns(n, k, k) {
      assert k in Outs(n, x);
      assert Rep(n, k, k) in TrimmedOuts(n, k, x);
    }
  }

  lemma FieldTrimmed(n: Nodes, k: nat)
    requires Inv(n) && !IsGlobal(k) && IsField(n, k) && Status(n, k) == GLOBAL_ESCAPE
    ensures |Trimmed(n, k)| > k && FieldReplaced(Trimmed(n, k), k) == Trimmed(n, k + 1)
  {
    var t := Trimmed(n, k);
    FieldOwners(n, k);
    FieldReplacedNode(t, k, k);
    FatesStep(n, k);
    forall x: nat | x < |n|
      ensures FieldReplaced(t, k)[x] == TrimmedNode(n, k + 1, x)
    {
      if x != k {
        FieldTrimmedOther(n, k, x);
      } else if !Doomed(n, k) {
        FrozenNode(n, k);
      }
      hide Inv, Frozen, Doomed, FieldReplaced;
    }
  }

  /** The owners left when a field's turn comes do not escape globally. */
  lemma FieldOwners(n: Nodes, k: nat)
    requires Inv(n) && !IsGlobal(k) && IsField(n, k) && Status(n, k) == GLOBAL_ESCAPE
    ensures var t := Trimmed(n, k);
      && |t| == |n| && k < |n| && k !in Belongs(t, k)
      && (Doomed(n, k) ==> Belongs(t, k) == {})
      && (!Doomed(n, k) ==> Belongs(t, k) != {})
      && (forall o :: o in Belongs(t, k) ==> Status(t, o) != GLOBAL_ESCAPE)
  {
    OwnersWentFirst(n, k);
    TrimmedReads(n, k, k);
    forall o | o in Belongs(Trimmed(n, k), k)
      ensures Status(Trimmed(n, k), o) != GLOBAL_ESCAPE
    {
      TrimmedReads(n, k, o);
    }
  }

  // ---------------------------------------------------------------------------------------------
  // What the replacing of one node relies on.
  // ---------------------------------------------------------------------------------------------

  ghost predicate Inside(n: Nodes, a: set<nat>) {
    forall x :: x in a ==> x < |n|
  }

  /** The neighbours of the node whose turn it is are nodes of the graph. */
  lemma NeighboursInside(n: Nodes, k: nat)
    requires Inv(n)
    ensures var t := Trimmed(n, k);
      |t| == |n| && Inside(t, By(t, k)) && Inside(t, Ins(t, k)) && Inside(t, Outs(t, k)) && Inside(t, Pts(t, k))
      && Inside(t, FieldSet(t, k))
  {
    TrimmedReads(n, k, k);
    assert forall v: nat :: v in By(n, k) ==> k in Pts(n, v) && v < |n|;
    forall w: nat | w in Outs(n, k)
      ensures Rep(n, k, w) < |n|
    {
    }
    forall o: nat | o in Pts(n, k)
      ensures Rep(n, k, o) < |n|
    {
    }
    forall x | x in FieldSet(n, k)
      ensures x < |n|
    {
      var f :| f in Fields(n, k) && Fields(n, k)[f] == x;
      assert IsField(n, x);
    }
  }

  /** Nothing but a field node has objects it belongs to, and only objects have fields or no `out` nodes. */
  lemma TurnOf(n: Nodes, k: nat)
    requires Inv(n) && k < |n|
    ensures var t := Trimmed(n, k);
      |t| == |n| && Kind(t, k) == Kind(n, k) && Status(t, k) == Status(n, k) && (IsObject(n, k) ==> Outs(t, k) == {})
      && (forall v :: v in Ins(t, k) ==> !IsObject(t, v) && (!IsGlobal(k) ==> !IsGlobal(v)))
  {
    TrimmedReads(n, k, k);
    FatesStep(n, k);
    forall v | v in Ins(Trimmed(n, k), k)
      ensures !IsObject(Trimmed(n, k), v) && (!IsGlobal(k) ==> !IsGlobal(v))
    {
      assert v in Ins(n, k) && k in Outs(n, v);
      TrimmedReads(n, k, v);
    }
  }

  lemma OwnersInside(n: Nodes, k: nat)
    requires Inv(n) && k < |n|
    ensures Inside(Trimmed(n, k), Belongs(Trimmed(n, k), k))
  {
    TrimmedReads(n, k, k);
    assert forall o: nat :: o in Belongs(n, k) ==> IsObject(n, o);
  }
}
