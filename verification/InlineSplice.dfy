/** Putting the new body in place of the call, wherever the call stands, does not change what the caller does. */
module InlineSplice {
  import opened InlineIR
  import opened InlineRewrite
  import opened InlineRuns
  import opened InlineCall

  lemma ExecThree(env: Env, deep: bool, a: seq<Stmt>, b: seq<Stmt>, c: seq<Stmt>, st: State)
    ensures Exec(env, deep, a + b + c, st) == Exec(env, deep, c, Exec(env, deep, b, Exec(env, deep, a, st)))
    ensures Labels(a + b + c) == Labels(a) + Labels(b) + Labels(c)
  {
    ExecConcat(env, deep, a + b, c, st);
    ExecConcat(env, deep, a, b, st);
    LabelsConcat(a + b, c);
    LabelsConcat(a, b);
  }

  /** The outcome of all passes depends on that of the first only. */
  lemma DriveAfter(env: Env, deep: bool, ss: seq<Stmt>, s: State, t: State)
    requires Exec(env, deep, ss, s) == Exec(env, deep, ss, t)
    ensures Drive(env, deep, ss, s) == Drive(env, deep, ss, t)
  {
  }

  /** Whether a run comes into a block. */
  predicate Enters(n: seq<Stmt>, x: State) {
    x.mode == Run || (x.mode.Seek? && x.mode.l in Labels(n))
  }

  /** A state that looks for a label of `n`. */
  predicate Within(n: seq<Stmt>, x: State) {
    x.mode.Seek? && x.mode.l in Labels(n)
  }

  lemma BlockStep(env: Env, deep: bool, n: seq<Stmt>, x: State)
    ensures Step(env, deep, Block(n), x) == if Enters(n, x) then Drive(env, deep, n, x) else x
    ensures !Enters(n, x) ==> Exec(env, deep, n, x) == x
  {
    if !Enters(n, x) {
      ExecDone(env, deep, n, x);
    }
  }

  /** One pass over the list without and with the block. */
  lemma BothPasses(env: Env, deep: bool, a: seq<Stmt>, n: seq<Stmt>, c: seq<Stmt>, st: State)
    ensures var x := Exec(env, deep, a, st);
      && Exec(env, deep, a + n + c, st) == Exec(env, deep, c, Exec(env, deep, n, x))
      && Exec(env, deep, a + [Block(n)] + c, st)
      == Exec(env, deep, c, if Enters(n, x) then Drive(env, deep, n, x) else x)
      && (!Enters(n, x) ==> Exec(env, deep, n, x) == x) && x.fuel <= st.fuel
    ensures Labels(a + n + c) == Labels(a + [Block(n)] + c) == Labels(a) + Labels(n) + Labels(c)
  {
    hide Labels, Exec, Step, Drive, Enters;
    var x := Exec(env, deep, a, st);
    ExecThree(env, deep, a, n, c, st);
    ExecThree(env, deep, a, [Block(n)], c, st);
    ExecOne(env, deep, Block(n), x);
    BlockStep(env, deep, n, x);
    BlockLabels(n);
  }

  lemma BlockLabels(n: seq<Stmt>)
    ensures Labels([Block(n)]) == Labels(n)
  {
    assert [Block(n)][1..] == [];
  }

  /** A block may be dissolved into the list it stands in, if its labels are its own. */
  lemma {:induction false} Splice(env: Env, deep: bool, a: seq<Stmt>, n: seq<Stmt>, c: seq<Stmt>, st: State)
    requires Labels(n) !! Labels(a) + Labels(c)
    ensures Drive(env, deep, a + n + c, st) == Drive(env, deep, a + [Block(n)] + c, st)
    decreases st.fuel
  {
    hide Labels, Exec, Drive, Enters, Within;
    var x := Exec(env, deep, a, st);
    var z := Exec(env, deep, n, x);
    if Enters(n, x) && Within(n, z) {
      SpliceAgain(env, deep, a, n, c, st);
    } else {
      SpliceOnce(env, deep, a, n, c, st);
    }
  }

  /** The block is left by a jump to one of its labels: it is passed over again, and so is the list without it. */
  lemma {:induction false} SpliceAgain(env: Env, deep: bool, a: seq<Stmt>, n: seq<Stmt>, c: seq<Stmt>, st: State)
    requires Labels(n) !! Labels(a) + Labels(c)
    requires var x := Exec(env, deep, a, st); Enters(n, x) && Within(n, Exec(env, deep, n, x))
    ensures Drive(env, deep, a + n + c, st) == Drive(env, deep, a + [Block(n)] + c, st)
    decreases st.fuel, 0
  {
    hide Labels, Exec, Drive, Enters;
    var x := Exec(env, deep, a, st);
    var z := Exec(env, deep, n, x);
    BothPasses(env, deep, a, n, c, st);
    DriveOnce(env, deep, n, x);
    ExecDone(env, deep, c, z);
    DriveOnce(env, deep, a + n + c, st);
    if z.fuel == 0 {
      ExecDone(env, deep, c, z.(mode := Out));
      DriveOnce(env, deep, a + [Block(n)] + c, st);
    } else {
      var z1 := z.(fuel := z.fuel - 1);
      ExecDone(env, deep, a, z1);
      EntersAgain(n, z1);
      BothPasses(env, deep, a, n, c, z1);
      DriveAfter(env, deep, a + [Block(n)] + c, st, z1);
      Splice(env, deep, a, n, c, z1);
    }
  }

  lemma EntersAgain(n: seq<Stmt>, x: State)
    requires Within(n, x)
    ensures Enters(n, x)
  {
  }

  lemma {:induction false} SpliceOnce(env: Env, deep: bool, a: seq<Stmt>, n: seq<Stmt>, c: seq<Stmt>, st: State)
    requires Labels(n) !! Labels(a) + Labels(c)
    requires var x := Exec(env, deep, a, st); !(Enters(n, x) && Within(n, Exec(env, deep, n, x)))
    ensures Drive(env, deep, a + n + c, st) == Drive(env, deep, a + [Block(n)] + c, st)
    decreases st.fuel, 0
  {
    hide Labels, Exec, Drive, Enters;
    var x := Exec(env, deep, a, st);
    BothPasses(env, deep, a, n, c, st);
    DriveOnce(env, deep, n, x);
    DriveOnce(env, deep, a + n + c, st);
    DriveOnce(env, deep, a + [Block(n)] + c, st);
    var r := Exec(env, deep, a + n + c, st);
    assert r == Exec(env, deep, a + [Block(n)] + c, st);
    if r.mode.Seek? && r.mode.l in Labels(a + n + c) && r.fuel > 0 {
      Splice(env, deep, a, n, c, r.(fuel := r.fuel - 1));
    }
  }

  // ---------------------------------------------------------------------------------------------
  // Replacing a part by one that runs alike.
  // ---------------------------------------------------------------------------------------------

  /** A state of the caller: it only ever looks for one of its own labels, which are below `k`. */
  predicate Good(st: State, n: nat, k: nat) {
    |st.loc| == n && (st.mode.Seek? ==> st.mode.l < k)
  }

  ghost predicate AlikeOnce(env: Env, p: seq<Stmt>, q: seq<Stmt>, n: nat, k: nat) {
    forall st: State {:trigger Exec(env, true, p, st)} ::
      Good(st, n, k) ==> Exec(env, true, p, st) == Exec(env, true, q, st)
  }

  ghost predicate Alike(env: Env, p: seq<Stmt>, q: seq<Stmt>, n: nat, k: nat) {
    forall st: State {:trigger Drive(env, true, p, st)} ::
      Good(st, n, k) ==> Drive(env, true, p, st) == Drive(env, true, q, st)
  }

  predicate SameLabels(p: seq<Stmt>, q: seq<Stmt>, k: nat) {
    (forall l {:trigger l in Labels(p)} :: l in Labels(p) && l < k ==> l in Labels(q))
    && (forall l {:trigger l in Labels(q)} :: l in Labels(q) && l < k ==> l in Labels(p))
  }

  predicate Below(ts: set<nat>, k: nat) {
    forall l :: l in ts ==> l < k
  }

  lemma ExecStaysGood(env: Env, ss: seq<Stmt>, st: State, n: nat, k: nat)
    requires Good(st, n, k) && Below(Targets(ss), k)
    ensures Good(Exec(env, true, ss, st), n, k)
  {
    ExecJumps(env, true, ss, st);
  }

  lemma DriveStaysGood(env: Env, ss: seq<Stmt>, st: State, n: nat, k: nat)
    requires Good(st, n, k) && Below(Targets(ss), k)
    ensures Good(Drive(env, true, ss, st), n, k)
  {
    DriveJumps(env, true, ss, st);
  }

  /** Parts that run alike may be exchanged within a list. */
  lemma {:induction false} Exchange(env: Env, a: seq<Stmt>, p: seq<Stmt>, q: seq<Stmt>, c: seq<Stmt>, n: nat, k: nat,
                                    st: State)
    requires AlikeOnce(env, p, q, n, k) && SameLabels(p, q, k) && Good(st, n, k)
    requires Below(Targets(a), k) && Below(Targets(q), k) && Below(Targets(c), k)
    ensures Drive(env, true, a + p + c, st) == Drive(env, true, a + q + c, st)
    decreases st.fuel
  {
    ExecThree(env, true, a, p, c, st);
    ExecThree(env, true, a, q, c, st);
    var x := Exec(env, true, a, st);
    ExecStaysGood(env, a, st, n, k);
    assert Exec(env, true, p, x) == Exec(env, true, q, x);
    ExecStaysGood(env, q, x, n, k);
    ExecStaysGood(env, c, Exec(env, true, q, x), n, k);
    var r := Exec(env, true, a + q + c, st);
    if r.mode.Seek? && r.mode.l in Labels(a + q + c) && r.fuel > 0 {
      Exchange(env, a, p, q, c, n, k, r.(fuel := r.fuel - 1));
    }
  }

  lemma AlikeAt(env: Env, p: seq<Stmt>, q: seq<Stmt>, n: nat, k: nat, st: State)
    requires Alike(env, p, q, n, k) && Good(st, n, k)
    ensures Drive(env, true, p, st) == Drive(env, true, q, st)
  {
  }

  lemma SameLabelsVia(p: seq<Stmt>, p': seq<Stmt>, q: seq<Stmt>, k: nat)
    requires Labels(p) == Labels(p') && SameLabels(p', q, k)
    ensures SameLabels(p, q, k)
  {
  }

  lemma ExchangeAll(env: Env, a: seq<Stmt>, p: seq<Stmt>, q: seq<Stmt>, c: seq<Stmt>, n: nat, k: nat)
    requires AlikeOnce(env, p, q, n, k) && SameLabels(p, q, k)
    requires Below(Targets(a), k) && Below(Targets(q), k) && Below(Targets(c), k)
    ensures Alike(env, a + p + c, a + q + c, n, k) && SameLabels(a + p + c, a + q + c, k)
  {
    LabelsConcat(a + p, c);
    LabelsConcat(a, p);
    LabelsConcat(a + q, c);
    LabelsConcat(a, q);
    hide Labels;
    forall st: State | Good(st, n, k)
      ensures Drive(env, true, a + p + c, st) == Drive(env, true, a + q + c, st)
    {
      Exchange(env, a, p, q, c, n, k, st);
    }
  }
}
