/** The body that is put in place of a call: superfluous jumps and labels at its end are removed. */
module InlineBody {
  import opened Wrappers
  import opened InlineIR
  import opened InlineRewrite
  import opened InlineRuns
  import opened InlineCall

  // ---------------------------------------------------------------------------------------------
  // The jump that is remembered, and how many there are.
  // ---------------------------------------------------------------------------------------------

  lemma {:induction false} UpdateLength(ss: seq<Stmt>, ret: nat, res: seq<Var>)
    ensures |UpdateReturns(ss, ret, res)| == |UpdateReturns(ss, 0, res)|
  {
    if ss != [] {
      UpdateLength(ss[1..], ret, res);
    }
  }

  /** An index that is remembered is that of a jump to the return label. */
  lemma {:induction false} RememberedIsGoto(ss: seq<Stmt>, g: LastGoto, start: nat, ret: nat, res: seq<Var>, i: nat)
    requires Remembered(ss, g, start, res) == At(i)
    ensures g == At(i) || (start <= i < start + |UpdateReturns(ss, ret, res)|
                           && UpdateReturns(ss, ret, res)[i - start] == Goto(ret))
  {
    if ss != [] {
      var first := UpdateReturnsOf(ss[0], ret, res);
      var len := start + |UpdateReturnsOf(ss[0], 0, res)|;
      assert |first| == |UpdateReturnsOf(ss[0], 0, res)|;
      RememberedIsGoto(ss[1..], AfterStmt(ss[0], g, len, res), len, ret, res, i);
    }
  }

  /** How many jumps lead to `l`. */
  function Gotos(ss: seq<Stmt>, l: nat): nat {
    if ss == [] then 0 else GotosOf(ss[0], l) + Gotos(ss[1..], l)
  }

  function GotosOf(s: Stmt, l: nat): nat {
    match s
    case If(_, t, h, e) => Gotos(t, l) + (if h then Gotos(e, l) else 0)
    case While(_, b) => Gotos(b, l)
    case DoWhile(b, _) => Gotos(b, l)
    case Block(b) => Gotos(b, l)
    case Goto(m) => if m == l then 1 else 0
    case CondGoto(m, _) => if m == l then 1 else 0
    case _ => 0
  }

  lemma {:induction false} GotosConcat(a: seq<Stmt>, b: seq<Stmt>, l: nat)
    ensures Gotos(a + b, l) == Gotos(a, l) + Gotos(b, l)
  {
    if a == [] {
      assert a + b == b;
    } else {
      assert (a + b)[1..] == a[1..] + b;
      GotosConcat(a[1..], b, l);
    }
  }

  lemma {:induction false} GotosAreTargets(ss: seq<Stmt>, l: nat)
    ensures l in Targets(ss) <==> Gotos(ss, l) > 0
  {
    if ss != [] {
      GotosAreTargetsOf(ss[0], l);
      GotosAreTargets(ss[1..], l);
    }
  }

  lemma {:induction false} GotosAreTargetsOf(s: Stmt, l: nat)
    ensures l in TargetsOf(s) <==> GotosOf(s, l) > 0
  {
    match s
    case If(_, t, h, e) =>
      GotosAreTargets(t, l);
      GotosAreTargets(e, l);
    case While(_, b) => GotosAreTargets(b, l);
    case DoWhile(b, _) => GotosAreTargets(b, l);
    case Block(b) => GotosAreTargets(b, l);
    case _ =>
  }

  /** As many jumps lead to the return label as the callee had returns. */
  lemma {:induction false} InlinedGotos(ss: seq<Stmt>, at: Site, n: nat, m: nat, value: bool)
    requires Fits(ss, n, m, value) && (at.ret <= at.labIdxOff || at.ret >= at.labIdxOff + m)
    ensures Gotos(Inlined(ss, at), at.ret) == Returns(ss)
  {
    if ss != [] {
      InlinedGotosOf(ss[0], at, n, m, value);
      InlinedGotos(ss[1..], at, n, m, value);
      GotosConcat(InlinedOf(ss[0], at), Inlined(ss[1..], at), at.ret);
    }
  }

  lemma {:induction false} InlinedGotosOf(s: Stmt, at: Site, n: nat, m: nat, value: bool)
    requires FitsStmt(s, n, m, value) && (at.ret <= at.labIdxOff || at.ret >= at.labIdxOff + m)
    ensures Gotos(InlinedOf(s, at), at.ret) == ReturnsOf(s)
  {
    if !s.Return? {
      assert InlinedOf(s, at)[1..] == [];
    }
    match s
    case If(_, t, h, e) =>
      InlinedGotos(t, at, n, m, value);
      if h {
        InlinedGotos(e, at, n, m, value);
      }
    case While(_, b) => InlinedGotos(b, at, n, m, value);
    case DoWhile(b, _) => InlinedGotos(b, at, n, m, value);
    case Return(vals) =>
      var r := ReturnStmts(MoveExprs(vals, at.stIdxOff), at.ret, at.res);
      assert r[|r| - 1..] == [Goto(at.ret)];
      if |r| == 2 {
        assert r[1..] == [Goto(at.ret)];
      }
      assert Gotos([Goto(at.ret)], at.ret) == 1;
    case _ =>
  }

  // ---------------------------------------------------------------------------------------------
  // Bodies that run alike.
  // ---------------------------------------------------------------------------------------------

  /** With or without the return label at the end, and with or without a jump to it right before. */
  ghost predicate Variant(core: seq<Stmt>, n: seq<Stmt>, ret: nat) {
    || n == core
    || n == core + [Label(ret)]
    || (core != [] && core[|core| - 1] == Goto(ret)
        && (n == core[..|core| - 1] || n == core[..|core| - 1] + [Label(ret)]))
  }

  lemma LandsAtLabel(env: Env, d: bool, k: seq<Stmt>, ret: nat, st: State)
    ensures Exec(env, d, k + [Label(ret)], st) == Land(ret, Exec(env, d, k, st))
  {
    ExecConcat(env, d, k, [Label(ret)], st);
    ExecOne(env, d, Label(ret), Exec(env, d, k, st));
  }

  lemma LandsFromGoto(env: Env, d: bool, k: seq<Stmt>, ret: nat, st: State)
    ensures Land(ret, Exec(env, d, k + [Goto(ret)], st)) == Land(ret, Exec(env, d, k, st))
  {
    ExecConcat(env, d, k, [Goto(ret)], st);
    ExecOne(env, d, Goto(ret), Exec(env, d, k, st));
  }

  lemma VariantExec(env: Env, d: bool, core: seq<Stmt>, n: seq<Stmt>, ret: nat, st: State)
    requires Variant(core, n, ret)
    ensures Land(ret, Exec(env, d, n, st)) == Land(ret, Exec(env, d, core, st))
  {
    if n == core {
    } else if n == core + [Label(ret)] {
      LandsAtLabel(env, d, core, ret, st);
    } else {
      var k := core[..|core| - 1];
      assert core == k + [Goto(ret)];
      LandsFromGoto(env, d, k, ret, st);
      LandsAtLabel(env, d, k, ret, st);
    }
  }

  lemma LabelIsReached(env: Env, d: bool, n: seq<Stmt>, ret: nat, st: State)
    requires n != [] && n[|n| - 1] == Label(ret)
    ensures Exec(env, d, n, st).mode != Seek(ret)
  {
    assert n == n[..|n| - 1] + [Label(ret)];
    LandsAtLabel(env, d, n[..|n| - 1], ret, st);
  }

  lemma VariantLabels(core: seq<Stmt>, n: seq<Stmt>, ret: nat)
    requires Variant(core, n, ret)
    ensures forall l :: l != ret ==> (l in Labels(n) <==> l in Labels(core))
    ensures ret !in Labels(core) && ret in Labels(n) ==> n != [] && n[|n| - 1] == Label(ret)
  {
    LabelsConcat(core, [Label(ret)]);
    assert Labels([Label(ret)]) == {ret};
    if core != [] && core[|core| - 1] == Goto(ret) {
      var k := core[..|core| - 1];
      assert core == k + [Goto(ret)];
      LabelsConcat(k, [Goto(ret)]);
      LabelsConcat(k, [Label(ret)]);
      assert Labels([Goto(ret)]) == {};
    }
  }

  lemma {:induction false} VariantDrive(env: Env, d: bool, core: seq<Stmt>, n: seq<Stmt>, ret: nat, st: State)
    requires Variant(core, n, ret) && ret !in Labels(core)
    ensures Land(ret, Drive(env, d, n, st)) == Land(ret, Drive(env, d, core, st))
    decreases st.fuel
  {
    hide Variant, Drive, Exec, Labels;
    VariantExec(env, d, core, n, ret, st);
    VariantLabels(core, n, ret);
    DriveOnce(env, d, core, st);
    DriveOnce(env, d, n, st);
    var r := Exec(env, d, core, st);
    var t := Exec(env, d, n, st);
    if ret in Labels(n) {
      LabelIsReached(env, d, n, ret, st);
    }
    if r.mode.Seek? && r.mode.l != ret {
      assert t == r;
      if r.mode.l in Labels(core) && r.fuel > 0 {
        VariantDrive(env, d, core, n, ret, r.(fuel := r.fuel - 1));
      }
    }
  }

  /** A body with the return label at its end, or without jumps to it, is left with the label reached. */
  lemma {:induction false} EndsLanded(env: Env, d: bool, core: seq<Stmt>, n: seq<Stmt>, ret: nat, st: State)
    requires Variant(core, n, ret) && ret !in Labels(core) && st.mode != Seek(ret)
    requires (n != [] && n[|n| - 1] == Label(ret)) || ret !in Targets(n)
    ensures Drive(env, d, n, st).mode != Seek(ret)
    decreases st.fuel
  {
    if ret !in Targets(n) {
      DriveJumps(env, d, n, st);
    } else {
      LabelIsReached(env, d, n, ret, st);
      var t := Exec(env, d, n, st);
      if t.mode.Seek? && t.mode.l in Labels(n) && t.fuel > 0 {
        EndsLanded(env, d, core, n, ret, t.(fuel := t.fuel - 1));
      }
    }
  }

  // ---------------------------------------------------------------------------------------------
  // The new body.
  // ---------------------------------------------------------------------------------------------

  /** The copied body with symbols and labels moved and the arguments bound; with a return label of its own at the
      end, unless the statement behind the call is a label. */
  ghost function RawBody(f: Function, args: seq<Expr>, at: Site, ownLabel: bool): seq<Stmt> {
    Bindings(f.formals, args, at.stIdxOff) + ReplaceLabels(ReplaceSymbols(f.body, at.stIdxOff), at.labIdxOff)
    + (if ownLabel then [Label(at.ret)] else [])
  }

  /** Removes a jump to the very next statement, and the label nobody jumps to. `None`: there are returns, but no
      jump is remembered, and the inliner gives up. */
  ghost function Cleaned(upd: seq<Stmt>, count: nat, last: LastGoto, ownLabel: bool): Option<seq<Stmt>>
    requires ownLabel ==> upd != []
  {
    if ownLabel && count == 0 then Some(upd[..|upd| - 1])
    else if count > 0 && last == Nowhere then None
    else if ownLabel && |upd| > 1 && last == At(|upd| - 2) then
      Some(upd[..|upd| - 2] + (if count == 1 then [] else [upd[|upd| - 1]]))
    else if !ownLabel && count > 0 && |upd| > 0 && last == At(|upd| - 1) then Some(upd[..|upd| - 1])
    else Some(upd)
  }

  ghost function NewBody(f: Function, args: seq<Expr>, at: Site, ownLabel: bool): Option<seq<Stmt>> {
    var raw := RawBody(f, args, at, ownLabel);
    var upd := UpdateReturns(raw, at.ret, at.res);
    if ownLabel && upd == [] then None
    else Cleaned(upd, Returns(raw), Remembered(raw, Nowhere, 0, at.res), ownLabel)
  }

  lemma {:induction false} MovedReturns(ss: seq<Stmt>, at: Site)
    ensures Returns(ReplaceLabels(ReplaceSymbols(ss, at.stIdxOff), at.labIdxOff)) == Returns(ss)
  {
    if ss != [] {
      MovedReturnsOf(ss[0], at);
      MovedReturns(ss[1..], at);
    }
  }

  lemma {:induction false} MovedReturnsOf(s: Stmt, at: Site)
    ensures ReturnsOf(ReplaceLabelsOf(ReplaceSymbolsOf(s, at.stIdxOff), at.labIdxOff)) == ReturnsOf(s)
  {
    match s
    case If(_, t, h, e) =>
      MovedReturns(t, at);
      MovedReturns(e, at);
    case While(_, b) => MovedReturns(b, at);
    case DoWhile(b, _) => MovedReturns(b, at);
    case _ =>
  }

  lemma UpdatedIsCore(f: Function, args: seq<Expr>, at: Site, ownLabel: bool)
    ensures UpdateReturns(RawBody(f, args, at, ownLabel), at.ret, at.res)
         == Core(f, args, at) + (if ownLabel then [Label(at.ret)] else [])
    ensures Returns(RawBody(f, args, at, ownLabel)) == Returns(f.body)
  {
    var b := Bindings(f.formals, args, at.stIdxOff);
    var c := ReplaceLabels(ReplaceSymbols(f.body, at.stIdxOff), at.labIdxOff);
    var e := if ownLabel then [Label(at.ret)] else [];
    BindingsAreQuiet(f.formals, args, at.stIdxOff);
    ThreePasses(f.body, at);
    MovedReturns(f.body, at);
    UpdateConcat(b, c, at.ret, at.res);
    UpdateConcat(b + c, e, at.ret, at.res);
    ReturnsConcat(b, c);
    ReturnsConcat(b + c, e);
    assert UpdateReturns(e, at.ret, at.res) == e && Returns(e) == 0;
  }

  lemma CleanedIsVariant(core: seq<Stmt>, upd: seq<Stmt>, count: nat, last: LastGoto, ownLabel: bool, ret: nat)
    requires upd == core + (if ownLabel then [Label(ret)] else []) && count == Gotos(core, ret)
    requires last.At? ==> last.i < |upd| && upd[last.i] == Goto(ret)
    requires Cleaned(upd, count, last, ownLabel).Some?
    ensures var n := Cleaned(upd, count, last, ownLabel).value;
      Variant(core, n, ret) && (ownLabel ==> (n != [] && n[|n| - 1] == Label(ret)) || ret !in Targets(n))
  {
    GotosAreTargets(core, ret);
    if ownLabel && count > 0 && |upd| > 1 && last == At(|upd| - 2) {
      var k := core[..|core| - 1];
      assert core == k + [Goto(ret)] && upd[..|upd| - 2] == k;
      OneGotoLess(k, ret);
    }
  }

  /** Whatever is removed, the new body is a variant of the rewritten one, and one that ends at its own label when it
      has one. */
  lemma NewBodyIsVariant(f: Function, args: seq<Expr>, at: Site, ownLabel: bool)
    requires CallOk(f, args, at) && NewBody(f, args, at, ownLabel).Some?
    ensures var n := NewBody(f, args, at, ownLabel).value;
      Variant(Core(f, args, at), n, at.ret)
      && (ownLabel ==> (n != [] && n[|n| - 1] == Label(at.ret)) || at.ret !in Targets(n))
  {
    var raw := RawBody(f, args, at, ownLabel);
    var last := Remembered(raw, Nowhere, 0, at.res);
    UpdatedIsCore(f, args, at, ownLabel);
    CoreGotos(f, args, at);
    if last.At? {
      RememberedIsGoto(raw, Nowhere, 0, at.ret, at.res, last.i);
    }
    hide Core, RawBody, UpdateReturns, Remembered, Gotos, Labels, CallOk, Cleaned, Variant, Targets, Returns;
    CleanedIsVariant(Core(f, args, at), UpdateReturns(raw, at.ret, at.res), Returns(raw), last, ownLabel, at.ret);
  }

  lemma OneGotoLess(k: seq<Stmt>, ret: nat)
    ensures ret in Targets(k) <==> Gotos(k + [Goto(ret)], ret) > 1
  {
    GotosConcat(k, [Goto(ret)], ret);
    GotosAreTargets(k, ret);
    assert Gotos([Goto(ret)], ret) == 1;
  }

  lemma CoreGotos(f: Function, args: seq<Expr>, at: Site)
    requires CallOk(f, args, at)
    ensures Gotos(Core(f, args, at), at.ret) == Returns(f.body)
  {
    var b := Bindings(f.formals, args, at.stIdxOff);
    BindingsAreQuiet(f.formals, args, at.stIdxOff);
    GotosAreTargets(b, at.ret);
    GotosConcat(b, Inlined(f.body, at), at.ret);
    InlinedGotos(f.body, at, f.symbols, f.labels, |at.res| == 1);
  }

  /** The new body, run where the call stood, does what the call does: with a return label of its own it ends there,
      and otherwise it ends there or looking for the label behind the call. */
  lemma NewBodyIsCall(env: Env, args: seq<Expr>, at: Site, ownLabel: bool, st: State)
    requires CallOk(env.callee, args, at) && env.stIdxOff == at.stIdxOff && env.frames == Kept && st.mode == Run
    requires |st.loc| == at.stIdxOff + env.callee.symbols && NewBody(env.callee, args, at, ownLabel).Some?
    ensures var r := Drive(env, true, NewBody(env.callee, args, at, ownLabel).value, st);
      Land(at.ret, r) == CallStep(env, Call(args, at.res), st)
      && (ownLabel ==> r == CallStep(env, Call(args, at.res), st))
  {
    var f := env.callee;
    var n := NewBody(f, args, at, ownLabel).value;
    NewBodyIsVariant(f, args, at, ownLabel);
    CoreLabels(f, args, at, at.ret);
    VariantDrive(env, true, Core(f, args, at), n, at.ret, st);
    CoreIsCall(env, args, at, st);
    if ownLabel {
      EndsLanded(env, true, Core(f, args, at), n, at.ret, st);
    }
  }

  // ---------------------------------------------------------------------------------------------
  // When the inliner gives up.
  // ---------------------------------------------------------------------------------------------

  /** The last statement that returns or is structured returns, or ends, by its last part, with one that does. */
  predicate EndsReturning(ss: seq<Stmt>)
    decreases ss
  {
    ss != []
    && match ss[|ss| - 1]
       case Return(_) => true
       case If(_, t, h, e) => EndsReturning(if h then e else t)
       case While(_, b) => EndsReturning(b)
       case DoWhile(b, _) => EndsReturning(b)
       case _ => EndsReturning(ss[..|ss| - 1])
  }

  lemma {:induction false} RememberedConcat(a: seq<Stmt>, b: seq<Stmt>, g: LastGoto, start: nat, res: seq<Var>)
    ensures Remembered(a + b, g, start, res)
         == Remembered(b, Remembered(a, g, start, res), start + |UpdateReturns(a, 0, res)|, res)
    decreases |a|
  {
    if a == [] {
      assert a + b == b;
    } else {
      var len := start + |UpdateReturnsOf(a[0], 0, res)|;
      assert (a + b)[1..] == a[1..] + b;
      RememberedConcat(a[1..], b, AfterStmt(a[0], g, len, res), len, res);
    }
  }

  lemma RememberedSnoc(ss: seq<Stmt>, g: LastGoto, start: nat, res: seq<Var>)
    requires ss != []
    ensures var k, s := ss[..|ss| - 1], ss[|ss| - 1]; var len := start + |UpdateReturns(ss, 0, res)|;
      len > 0 && Remembered(ss, g, start, res) == AfterStmt(s, Remembered(k, g, start, res), len, res)
  {
    var k, s := ss[..|ss| - 1], ss[|ss| - 1];
    assert ss == k + [s];
    RememberedConcat(k, [s], g, start, res);
    UpdateConcat(k, [s], 0, res);
    assert [s][1..] == [];
    assert UpdateReturns([s], 0, res) == UpdateReturnsOf(s, 0, res);
  }

  lemma {:induction false} EndsReturningIsRemembered(ss: seq<Stmt>, start: nat, res: seq<Var>)
    ensures Remembered(ss, Nowhere, start, res) != Nowhere <==> EndsReturning(ss)
    decreases ss
  {
    if ss != [] {
      RememberedSnoc(ss, Nowhere, start, res);
      match ss[|ss| - 1]
      case Return(_) =>
      case If(_, t, h, e) => EndsReturningIsRemembered(if h then e else t, 0, res);
      case While(_, b) => EndsReturningIsRemembered(b, 0, res);
      case DoWhile(b, _) => EndsReturningIsRemembered(b, 0, res);
      case _ => EndsReturningIsRemembered(ss[..|ss| - 1], start, res);
    }
  }

  lemma {:induction false} MovedConcat(a: seq<Stmt>, b: seq<Stmt>, st: nat, lab: nat)
    ensures ReplaceLabels(ReplaceSymbols(a + b, st), lab)
         == ReplaceLabels(ReplaceSymbols(a, st), lab) + ReplaceLabels(ReplaceSymbols(b, st), lab)
  {
    if a == [] {
      assert a + b == b;
    } else {
      assert (a + b)[1..] == a[1..] + b;
      MovedConcat(a[1..], b, st, lab);
    }
  }

  lemma {:induction false} EndsMoved(ss: seq<Stmt>, st: nat, lab: nat)
    ensures EndsReturning(ReplaceLabels(ReplaceSymbols(ss, st), lab)) <==> EndsReturning(ss)
    decreases ss
  {
    if ss != [] {
      var k, s := ss[..|ss| - 1], ss[|ss| - 1];
      assert ss == k + [s];
      MovedConcat(k, [s], st, lab);
      var moved := ReplaceLabels(ReplaceSymbols(ss, st), lab);
      assert ReplaceLabels(ReplaceSymbols([s], st), lab) == [ReplaceLabelsOf(ReplaceSymbolsOf(s, st), lab)];
      assert moved[..|moved| - 1] == ReplaceLabels(ReplaceSymbols(k, st), lab);
      match s
      case If(_, t, h, e) => EndsMoved(if h then e else t, st, lab);
      case While(_, b) => EndsMoved(b, st, lab);
      case DoWhile(b, _) => EndsMoved(b, st, lab);
      case _ => EndsMoved(k, st, lab);
    }
  }

  /** Assignments in front do not matter. */
  lemma {:induction false} EndsBehind(a: seq<Stmt>, b: seq<Stmt>)
    requires forall i :: 0 <= i < |a| ==> a[i].Assign?
    ensures EndsReturning(a + b) <==> EndsReturning(b)
    decreases |a| + |b|
  {
    if b != [] {
      assert (a + b)[..|a + b| - 1] == a + b[..|b| - 1];
      EndsBehind(a, b[..|b| - 1]);
    } else if a != [] {
      assert a + b == a && a[..|a| - 1] + [] == a[..|a| - 1];
      EndsBehind(a[..|a| - 1], []);
    }
  }

  lemma {:induction false} BindingsAssign(formals: seq<nat>, args: seq<Expr>, stIdxOff: nat)
    ensures forall i :: 0 <= i < |Bindings(formals, args, stIdxOff)| ==> Bindings(formals, args, stIdxOff)[i].Assign?
  {
    if formals != [] && args != [] {
      BindingsAssign(formals[1..], args[1..], stIdxOff);
    }
  }

  /** The inliner gives up exactly on a callee that returns somewhere but does not end returning. */
  lemma GivesUpExactly(f: Function, args: seq<Expr>, at: Site, ownLabel: bool)
    ensures NewBody(f, args, at, ownLabel) == None <==> Returns(f.body) > 0 && !EndsReturning(f.body)
  {
    var b := Bindings(f.formals, args, at.stIdxOff);
    var c := ReplaceLabels(ReplaceSymbols(f.body, at.stIdxOff), at.labIdxOff);
    var raw := RawBody(f, args, at, ownLabel);
    UpdatedIsCore(f, args, at, ownLabel);
    EndsReturningIsRemembered(raw, 0, at.res);
    BindingsAssign(f.formals, args, at.stIdxOff);
    EndsBehind(b, c);
    EndsMoved(f.body, at.stIdxOff, at.labIdxOff);
    if ownLabel {
      assert raw == b + c + [Label(at.ret)];
      assert raw[..|raw| - 1] == b + c;
    } else {
      assert raw == b + c;
    }
  }

  /** It does give up: on a callee that returns early from one branch and falls off its end from the other. */
  lemma GivesUpOnEarlyReturn(args: seq<Expr>, at: Site, ownLabel: bool)
    ensures var body := [If(Const(1), [Return([])], true, [Assign(Global(0), Const(0))])];
      NewBody(Function(1, 1, [], body), args, at, ownLabel) == None
  {
    var ret, asg := [Return([])], [Assign(Global(0), Const(0))];
    var body := [If(Const(1), ret, true, asg)];
    assert Returns(ret) == 1 && Returns(body) >= 1;
    assert !EndsReturning(asg[..0]) && !EndsReturning(asg);
    assert !EndsReturning(body);
    GivesUpExactly(Function(1, 1, [], body), args, at, ownLabel);
  }
}
