/** The main result about inlining: the caller means the same as before. */
module InlineMeaning {
  import opened Wrappers
  import opened InlineIR
  import opened InlineRewrite
  import opened InlineRuns
  import opened InlineCall
  import opened InlineBody
  import opened InlineSplice

  // ---------------------------------------------------------------------------------------------
  // Blocks inside statements.
  // ---------------------------------------------------------------------------------------------

  predicate HasPart(s: Stmt, inElse: bool) {
    match s
    case If(_, _, h, _) => inElse ==> h
    case While(_, _) => !inElse
    case DoWhile(_, _) => !inElse
    case _ => false
  }

  function Part(s: Stmt, inElse: bool): seq<Stmt>
    requires HasPart(s, inElse)
  {
    match s
    case If(_, t, _, e) => if inElse then e else t
    case While(_, b) => b
    case DoWhile(b, _) => b
  }

  function WithPart(s: Stmt, inElse: bool, p: seq<Stmt>): Stmt
    requires HasPart(s, inElse)
  {
    match s
    case If(c, t, h, e) => if inElse then If(c, t, h, p) else If(c, p, h, e)
    case While(c, _) => While(c, p)
    case DoWhile(_, c) => DoWhile(p, c)
  }

  lemma {:induction false} AgainAlike(env: Env, s: Stmt, p: seq<Stmt>, n: nat, k: nat, st: State)
    requires (s.While? || s.DoWhile?) && Alike(env, p, s.body, n, k) && Good(st, n, k) && Below(Targets(s.body), k)
    ensures Again(env, true, WithPart(s, false, p), st) == Again(env, true, s, st)
    decreases st.fuel
  {
    if st.mode == Run && Eval(env, s.c, st.loc, st.glob) != 0 && st.fuel > 0 {
      var next := st.(fuel := st.fuel - 1);
      assert Drive(env, true, p, next) == Drive(env, true, s.body, next);
      DriveStaysGood(env, s.body, next, n, k);
      AgainAlike(env, s, p, n, k, Drive(env, true, s.body, next));
    }
  }

  lemma StepAlike(env: Env, s: Stmt, inElse: bool, p: seq<Stmt>, n: nat, k: nat, st: State)
    requires HasPart(s, inElse) && Alike(env, p, Part(s, inElse), n, k) && SameLabels(p, Part(s, inElse), k)
    requires Good(st, n, k) && Below(Targets(Part(s, inElse)), k)
    ensures Step(env, true, WithPart(s, inElse, p), st) == Step(env, true, s, st)
  {
    var q := Part(s, inElse);
    assert Drive(env, true, p, st) == Drive(env, true, q, st);
    DriveStaysGood(env, q, st, n, k);
    if s.While? || s.DoWhile? {
      AgainAlike(env, s, p, n, k, st);
      AgainAlike(env, s, p, n, k, Drive(env, true, q, st));
    }
  }

  lemma LabelsOne(s: Stmt)
    ensures Labels([s]) == LabelsOf(s)
  {
    assert [s][1..] == [];
  }

  lemma PartLabels(s: Stmt, inElse: bool, p: seq<Stmt>, k: nat)
    requires HasPart(s, inElse) && SameLabels(p, Part(s, inElse), k)
    ensures SameLabels([WithPart(s, inElse, p)], [s], k)
  {
    var s' := WithPart(s, inElse, p);
    LabelsOne(s);
    LabelsOne(s');
    var q := Part(s, inElse);
    match s
    case If(_, t, h, e) =>
      var rest := if inElse then Labels(t) else if h then Labels(e) else {};
      assert LabelsOf(s) == Labels(q) + rest && LabelsOf(s') == Labels(p) + rest;
    case While(_, _) => assert LabelsOf(s) == Labels(q) && LabelsOf(s') == Labels(p);
    case DoWhile(_, _) => assert LabelsOf(s) == Labels(q) && LabelsOf(s') == Labels(p);
  }

  lemma NestedAlike(env: Env, s: Stmt, inElse: bool, p: seq<Stmt>, n: nat, k: nat)
    requires HasPart(s, inElse) && Alike(env, p, Part(s, inElse), n, k) && SameLabels(p, Part(s, inElse), k)
    requires Below(Targets(Part(s, inElse)), k)
    ensures AlikeOnce(env, [WithPart(s, inElse, p)], [s], n, k) && SameLabels([WithPart(s, inElse, p)], [s], k)
  {
    var s' := WithPart(s, inElse, p);
    PartLabels(s, inElse, p, k);
    hide SameLabels;
    forall st: State | Good(st, n, k)
      ensures Exec(env, true, [s'], st) == Exec(env, true, [s], st)
    {
      StepAlike(env, s, inElse, p, n, k, st);
      ExecOne(env, true, s', st);
      ExecOne(env, true, s, st);
    }
  }

  // ---------------------------------------------------------------------------------------------
  // Blocks anywhere in a body.
  // ---------------------------------------------------------------------------------------------

  /** The way to a block: the statement to enter, and whether by its else part. */
  type Path = seq<(nat, bool)>

  predicate ValidPath(ss: seq<Stmt>, path: Path)
    decreases |path|
  {
    path == []
    || (path[0].0 < |ss| && HasPart(ss[path[0].0], path[0].1) && ValidPath(Part(ss[path[0].0], path[0].1), path[1..]))
  }

  function BlockAt(ss: seq<Stmt>, path: Path): seq<Stmt>
    requires ValidPath(ss, path)
    decreases |path|
  {
    if path == [] then ss else BlockAt(Part(ss[path[0].0], path[0].1), path[1..])
  }

  function ReplaceAt(ss: seq<Stmt>, path: Path, blk: seq<Stmt>): seq<Stmt>
    requires ValidPath(ss, path)
    decreases |path|
  {
    if path == [] then blk
    else
      var j, o := path[0].0, path[0].1;
      ss[..j] + [WithPart(ss[j], o, ReplaceAt(Part(ss[j], o), path[1..], blk))] + ss[j + 1..]
  }

  lemma PartTargets(ss: seq<Stmt>, j: nat, inElse: bool, k: nat)
    requires j < |ss| && HasPart(ss[j], inElse) && Below(Targets(ss), k)
    ensures Below(Targets(ss[..j]), k) && Below(Targets([ss[j]]), k) && Below(Targets(ss[j + 1..]), k)
    ensures Below(Targets(Part(ss[j], inElse)), k)
  {
    assert ss == ss[..j] + [ss[j]] + ss[j + 1..];
    TargetsConcat(ss[..j] + [ss[j]], ss[j + 1..]);
    TargetsConcat(ss[..j], [ss[j]]);
    assert Targets([ss[j]]) == TargetsOf(ss[j]);
  }

  /** A block that runs like the one it replaces makes the whole body run alike. */
  lemma {:induction false} ReplacedAlike(env: Env, ss: seq<Stmt>, path: Path, blk: seq<Stmt>, n: nat, k: nat)
    requires ValidPath(ss, path) && Below(Targets(ss), k)
    requires Alike(env, blk, BlockAt(ss, path), n, k) && SameLabels(blk, BlockAt(ss, path), k)
    ensures Alike(env, ReplaceAt(ss, path, blk), ss, n, k) && SameLabels(ReplaceAt(ss, path, blk), ss, k)
    decreases |path|
  {
    if path != [] {
      var j, o := path[0].0, path[0].1;
      var p := ReplaceAt(Part(ss[j], o), path[1..], blk);
      PartTargets(ss, j, o, k);
      ReplacedAlike(env, Part(ss[j], o), path[1..], blk, n, k);
      hide Alike, AlikeOnce, SameLabels, Below, Labels, Targets;
      NestedAlike(env, ss[j], o, p, n, k);
      ExchangeAll(env, ss[..j], [WithPart(ss[j], o, p)], [ss[j]], ss[j + 1..], n, k);
      assert ss == ss[..j] + [ss[j]] + ss[j + 1..];
    }
  }

  // ---------------------------------------------------------------------------------------------
  // The call.
  // ---------------------------------------------------------------------------------------------

  /** The statement behind the call is a label, which then serves as return label. */
  ghost predicate LabelFollows(blk: seq<Stmt>, i: nat) {
    i + 1 < |blk| && blk[i + 1].Label?
  }

  /** The site of the call at index `i` of `blk` in a caller with tables of these sizes. */
  ghost function SiteAt(f: Function, symbols: nat, labels: nat, blk: seq<Stmt>, i: nat): Site
    requires symbols > 0 && labels > 0 && i < |blk| && blk[i].Call?
  {
    Site(symbols - 1, labels - 1, if LabelFollows(blk, i) then blk[i + 1].l else labels - 1 + f.labels, blk[i].res)
  }

  /** The return label is new exactly when the body gets one of its own. */
  ghost predicate SiteFits(f: Function, at: Site, ownLabel: bool) {
    if ownLabel then at.ret == at.labIdxOff + f.labels else at.ret <= at.labIdxOff
  }

  /** Every label of the new body is new. */
  lemma NewLabels(f: Function, args: seq<Expr>, at: Site, ownLabel: bool)
    requires CallOk(f, args, at) && SiteFits(f, at, ownLabel) && NewBody(f, args, at, ownLabel).Some?
    ensures forall l :: l in Labels(NewBody(f, args, at, ownLabel).value) ==>
              at.labIdxOff < l < at.labIdxOff + f.labels + (if ownLabel then 1 else 0)
  {
    var n := NewBody(f, args, at, ownLabel).value;
    NewBodyIsVariant(f, args, at, ownLabel);
    CoreLabels(f, args, at, at.ret);
    VariantLabels(Core(f, args, at), n, at.ret);
    if !ownLabel {
      NoLabelAdded(f, args, at);
    }
    forall l | l in Labels(n)
      ensures at.labIdxOff < l < at.labIdxOff + f.labels + (if ownLabel then 1 else 0)
    {
      CoreLabels(f, args, at, l);
    }
  }

  /** Without a label of its own the new body does not define the return label. */
  lemma NoLabelAdded(f: Function, args: seq<Expr>, at: Site)
    requires CallOk(f, args, at) && NewBody(f, args, at, false).Some?
    ensures at.ret !in Labels(NewBody(f, args, at, false).value)
  {
    var core := Core(f, args, at);
    UpdatedIsCore(f, args, at, false);
    CoreLabels(f, args, at, at.ret);
    if |core| > 0 {
      LabelsConcat(core[..|core| - 1], core[|core| - 1..]);
      assert core == core[..|core| - 1] + core[|core| - 1..];
    }
    assert core + [] == core;
  }

  /** Every jump of the new body leads to one of its labels or to the return label. */
  lemma NewTargets(f: Function, args: seq<Expr>, at: Site, ownLabel: bool, l: nat)
    requires CallOk(f, args, at) && NewBody(f, args, at, ownLabel).Some?
    requires l in Targets(NewBody(f, args, at, ownLabel).value)
    ensures l == at.ret || (l > at.labIdxOff && l in Labels(Core(f, args, at)))
  {
    var core := Core(f, args, at);
    NewBodyIsVariant(f, args, at, ownLabel);
    TargetsConcat(core, [Label(at.ret)]);
    if core != [] {
      TargetsConcat(core[..|core| - 1], [Label(at.ret)]);
      TargetsConcat(core[..|core| - 1], core[|core| - 1..]);
      assert core == core[..|core| - 1] + core[|core| - 1..];
    }
    assert Targets([Label(at.ret)]) == {};
    assert l in Targets(core);
    CoreTargets(f, args, at, l);
  }

  lemma CoreTargets(f: Function, args: seq<Expr>, at: Site, l: nat)
    requires CallOk(f, args, at) && l in Targets(Core(f, args, at))
    ensures l == at.ret || (l > at.labIdxOff && l in Labels(Core(f, args, at)))
  {
    TargetsConcat(Bindings(f.formals, args, at.stIdxOff), Inlined(f.body, at));
    BindingsAreQuiet(f.formals, args, at.stIdxOff);
    InlinedTargets(f.body, at, f.symbols, f.labels, |at.res| == 1, l);
    CoreLabels(f, args, at, l);
  }

  lemma {:induction false} InlinedTargets(ss: seq<Stmt>, at: Site, n: nat, m: nat, value: bool, l: nat)
    requires Fits(ss, n, m, value) && l in Targets(Inlined(ss, at))
    ensures l == at.ret || (l > at.labIdxOff && l - at.labIdxOff in Targets(ss))
  {
    if ss != [] {
      TargetsConcat(InlinedOf(ss[0], at), Inlined(ss[1..], at));
      if l in Targets(InlinedOf(ss[0], at)) {
        InlinedTargetsOf(ss[0], at, n, m, value, l);
      } else {
        InlinedTargets(ss[1..], at, n, m, value, l);
      }
    }
  }

  lemma {:induction false} InlinedTargetsOf(s: Stmt, at: Site, n: nat, m: nat, value: bool, l: nat)
    requires FitsStmt(s, n, m, value) && l in Targets(InlinedOf(s, at))
    ensures l == at.ret || (l > at.labIdxOff && l - at.labIdxOff in TargetsOf(s))
  {
    if s.Return? {
      ReturnHasNoLabel(MoveExprs(s.vals, at.stIdxOff), at.ret, at.res);
    } else {
      assert Targets(InlinedOf(s, at)) == TargetsOf(InlinedOf(s, at)[0]);
    }
    match s
    case If(_, t, h, e) =>
      if l in Targets(Inlined(t, at)) {
        InlinedTargets(t, at, n, m, value, l);
      } else {
        InlinedTargets(e, at, n, m, value, l);
      }
    case While(_, b) => InlinedTargets(b, at, n, m, value, l);
    case DoWhile(b, _) => InlinedTargets(b, at, n, m, value, l);
    case _ =>
  }

  // ---------------------------------------------------------------------------------------------
  // The theorem.
  // ---------------------------------------------------------------------------------------------

  /** The new body as a block, with the label behind it when that is the return label, runs like the call. */
  lemma BlockIsCall(env: Env, args: seq<Expr>, at: Site, ownLabel: bool, st: State)
    requires CallOk(env.callee, args, at) && SiteFits(env.callee, at, ownLabel) && env.stIdxOff == at.stIdxOff
    requires env.frames == Kept
    requires NewBody(env.callee, args, at, ownLabel).Some?
    requires Good(st, at.stIdxOff + env.callee.symbols, at.labIdxOff + 1)
    ensures var n, tail := NewBody(env.callee, args, at, ownLabel).value, if ownLabel then [] else [Label(at.ret)];
      Exec(env, true, [Block(n)] + tail, st) == Exec(env, true, [Call(args, at.res)] + tail, st)
  {
    hide *;
    var n := NewBody(env.callee, args, at, ownLabel).value;
    var call := Call(args, at.res);
    NewLabels(env.callee, args, at, ownLabel);
    GoodReads(st, at.stIdxOff + env.callee.symbols, at.labIdxOff + 1);
    if ownLabel {
      ExecOne(env, true, Block(n), st);
      ExecOne(env, true, call, st);
      assert [Block(n)] + [] == [Block(n)] && [call] + [] == [call];
    } else {
      LandsAtLabel(env, true, [Block(n)], at.ret, st);
      LandsAtLabel(env, true, [call], at.ret, st);
      ExecOne(env, true, Block(n), st);
      ExecOne(env, true, call, st);
    }
    BlockSteps(env, n, st);
    CallSteps(env, call, at.ret, st);
    if st.mode == Run {
      NewBodyIsCall(env, args, at, ownLabel, st);
    }
  }

  lemma GoodReads(st: State, n: nat, k: nat)
    requires Good(st, n, k)
    ensures |st.loc| == n && (st.mode.Seek? ==> st.mode.l < k)
  {
  }

  lemma BlockSteps(env: Env, n: seq<Stmt>, st: State)
    ensures st.mode == Run ==> Step(env, true, Block(n), st) == Drive(env, true, n, st)
    ensures st.mode != Run && !(st.mode.Seek? && st.mode.l in Labels(n)) ==> Step(env, true, Block(n), st) == st
  {
    BlockStep(env, true, n, st);
  }

  /** A call ends running or out of fuel. */
  lemma CallSteps(env: Env, call: Stmt, ret: nat, st: State)
    requires call.Call?
    ensures Step(env, true, call, st) == if st.mode == Run then CallStep(env, call, st) else st
    ensures Land(ret, CallStep(env, call, st)) == CallStep(env, call, st)
  {
  }

  lemma BlockAlikeCall(env: Env, args: seq<Expr>, at: Site, ownLabel: bool)
    requires CallOk(env.callee, args, at) && SiteFits(env.callee, at, ownLabel) && env.stIdxOff == at.stIdxOff
    requires env.frames == Kept
    requires NewBody(env.callee, args, at, ownLabel).Some?
    ensures var n, tail := NewBody(env.callee, args, at, ownLabel).value, if ownLabel then [] else [Label(at.ret)];
      AlikeOnce(env, [Block(n)] + tail, [Call(args, at.res)] + tail, at.stIdxOff + env.callee.symbols, at.labIdxOff + 1)
      && SameLabels([Block(n)] + tail, [Call(args, at.res)] + tail, at.labIdxOff + 1)
  {
    hide CallOk, SiteFits, NewBody, Labels, SameLabels, Good, Exec;
    var n := NewBody(env.callee, args, at, ownLabel).value;
    var tail := if ownLabel then [] else [Label(at.ret)];
    NewLabels(env.callee, args, at, ownLabel);
    FrontLabels(Block(n), Call(args, at.res), tail, at.labIdxOff + 1);
    forall st: State | Good(st, at.stIdxOff + env.callee.symbols, at.labIdxOff + 1)
      ensures Exec(env, true, [Block(n)] + tail, st) == Exec(env, true, [Call(args, at.res)] + tail, st)
    {
      BlockIsCall(env, args, at, ownLabel, st);
    }
  }

  /** A block with new labels only has, for the caller, the labels of the call. */
  lemma FrontLabels(block: Stmt, call: Stmt, tail: seq<Stmt>, k: nat)
    requires block.Block? && call.Call? && forall l :: l in Labels(block.body) ==> l >= k
    ensures SameLabels([block] + tail, [call] + tail, k)
  {
    LabelsConcat([block], tail);
    LabelsConcat([call], tail);
    LabelsOne(block);
    LabelsOne(call);
  }

  /** A block's labels and jump targets are among the body's. */
  lemma {:induction false} BlockWithin(ss: seq<Stmt>, path: Path, k: nat)
    requires ValidPath(ss, path) && Below(Labels(ss), k) && Below(Targets(ss), k)
    ensures Below(Labels(BlockAt(ss, path)), k) && Below(Targets(BlockAt(ss, path)), k)
    decreases |path|
  {
    if path != [] {
      var j, o := path[0].0, path[0].1;
      PartTargets(ss, j, o, k);
      assert ss == ss[..j] + [ss[j]] + ss[j + 1..];
      LabelsConcat(ss[..j] + [ss[j]], ss[j + 1..]);
      LabelsConcat(ss[..j], [ss[j]]);
      assert Labels([ss[j]]) == LabelsOf(ss[j]);
      assert forall l :: l in Labels(Part(ss[j], o)) ==> l in LabelsOf(ss[j]);
      BlockWithin(Part(ss[j], o), path[1..], k);
    }
  }

  /** The call at index `i` of the block at the end of `path`, in a caller and of a callee that are well formed. */
  ghost predicate CallSite(caller: Function, path: Path, i: nat, callee: Function) {
    && caller.symbols > 0 && caller.labels > 0
    && ValidPath(caller.body, path) && i < |BlockAt(caller.body, path)| && BlockAt(caller.body, path)[i].Call?
    && Below(Labels(caller.body), caller.labels) && Below(Targets(caller.body), caller.labels)
    && callee.body != []
    && CallOk(callee, BlockAt(caller.body, path)[i].args, TheSite(caller, path, i, callee))
  }

  ghost function TheSite(caller: Function, path: Path, i: nat, callee: Function): Site
    requires caller.symbols > 0 && caller.labels > 0
    requires ValidPath(caller.body, path) && i < |BlockAt(caller.body, path)| && BlockAt(caller.body, path)[i].Call?
  {
    SiteAt(callee, caller.symbols, caller.labels, BlockAt(caller.body, path), i)
  }

  /** What replaces the call, unless the inliner gives up. */
  ghost function Replacement(caller: Function, path: Path, i: nat, callee: Function): Option<seq<Stmt>>
    requires CallSite(caller, path, i, callee)
  {
    var blk := BlockAt(caller.body, path);
    NewBody(callee, blk[i].args, TheSite(caller, path, i, callee), !LabelFollows(blk, i))
  }

  ghost function InlinedBlock(caller: Function, path: Path, i: nat, callee: Function): seq<Stmt>
    requires CallSite(caller, path, i, callee) && Replacement(caller, path, i, callee).Some?
  {
    var blk := BlockAt(caller.body, path);
    blk[..i] + Replacement(caller, path, i, callee).value + blk[i + 1..]
  }

  /** The caller with larger tables and the call replaced. */
  ghost function InlinedCaller(caller: Function, path: Path, i: nat, callee: Function): Function
    requires CallSite(caller, path, i, callee) && Replacement(caller, path, i, callee).Some?
  {
    var ownLabel := if LabelFollows(BlockAt(caller.body, path), i) then 0 else 1;
    Function(caller.symbols + callee.symbols - 1, caller.labels + callee.labels - 1 + ownLabel, caller.formals,
             ReplaceAt(caller.body, path, InlinedBlock(caller, path, i, callee)))
  }

  lemma LastIsLabel(ss: seq<Stmt>, l: nat)
    requires ss != [] && ss[|ss| - 1] == Label(l)
    ensures l in Labels(ss)
  {
    assert ss == ss[..|ss| - 1] + [Label(l)];
    LabelsConcat(ss[..|ss| - 1], [Label(l)]);
    LabelsOne(Label(l));
  }

  lemma FollowingLabel(blk: seq<Stmt>, i: nat)
    requires LabelFollows(blk, i)
    ensures blk[i + 1].l in Labels(blk)
  {
    assert blk == blk[..i + 2] + blk[i + 2..];
    LabelsConcat(blk[..i + 2], blk[i + 2..]);
    LastIsLabel(blk[..i + 2], blk[i + 1].l);
  }

  lemma SiteIsFitting(caller: Function, path: Path, i: nat, callee: Function)
    requires CallSite(caller, path, i, callee)
    ensures SiteFits(callee, TheSite(caller, path, i, callee), !LabelFollows(BlockAt(caller.body, path), i))
  {
    var blk := BlockAt(caller.body, path);
    BlockWithin(caller.body, path, caller.labels);
    if LabelFollows(blk, i) {
      FollowingLabel(blk, i);
    }
  }

  /** The parts of the block around the call. */
  lemma BlockParts(blk: seq<Stmt>, i: nat, k: nat)
    requires i < |blk| && Below(Labels(blk), k) && Below(Targets(blk), k)
    ensures Below(Labels(blk[..i]), k) && Below(Targets(blk[..i]), k)
    ensures Below(Labels(blk[i + 1..]), k) && Below(Targets(blk[i + 1..]), k)
    ensures LabelFollows(blk, i) ==> Below(Targets(blk[i + 2..]), k)
  {
    assert blk == blk[..i] + blk[i..] && blk[i..] == [blk[i]] + blk[i + 1..];
    LabelsConcat(blk[..i], blk[i..]);
    LabelsConcat([blk[i]], blk[i + 1..]);
    TargetsConcat(blk[..i], blk[i..]);
    TargetsConcat([blk[i]], blk[i + 1..]);
    if LabelFollows(blk, i) {
      assert blk[i + 1..] == [blk[i + 1]] + blk[i + 2..];
      TargetsConcat([blk[i + 1]], blk[i + 2..]);
    }
  }

  lemma Around(blk: seq<Stmt>, i: nat, b: Stmt, tail: seq<Stmt>)
    requires i < |blk| && i + 1 + |tail| <= |blk| && tail == blk[i + 1..i + 1 + |tail|]
    ensures var a, c, c' := blk[..i], blk[i + 1..], blk[i + 1 + |tail|..];
      a + ([blk[i]] + tail) + c' == blk && a + ([b] + tail) + c' == a + [b] + c
  {
    var c' := blk[i + 1 + |tail|..];
    assert blk[i + 1..] == tail + c';
    assert blk == blk[..i] + ([blk[i]] + blk[i + 1..]);
  }

  lemma TailTargets(call: Stmt, tail: seq<Stmt>, ret: nat, k: nat)
    requires call.Call? && (tail == [] || tail == [Label(ret)])
    ensures Below(Targets([call] + tail), k)
  {
    TargetsConcat([call], tail);
    assert Targets([Label(ret)]) == {} && Targets([call]) == {};
  }

  /** With the new body as a block of its own, the enclosing block runs as before. */
  lemma BlockExchanged(env: Env, blk: seq<Stmt>, i: nat, at: Site, ownLabel: bool)
    requires i < |blk| && blk[i].Call? && blk[i].res == at.res && ownLabel == !LabelFollows(blk, i)
    requires !ownLabel ==> blk[i + 1] == Label(at.ret)
    requires CallOk(env.callee, blk[i].args, at) && SiteFits(env.callee, at, ownLabel) && env.stIdxOff == at.stIdxOff
    requires env.frames == Kept
    requires NewBody(env.callee, blk[i].args, at, ownLabel).Some?
    requires Below(Labels(blk), at.labIdxOff + 1) && Below(Targets(blk), at.labIdxOff + 1)
    ensures var blk' := blk[..i] + [Block(NewBody(env.callee, blk[i].args, at, ownLabel).value)] + blk[i + 1..];
      Alike(env, blk', blk, at.stIdxOff + env.callee.symbols, at.labIdxOff + 1)
      && SameLabels(blk', blk, at.labIdxOff + 1)
  {
    hide *;
    var n := NewBody(env.callee, blk[i].args, at, ownLabel).value;
    var tail := if ownLabel then [] else [Label(at.ret)];
    TailFollows(blk, i, at.ret, tail);
    var a, c, c' := blk[..i], blk[i + 1..], blk[i + 1 + |tail|..];
    var p, q := [Block(n)] + tail, [blk[i]] + tail;
    BlockParts(blk, i, at.labIdxOff + 1);
    BlockAlikeCall(env, blk[i].args, at, ownLabel);
    assert blk[i] == Call(blk[i].args, at.res);
    Around(blk, i, Block(n), tail);
    TailTargets(blk[i], tail, at.ret, at.labIdxOff + 1);
    ExchangeAll(env, a, p, q, c', at.stIdxOff + env.callee.symbols, at.labIdxOff + 1);
  }

  lemma TailFollows(blk: seq<Stmt>, i: nat, ret: nat, tail: seq<Stmt>)
    requires i < |blk| && tail == if LabelFollows(blk, i) then [Label(ret)] else []
    requires LabelFollows(blk, i) ==> blk[i + 1] == Label(ret)
    ensures i + 1 + |tail| <= |blk| && tail == blk[i + 1..i + 1 + |tail|]
  {
  }

  /** The enclosing block runs as before. */
  lemma BlockKeepsMeaning(env: Env, blk: seq<Stmt>, i: nat, at: Site, ownLabel: bool)
    requires i < |blk| && blk[i].Call? && blk[i].res == at.res && ownLabel == !LabelFollows(blk, i)
    requires !ownLabel ==> blk[i + 1] == Label(at.ret)
    requires CallOk(env.callee, blk[i].args, at) && SiteFits(env.callee, at, ownLabel) && env.stIdxOff == at.stIdxOff
    requires env.frames == Kept
    requires NewBody(env.callee, blk[i].args, at, ownLabel).Some?
    requires Below(Labels(blk), at.labIdxOff + 1) && Below(Targets(blk), at.labIdxOff + 1)
    ensures var blk' := blk[..i] + NewBody(env.callee, blk[i].args, at, ownLabel).value + blk[i + 1..];
      Alike(env, blk', blk, at.stIdxOff + env.callee.symbols, at.labIdxOff + 1)
      && SameLabels(blk', blk, at.labIdxOff + 1)
  {
    var n := NewBody(env.callee, blk[i].args, at, ownLabel).value;
    BlockParts(blk, i, at.labIdxOff + 1);
    NewLabels(env.callee, blk[i].args, at, ownLabel);
    assert Labels(n) !! Labels(blk[..i]) + Labels(blk[i + 1..]);
    BlockExchanged(env, blk, i, at, ownLabel);
    hide *;
    SplicedAlike(env, blk[..i], n, blk[i + 1..], blk, at.stIdxOff + env.callee.symbols, at.labIdxOff + 1);
  }

  lemma SpliceLabels(a: seq<Stmt>, n: seq<Stmt>, c: seq<Stmt>)
    ensures Labels(a + n + c) == Labels(a + [Block(n)] + c)
  {
    LabelsConcat(a + n, c);
    LabelsConcat(a, n);
    LabelsConcat(a + [Block(n)], c);
    LabelsConcat(a, [Block(n)]);
    LabelsOne(Block(n));
    assert LabelsOf(Block(n)) == Labels(n);
    hide Labels;
  }

  lemma SplicedAlike(env: Env, a: seq<Stmt>, n: seq<Stmt>, c: seq<Stmt>, blk: seq<Stmt>, size: nat, k: nat)
    requires Alike(env, a + [Block(n)] + c, blk, size, k) && SameLabels(a + [Block(n)] + c, blk, k)
    requires Labels(n) !! Labels(a) + Labels(c)
    ensures Alike(env, a + n + c, blk, size, k) && SameLabels(a + n + c, blk, k)
  {
    hide Labels, Drive, Exec, SameLabels, Good;
    SpliceLabels(a, n, c);
    SameLabelsVia(a + n + c, a + [Block(n)] + c, blk, k);
    forall st: State | Good(st, size, k)
      ensures Drive(env, true, a + n + c, st) == Drive(env, true, blk, st)
    {
      Splice(env, true, a, n, c, st);
      AlikeAt(env, a + [Block(n)] + c, blk, size, k, st);
    }
  }

  /** Inlining preserves meaning: from every state the caller, with the call replaced, ends exactly as it did with
      the call: in the same way, with the same locals, globals and fuel. */
  lemma InliningKeepsMeaning(env: Env, caller: Function, path: Path, i: nat, st: State)
    requires CallSite(caller, path, i, env.callee) && Replacement(caller, path, i, env.callee).Some?
    requires env.stIdxOff == caller.symbols - 1 && env.frames == Kept
    requires st.mode == Run && |st.loc| == caller.symbols + env.callee.symbols - 1
    ensures Drive(env, true, InlinedCaller(caller, path, i, env.callee).body, st) == Drive(env, true, caller.body, st)
  {
    var blk := BlockAt(caller.body, path);
    var at := TheSite(caller, path, i, env.callee);
    var size, k := at.stIdxOff + env.callee.symbols, caller.labels;
    SiteIsFitting(caller, path, i, env.callee);
    BlockWithin(caller.body, path, k);
    BlockKeepsMeaning(env, blk, i, at, !LabelFollows(blk, i));
    ReplacedAlike(env, caller.body, path, InlinedBlock(caller, path, i, env.callee), size, k);
    assert Good(st, size, k);
  }

  /** What the inserted body does to the caller's own locals: nothing, except that the call's result gets the value
      the callee returns. */
  lemma NewBodyTouchesResultOnly(env: Env, args: seq<Expr>, at: Site, ownLabel: bool, st: State, j: nat)
    requires CallOk(env.callee, args, at) && env.stIdxOff == at.stIdxOff && env.frames == Kept && st.mode == Run
    requires |st.loc| == at.stIdxOff + env.callee.symbols && NewBody(env.callee, args, at, ownLabel).Some?
    requires j <= at.stIdxOff && env.callee.symbols > 0
    ensures var r := Drive(env, true, NewBody(env.callee, args, at, ownLabel).value, st);
      var frame := BindArgs(FrameOf(env, st), env.callee.formals, EvalAll(env, args, st.loc, st.glob));
      var inner := Drive(env, false, env.callee.body, State(Run, frame, st.glob, st.fuel));
      && (at.res != [Local(j)] ==> r.loc[j] == st.loc[j])
      && (at.res == [Local(j)] ==>
            r.loc[j] == if inner.mode.Ret? && |inner.mode.val| > 0 then inner.mode.val[0] else st.loc[j])
  {
    hide *;
    NewBodyIsCall(env, args, at, ownLabel, st);
    LandKeepsLocals(at.ret, Drive(env, true, NewBody(env.callee, args, at, ownLabel).value, st));
    CallTouchesResultOnly(env, Call(args, at.res), st, j);
  }

  lemma LandKeepsLocals(ret: nat, st: State)
    ensures Land(ret, st).loc == st.loc
  {
  }

  lemma CallTouchesResultOnly(env: Env, call: Stmt, st: State, j: nat)
    requires call.Call? && j <= env.stIdxOff < |st.loc| && env.callee.symbols == |st.loc| - env.stIdxOff
    ensures var r := CallStep(env, call, st);
      var frame := BindArgs(FrameOf(env, st), env.callee.formals, EvalAll(env, call.args, st.loc, st.glob));
      var inner := Drive(env, false, env.callee.body, State(Run, frame, st.glob, st.fuel));
      && (call.res != [Local(j)] ==> r.loc[j] == st.loc[j])
      && (call.res == [Local(j)] ==>
            r.loc[j] == if inner.mode.Ret? && |inner.mode.val| > 0 then inner.mode.val[0] else st.loc[j])
  {
    hide Drive, BindArgs, FrameOf, EvalAll;
  }

  /** The call of an empty function, which the inliner just removes, changes nothing of the caller's. */
  lemma EmptyCallDoesNothing(env: Env, call: Stmt, st: State)
    requires call.Call? && env.callee.body == [] && env.stIdxOff < |st.loc|
    ensures var r := CallStep(env, call, st);
      r.mode == Run && r.glob == st.glob && r.fuel == st.fuel && r.loc[..env.stIdxOff + 1] == st.loc[..env.stIdxOff + 1]
  {
    var frame := BindArgs(FrameOf(env, st), env.callee.formals, EvalAll(env, call.args, st.loc, st.glob));
    var inner := State(Run, frame, st.glob, st.fuel);
    assert Exec(env, false, [], inner) == inner;
    assert Drive(env, false, [], inner) == inner;
    assert WithFrame(env, st.loc, inner.loc)[..env.stIdxOff + 1] == st.loc[..env.stIdxOff + 1];
  }
}
