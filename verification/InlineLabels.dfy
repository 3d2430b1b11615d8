/** Labels stay unique and every jump has its label, however often calls are inlined. */
module InlineLabels {
  import opened InlineIR
  import opened InlineRewrite
  import opened InlineRuns
  import opened InlineCall
  import opened InlineBody
  import opened InlineMeaning

  /** How often `l` is defined. */
  function Count(ss: seq<Stmt>, l: nat): nat {
    if ss == [] then 0 else CountOf(ss[0], l) + Count(ss[1..], l)
  }

  function CountOf(s: Stmt, l: nat): nat {
    match s
    case If(_, t, h, e) => Count(t, l) + (if h then Count(e, l) else 0)
    case While(_, b) => Count(b, l)
    case DoWhile(b, _) => Count(b, l)
    case Block(b) => Count(b, l)
    case Label(m) => if m == l then 1 else 0
    case _ => 0
  }

  /** Labels are in the table and unique, and every jump has its label. */
  ghost predicate LabelsOk(f: Function) {
    && (forall l {:trigger l in Labels(f.body)} :: l in Labels(f.body) ==> 0 < l < f.labels)
    && (forall l: nat {:trigger Count(f.body, l)} :: Count(f.body, l) <= 1)
    && Targets(f.body) <= Labels(f.body)
  }

  lemma {:induction false} CountConcat(a: seq<Stmt>, b: seq<Stmt>, l: nat)
    ensures Count(a + b, l) == Count(a, l) + Count(b, l)
  {
    if a == [] {
      assert a + b == b;
    } else {
      assert (a + b)[1..] == a[1..] + b;
      CountConcat(a[1..], b, l);
    }
  }

  lemma {:induction false} CountedAreLabels(ss: seq<Stmt>, l: nat)
    ensures l in Labels(ss) <==> Count(ss, l) > 0
  {
    if ss != [] {
      CountedAreLabelsOf(ss[0], l);
      CountedAreLabels(ss[1..], l);
    }
  }

  lemma {:induction false} CountedAreLabelsOf(s: Stmt, l: nat)
    ensures l in LabelsOf(s) <==> CountOf(s, l) > 0
  {
    match s
    case If(_, t, h, e) =>
      CountedAreLabels(t, l);
      CountedAreLabels(e, l);
    case While(_, b) => CountedAreLabels(b, l);
    case DoWhile(b, _) => CountedAreLabels(b, l);
    case Block(b) => CountedAreLabels(b, l);
    case _ =>
  }

  lemma {:induction false} InlinedCount(ss: seq<Stmt>, at: Site, l: nat)
    requires Plain(ss) && l >= at.labIdxOff
    ensures Count(Inlined(ss, at), l) == Count(ss, l - at.labIdxOff)
  {
    if ss != [] {
      InlinedCountOf(ss[0], at, l);
      InlinedCount(ss[1..], at, l);
      CountConcat(InlinedOf(ss[0], at), Inlined(ss[1..], at), l);
    }
  }

  lemma {:induction false} InlinedCountOf(s: Stmt, at: Site, l: nat)
    requires PlainStmt(s) && l >= at.labIdxOff
    ensures Count(InlinedOf(s, at), l) == CountOf(s, l - at.labIdxOff)
  {
    if s.Return? {
      ReturnHasNoLabel(MoveExprs(s.vals, at.stIdxOff), at.ret, at.res);
      CountedAreLabels(InlinedOf(s, at), l);
    } else {
      assert InlinedOf(s, at)[1..] == [];
    }
    match s
    case If(_, t, h, e) =>
      InlinedCount(t, at, l);
      if h {
        InlinedCount(e, at, l);
      }
    case While(_, b) => InlinedCount(b, at, l);
    case DoWhile(b, _) => InlinedCount(b, at, l);
    case _ =>
  }

  /** The new body defines each of its labels once. */
  lemma NewBodyCount(f: Function, args: seq<Expr>, at: Site, ownLabel: bool, l: nat)
    requires CallOk(f, args, at) && SiteFits(f, at, ownLabel) && NewBody(f, args, at, ownLabel).Some? && LabelsOk(f)
    ensures Count(NewBody(f, args, at, ownLabel).value, l) <= 1
  {
    var n := NewBody(f, args, at, ownLabel).value;
    var core := Core(f, args, at);
    CountedAreLabels(n, l);
    NewLabels(f, args, at, ownLabel);
    NewBodyIsVariant(f, args, at, ownLabel);
    if l in Labels(n) {
      CoreCount(f, args, at, l);
      VariantCount(core, n, at.ret, l);
      CoreLabels(f, args, at, at.ret);
      CountedAreLabels(core, l);
    }
  }

  lemma CoreCount(f: Function, args: seq<Expr>, at: Site, l: nat)
    requires CallOk(f, args, at) && LabelsOk(f) && l >= at.labIdxOff
    ensures Count(Core(f, args, at), l) <= 1
  {
    var b := Bindings(f.formals, args, at.stIdxOff);
    BindingsAreQuiet(f.formals, args, at.stIdxOff);
    CountedAreLabels(b, l);
    CountConcat(b, Inlined(f.body, at), l);
    FitsLabels(f.body, f.symbols, f.labels, |at.res| == 1);
    InlinedCount(f.body, at, l);
  }

  lemma VariantCount(core: seq<Stmt>, n: seq<Stmt>, ret: nat, l: nat)
    requires Variant(core, n, ret)
    ensures Count(n, l) <= Count(core, l) + (if l == ret then 1 else 0)
  {
    assert Count([Label(ret)], l) == if l == ret then 1 else 0;
    CountConcat(core, [Label(ret)], l);
    if core != [] {
      var k := core[..|core| - 1];
      assert core == k + [core[|core| - 1]];
      CountConcat(k, [core[|core| - 1]], l);
      CountConcat(k, [Label(ret)], l);
    }
  }

  /** Replacing a block exchanges its labels for the new block's. */
  lemma {:induction false} ReplacedCount(ss: seq<Stmt>, path: Path, blk: seq<Stmt>, l: nat)
    requires ValidPath(ss, path)
    ensures Count(ReplaceAt(ss, path, blk), l) + Count(BlockAt(ss, path), l) == Count(ss, l) + Count(blk, l)
    decreases |path|
  {
    if path != [] {
      var j, o := path[0].0, path[0].1;
      var p := ReplaceAt(Part(ss[j], o), path[1..], blk);
      ReplacedCount(Part(ss[j], o), path[1..], blk, l);
      CountAround(ss, j, ss[j], l);
      CountAround(ss, j, WithPart(ss[j], o, p), l);
      assert ss == ss[..j] + [ss[j]] + ss[j + 1..];
      assert CountOf(WithPart(ss[j], o, p), l) + Count(Part(ss[j], o), l) == CountOf(ss[j], l) + Count(p, l);
    }
  }

  lemma CountAround(ss: seq<Stmt>, j: nat, s: Stmt, l: nat)
    requires j < |ss|
    ensures Count(ss[..j] + [s] + ss[j + 1..], l) == Count(ss[..j], l) + CountOf(s, l) + Count(ss[j + 1..], l)
  {
    CountConcat(ss[..j] + [s], ss[j + 1..], l);
    CountConcat(ss[..j], [s], l);
    assert Count([s], l) == CountOf(s, l);
  }

  lemma {:induction false} ReplacedTargets(ss: seq<Stmt>, path: Path, blk: seq<Stmt>)
    requires ValidPath(ss, path)
    ensures Targets(ReplaceAt(ss, path, blk)) <= Targets(ss) + Targets(blk)
    ensures Targets(BlockAt(ss, path)) <= Targets(ss)
    decreases |path|
  {
    if path != [] {
      var j, o := path[0].0, path[0].1;
      var p := ReplaceAt(Part(ss[j], o), path[1..], blk);
      ReplacedTargets(Part(ss[j], o), path[1..], blk);
      TargetsAround(ss, j, ss[j]);
      TargetsAround(ss, j, WithPart(ss[j], o, p));
      assert ss == ss[..j] + [ss[j]] + ss[j + 1..];
      assert Targets(Part(ss[j], o)) <= TargetsOf(ss[j]);
      assert TargetsOf(WithPart(ss[j], o, p)) <= TargetsOf(ss[j]) + Targets(p);
    }
  }

  lemma TargetsAround(ss: seq<Stmt>, j: nat, s: Stmt)
    requires j < |ss|
    ensures Targets(ss[..j] + [s] + ss[j + 1..]) == Targets(ss[..j]) + TargetsOf(s) + Targets(ss[j + 1..])
  {
    TargetsConcat(ss[..j] + [s], ss[j + 1..]);
    TargetsConcat(ss[..j], [s]);
    assert [s][1..] == [];
    assert Targets([s]) == TargetsOf(s);
  }

  /** The new block has the old block's labels and the new body's. */
  lemma InlinedBlockCount(caller: Function, path: Path, i: nat, callee: Function, l: nat)
    requires CallSite(caller, path, i, callee) && Replacement(caller, path, i, callee).Some?
    ensures Count(InlinedBlock(caller, path, i, callee), l)
         == Count(BlockAt(caller.body, path), l) + Count(Replacement(caller, path, i, callee).value, l)
  {
    hide *;
    InlinedBlockReads(caller, path, i, callee);
    var blk := BlockAt(caller.body, path);
    var n := Replacement(caller, path, i, callee).value;
    CountConcat(blk[..i] + n, blk[i + 1..], l);
    CountConcat(blk[..i], n, l);
    CountAround(blk, i, blk[i], l);
    assert blk == blk[..i] + [blk[i]] + blk[i + 1..];
  }

  lemma InlinedBlockReads(caller: Function, path: Path, i: nat, callee: Function)
    requires CallSite(caller, path, i, callee) && Replacement(caller, path, i, callee).Some?
    ensures ValidPath(caller.body, path)
    ensures var blk := BlockAt(caller.body, path);
      && i < |blk| && blk[i].Call? && (forall l :: CountOf(blk[i], l) == 0)
      && InlinedBlock(caller, path, i, callee) == blk[..i] + Replacement(caller, path, i, callee).value + blk[i + 1..]
  {
    hide Replacement, NewBody, CallOk, ValidPath, BlockAt;
  }

  lemma InlinedCallerCount(caller: Function, path: Path, i: nat, callee: Function, l: nat)
    requires CallSite(caller, path, i, callee) && Replacement(caller, path, i, callee).Some?
    ensures Count(InlinedCaller(caller, path, i, callee).body, l)
         == Count(caller.body, l) + Count(Replacement(caller, path, i, callee).value, l)
  {
    InlinedBlockCount(caller, path, i, callee, l);
    ReplacedCount(caller.body, path, InlinedBlock(caller, path, i, callee), l);
  }

  lemma InlinedBlockTargets(caller: Function, path: Path, i: nat, callee: Function)
    requires CallSite(caller, path, i, callee) && Replacement(caller, path, i, callee).Some?
    ensures Targets(InlinedBlock(caller, path, i, callee))
         <= Targets(BlockAt(caller.body, path)) + Targets(Replacement(caller, path, i, callee).value)
  {
    var blk := BlockAt(caller.body, path);
    var n := Replacement(caller, path, i, callee).value;
    TargetsConcat(blk[..i] + n, blk[i + 1..]);
    TargetsConcat(blk[..i], n);
    TargetsAround(blk, i, blk[i]);
    assert blk == blk[..i] + [blk[i]] + blk[i + 1..];
  }

  /** A jump of the new body has its label, in the new body or, when that serves as return label, behind the call. */
  lemma NewJumpsLand(caller: Function, path: Path, i: nat, callee: Function, l: nat)
    requires CallSite(caller, path, i, callee) && Replacement(caller, path, i, callee).Some?
    requires l in Targets(Replacement(caller, path, i, callee).value)
    ensures l in Labels(Replacement(caller, path, i, callee).value) || l in Labels(BlockAt(caller.body, path))
  {
    hide *;
    SiteReads(caller, path, i, callee);
    var blk := BlockAt(caller.body, path);
    var at := TheSite(caller, path, i, callee);
    var ownLabel := !LabelFollows(blk, i);
    var n := Replacement(caller, path, i, callee).value;
    NewTargets(callee, blk[i].args, at, ownLabel, l);
    NewBodyIsVariant(callee, blk[i].args, at, ownLabel);
    VariantLabels(Core(callee, blk[i].args, at), n, at.ret);
    CoreLabels(callee, blk[i].args, at, at.ret);
    if l == at.ret {
      if ownLabel {
        LastIsLabel(n, at.ret);
      } else {
        FollowingLabel(blk, i);
      }
    }
  }

  /** The parts a call site consists of. */
  lemma SiteReads(caller: Function, path: Path, i: nat, callee: Function)
    requires CallSite(caller, path, i, callee)
    ensures caller.symbols > 0 && caller.labels > 0 && ValidPath(caller.body, path)
    ensures var blk := BlockAt(caller.body, path);
      && i < |blk| && blk[i].Call?
      && var at := TheSite(caller, path, i, callee);
         && CallOk(callee, blk[i].args, at) && (LabelFollows(blk, i) ==> i + 1 < |blk| && at.ret == blk[i + 1].l)
         && Replacement(caller, path, i, callee) == NewBody(callee, blk[i].args, at, !LabelFollows(blk, i))
  {
    hide NewBody, CallOk, ValidPath, BlockAt;
  }

  /** Inlining keeps the labels in order. */
  lemma InliningKeepsLabels(caller: Function, path: Path, i: nat, callee: Function)
    requires CallSite(caller, path, i, callee) && Replacement(caller, path, i, callee).Some?
    requires LabelsOk(caller) && LabelsOk(callee)
    ensures LabelsOk(InlinedCaller(caller, path, i, callee))
  {
    InliningKeepsUnique(caller, path, i, callee);
    InliningKeepsTargets(caller, path, i, callee);
    hide CallSite, Replacement, Count, Labels, Targets;
  }

  lemma InliningKeepsUnique(caller: Function, path: Path, i: nat, callee: Function)
    requires CallSite(caller, path, i, callee) && Replacement(caller, path, i, callee).Some?
    requires LabelsOk(caller) && LabelsOk(callee)
    ensures var after := InlinedCaller(caller, path, i, callee);
      (forall l {:trigger l in Labels(after.body)} :: l in Labels(after.body) ==> 0 < l < after.labels)
      && (forall l: nat {:trigger Count(after.body, l)} :: Count(after.body, l) <= 1)
  {
    var blk := BlockAt(caller.body, path);
    var at := TheSite(caller, path, i, callee);
    var ownLabel := !LabelFollows(blk, i);
    var after := InlinedCaller(caller, path, i, callee);
    var n := Replacement(caller, path, i, callee).value;
    SiteIsFitting(caller, path, i, callee);
    NewLabels(callee, blk[i].args, at, ownLabel);
    assert after.labels == at.labIdxOff + callee.labels + (if ownLabel then 1 else 0);
    assert forall l :: l in Labels(n) ==> caller.labels <= l < after.labels;
    assert caller.labels <= after.labels;
    forall l: nat
      ensures Count(after.body, l) <= 1 && (l in Labels(after.body) ==> 0 < l < after.labels)
    {
      InlinedCallerCount(caller, path, i, callee, l);
      NewBodyCount(callee, blk[i].args, at, ownLabel, l);
      CountedAreLabels(n, l);
      CountedAreLabels(caller.body, l);
      CountedAreLabels(after.body, l);
      hide CallSite, Replacement, Count, Labels, InlinedCaller;
    }
  }

  lemma InliningKeepsTargets(caller: Function, path: Path, i: nat, callee: Function)
    requires CallSite(caller, path, i, callee) && Replacement(caller, path, i, callee).Some?
    requires Targets(caller.body) <= Labels(caller.body)
    ensures var after := InlinedCaller(caller, path, i, callee); Targets(after.body) <= Labels(after.body)
  {
    var blk := BlockAt(caller.body, path);
    var after := InlinedCaller(caller, path, i, callee);
    var n := Replacement(caller, path, i, callee).value;
    ReplacedTargets(caller.body, path, InlinedBlock(caller, path, i, callee));
    InlinedBlockTargets(caller, path, i, callee);
    forall l | l in Targets(after.body)
      ensures l in Labels(after.body)
    {
      InlinedCallerCount(caller, path, i, callee, l);
      CountedAreLabels(n, l);
      CountedAreLabels(caller.body, l);
      CountedAreLabels(after.body, l);
      ReplacedCount(caller.body, path, [], l);
      CountedAreLabels(blk, l);
      if l in Targets(n) {
        NewJumpsLand(caller, path, i, callee, l);
      }
      hide CallSite, Replacement, Count, Labels, InlinedCaller, Targets;
    }
  }

  /** One inlining. */
  datatype Inlining = Inlining(path: Path, i: nat, callee: Function)

  /** A run of inlinings, none of which made the inliner give up. */
  ghost predicate Inlinings(steps: seq<Inlining>, fs: seq<Function>) {
    && |fs| == |steps| + 1 && LabelsOk(fs[0])
    && forall k :: 0 <= k < |steps| ==> InlinedBy(fs[k], steps[k], fs[k + 1])
  }

  ghost predicate InlinedBy(f: Function, s: Inlining, f': Function) {
    && LabelsOk(s.callee) && CallSite(f, s.path, s.i, s.callee) && Replacement(f, s.path, s.i, s.callee).Some?
    && f' == InlinedCaller(f, s.path, s.i, s.callee)
  }

  /** After any number of inlinings labels are unique and every jump has its label. */
  lemma {:induction false} LabelsStayOk(steps: seq<Inlining>, fs: seq<Function>, k: nat)
    requires Inlinings(steps, fs) && k < |fs|
    ensures LabelsOk(fs[k])
  {
    if k > 0 {
      LabelsStayOk(steps, fs, k - 1);
      var s := steps[k - 1];
      assert InlinedBy(fs[k - 1], s, fs[k - 1 + 1]);
      InliningKeepsLabels(fs[k - 1], s.path, s.i, s.callee);
    }
  }
}
