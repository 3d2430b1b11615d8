/** The inliner's operations on functions it changes in place. */
module Inliner {
  import opened Wrappers
  import opened InlineIR
  import opened InlineRewrite
  import opened InlineCall
  import opened InlineBody
  import opened InlineMeaning
  import opened PuStatics

  // ---------------------------------------------------------------------------------------------
  // Symbol and label tables.
  // ---------------------------------------------------------------------------------------------

  /** The name a symbol was given, or that of a copy: whose symbol was copied, its name, and the number of the copy. */
  datatype Name = Given(text: nat) | CopyName(puIdx: nat, of: Name, times: nat) | ReturnName(puIdx: nat, times: nat)

  /** A symbol of a local table. The number tells apart the symbols a program starts with. */
  datatype TabSymbol = TabSymbol(id: nat, name: Name, isFormal: bool)

  type SymTab = seq<Option<TabSymbol>>

  function CopyOf(s: TabSymbol, puIdx: nat, times: nat): TabSymbol {
    TabSymbol(s.id, CopyName(puIdx, s.name, times), false)
  }

  /** A function with its tables. */
  datatype Callee = Callee(func: Function, puIdx: nat, symTab: SymTab, labTab: seq<Name>)

  /** Only the first entry of a symbol table is empty, and no two symbols have the same name. */
  ghost predicate TableOk(t: SymTab) {
    |t| > 0 && (forall i :: 0 <= i < |t| ==> (t[i] == None <==> i == 0))
    && forall i, j :: 0 < i < j < |t| ==> t[i].value.name != t[j].value.name
  }

  /** No copy of function `puIdx` has the number `times` or a higher one. */
  ghost predicate Unused(t: SymTab, puIdx: nat, times: nat) {
    forall i :: 0 <= i < |t| && t[i].Some? && t[i].value.name.CopyName? && t[i].value.name.puIdx == puIdx ==>
      t[i].value.name.times < times
  }

  ghost predicate FormalAt(t: SymTab, i: nat) {
    i < |t| && t[i].Some? && t[i].value.isFormal
  }

  /** The same entries of both tables are formals. */
  ghost predicate SameFormals(before: SymTab, after: SymTab) {
    forall i: nat :: FormalAt(after, i) <==> FormalAt(before, i)
  }

  /** The list of formals names exactly the formals of the table. */
  ghost predicate FormalsListed(t: SymTab, formals: seq<nat>) {
    forall i: nat :: FormalAt(t, i) <==> i in formals
  }

  /** After any number of inlinings the list names exactly the formals of the table. */
  lemma {:induction false} FormalsStayListed(tabs: seq<SymTab>, formals: seq<nat>, k: nat)
    requires k < |tabs| && FormalsListed(tabs[0], formals)
    requires forall j {:trigger tabs[j]} :: 0 <= j < |tabs| - 1 ==> SameFormals(tabs[j], tabs[j + 1])
    ensures FormalsListed(tabs[k], formals)
  {
    if k > 0 {
      FormalsStayListed(tabs, formals, k - 1);
      assert SameFormals(tabs[k - 1], tabs[k - 1 + 1]);
    }
  }

  ghost predicate TablesFit(c: Callee) {
    |c.symTab| == c.func.symbols && |c.labTab| == c.func.labels
  }

  class MIRFunction {
    var symTab: SymTab
    /** The names of the labels; entry 0 is a dummy. */
    var labTab: seq<Name>
    var formals: seq<nat>
    var body: seq<Stmt>

    constructor (symTab: SymTab, labTab: seq<Name>, formals: seq<nat>, body: seq<Stmt>)
      ensures this.symTab == symTab && this.labTab == labTab && this.formals == formals && this.body == body
    {
      this.symTab, this.labTab, this.formals, this.body := symTab, labTab, formals, body;
    }

    ghost function Value(): Function
      reads this
    {
      Function(|symTab|, |labTab|, formals, body)
    }

    /** Appends copies of the callee's symbols: the copy of the symbol at index `i` gets index `i + stIdxOff` and a
        name that is in use nowhere else in the table, so that neither check of the source can fail. */
    method RenameSymbols(callee: Callee, inlinedTimes: nat) returns (stIdxOff: nat)
      requires TableOk(symTab) && TableOk(callee.symTab) && Unused(symTab, callee.puIdx, inlinedTimes)
      modifies this`symTab
      ensures stIdxOff == old(|symTab|) - 1 && |symTab| == old(|symTab|) + |callee.symTab| - 1
      ensures symTab[..old(|symTab|)] == old(symTab)
      ensures forall i :: 0 < i < |callee.symTab| ==>
                var s := callee.symTab[i].value;
                symTab[i + stIdxOff] == Some(TabSymbol(s.id, CopyName(callee.puIdx, s.name, inlinedTimes), false))
      ensures SameFormals(old(symTab), symTab)
      ensures TableOk(symTab) && Unused(symTab, callee.puIdx, inlinedTimes + 1)
      ensures forall p, n :: p != callee.puIdx && Unused(old(symTab), p, n) ==> Unused(symTab, p, n)
    {
      ghost var before := symTab;
      stIdxOff := |symTab| - 1;
      var i := 1;
      while i < |callee.symTab|
        invariant 1 <= i <= |callee.symTab| && |symTab| == i + stIdxOff && symTab[..|before|] == before
        invariant forall k :: 0 < k < i ==>
                    symTab[k + stIdxOff] == Some(CopyOf(callee.symTab[k].value, callee.puIdx, inlinedTimes))
      {
        var newSym := CopyOf(callee.symTab[i].value, callee.puIdx, inlinedTimes);
        NameIsNew(before, symTab, callee, inlinedTimes, i);
        assert forall k :: 0 < k < |symTab| ==> symTab[k].Some? && symTab[k].value.name != newSym.name;
        ghost var newIdx := |symTab|;
        symTab := symTab + [Some(newSym)];
        assert newIdx == i + stIdxOff;
        i := i + 1;
      }
      CopiesKeepOrder(before, symTab, callee, inlinedTimes);
    }

    /** Appends copies of the callee's labels: the copy of the label at index `i` gets index `i + labIdxOff`. */
    method RenameLabels(callee: Callee, inlinedTimes: nat) returns (labIdxOff: nat)
      requires |labTab| > 0 && |callee.labTab| > 0
      modifies this`labTab
      ensures labIdxOff == old(|labTab|) - 1 && |labTab| == old(|labTab|) + |callee.labTab| - 1
      ensures labTab[..old(|labTab|)] == old(labTab)
      ensures forall i :: 0 < i < |callee.labTab| ==>
                labTab[i + labIdxOff] == CopyName(callee.puIdx, callee.labTab[i], inlinedTimes)
    {
      ghost var before := labTab;
      labIdxOff := |labTab| - 1;
      var i := 1;
      while i < |callee.labTab|
        invariant 1 <= i <= |callee.labTab| && |labTab| == i + labIdxOff && labTab[..|before|] == before
        invariant forall k :: 0 < k < i ==>
                    labTab[k + labIdxOff] == CopyName(callee.puIdx, callee.labTab[k], inlinedTimes)
      {
        ghost var labIdx := |labTab|;
        labTab := labTab + [CopyName(callee.puIdx, callee.labTab[i], inlinedTimes)];
        assert labIdx == i + labIdxOff;
        i := i + 1;
      }
    }

    method CreateReturnLabel(puIdx: nat, inlinedTimes: nat) returns (labIdx: nat)
      modifies this`labTab
      ensures labIdx == old(|labTab|) && labTab == old(labTab) + [ReturnName(puIdx, inlinedTimes)]
    {
      labIdx := |labTab|;
      labTab := labTab + [ReturnName(puIdx, inlinedTimes)];
    }
  }

  /** The table while copies are being appended. */
  ghost predicate Copying(before: SymTab, t: SymTab, callee: Callee, times: nat, i: nat) {
    && 0 < |before| <= |t| == i + |before| - 1 && 1 <= i <= |callee.symTab| && t[..|before|] == before
    && forall k :: 0 < k < i ==>
         callee.symTab[k].Some? && t[k + |before| - 1] == Some(CopyOf(callee.symTab[k].value, callee.puIdx, times))
  }

  /** An entry of the table is one the caller had, or the copy of a symbol of the callee. */
  lemma CopiedEntry(before: SymTab, t: SymTab, callee: Callee, times: nat, i: nat, j: nat)
    requires Copying(before, t, callee, times, i) && j < |t|
    ensures j < |before| ==> t[j] == before[j]
    ensures j >= |before| ==> var k := j - |before| + 1;
              0 < k < i && callee.symTab[k].Some? && t[j] == Some(CopyOf(callee.symTab[k].value, callee.puIdx, times))
  {
    if j < |before| {
      assert t[j] == t[..|before|][j];
    } else {
      assert t[j - |before| + 1 + |before| - 1] == t[j];
    }
  }

  lemma NameIsNew(before: SymTab, t: SymTab, callee: Callee, times: nat, i: nat)
    requires TableOk(before) && TableOk(callee.symTab) && Unused(before, callee.puIdx, times)
    requires Copying(before, t, callee, times, i) && i < |callee.symTab|
    ensures callee.symTab[i].Some?
    ensures forall j :: 0 < j < |t| ==>
              t[j].Some? && t[j].value.name != CopyName(callee.puIdx, callee.symTab[i].value.name, times)
  {
    forall j | 0 < j < |t|
      ensures t[j].Some? && t[j].value.name != CopyName(callee.puIdx, callee.symTab[i].value.name, times)
    {
      CopiedEntry(before, t, callee, times, i, j);
    }
  }

  /** Appending the copies keeps the names of the table apart. */
  lemma CopiesKeepOrder(before: SymTab, t: SymTab, callee: Callee, times: nat)
    requires TableOk(before) && TableOk(callee.symTab) && Unused(before, callee.puIdx, times)
    requires Copying(before, t, callee, times, |callee.symTab|)
    ensures TableOk(t) && Unused(t, callee.puIdx, times + 1) && SameFormals(before, t)
    ensures forall p, n :: p != callee.puIdx && Unused(before, p, n) ==> Unused(t, p, n)
  {
    var n := |callee.symTab|;
    forall j | 0 <= j < |t|
      ensures (t[j] == None <==> j == 0) && (j < |before| ==> t[j] == before[j])
    {
      CopiedEntry(before, t, callee, times, n, j);
    }
    forall i: nat
      ensures FormalAt(t, i) <==> FormalAt(before, i)
    {
      if i < |t| {
        CopiedEntry(before, t, callee, times, n, i);
      }
    }
    forall i, j | 0 < i < j < |t|
      ensures t[i].value.name != t[j].value.name
    {
      CopiedEntry(before, t, callee, times, n, i);
      CopiedEntry(before, t, callee, times, n, j);
    }
    forall p, m | (p == callee.puIdx && m == times + 1) || (p != callee.puIdx && Unused(before, p, m))
      ensures Unused(t, p, m)
    {
      forall j | 0 <= j < |t| && t[j].Some? && t[j].value.name.CopyName? && t[j].value.name.puIdx == p
        ensures t[j].value.name.times < m
      {
        CopiedEntry(before, t, callee, times, n, j);
      }
    }
  }

  /** Renaming after the callee's pu-static symbols have been converted: every local that has stayed has a copy of
      its own, behind everything the caller had. */
  lemma CopiesAreFreshAndDiffer(locals: Locals, before: SymTab, t: SymTab, callee: Callee, times: nat, i: nat, j: nat)
    requires OnlyFirstNull(locals) && Copying(before, t, callee, times, |callee.symTab|)
    requires |callee.symTab| == |Stayed(locals, |locals|)|
    requires forall k :: 0 < k < |callee.symTab| ==>
               callee.symTab[k].Some? && Stayed(locals, |locals|)[k].Some?
               && callee.symTab[k].value.id == Stayed(locals, |locals|)[k].value.id
    requires 0 < i < j < |locals| && !IsStatic(locals, i) && !IsStatic(locals, j)
    ensures var off := |before| - 1; var a, b := i - Statics(locals, i) + off, j - Statics(locals, j) + off;
      |before| <= a < b < |t| && t[a].Some? && t[a].value.id == locals[i].value.id
      && t[b].Some? && t[b].value.id == locals[j].value.id
  {
    DenseAndOrdered(locals, i, j);
    StayedAt(locals, i, |locals|);
    StayedAt(locals, j, |locals|);
    CopiedEntry(before, t, callee, times, |callee.symTab|, i - Statics(locals, i) + |before| - 1);
    CopiedEntry(before, t, callee, times, |callee.symTab|, j - Statics(locals, j) + |before| - 1);
  }

  // ---------------------------------------------------------------------------------------------
  // Bodies.
  // ---------------------------------------------------------------------------------------------

  /** Turns every return into an assignment and a jump, counts them, and remembers the last jump it came across. */
  method UpdateReturnStmts(newBody: seq<Stmt>, ret: nat, res: seq<Var>, count: nat)
      returns (updated: seq<Stmt>, lastGoto: LastGoto, retCount: nat)
    ensures updated == UpdateReturns(newBody, ret, res)
    ensures lastGoto == Remembered(newBody, Nowhere, 0, res)
    ensures retCount == count + Returns(newBody)
    decreases newBody
  {
    hide UpdateReturns, Remembered, Returns;
    NoneUpdated(ret, res);
    updated, lastGoto, retCount := [], Nowhere, count;
    var i := 0;
    assert newBody[..0] == [];
    while i < |newBody|
      invariant 0 <= i <= |newBody|
      invariant updated == UpdateReturns(newBody[..i], ret, res)
      invariant lastGoto == Remembered(newBody[..i], Nowhere, 0, res)
      invariant retCount == count + Returns(newBody[..i])
    {
      var s := newBody[i];
      OneMoreUpdated(newBody, i, ret, res);
      match s {
        case If(c, t, h, e) =>
          var t', g, n := UpdateReturnStmts(t, ret, res, retCount);
          var e' := e;
          if h {
            e', g, n := UpdateReturnStmts(e, ret, res, n);
          }
          lastGoto, retCount := Inner(g), n;
          updated := updated + [If(c, t', h, e')];
        case While(c, b) =>
          var b', g, n := UpdateReturnStmts(b, ret, res, retCount);
          lastGoto, retCount := Inner(g), n;
          updated := updated + [While(c, b')];
        case DoWhile(b, c) =>
          var b', g, n := UpdateReturnStmts(b, ret, res, retCount);
          lastGoto, retCount := Inner(g), n;
          updated := updated + [DoWhile(b', c)];
        case Return(vals) =>
          retCount := retCount + 1;
          if |res| == 1 && |vals| > 0 {
            updated := updated + [Assign(res[0], vals[0])];
          }
          updated := updated + [Goto(ret)];
          lastGoto := At(|updated| - 1);
        case _ =>
          updated := updated + [s];
      }
      i := i + 1;
    }
    assert newBody[..|newBody|] == newBody;
  }

  lemma NoneUpdated(ret: nat, res: seq<Var>)
    ensures UpdateReturns([], ret, res) == [] && Remembered([], Nowhere, 0, res) == Nowhere && Returns([]) == 0
  {
  }

  /** One more statement of a body has been updated. */
  lemma OneMoreUpdated(ss: seq<Stmt>, i: nat, ret: nat, res: seq<Var>)
    requires i < |ss|
    ensures UpdateReturns(ss[..i + 1], ret, res) == UpdateReturns(ss[..i], ret, res) + UpdateReturnsOf(ss[i], ret, res)
    ensures Returns(ss[..i + 1]) == Returns(ss[..i]) + ReturnsOf(ss[i])
    ensures var len := |UpdateReturns(ss[..i + 1], ret, res)|;
      len > 0
      && Remembered(ss[..i + 1], Nowhere, 0, res) == AfterStmt(ss[i], Remembered(ss[..i], Nowhere, 0, res), len, res)
  {
    var k := ss[..i + 1];
    assert k[..i] == ss[..i] && k == ss[..i] + [ss[i]];
    UpdateConcat(ss[..i], [ss[i]], ret, res);
    ReturnsConcat(ss[..i], [ss[i]]);
    assert [ss[i]][1..] == [];
    assert UpdateReturns([ss[i]], ret, res) == UpdateReturnsOf(ss[i], ret, res);
    RememberedSnoc(k, Nowhere, 0, res);
    UpdateLength(k, ret, res);
  }

  /** Puts the assignments of the arguments in front of the body, one after the other. */
  method BindArguments(newBody: seq<Stmt>, formals: seq<nat>, args: seq<Expr>, stIdxOff: nat) returns (bound: seq<Stmt>)
    ensures bound == Bindings(formals, args, stIdxOff) + newBody
  {
    hide Bindings;
    bound := newBody;
    BindingsOfNone(stIdxOff);
    var realArgNum := if |args| < |formals| then |args| else |formals|;
    var i := 0;
    assert formals[..0] == [] && args[..0] == [];
    while i < realArgNum
      invariant 0 <= i <= realArgNum
      invariant bound == Bindings(formals[..i], args[..i], stIdxOff) + newBody
    {
      BindingsSnoc(formals[..i + 1], args[..i + 1], stIdxOff);
      assert formals[..i + 1][..i] == formals[..i] && args[..i + 1][..i] == args[..i];
      bound := [Assign(Local(formals[i] + stIdxOff), args[i])] + bound;
      i := i + 1;
    }
    BindingsOfMin(formals, args, stIdxOff, realArgNum);
  }

  lemma BindingsOfNone(stIdxOff: nat)
    ensures Bindings([], [], stIdxOff) == []
  {
  }

  /** The last argument is bound first. */
  lemma {:induction false} BindingsSnoc(formals: seq<nat>, args: seq<Expr>, stIdxOff: nat)
    requires |formals| == |args| > 0
    ensures Bindings(formals, args, stIdxOff)
         == [Assign(Local(formals[|formals| - 1] + stIdxOff), args[|formals| - 1])]
            + Bindings(formals[..|formals| - 1], args[..|formals| - 1], stIdxOff)
    decreases |formals|
  {
    var n := |formals| - 1;
    if n > 0 {
      BindingsSnoc(formals[1..], args[1..], stIdxOff);
      assert formals[1..][..n - 1] == formals[..n][1..] && args[1..][..n - 1] == args[..n][1..];
    }
  }

  /** Arguments or formals beyond the shorter list do not matter. */
  lemma {:induction false} BindingsOfMin(formals: seq<nat>, args: seq<Expr>, stIdxOff: nat, n: nat)
    requires n == if |args| < |formals| then |args| else |formals|
    ensures Bindings(formals[..n], args[..n], stIdxOff) == Bindings(formals, args, stIdxOff)
    decreases |formals|
  {
    if n > 0 {
      BindingsOfMin(formals[1..], args[1..], stIdxOff, n - 1);
      assert formals[..n][1..] == formals[1..][..n - 1] && args[..n][1..] == args[1..][..n - 1];
    }
  }

  lemma CleanedMeans(core: seq<Stmt>, upd: seq<Stmt>, count: nat, last: LastGoto, ownLabel: bool, ret: nat)
    requires upd == core + (if ownLabel then [Label(ret)] else [])
    requires last.At? ==> last.i < |upd| && upd[last.i] == Goto(ret)
    ensures var cleaned := Cleaned(upd, count, last, ownLabel);
      && (cleaned == None <==> count > 0 && last == Nowhere)
      && (cleaned.Some? ==> Variant(core, cleaned.value, ret))
      && (cleaned.Some? && count == Gotos(core, ret) ==>
            (ownLabel ==> (cleaned.value != [] && cleaned.value[|cleaned.value| - 1] == Label(ret))
                          || ret !in Targets(cleaned.value)))
  {
    hide Gotos, Targets;
    if count == Gotos(core, ret) && Cleaned(upd, count, last, ownLabel).Some? {
      CleanedIsVariant(core, upd, count, last, ownLabel, ret);
    }
  }

  /** Removes a jump to the very next statement, and the label nobody jumps to: what is left of `core`, with or without
      the label, is a variant of it, and the label is there if anything jumps to it. */
  method RemoveSuperfluous(updated: seq<Stmt>, lastGoto: LastGoto, retCount: nat, ownLabel: bool,
                           ghost core: seq<Stmt>, ghost ret: nat)
      returns (cleaned: Option<seq<Stmt>>)
    requires updated == core + (if ownLabel then [Label(ret)] else [])
    requires lastGoto.At? ==> lastGoto.i < |updated| && updated[lastGoto.i] == Goto(ret)
    ensures cleaned == None <==> retCount > 0 && lastGoto == Nowhere
    ensures cleaned.Some? ==> Variant(core, cleaned.value, ret)
    ensures cleaned.Some? && retCount == Gotos(core, ret) ==>
              (ownLabel ==> (cleaned.value != [] && cleaned.value[|cleaned.value| - 1] == Label(ret))
                            || ret !in Targets(cleaned.value))
    ensures cleaned == Cleaned(updated, retCount, lastGoto, ownLabel)
  {
    CleanedMeans(core, updated, retCount, lastGoto, ownLabel, ret);
    hide Variant, Gotos, Targets;
    if retCount == 0 {
      return Some(if ownLabel then updated[..|updated| - 1] else updated);
    }
    if lastGoto == Nowhere {
      return None;
    }
    if ownLabel {
      if |updated| > 1 && lastGoto == At(|updated| - 2) {
        return Some(updated[..|updated| - 2] + (if retCount == 1 then [] else [updated[|updated| - 1]]));
      }
    } else if |updated| > 0 && lastGoto == At(|updated| - 1) {
      return Some(updated[..|updated| - 1]);
    }
    return Some(updated);
  }

  /** The body that is to replace the call, in a caller whose tables are enlarged accordingly. */
  method MakeBody(caller: MIRFunction, blk: seq<Stmt>, i: nat, callee: Callee, inlinedTimes: nat)
      returns (ghost at: Site, newBody: Option<seq<Stmt>>)
    requires i < |blk| && blk[i].Call? && |caller.labTab| > 0 && |callee.labTab| > 0 && TablesFit(callee)
    requires TableOk(caller.symTab) && TableOk(callee.symTab) && Unused(caller.symTab, callee.puIdx, inlinedTimes)
    modifies caller`symTab, caller`labTab
    ensures at == SiteAt(callee.func, old(|caller.symTab|), old(|caller.labTab|), blk, i)
    ensures newBody == NewBody(callee.func, blk[i].args, at, !LabelFollows(blk, i))
    ensures |caller.symTab| == old(|caller.symTab|) + callee.func.symbols - 1
    ensures |caller.labTab| == old(|caller.labTab|) + callee.func.labels - 1 + (if LabelFollows(blk, i) then 0 else 1)
    ensures TableOk(caller.symTab) && Unused(caller.symTab, callee.puIdx, inlinedTimes + 1)
    ensures SameFormals(old(caller.symTab), caller.symTab)
  {
    hide TableOk, Unused, SameFormals, UpdateReturns, Remembered, Core, Cleaned, Variant, Targets, Gotos, Returns;
    var call, f := blk[i], callee.func;
    var stIdxOff := caller.RenameSymbols(callee, inlinedTimes);
    var labIdxOff := caller.RenameLabels(callee, inlinedTimes);
    var copy := ReplaceLabels(ReplaceSymbols(f.body, stIdxOff), labIdxOff);
    copy := BindArguments(copy, f.formals, call.args, stIdxOff);
    var retLabIdx: nat;
    var ownLabel := !(i + 1 < |blk| && blk[i + 1].Label?);
    if ownLabel {
      retLabIdx := caller.CreateReturnLabel(callee.puIdx, inlinedTimes);
      copy := copy + [Label(retLabIdx)];
    } else {
      retLabIdx := blk[i + 1].l;
    }
    at := Site(stIdxOff, labIdxOff, retLabIdx, call.res);
    assert copy == RawBody(f, call.args, at, ownLabel);
    var updated, lastGoto, retCount := UpdateReturnStmts(copy, retLabIdx, call.res, 0);
    UpdatedIsCore(f, call.args, at, ownLabel);
    if lastGoto.At? {
      RememberedIsGoto(copy, Nowhere, 0, at.ret, at.res, lastGoto.i);
    }
    newBody := RemoveSuperfluous(updated, lastGoto, retCount, ownLabel, Core(f, call.args, at), at.ret);
  }

  /** What `PerformInline` makes of the caller. */
  ghost predicate Performed(before: Function, path: Path, i: nat, callee: Function, after: Function, inlined: bool,
                            fatal: bool)
    requires ValidPath(before.body, path) && i < |BlockAt(before.body, path)|
  {
    var blk := BlockAt(before.body, path);
    if callee.body == [] then (
      !inlined && !fatal && after == before.(body := ReplaceAt(before.body, path, blk[..i] + blk[i + 1..]))
    ) else (
      && CallSite(before, path, i, callee)
      && inlined == !fatal && (fatal <==> Replacement(before, path, i, callee) == None)
      && (!fatal ==> after == InlinedCaller(before, path, i, callee))
    )
  }

  /** Inlines the call at index `i` of the block at the end of `path`. `fatal`: the inliner gives up. */
  method PerformInline(caller: MIRFunction, path: Path, i: nat, callee: Callee, inlinedTimes: nat)
      returns (inlined: bool, fatal: bool)
    requires callee.func.body != [] ==> CallSite(caller.Value(), path, i, callee.func) && TablesFit(callee)
    requires ValidPath(caller.body, path) && i < |BlockAt(caller.body, path)|
    requires TableOk(caller.symTab) && TableOk(callee.symTab) && Unused(caller.symTab, callee.puIdx, inlinedTimes)
    modifies caller
    ensures Performed(old(caller.Value()), path, i, callee.func, caller.Value(), inlined, fatal)
    ensures TableOk(caller.symTab) && Unused(caller.symTab, callee.puIdx, inlinedTimes + 1)
    ensures SameFormals(old(caller.symTab), caller.symTab) && caller.formals == old(caller.formals)
    ensures old(FormalsListed(caller.symTab, caller.formals)) ==> FormalsListed(caller.symTab, caller.formals)
  {
    hide CallSite, TableOk, Unused, NewBody, ReplaceAt, BlockAt, ValidPath;
    UnusedLater(caller.symTab, callee.puIdx, inlinedTimes);
    ghost var before := caller.Value();
    var blk := BlockAt(caller.body, path);
    if callee.func.body == [] {
      caller.body := ReplaceAt(caller.body, path, blk[..i] + blk[i + 1..]);
      return false, false;
    }
    CalleeHasTables(before, path, i, callee);
    var at, newBody := MakeBody(caller, blk, i, callee, inlinedTimes);
    assert newBody == Replacement(before, path, i, callee.func);
    if newBody == None {
      return false, true;
    }
    caller.body := ReplaceAt(caller.body, path, blk[..i] + newBody.value + blk[i + 1..]);
    return true, false;
  }

  lemma UnusedLater(t: SymTab, puIdx: nat, times: nat)
    ensures Unused(t, puIdx, times) ==> Unused(t, puIdx, times + 1)
  {
  }

  lemma CalleeHasTables(before: Function, path: Path, i: nat, callee: Callee)
    requires CallSite(before, path, i, callee.func) && TablesFit(callee)
    ensures before.labels > 0 && |callee.labTab| > 0 && BlockAt(before.body, path)[i].Call?
  {
  }
}
