/** Marking functions that never return null: flags on variable versions that are only ever cleared, and a state
    machine over the return statements. */
module ReturnNull {
  import opened Wrappers

  type TyIdx = nat

  /** Expressions as far as the analysis looks into them; versions are numbered within their function. */
  datatype Expr =
    | Var(v: nat)
    | Ivar(v: nat)
    | Retype(e: Expr)
    | Alloc(ty: TyIdx)
    | Nary(es: seq<Expr>)
    | Other

  /** What gives a version its value: for an indirect version, the store that defines it. */
  datatype Def =
    | ByStmt(rhs: Expr)
    | ByPhi(opnds: seq<nat>)
    | ByCall(callee: nat)
    | ByStore(rhs: Expr)
    | Unknown

  /** A version, and the type its symbol implies, 0 when none. */
  datatype Version = Version(def: Def, symbolTy: TyIdx)

  datatype Phi = Phi(lhs: nat, opnds: seq<nat>)

  /** A statement evaluates expressions; it may assign a call's result, and it may return a value. */
  datatype Stmt = Stmt(uses: seq<Expr>, callAssigned: Option<(nat, nat)>, ret: Option<Expr>)

  datatype Block = Block(phis: seq<Phi>, stmts: seq<Stmt>)

  /** `blocks` are the reachable ones, in reverse post order. */
  datatype Function = Function(isEmpty: bool, returnsPointer: bool, versions: seq<Version>, blocks: seq<Block>,
                               inferredReturnTy: TyIdx)

  /** Functions that are declared never to return null, functions that come with the mark, and `malloc`. */
  datatype Program = Program(funs: seq<Function>, declared: set<nat>, imported: set<nat>, malloc: set<nat>)

  ghost function Trusted(p: Program): set<nat> {
    p.declared + p.imported + p.malloc
  }

  function DefOf(p: Program, f: nat, v: nat): Def {
    if f < |p.funs| && v < |p.funs[f].versions| then p.funs[f].versions[v].def else Unknown
  }

  /** Static single assignment: phi nodes and calls are the definitions of the versions they assign. */
  ghost predicate StmtOk(p: Program, f: nat, s: Stmt) {
    && (s.callAssigned.Some? ==> DefOf(p, f, s.callAssigned.value.0) == ByCall(s.callAssigned.value.1))
  }

  ghost predicate PhiOk(p: Program, f: nat, phi: Phi) {
    DefOf(p, f, phi.lhs) == ByPhi(phi.opnds)
  }

  ghost predicate BlockOk(p: Program, f: nat, b: Block) {
    && (forall i :: 0 <= i < |b.phis| ==> PhiOk(p, f, b.phis[i]))
    && (forall i :: 0 <= i < |b.stmts| ==> StmtOk(p, f, b.stmts[i]))
  }

  ghost predicate SsaOk(p: Program) {
    forall f, i :: 0 <= f < |p.funs| && 0 <= i < |p.funs[f].blocks| ==> BlockOk(p, f, p.funs[f].blocks[i])
  }

  // ---------------------------------------------------------------------------------------------
  // Runs.
  // ---------------------------------------------------------------------------------------------

  /** One run of a function: the versions it defines, one after the other, and what it returns. A definition by a
      call of a function with a body holds that function's run. The value 0 is null. */
  datatype Run = Run(f: nat, events: seq<Event>, ret: Option<(Expr, int)>)

  datatype Event = Event(v: nat, val: int, inner: seq<Run>)

  /** The values that versions have after the first `i` events. */
  ghost function EnvAt(events: seq<Event>, i: nat): map<nat, int>
    requires i <= |events|
  {
    if i == 0 then map[] else EnvAt(events, i - 1)[events[i - 1].v := events[i - 1].val]
  }

  /** `val` is a value the expression may have; allocations succeed. */
  ghost predicate Yields(e: Expr, env: map<nat, int>, val: int) {
    match e
    case Var(v) => v in env && val == env[v]
    case Ivar(v) => v in env && val == env[v]
    case Retype(e1) => Yields(e1, env, val)
    case Alloc(_) => val != 0
    case _ => true
  }

  ghost predicate HasBody(p: Program, f: nat) {
    f < |p.funs| && !p.funs[f].isEmpty
  }

  ghost predicate Valid(p: Program, r: Run)
    decreases r
  {
    && HasBody(p, r.f)
    && (forall i :: 0 <= i < |r.events| ==> EventOk(p, r.f, EnvAt(r.events, i), r.events[i]))
    && (r.ret.Some? ==> r.ret.value.0 in ReturnedBy(p.funs[r.f])
                        && Yields(r.ret.value.0, EnvAt(r.events, |r.events|), r.ret.value.1))
    && (r.f in Trusted(p) && r.ret.Some? ==> r.ret.value.1 != 0)
  }

  ghost predicate EventOk(p: Program, f: nat, env: map<nat, int>, e: Event)
    decreases e
  {
    match DefOf(p, f, e.v)
    case ByStmt(rhs) => Yields(rhs, env, e.val)
    case ByStore(rhs) => Yields(rhs, env, e.val)
    case ByPhi(opnds) => exists k :: 0 <= k < |opnds| && opnds[k] in env && env[opnds[k]] == e.val
    case ByCall(g) =>
      if HasBody(p, g) then
        |e.inner| == 1 && e.inner[0].f == g && Valid(p, e.inner[0]) && e.inner[0].ret.Some?
        && e.inner[0].ret.value.1 == e.val
      else g in Trusted(p) ==> e.val != 0
    case Unknown => true
  }

  /** The expressions that reachable return statements return. */
  ghost function ReturnedBy(f: Function): set<Expr> {
    ReturnsIn(f.blocks)
  }

  ghost function ReturnsIn(bs: seq<Block>): set<Expr> {
    set i, j | 0 <= i < |bs| && 0 <= j < |bs[i].stmts| && bs[i].stmts[j].ret.Some? :: bs[i].stmts[j].ret.value
  }

  ghost function ReturnsOf(ss: seq<Stmt>): set<Expr> {
    set j | 0 <= j < |ss| && ss[j].ret.Some? :: ss[j].ret.value
  }

  lemma NoReturns()
    ensures ReturnsOf([]) == {}
  {
  }

  lemma NoBlocks()
    ensures ReturnsIn([]) == {}
  {
  }

  lemma ReturnsOfMore(ss: seq<Stmt>, n: nat)
    requires n < |ss|
    ensures ReturnsOf(ss[..n + 1]) == ReturnsOf(ss[..n]) + if ss[n].ret.Some? then {ss[n].ret.value} else {}
  {
    assert ss[..n + 1] == ss[..n] + [ss[n]];
  }

  lemma ReturnsInMore(bs: seq<Block>, n: nat)
    requires n < |bs|
    ensures ReturnsIn(bs[..n + 1]) == ReturnsIn(bs[..n]) + ReturnsOf(bs[n].stmts)
  {
    assert bs[..n + 1] == bs[..n] + [bs[n]];
  }

  // ---------------------------------------------------------------------------------------------
  // Flags and marks that can be relied on.
  // ---------------------------------------------------------------------------------------------

  /** The versions, by function and number, that are known not to be null. */
  type Flags = set<(nat, nat)>

  function MaybeNull(flags: Flags, f: nat, e: Expr): bool {
    match e
    case Var(v) => (f, v) !in flags
    case Ivar(v) => (f, v) !in flags
    case Retype(e1) => MaybeNull(flags, f, e1)
    case _ => true
  }

  ghost predicate Justified(p: Program, flags: Flags, marks: set<nat>, f: nat, v: nat) {
    match DefOf(p, f, v)
    case ByStmt(rhs) => rhs.Alloc? || !MaybeNull(flags, f, rhs)
    case ByStore(rhs) => rhs.Alloc? || !MaybeNull(flags, f, rhs)
    case ByPhi(opnds) => forall k :: 0 <= k < |opnds| ==> (f, opnds[k]) in flags
    case ByCall(g) => g in marks || g in Trusted(p)
    case Unknown => false
  }

  ghost predicate MarkJustified(p: Program, flags: Flags, f: nat) {
    f in Trusted(p) || (HasBody(p, f) && forall e :: e in ReturnedBy(p.funs[f]) ==> !MaybeNull(flags, f, e))
  }

  ghost predicate Reliable(p: Program, flags: Flags, marks: set<nat>) {
    && (forall f: nat, v: nat {:trigger (f, v) in flags} :: (f, v) in flags ==> Justified(p, flags, marks, f, v))
    && (forall f {:trigger f in marks} :: f in marks ==> MarkJustified(p, flags, f))
  }

  lemma {:induction false} NonNullYields(flags: Flags, f: nat, e: Expr, env: map<nat, int>, val: int)
    requires forall v :: v in env && (f, v) in flags ==> env[v] != 0
    requires Yields(e, env, val) && (e.Alloc? || !MaybeNull(flags, f, e))
    ensures val != 0
  {
    if e.Retype? {
      NonNullYields(flags, f, e.e, env, val);
    }
  }

  /** If the event is a call of a function that is marked or trusted, its value is not null. */
  ghost predicate CallsNonNull(p: Program, marks: set<nat>, f: nat, e: Event) {
    var d := DefOf(p, f, e.v);
    d.ByCall? && HasBody(p, d.callee) && (d.callee in marks || d.callee in Trusted(p)) ==> e.val != 0
  }

  lemma ValidEvent(p: Program, r: Run, i: nat)
    requires Valid(p, r) && i < |r.events|
    ensures EventOk(p, r.f, EnvAt(r.events, i), r.events[i])
  {
  }

  lemma EnvAfter(events: seq<Event>, i: nat, v: nat)
    requires i <= |events| && v in EnvAt(events, i)
    ensures i > 0
    ensures events[i - 1].v == v ==> EnvAt(events, i)[v] == events[i - 1].val
    ensures events[i - 1].v != v ==> v in EnvAt(events, i - 1) && EnvAt(events, i)[v] == EnvAt(events, i - 1)[v]
  {
  }

  lemma FlagIsJustified(p: Program, flags: Flags, marks: set<nat>, f: nat, v: nat)
    requires Reliable(p, flags, marks) && (f, v) in flags
    ensures Justified(p, flags, marks, f, v) && forall g :: g in marks ==> MarkJustified(p, flags, g)
  {
  }

  /** A flagged version is given a value other than null. */
  lemma DefinedNonNull(p: Program, flags: Flags, marks: set<nat>, f: nat, env: map<nat, int>, e: Event)
    requires EventOk(p, f, env, e) && Justified(p, flags, marks, f, e.v)
    requires forall g :: g in marks ==> MarkJustified(p, flags, g)
    requires forall v :: v in env && (f, v) in flags ==> env[v] != 0
    requires CallsNonNull(p, marks, f, e)
    ensures e.val != 0
  {
    match DefOf(p, f, e.v)
    case ByStmt(rhs) => NonNullYields(flags, f, rhs, env, e.val);
    case ByStore(rhs) => NonNullYields(flags, f, rhs, env, e.val);
    case ByPhi(opnds) =>
    case ByCall(g) =>
  }

  /** At every moment of a run the flagged versions are not null. */
  lemma {:induction false} FlaggedAreNonNull(p: Program, flags: Flags, marks: set<nat>, r: Run, i: nat, v: nat)
    requires Reliable(p, flags, marks) && Valid(p, r) && i <= |r.events|
    requires v in EnvAt(r.events, i) && (r.f, v) in flags
    ensures EnvAt(r.events, i)[v] != 0
    decreases r, i, 0
  {
    hide *;
    EnvAfter(r.events, i, v);
    var e := r.events[i - 1];
    if e.v != v {
      FlaggedAreNonNull(p, flags, marks, r, i - 1, v);
    } else {
      var env := EnvAt(r.events, i - 1);
      ValidEvent(p, r, i - 1);
      FlagIsJustified(p, flags, marks, r.f, v);
      CalledNonNull(p, flags, marks, r, i - 1);
      forall w | w in env && (r.f, w) in flags
        ensures env[w] != 0
      {
        FlaggedAreNonNull(p, flags, marks, r, i - 1, w);
      }
      DefinedNonNull(p, flags, marks, r.f, env, e);
    }
  }

  lemma {:induction false} CalledNonNull(p: Program, flags: Flags, marks: set<nat>, r: Run, i: nat)
    requires Reliable(p, flags, marks) && Valid(p, r) && i < |r.events|
    ensures CallsNonNull(p, marks, r.f, r.events[i])
    decreases r, i, 1
  {
    var e := r.events[i];
    assert EventOk(p, r.f, EnvAt(r.events, i), e);
    if DefOf(p, r.f, e.v).ByCall? {
      var g := DefOf(p, r.f, e.v).callee;
      if HasBody(p, g) && g in marks {
        MarkedNeverReturnNull(p, flags, marks, e.inner[0]);
      }
    }
  }

  /** In every run a marked function never returns null, however its runs are nested. */
  lemma {:induction false} MarkedNeverReturnNull(p: Program, flags: Flags, marks: set<nat>, r: Run)
    requires Reliable(p, flags, marks) && Valid(p, r) && r.f in marks && r.ret.Some?
    ensures r.ret.value.1 != 0
    decreases r, |r.events| + 1, 0
  {
    if r.f !in Trusted(p) {
      var env := EnvAt(r.events, |r.events|);
      forall v | v in env && (r.f, v) in flags
        ensures env[v] != 0
      {
        FlaggedAreNonNull(p, flags, marks, r, |r.events|, v);
      }
      NonNullYields(flags, r.f, r.ret.value.0, env, r.ret.value.1);
    }
  }

  /** More flags and marks justify what fewer did. */
  lemma {:induction false} MaybeNullFalls(flags: Flags, flags': Flags, f: nat, e: Expr)
    requires flags <= flags'
    ensures !MaybeNull(flags, f, e) ==> !MaybeNull(flags', f, e)
  {
    if e.Retype? {
      MaybeNullFalls(flags, flags', f, e.e);
    }
  }

  lemma StaysReliable(p: Program, flags: Flags, marks: set<nat>, f: nat, v: nat)
    requires Reliable(p, flags, marks) && Justified(p, flags, marks, f, v)
    ensures Reliable(p, flags + {(f, v)}, marks)
  {
    var flags' := flags + {(f, v)};
    forall g: nat, w: nat | (g, w) in flags'
      ensures Justified(p, flags', marks, g, w)
    {
      assert Justified(p, flags, marks, g, w);
      match DefOf(p, g, w)
      case ByStmt(rhs) => MaybeNullFalls(flags, flags', g, rhs);
      case ByStore(rhs) => MaybeNullFalls(flags, flags', g, rhs);
      case _ =>
    }
    forall g | g in marks
      ensures MarkJustified(p, flags', g)
    {
      if g !in Trusted(p) {
        forall e | e in ReturnedBy(p.funs[g])
          ensures !MaybeNull(flags', g, e)
        {
          MaybeNullFalls(flags, flags', g, e);
        }
      }
    }
  }

  lemma MarkStaysReliable(p: Program, flags: Flags, marks: set<nat>, f: nat)
    requires Reliable(p, flags, marks) && MarkJustified(p, flags, f)
    ensures Reliable(p, flags, marks + {f})
  {
    forall g: nat, w: nat | (g, w) in flags
      ensures Justified(p, flags, marks + {f}, g, w)
    {
      assert Justified(p, flags, marks, g, w);
    }
  }

  // ---------------------------------------------------------------------------------------------
  // The analysis.
  // ---------------------------------------------------------------------------------------------

  datatype TagRetTyIdx = NotSeen | Seen | Failed

  /** What the return statements in `seen` have shown. */
  ghost predicate ReturnsOk(retTy: TagRetTyIdx, maybeNull: bool, seen: set<Expr>, flags: Flags, f: nat) {
    && (retTy == NotSeen ==> seen == {} && maybeNull)
    && (retTy == Seen && !maybeNull ==> forall e :: e in seen ==> !MaybeNull(flags, f, e))
  }

  /** As long as the types agree, a null is possible exactly if one of the returns in `seenNull` was seen, which could
      be null when they were visited, and so when the traversal began. */
  ghost predicate NullsOk(retTy: TagRetTyIdx, maybeNull: bool, seen: set<Expr>, seenNull: set<Expr>, flags: Flags,
                          f: nat) {
    && seenNull <= seen && (retTy == Seen ==> (maybeNull <==> seenNull != {}))
    && forall e :: e in seenNull ==> MaybeNull(flags, f, e)
  }

  /** The types of the return statements agree until two differ. */
  ghost predicate TypesOk(retTy: TagRetTyIdx, ty: TyIdx, seenTys: set<TyIdx>) {
    match retTy
    case NotSeen => seenTys == {}
    case Seen => seenTys == {ty}
    case Failed => ty == 0 && exists a, b :: a in seenTys && b in seenTys && a != b
  }

  /** The type inferred for an expression so far. */
  ghost function InferredTy(p: Program, inferredTy: map<(nat, nat), TyIdx>, f: nat, e: Expr): TyIdx {
    match e
    case Var(v) =>
      if (f, v) in inferredTy then inferredTy[(f, v)]
      else if f < |p.funs| && v < |p.funs[f].versions| then p.funs[f].versions[v].symbolTy
      else 0
    case Ivar(v) => if (f, v) in inferredTy then inferredTy[(f, v)] else 0
    case Retype(e1) => InferredTy(p, inferredTy, f, e1)
    case _ => 0
  }

  /** Whether the definition of a version clears its flag. */
  ghost predicate Clears(flags: Flags, f: nat, rhs: Expr) {
    rhs.Alloc? || !MaybeNull(flags, f, rhs)
  }

  // ---------------------------------------------------------------------------------------------
  // Types.
  // ---------------------------------------------------------------------------------------------

  /** Looking at the type of `e` remembers what its symbol implies. */
  ghost function Cached(p: Program, tys: map<(nat, nat), TyIdx>, f: nat, e: Expr): map<(nat, nat), TyIdx> {
    match e
    case Var(v) =>
      if (f, v) !in tys && f < |p.funs| && v < |p.funs[f].versions| && p.funs[f].versions[v].symbolTy != 0 then
        tys[(f, v) := p.funs[f].versions[v].symbolTy]
      else tys
    case Retype(e1) => Cached(p, tys, f, e1)
    case _ => tys
  }

  /** What visiting a version defined as `rhs` does to its type: it becomes that of the allocation, or, as long as the
      value may be null, the known one of the value. */
  ghost predicate Retyped(p: Program, tys: map<(nat, nat), TyIdx>, tys': map<(nat, nat), TyIdx>, flags: Flags, f: nat,
                          v: nat, rhs: Expr) {
    var t := InferredTy(p, tys, f, rhs);
    tys' == if rhs.Alloc? then tys[(f, v) := rhs.ty]
            else if !MaybeNull(flags, f, rhs) then tys
            else if t != 0 then Cached(p, tys, f, rhs)[(f, v) := t]
            else Cached(p, tys, f, rhs)
  }

  /** The version `v` may have the type `t`: its symbol implies it, or its definition is an allocation of that type, a
      call of a function that returns it, or an expression that may have it; `depth` bounds the definitions followed. */
  ghost predicate VersionMayHave(p: Program, f: nat, v: nat, t: TyIdx, depth: nat)
    decreases depth, 0
  {
    || (f < |p.funs| && v < |p.funs[f].versions| && p.funs[f].versions[v].symbolTy == t)
    || (depth > 0 &&
        match DefOf(p, f, v)
        case ByStmt(rhs) => rhs == Alloc(t) || MayHave(p, f, rhs, t, depth - 1)
        case ByStore(rhs) => rhs == Alloc(t) || MayHave(p, f, rhs, t, depth - 1)
        case ByCall(g) => g < |p.funs| && p.funs[g].inferredReturnTy == t
        case _ => false)
  }

  ghost predicate MayHave(p: Program, f: nat, e: Expr, t: TyIdx, depth: nat)
    decreases depth, 1, e
  {
    match e
    case Var(v) => VersionMayHave(p, f, v, t, depth)
    case Ivar(v) => VersionMayHave(p, f, v, t, depth)
    case Retype(e1) => MayHave(p, f, e1, t, depth)
    case _ => false
  }

  /** The version `v` is defined as an allocation of type `t`. */
  ghost predicate AllocatedAs(p: Program, f: nat, v: nat, t: TyIdx) {
    DefOf(p, f, v) == ByStmt(Alloc(t)) || DefOf(p, f, v) == ByStore(Alloc(t))
  }

  /** Every inferred type is one the version may have, and allocations whose flag has been cleared have theirs. */
  ghost predicate Typed(p: Program, flags: Flags, tys: map<(nat, nat), TyIdx>) {
    && (forall f: nat, v: nat {:trigger (f, v) in tys} :: (f, v) in tys ==>
          exists depth: nat :: VersionMayHave(p, f, v, tys[(f, v)], depth))
    && (forall f: nat, v: nat, t {:trigger AllocatedAs(p, f, v, t)} :: (f, v) in flags && AllocatedAs(p, f, v, t) ==>
          (f, v) in tys && tys[(f, v)] == t)
  }

  lemma {:induction false} InferredMayHave(p: Program, flags: Flags, tys: map<(nat, nat), TyIdx>, f: nat, e: Expr)
    requires Typed(p, flags, tys)
    ensures InferredTy(p, tys, f, e) != 0 ==> exists depth: nat :: MayHave(p, f, e, InferredTy(p, tys, f, e), depth)
  {
    var t := InferredTy(p, tys, f, e);
    if t != 0 {
      match e
      case Var(v) =>
        if (f, v) in tys {
          var depth: nat :| VersionMayHave(p, f, v, t, depth);
          assert MayHave(p, f, e, t, depth);
        } else {
          assert MayHave(p, f, e, t, 0);
        }
      case Ivar(v) =>
        var depth: nat :| VersionMayHave(p, f, v, t, depth);
        assert MayHave(p, f, e, t, depth);
      case Retype(e1) =>
        InferredMayHave(p, flags, tys, f, e1);
        var depth: nat :| MayHave(p, f, e1, t, depth);
        assert MayHave(p, f, e, t, depth);
      case _ =>
    }
  }

  lemma {:induction false} CachedIsTyped(p: Program, flags: Flags, tys: map<(nat, nat), TyIdx>, f: nat, e: Expr)
    requires Typed(p, flags, tys)
    ensures Typed(p, flags, Cached(p, tys, f, e))
  {
    match e
    case Var(v) =>
      if f < |p.funs| && v < |p.funs[f].versions| {
        assert VersionMayHave(p, f, v, p.funs[f].versions[v].symbolTy, 0);
      }
    case Retype(e1) => CachedIsTyped(p, flags, tys, f, e1);
    case _ =>
  }

  lemma RetypedIsTyped(p: Program, flags: Flags, tys: map<(nat, nat), TyIdx>, tys': map<(nat, nat), TyIdx>, f: nat,
                       v: nat, rhs: Expr)
    requires Typed(p, flags, tys) && Retyped(p, tys, tys', flags, f, v, rhs)
    requires DefOf(p, f, v) == ByStmt(rhs) || DefOf(p, f, v) == ByStore(rhs)
    ensures Typed(p, flags + if Clears(flags, f, rhs) then {(f, v)} else {}, tys')
  {
    if rhs.Alloc? {
      assert VersionMayHave(p, f, v, rhs.ty, 1);
    } else if MaybeNull(flags, f, rhs) {
      CachedIsTyped(p, flags, tys, f, rhs);
      InferredMayHave(p, flags, tys, f, rhs);
      var t := InferredTy(p, tys, f, rhs);
      if t != 0 {
        var depth: nat :| MayHave(p, f, rhs, t, depth);
        assert VersionMayHave(p, f, v, t, depth + 1);
      }
    }
  }

  /** Flags of versions that are no allocations leave the types alone. */
  lemma FlagStaysTyped(p: Program, flags: Flags, tys: map<(nat, nat), TyIdx>, f: nat, v: nat)
    requires Typed(p, flags, tys) && !DefOf(p, f, v).ByStmt? && !DefOf(p, f, v).ByStore?
    ensures Typed(p, flags + {(f, v)}, tys)
  {
  }

  lemma CallIsTyped(p: Program, flags: Flags, tys: map<(nat, nat), TyIdx>, f: nat, v: nat, g: nat)
    requires Typed(p, flags, tys) && DefOf(p, f, v) == ByCall(g) && g < |p.funs|
    ensures Typed(p, flags, tys[(f, v) := p.funs[g].inferredReturnTy])
  {
    assert VersionMayHave(p, f, v, p.funs[g].inferredReturnTy, 1);
  }

  /** The returned value `e` is an allocation of type `t`, kept in a version. */
  ghost predicate ReturnsAllocation(p: Program, f: nat, e: Expr, t: TyIdx) {
    match e
    case Var(v) => DefOf(p, f, v) == ByStmt(Alloc(t))
    case Ivar(v) => DefOf(p, f, v) == ByStore(Alloc(t))
    case Retype(e1) => ReturnsAllocation(p, f, e1, t)
    case _ => false
  }

  /** A version that has been visited and is an allocation is known not to be null, and its type is known. */
  lemma {:induction false} AllocationIsKnown(p: Program, flags: Flags, flags': Flags, tys: map<(nat, nat), TyIdx>,
                                             f: nat, e: Expr, t: TyIdx)
    requires UseClears(p, flags, flags', f, e) && Typed(p, flags', tys) && ReturnsAllocation(p, f, e, t)
    ensures !MaybeNull(flags', f, e) && InferredTy(p, tys, f, e) == t
  {
    match e
    case Var(v) => assert AllocatedAs(p, f, v, t);
    case Ivar(v) => assert AllocatedAs(p, f, v, t);
    case Retype(e1) => AllocationIsKnown(p, flags, flags', tys, f, e1, t);
  }

  /** The type `t` is right for the returned value `e`: that of the allocation it is, or one it may have, or unknown. */
  ghost predicate RightType(p: Program, f: nat, e: Expr, t: TyIdx) {
    && (forall u :: ReturnsAllocation(p, f, e, u) ==> u == t)
    && (t != 0 ==> exists depth: nat :: MayHave(p, f, e, t, depth))
  }

  /** What is known of the returned values in `seen`: allocations are not null and have their types, and every type is
      right for one of them. */
  ghost predicate SeenRight(p: Program, f: nat, seen: set<Expr>, nulls: set<Expr>, tys: set<TyIdx>) {
    && (forall e, t {:trigger ReturnsAllocation(p, f, e, t)} :: e in seen && ReturnsAllocation(p, f, e, t) ==>
          t in tys && e !in nulls)
    && (forall t {:trigger t in tys} :: t in tys ==> exists e :: e in seen && RightType(p, f, e, t))
  }

  lemma OneMoreSeen(p: Program, flags: Flags, flags': Flags, types: map<(nat, nat), TyIdx>, f: nat, seen: set<Expr>,
                    nulls: set<Expr>, tys: set<TyIdx>, e: Expr)
    requires SeenRight(p, f, seen, nulls, tys) && nulls <= seen
    requires UseClears(p, flags, flags', f, e) && Typed(p, flags', types)
    ensures SeenRight(p, f, seen + {e}, nulls + (if MaybeNull(flags', f, e) then {e} else {}),
                      tys + {InferredTy(p, types, f, e)})
  {
    hide UseClears, Typed, MayHave;
    var t := InferredTy(p, types, f, e);
    InferredMayHave(p, flags', types, f, e);
    forall u | ReturnsAllocation(p, f, e, u)
      ensures u == t && !MaybeNull(flags', f, e)
    {
      AllocationIsKnown(p, flags, flags', types, f, e, u);
    }
    assert RightType(p, f, e, t);
    hide RightType, ReturnsAllocation, MaybeNull, InferredTy;
    var nulls' := nulls + if MaybeNull(flags', f, e) then {e} else {};
    forall e', u | e' in seen + {e} && ReturnsAllocation(p, f, e', u)
      ensures u in tys + {t} && e' !in nulls'
    {
      assert e' in seen || e' == e;
    }
    forall u | u in tys + {t}
      ensures exists e' :: e' in seen + {e} && RightType(p, f, e', u)
    {
      if u in tys {
        var e' :| e' in seen && RightType(p, f, e', u);
        assert e' in seen + {e};
      } else {
        assert e in seen + {e};
      }
    }
  }

  /** All returns return allocations of one type, and there is one. */
  ghost predicate AllAllocate(p: Program, f: nat, t: TyIdx) {
    HasBody(p, f) && p.funs[f].returnsPointer && ReturnedBy(p.funs[f]) != {}
    && forall e :: e in ReturnedBy(p.funs[f]) ==> ReturnsAllocation(p, f, e, t)
  }

  /** The function returns allocations of two different types. */
  ghost predicate TypesDiffer(p: Program, f: nat) {
    f < |p.funs| && exists e, t, e', t' :: e in ReturnedBy(p.funs[f]) && e' in ReturnedBy(p.funs[f]) && t != t'
                                           && ReturnsAllocation(p, f, e, t) && ReturnsAllocation(p, f, e', t')
  }

  /** Who may be marked at all, unless declared: it returns a pointer, and not allocations of different types. */
  ghost predicate Markable(p: Program, f: nat) {
    HasBody(p, f) && p.funs[f].returnsPointer && ReturnedBy(p.funs[f]) != {} && !TypesDiffer(p, f)
  }

  // ---------------------------------------------------------------------------------------------
  // What the analysis must find out.
  // ---------------------------------------------------------------------------------------------

  /** What a traversal comes to, one after the other. */
  datatype Item = Use(e: Expr) | PhiAt(phi: Phi) | CallAt(lhs: nat, callee: nat) | RetAt(ret: Expr)

  ghost function UsesOf(es: seq<Expr>): seq<Item> {
    seq(|es|, (i: nat) requires i < |es| => Use(es[i]))
  }

  ghost function StmtItems(s: Stmt): seq<Item> {
    UsesOf(s.uses) + (if s.ret.Some? then [Use(s.ret.value), RetAt(s.ret.value)] else [])
    + (if s.callAssigned.Some? then [CallAt(s.callAssigned.value.0, s.callAssigned.value.1)] else [])
  }

  ghost function StmtsItems(ss: seq<Stmt>): seq<Item> {
    if ss == [] then [] else StmtsItems(ss[..|ss| - 1]) + StmtItems(ss[|ss| - 1])
  }

  ghost function PhiItems(phis: seq<Phi>): seq<Item> {
    seq(|phis|, (i: nat) requires i < |phis| => PhiAt(phis[i]))
  }

  ghost function BlocksItems(bs: seq<Block>): seq<Item> {
    if bs == [] then []
    else BlocksItems(bs[..|bs| - 1]) + (PhiItems(bs[|bs| - 1].phis) + StmtsItems(bs[|bs| - 1].stmts))
  }

  /** Evaluating `e` comes to `x`, a version. */
  ghost predicate Comes(e: Expr, x: Expr) {
    || e == x
    || match e
       case Retype(e1) => Comes(e1, x)
       case Nary(es) => exists i :: 0 <= i < |es| && Comes(es[i], x)
       case _ => false
  }

  /** The versions `v` that are certainly not null after `items`, when those in `base` were not before and the functions
      in `marks` never return null. */
  ghost predicate Certain(p: Program, base: Flags, marks: set<nat>, f: nat, items: seq<Item>, v: nat)
    decreases |items|, 0
  {
    if items == [] then (f, v) in base
    else
      var before := items[..|items| - 1];
      Certain(p, base, marks, f, before, v) || CertainBy(p, base, marks, f, before, items[|items| - 1], v)
  }

  /** A value that is an allocation, or the value of versions that are certainly not null. */
  ghost predicate CertainExpr(p: Program, base: Flags, marks: set<nat>, f: nat, items: seq<Item>, e: Expr)
    decreases |items|, 1, e
  {
    match e
    case Var(v) => Certain(p, base, marks, f, items, v)
    case Ivar(v) => Certain(p, base, marks, f, items, v)
    case Retype(e1) => CertainExpr(p, base, marks, f, items, e1)
    case _ => false
  }

  /** One more item makes `v` certain: a version that is used after its definition has been seen to be an allocation or
      certain itself, a phi node with certain operands, or the result of a marked function or of `malloc`. */
  ghost predicate CertainBy(p: Program, base: Flags, marks: set<nat>, f: nat, items: seq<Item>, item: Item, v: nat)
    decreases |items|, 2
  {
    match item
    case Use(e) =>
      var d := DefOf(p, f, v);
      && ((d.ByStmt? && Comes(e, Var(v))) || (d.ByStore? && Comes(e, Ivar(v))))
      && (d.rhs.Alloc? || CertainExpr(p, base, marks, f, items, d.rhs))
    case PhiAt(phi) =>
      v == phi.lhs && forall i :: 0 <= i < |phi.opnds| ==> Certain(p, base, marks, f, items, phi.opnds[i])
    case CallAt(lhs, callee) => v == lhs && CallClears(p, marks, callee)
    case RetAt(_) => false
  }

  ghost predicate CallClears(p: Program, marks: set<nat>, callee: nat) {
    callee in marks || (callee in p.malloc && !(callee < |p.funs| && p.funs[callee].inferredReturnTy != 0))
  }

  /** Whatever is certain has been found out. */
  ghost predicate Found(p: Program, base: Flags, marks: set<nat>, f: nat, items: seq<Item>, flags: Flags) {
    forall v: nat {:trigger Certain(p, base, marks, f, items, v)} ::
      Certain(p, base, marks, f, items, v) ==> (f, v) in flags
  }

  lemma {:induction false} FoundExpr(p: Program, base: Flags, marks: set<nat>, f: nat, items: seq<Item>, flags: Flags,
                                     e: Expr)
    requires Found(p, base, marks, f, items, flags) && CertainExpr(p, base, marks, f, items, e)
    ensures !MaybeNull(flags, f, e)
  {
    if e.Retype? {
      FoundExpr(p, base, marks, f, items, flags, e.e);
    }
  }

  lemma FoundMore(p: Program, base: Flags, marks: set<nat>, f: nat, items: seq<Item>, item: Item, flags: Flags)
    requires Found(p, base, marks, f, items, flags)
    requires forall v: nat :: CertainBy(p, base, marks, f, items, item, v) ==> (f, v) in flags
    ensures Found(p, base, marks, f, items + [item], flags)
  {
    assert (items + [item])[..|items|] == items;
  }

  lemma FoundUse(p: Program, base: Flags, marks: set<nat>, f: nat, items: seq<Item>, e: Expr, flags: Flags,
                 flags': Flags)
    requires Found(p, base, marks, f, items, flags) && flags <= flags' && UseClears(p, flags, flags', f, e)
    ensures Found(p, base, marks, f, items + [Use(e)], flags')
  {
    forall v: nat | CertainBy(p, base, marks, f, items, Use(e), v)
      ensures (f, v) in flags'
    {
      var d := DefOf(p, f, v);
      if !d.rhs.Alloc? {
        FoundExpr(p, base, marks, f, items, flags, d.rhs);
      }
    }
    FoundMore(p, base, marks, f, items, Use(e), flags');
  }

  lemma FoundPhi(p: Program, base: Flags, marks: set<nat>, f: nat, items: seq<Item>, phi: Phi, flags: Flags,
                 flags': Flags)
    requires Found(p, base, marks, f, items, flags) && flags <= flags'
    requires (forall i :: 0 <= i < |phi.opnds| ==> (f, phi.opnds[i]) in flags) ==> (f, phi.lhs) in flags'
    ensures Found(p, base, marks, f, items + [PhiAt(phi)], flags')
  {
    FoundMore(p, base, marks, f, items, PhiAt(phi), flags');
  }

  /** Visiting `e` clears the flag of every version it comes to whose definition clears it. */
  ghost predicate UseClears(p: Program, flags: Flags, flags': Flags, f: nat, e: Expr) {
    forall v: nat {:trigger DefOf(p, f, v)} ::
      var d := DefOf(p, f, v);
      ((d.ByStmt? && Comes(e, Var(v))) || (d.ByStore? && Comes(e, Ivar(v)))) && Clears(flags, f, d.rhs) ==>
        (f, v) in flags'
  }

  /** Every return in `nulls` was seen, at a moment when its value was not certain. */
  ghost predicate NullsBlamed(p: Program, base: Flags, marks: set<nat>, f: nat, items: seq<Item>, nulls: set<Expr>) {
    forall e {:trigger e in nulls} :: e in nulls ==> exists k: nat :: Uncertain(p, base, marks, f, items, k, e)
  }

  ghost predicate Uncertain(p: Program, base: Flags, marks: set<nat>, f: nat, items: seq<Item>, k: nat, e: Expr) {
    k < |items| && items[k] == RetAt(e) && !CertainExpr(p, base, marks, f, items[..k], e)
  }

  lemma BlameGrows(p: Program, base: Flags, marks: set<nat>, f: nat, items: seq<Item>, item: Item, nulls: set<Expr>)
    requires NullsBlamed(p, base, marks, f, items, nulls)
    ensures NullsBlamed(p, base, marks, f, items + [item], nulls)
  {
    forall e | e in nulls
      ensures exists k: nat :: Uncertain(p, base, marks, f, items + [item], k, e)
    {
      var k: nat :| Uncertain(p, base, marks, f, items, k, e);
      assert (items + [item])[..k] == items[..k];
      assert Uncertain(p, base, marks, f, items + [item], k, e);
    }
  }

  lemma BlameReturn(p: Program, base: Flags, marks: set<nat>, f: nat, items: seq<Item>, e: Expr, nulls: set<Expr>,
                    flags: Flags)
    requires NullsBlamed(p, base, marks, f, items, nulls) && Found(p, base, marks, f, items, flags)
    ensures NullsBlamed(p, base, marks, f, items + [RetAt(e)], nulls + if MaybeNull(flags, f, e) then {e} else {})
  {
    BlameGrows(p, base, marks, f, items, RetAt(e), nulls);
    if MaybeNull(flags, f, e) {
      if CertainExpr(p, base, marks, f, items, e) {
        FoundExpr(p, base, marks, f, items, flags, e);
      }
      assert (items + [RetAt(e)])[..|items|] == items;
      assert Uncertain(p, base, marks, f, items + [RetAt(e)], |items|, e);
    }
  }

  /** How many returns there are. */
  ghost function ReturnCount(items: seq<Item>): nat {
    if items == [] then 0 else ReturnCount(items[..|items| - 1]) + (if items[|items| - 1].RetAt? then 1 else 0)
  }

  ghost predicate OneType(tys: set<TyIdx>) {
    exists t :: t in tys && tys == {t}
  }

  /** One return has one type. */
  ghost predicate TypesCounted(items: seq<Item>, tys: set<TyIdx>) {
    (ReturnCount(items) == 0 ==> tys == {}) && (ReturnCount(items) == 1 ==> OneType(tys))
  }

  /** What the traversal has to do with what is certain, between two items. */
  ghost predicate Tracked(p: Program, base: Flags, marks: set<nat>, f: nat, items: seq<Item>, flags: Flags,
                          nulls: set<Expr>, tys: set<TyIdx>) {
    && Found(p, base, marks, f, items, flags) && NullsBlamed(p, base, marks, f, items, nulls)
    && TypesCounted(items, tys)
  }

  lemma TrackStarts(p: Program, base: Flags, marks: set<nat>, f: nat)
    ensures Tracked(p, base, marks, f, [], base, {}, {})
  {
  }

  lemma TrackUse(p: Program, base: Flags, marks: set<nat>, f: nat, items: seq<Item>, flags: Flags, flags': Flags,
                 nulls: set<Expr>, tys: set<TyIdx>, e: Expr)
    requires Tracked(p, base, marks, f, items, flags, nulls, tys) && flags <= flags'
    requires UseClears(p, flags, flags', f, e)
    ensures Tracked(p, base, marks, f, items + [Use(e)], flags', nulls, tys)
  {
    hide Found, NullsBlamed, TypesCounted, UseClears;
    FoundUse(p, base, marks, f, items, e, flags, flags');
    BlameGrows(p, base, marks, f, items, Use(e), nulls);
    CountMore(items, Use(e), tys);
  }

  lemma TrackPhi(p: Program, base: Flags, marks: set<nat>, f: nat, items: seq<Item>, flags: Flags, flags': Flags,
                 nulls: set<Expr>, tys: set<TyIdx>, phi: Phi)
    requires Tracked(p, base, marks, f, items, flags, nulls, tys) && flags <= flags'
    requires (forall i :: 0 <= i < |phi.opnds| ==> (f, phi.opnds[i]) in flags) ==> (f, phi.lhs) in flags'
    ensures Tracked(p, base, marks, f, items + [PhiAt(phi)], flags', nulls, tys)
  {
    hide Found, NullsBlamed, TypesCounted;
    FoundPhi(p, base, marks, f, items, phi, flags, flags');
    BlameGrows(p, base, marks, f, items, PhiAt(phi), nulls);
    CountMore(items, PhiAt(phi), tys);
  }

  lemma TrackCall(p: Program, base: Flags, marks: set<nat>, f: nat, items: seq<Item>, flags: Flags, flags': Flags,
                  nulls: set<Expr>, tys: set<TyIdx>, lhs: nat, callee: nat)
    requires Tracked(p, base, marks, f, items, flags, nulls, tys) && flags <= flags'
    requires CallClears(p, marks, callee) ==> (f, lhs) in flags'
    ensures Tracked(p, base, marks, f, items + [CallAt(lhs, callee)], flags', nulls, tys)
  {
    hide NullsBlamed, TypesCounted;
    FoundMore(p, base, marks, f, items, CallAt(lhs, callee), flags');
    BlameGrows(p, base, marks, f, items, CallAt(lhs, callee), nulls);
    CountMore(items, CallAt(lhs, callee), tys);
  }

  lemma TrackReturn(p: Program, base: Flags, marks: set<nat>, f: nat, items: seq<Item>, flags: Flags,
                    nulls: set<Expr>, tys: set<TyIdx>, e: Expr, t: TyIdx)
    requires Tracked(p, base, marks, f, items, flags, nulls, tys)
    ensures Tracked(p, base, marks, f, items + [RetAt(e)], flags, nulls + (if MaybeNull(flags, f, e) then {e} else {}),
                    tys + {t})
  {
    hide NullsBlamed, TypesCounted;
    FoundMore(p, base, marks, f, items, RetAt(e), flags);
    BlameReturn(p, base, marks, f, items, e, nulls, flags);
    CountMore(items, RetAt(e), tys);
  }

  lemma UseClearsMore(p: Program, a: Flags, b: Flags, c: Flags, d: Flags, f: nat, e: Expr)
    requires a <= b && c <= d && UseClears(p, b, c, f, e)
    ensures UseClears(p, a, d, f, e)
  {
    forall v: nat | (DefOf(p, f, v).ByStmt? || DefOf(p, f, v).ByStore?) && Clears(a, f, DefOf(p, f, v).rhs)
      ensures Clears(b, f, DefOf(p, f, v).rhs)
    {
      MaybeNullFalls(a, b, f, DefOf(p, f, v).rhs);
    }
  }

  lemma NoUses()
    ensures UsesOf([]) == [] && PhiItems([]) == [] && StmtsItems([]) == [] && BlocksItems([]) == []
  {
  }

  lemma UsesMore(es: seq<Expr>, n: nat)
    requires n < |es|
    ensures UsesOf(es[..n + 1]) == UsesOf(es[..n]) + [Use(es[n])]
  {
  }

  lemma PhisMore(phis: seq<Phi>, n: nat)
    requires n < |phis|
    ensures PhiItems(phis[..n + 1]) == PhiItems(phis[..n]) + [PhiAt(phis[n])]
  {
  }

  lemma StmtsMore(ss: seq<Stmt>, n: nat)
    requires n < |ss|
    ensures StmtsItems(ss[..n + 1]) == StmtsItems(ss[..n]) + StmtItems(ss[n])
  {
    assert ss[..n + 1][..n] == ss[..n];
  }

  lemma BlocksMore(bs: seq<Block>, n: nat)
    requires n < |bs|
    ensures BlocksItems(bs[..n + 1]) == BlocksItems(bs[..n]) + (PhiItems(bs[n].phis) + StmtsItems(bs[n].stmts))
  {
    assert bs[..n + 1][..n] == bs[..n];
  }

  /** Who deserves the mark and has been traversed gets it. */
  lemma DeservedMark(p: Program, base: Flags, marks: set<nat>, f: nat, flags: Flags, nulls: set<Expr>,
                     tys: set<TyIdx>, retTy: TagRetTyIdx, ty: TyIdx, maybeNull: bool)
    requires f < |p.funs| && Tracked(p, base, marks, f, BlocksItems(p.funs[f].blocks), flags, nulls, tys)
    requires TypesOk(retTy, ty, tys) && (retTy == Seen ==> (maybeNull <==> nulls != {}))
    requires Deserves(p, base, marks, f, tys)
    ensures retTy == Seen && !maybeNull
  {
    hide CertainExpr, Found, TypesCounted, BlocksItems, ReturnsCertain, NullsBlamed;
    CertainHasNoNulls(p, base, marks, f, nulls);
  }

  lemma CertainHasNoNulls(p: Program, base: Flags, marks: set<nat>, f: nat, nulls: set<Expr>)
    requires f < |p.funs| && NullsBlamed(p, base, marks, f, BlocksItems(p.funs[f].blocks), nulls)
    ensures ReturnsCertain(p, base, marks, f) ==> nulls == {}
  {
    hide CertainExpr, BlocksItems, ReturnsCertain, Uncertain;
    if nulls != {} {
      var e :| e in nulls;
      var k: nat :| Uncertain(p, base, marks, f, BlocksItems(p.funs[f].blocks), k, e);
      UncertainReturn(p, base, marks, f, k, e);
    }
  }

  /** A function that only returns allocations of one type gets the mark. */
  lemma AllocatedMark(p: Program, f: nat, nulls: set<Expr>, tys: set<TyIdx>, retTy: TagRetTyIdx, ty: TyIdx,
                      maybeNull: bool, t: TyIdx)
    requires AllAllocate(p, f, t) && SeenRight(p, f, ReturnedBy(p.funs[f]), nulls, tys) && TypesOk(retTy, ty, tys)
    requires nulls <= ReturnedBy(p.funs[f]) && (retTy == Seen ==> (maybeNull <==> nulls != {}))
    ensures retTy == Seen && !maybeNull
  {
    hide ReturnedBy, MayHave;
    var e :| e in ReturnedBy(p.funs[f]);
    assert ReturnsAllocation(p, f, e, t) && t in tys;
    forall u | u in tys
      ensures u == t
    {
      var e' :| e' in ReturnedBy(p.funs[f]) && RightType(p, f, e', u);
      assert ReturnsAllocation(p, f, e', t);
    }
  }

  lemma SeenIsMarkable(p: Program, f: nat, nulls: set<Expr>, tys: set<TyIdx>, ty: TyIdx)
    requires HasBody(p, f) && p.funs[f].returnsPointer && SeenRight(p, f, ReturnedBy(p.funs[f]), nulls, tys)
    requires TypesOk(Seen, ty, tys)
    ensures Markable(p, f)
  {
    hide ReturnedBy, MayHave, RightType, ReturnsAllocation;
    assert ty in tys;
  }

  lemma UncertainReturn(p: Program, base: Flags, marks: set<nat>, f: nat, k: nat, e: Expr)
    requires f < |p.funs| && Uncertain(p, base, marks, f, BlocksItems(p.funs[f].blocks), k, e)
    ensures !ReturnsCertain(p, base, marks, f)
  {
  }

  lemma CountMore(items: seq<Item>, item: Item, tys: set<TyIdx>)
    requires TypesCounted(items, tys)
    ensures !item.RetAt? ==> TypesCounted(items + [item], tys)
    ensures item.RetAt? ==> forall t :: TypesCounted(items + [item], tys + {t})
  {
    assert (items + [item])[..|items|] == items;
  }

  /** The value of every return is certain. */
  ghost predicate ReturnsCertain(p: Program, base: Flags, marks: set<nat>, f: nat)
    requires f < |p.funs|
  {
    var items := BlocksItems(p.funs[f].blocks);
    forall k {:trigger items[k]} :: 0 <= k < |items| && items[k].RetAt? ==>
      CertainExpr(p, base, marks, f, items[..k], items[k].ret)
  }

  /** The function `f`, whose returns had the types `tys`, deserves the mark. */
  ghost predicate Deserves(p: Program, base: Flags, marks: set<nat>, f: nat, tys: set<TyIdx>) {
    HasBody(p, f) && p.funs[f].returnsPointer && ReturnedBy(p.funs[f]) != {} && ReturnsCertain(p, base, marks, f)
    && OneType(tys)
  }

  lemma {:induction false} CertainWithMore(p: Program, base: Flags, marks: set<nat>, base': Flags, marks': set<nat>,
                                           f: nat, items: seq<Item>, v: nat)
    requires base <= base' && marks <= marks' && Certain(p, base, marks, f, items, v)
    ensures Certain(p, base', marks', f, items, v)
    decreases |items|, 0
  {
    if items != [] {
      var before, item := items[..|items| - 1], items[|items| - 1];
      if Certain(p, base, marks, f, before, v) {
        CertainWithMore(p, base, marks, base', marks', f, before, v);
      } else {
        CertainByWithMore(p, base, marks, base', marks', f, before, item, v);
      }
    }
  }

  lemma {:induction false} CertainByWithMore(p: Program, base: Flags, marks: set<nat>, base': Flags, marks': set<nat>,
                                             f: nat, items: seq<Item>, item: Item, v: nat)
    requires base <= base' && marks <= marks' && CertainBy(p, base, marks, f, items, item, v)
    ensures CertainBy(p, base', marks', f, items, item, v)
    decreases |items|, 2
  {
    match item
    case Use(e) =>
      if !DefOf(p, f, v).rhs.Alloc? {
        CertainExprWithMore(p, base, marks, base', marks', f, items, DefOf(p, f, v).rhs);
      }
    case PhiAt(phi) =>
      forall i | 0 <= i < |phi.opnds|
        ensures Certain(p, base', marks', f, items, phi.opnds[i])
      {
        CertainWithMore(p, base, marks, base', marks', f, items, phi.opnds[i]);
      }
    case _ =>
  }

  /** With more flags and marks no less is certain. */
  lemma {:induction false} CertainExprWithMore(p: Program, base: Flags, marks: set<nat>, base': Flags, marks': set<nat>,
                                               f: nat, items: seq<Item>, e: Expr)
    requires base <= base' && marks <= marks' && CertainExpr(p, base, marks, f, items, e)
    ensures CertainExpr(p, base', marks', f, items, e)
    decreases |items|, 1, e
  {
    match e
    case Var(v) => CertainWithMore(p, base, marks, base', marks', f, items, v);
    case Ivar(v) => CertainWithMore(p, base, marks, base', marks', f, items, v);
    case Retype(e1) => CertainExprWithMore(p, base, marks, base', marks', f, items, e1);
    case _ =>
  }

  lemma DeservesWithMore(p: Program, base: Flags, marks: set<nat>, base': Flags, marks': set<nat>, f: nat,
                         tys: set<TyIdx>)
    requires base <= base' && marks <= marks' && Deserves(p, base, marks, f, tys)
    ensures Deserves(p, base', marks', f, tys)
  {
    var items := BlocksItems(p.funs[f].blocks);
    forall k | 0 <= k < |items| && items[k].RetAt?
      ensures CertainExpr(p, base', marks', f, items[..k], items[k].ret)
    {
      CertainExprWithMore(p, base, marks, base', marks', f, items[..k], items[k].ret);
    }
  }

  lemma ReturnsStayOk(retTy: TagRetTyIdx, maybeNull: bool, seen: set<Expr>, flags: Flags, flags': Flags, f: nat)
    requires ReturnsOk(retTy, maybeNull, seen, flags, f) && flags <= flags'
    ensures ReturnsOk(retTy, maybeNull, seen, flags', f)
  {
    forall e | e in seen
      ensures !MaybeNull(flags, f, e) ==> !MaybeNull(flags', f, e)
    {
      MaybeNullFalls(flags, flags', f, e);
    }
  }

  /** The step of the state machine for one more return statement. */
  ghost predicate Inferred(retTy: TagRetTyIdx, maybeNull: bool, ty: TyIdx, retTy': TagRetTyIdx, maybeNull': bool,
                           ty': TyIdx, couldBeNull: bool, opndTy: TyIdx) {
    match retTy
    case NotSeen => retTy' == Seen && ty' == opndTy && maybeNull' == couldBeNull
    case Seen =>
      && maybeNull' == (maybeNull || couldBeNull)
      && if ty == opndTy then retTy' == Seen && ty' == ty else retTy' == Failed && ty' == 0
    case Failed => retTy' == Failed && ty' == ty && maybeNull' == maybeNull
  }

  lemma OneMoreReturn(retTy: TagRetTyIdx, maybeNull: bool, ty: TyIdx, retTy': TagRetTyIdx, maybeNull': bool, ty': TyIdx,
                      seen: set<Expr>, seenNull: set<Expr>, atStart: Flags, flags: Flags, f: nat, e: Expr, t: TyIdx)
    requires ReturnsOk(retTy, maybeNull, seen, flags, f) && NullsOk(retTy, maybeNull, seen, seenNull, atStart, f)
    requires atStart <= flags && Inferred(retTy, maybeNull, ty, retTy', maybeNull', ty', MaybeNull(flags, f, e), t)
    ensures ReturnsOk(retTy', maybeNull', seen + {e}, flags, f)
    ensures NullsOk(retTy', maybeNull', seen + {e}, seenNull + if MaybeNull(flags, f, e) then {e} else {}, atStart, f)
  {
    hide MaybeNull;
    MaybeNullFalls(atStart, flags, f, e);
  }

  lemma NullsAreSeen(retTy: TagRetTyIdx, maybeNull: bool, seen: set<Expr>, seenNull: set<Expr>, flags: Flags, f: nat)
    requires NullsOk(retTy, maybeNull, seen, seenNull, flags, f)
    ensures seenNull <= seen
  {
  }

  lemma WhenNotSeen(retTy: TagRetTyIdx, maybeNull: bool, seen: set<Expr>, flags: Flags, f: nat)
    requires ReturnsOk(retTy, maybeNull, seen, flags, f)
    ensures retTy == NotSeen ==> maybeNull
  {
  }

  lemma OneMoreType(retTy: TagRetTyIdx, maybeNull: bool, ty: TyIdx, retTy': TagRetTyIdx, maybeNull': bool, ty': TyIdx,
                    couldBeNull: bool, tys: set<TyIdx>, t: TyIdx)
    requires TypesOk(retTy, ty, tys) && Inferred(retTy, maybeNull, ty, retTy', maybeNull', ty', couldBeNull, t)
    ensures TypesOk(retTy', ty', tys + {t})
  {
  }

  class PropReturnAttr {
    const p: Program
    /** The versions whose flag has been cleared. */
    var nonNull: Flags
    /** The functions marked never to return null. */
    var noNull: set<nat>
    var inferredTy: map<(nat, nat), TyIdx>
    var inferredRetTyIdx: TyIdx
    var retTy: TagRetTyIdx
    var maybeNull: bool
    /** What the return statements that have been visited return. */
    ghost var seen: set<Expr>
    /** Those of them that could be null when they were visited. */
    ghost var seenNull: set<Expr>
    /** The types they had then. */
    ghost var seenTys: set<TyIdx>
    /** What the traversal of the function has come to, and, for functions that were traversed, those types. */
    ghost var items: seq<Item>
    ghost var tysOf: map<nat, set<TyIdx>>
    /** The versions whose flag had been cleared when the traversal of the function began. */
    ghost var atStart: Flags

    ghost predicate Ok()
      reads this
    {
      SsaOk(p) && Reliable(p, nonNull, noNull) && Typed(p, nonNull, inferredTy)
    }

    constructor (p: Program)
      requires SsaOk(p)
      ensures Ok() && this.p == p && noNull == p.imported && nonNull == {}
    {
      this.p := p;
      nonNull, noNull, inferredTy := {}, p.imported, map[];
      inferredRetTyIdx, retTy, maybeNull, seen, seenNull, seenTys, atStart := 0, NotSeen, true, {}, {}, {}, {};
      items, tysOf := [], map[];
    }

    method GetInferredTyIdx(f: nat, e: Expr) returns (ty: TyIdx)
      modifies this`inferredTy
      ensures ty == InferredTy(p, old(inferredTy), f, e) && inferredTy == Cached(p, old(inferredTy), f, e)
      decreases e
    {
      ty := 0;
      match e {
        case Var(v) =>
          if (f, v) !in inferredTy && f < |p.funs| && v < |p.funs[f].versions| && p.funs[f].versions[v].symbolTy != 0 {
            inferredTy := inferredTy[(f, v) := p.funs[f].versions[v].symbolTy];
          }
          if (f, v) in inferredTy {
            ty := inferredTy[(f, v)];
          }
        case Ivar(v) =>
          if (f, v) in inferredTy {
            ty := inferredTy[(f, v)];
          }
        case Retype(e1) => ty := GetInferredTyIdx(f, e1);
        case _ =>
      }
    }

    /** Clears a version's flag when its definition is an allocation or a value that is not null. */
    method PropDefinition(f: nat, v: nat, rhs: Expr)
      requires Ok() && (DefOf(p, f, v) == ByStmt(rhs) || DefOf(p, f, v) == ByStore(rhs))
      modifies this`nonNull, this`inferredTy
      ensures Ok()
      ensures nonNull == old(nonNull) + if Clears(old(nonNull), f, rhs) then {(f, v)} else {}
      ensures Retyped(p, old(inferredTy), inferredTy, old(nonNull), f, v, rhs)
    {
      ghost var flags, tys := nonNull, inferredTy;
      if rhs.Alloc? {
        inferredTy := inferredTy[(f, v) := rhs.ty];
        StaysReliable(p, nonNull, noNull, f, v);
        nonNull := nonNull + {(f, v)};
      } else if !MaybeNull(nonNull, f, rhs) {
        StaysReliable(p, nonNull, noNull, f, v);
        nonNull := nonNull + {(f, v)};
      } else {
        var tyIdx := GetInferredTyIdx(f, rhs);
        if tyIdx != 0 {
          inferredTy := inferredTy[(f, v) := tyIdx];
        }
      }
      RetypedIsTyped(p, flags, tys, inferredTy, f, v, rhs);
    }

    method PropVarInferredType(f: nat, v: nat)
      requires Ok()
      modifies this`nonNull, this`inferredTy
      ensures Ok()
      ensures var d := DefOf(p, f, v);
        && nonNull == old(nonNull) + (if d.ByStmt? && Clears(old(nonNull), f, d.rhs) then {(f, v)} else {})
        && if d.ByStmt? then Retyped(p, old(inferredTy), inferredTy, old(nonNull), f, v, d.rhs)
           else inferredTy == old(inferredTy)
    {
      match DefOf(p, f, v) {
        case ByStmt(rhs) => PropDefinition(f, v, rhs);
        case _ =>
      }
    }

    method PropIvarInferredType(f: nat, v: nat)
      requires Ok()
      modifies this`nonNull, this`inferredTy
      ensures Ok()
      ensures var d := DefOf(p, f, v);
        && nonNull == old(nonNull) + (if d.ByStore? && Clears(old(nonNull), f, d.rhs) then {(f, v)} else {})
        && if d.ByStore? then Retyped(p, old(inferredTy), inferredTy, old(nonNull), f, v, d.rhs)
           else inferredTy == old(inferredTy)
    {
      match DefOf(p, f, v) {
        case ByStore(rhs) => PropDefinition(f, v, rhs);
        case _ =>
      }
    }

    /** Clears the flag of the version a phi node defines when those of all operands have been cleared. */
    method VisitVarPhiNode(f: nat, phi: Phi)
      requires Ok() && PhiOk(p, f, phi)
      modifies this`nonNull, this`inferredTy
      ensures Ok() && old(nonNull) <= nonNull
      ensures (forall i :: 0 <= i < |phi.opnds| ==> (f, phi.opnds[i]) in old(nonNull)) ==> (f, phi.lhs) in nonNull
    {
      var i := 0;
      while i < |phi.opnds|
        invariant 0 <= i <= |phi.opnds| && Ok() && old(nonNull) <= nonNull
        invariant forall j :: 0 <= j < i ==> (f, phi.opnds[j]) in nonNull
      {
        PropVarInferredType(f, phi.opnds[i]);
        if MaybeNull(nonNull, f, Var(phi.opnds[i])) {
          return;
        }
        i := i + 1;
      }
      StaysReliable(p, nonNull, noNull, f, phi.lhs);
      FlagStaysTyped(p, nonNull, inferredTy, f, phi.lhs);
      nonNull := nonNull + {(f, phi.lhs)};
    }

    /** Visits the versions that `e` comes to. */
    method VisitMeExpr(f: nat, e: Expr)
      requires Ok()
      modifies this`nonNull, this`inferredTy
      ensures Ok() && old(nonNull) <= nonNull
      ensures UseClears(p, old(nonNull), nonNull, f, e)
      decreases e
    {
      match e {
        case Var(v) => PropVarInferredType(f, v);
        case Ivar(v) => PropIvarInferredType(f, v);
        case Retype(e1) => VisitMeExpr(f, e1);
        case Nary(es) =>
          VisitOperands(f, es);
          assert forall x :: Comes(e, x) ==> e == x || exists i :: 0 <= i < |es| && Comes(es[i], x);
        case _ =>
      }
    }

    method VisitOperands(f: nat, es: seq<Expr>)
      requires Ok()
      modifies this`nonNull, this`inferredTy
      ensures Ok() && old(nonNull) <= nonNull
      ensures forall i :: 0 <= i < |es| ==> UseClears(p, old(nonNull), nonNull, f, es[i])
      decreases es
    {
      hide *;
      ghost var first := nonNull;
      var i := 0;
      while i < |es|
        invariant 0 <= i <= |es| && Ok() && first <= nonNull
        invariant forall j :: 0 <= j < i ==> UseClears(p, first, nonNull, f, es[j])
      {
        ghost var flags := nonNull;
        VisitMeExpr(f, es[i]);
        UseClearsMore(p, first, flags, nonNull, nonNull, f, es[i]);
        forall j | 0 <= j < i
          ensures UseClears(p, first, nonNull, f, es[j])
        {
          UseClearsMore(p, first, first, flags, nonNull, f, es[j]);
        }
        i := i + 1;
      }
    }

    /** One more return statement: all have to agree on the type, and none may return what may be null. */
    method ReturnTyIdxInferring(f: nat, opnd: Expr)
      requires ReturnsOk(retTy, maybeNull, seen, nonNull, f)
      requires TypesOk(retTy, inferredRetTyIdx, seenTys)
      requires NullsOk(retTy, maybeNull, seen, seenNull, atStart, f) && atStart <= nonNull
      modifies this`inferredTy, this`inferredRetTyIdx, this`retTy, this`maybeNull
      modifies this`seen, this`seenNull, this`seenTys
      ensures ReturnsOk(retTy, maybeNull, seen, nonNull, f) && seen == old(seen) + {opnd}
      ensures TypesOk(retTy, inferredRetTyIdx, seenTys)
      ensures seenTys == old(seenTys) + {InferredTy(p, old(inferredTy), f, opnd)}
      ensures inferredTy == Cached(p, old(inferredTy), f, opnd)
      ensures NullsOk(retTy, maybeNull, seen, seenNull, atStart, f)
      ensures seenNull == old(seenNull) + if MaybeNull(nonNull, f, opnd) then {opnd} else {}
      ensures Inferred(old(retTy), old(maybeNull), old(inferredRetTyIdx), retTy, maybeNull, inferredRetTyIdx,
                       MaybeNull(nonNull, f, opnd), InferredTy(p, old(inferredTy), f, opnd))
    {
      hide *;
      ghost var was, wasNull, wasTy := retTy, maybeNull, inferredRetTyIdx;
      var tyIdx := GetInferredTyIdx(f, opnd);
      WhenNotSeen(retTy, maybeNull, seen, nonNull, f);
      NextState(tyIdx, MaybeNull(nonNull, f, opnd));
      OneMoreReturn(was, wasNull, wasTy, retTy, maybeNull, inferredRetTyIdx, seen, seenNull, atStart, nonNull, f, opnd,
                    tyIdx);
      OneMoreType(was, wasNull, wasTy, retTy, maybeNull, inferredRetTyIdx, MaybeNull(nonNull, f, opnd), seenTys, tyIdx);
      seen := seen + {opnd};
      seenNull := seenNull + if MaybeNull(nonNull, f, opnd) then {opnd} else {};
      seenTys := seenTys + {tyIdx};
    }

    method NextState(tyIdx: TyIdx, couldBeNull: bool)
      requires retTy == NotSeen ==> maybeNull
      modifies this`inferredRetTyIdx, this`retTy, this`maybeNull
      ensures Inferred(old(retTy), old(maybeNull), old(inferredRetTyIdx), retTy, maybeNull, inferredRetTyIdx,
                       couldBeNull, tyIdx)
    {
      if retTy == NotSeen {
        retTy := Seen;
        inferredRetTyIdx := tyIdx;
        if !couldBeNull {
          maybeNull := false;
        }
      } else if retTy == Seen {
        if inferredRetTyIdx != tyIdx {
          retTy := Failed;
          inferredRetTyIdx := 0;
        }
        if couldBeNull || maybeNull {
          maybeNull := true;
        }
      }
    }

    /** What holds between two statements of function `f`. */
    ghost predicate Traversing(f: nat)
      reads this
    {
      && Ok() && ReturnsOk(retTy, maybeNull, seen, nonNull, f) && TypesOk(retTy, inferredRetTyIdx, seenTys)
      && NullsOk(retTy, maybeNull, seen, seenNull, atStart, f) && atStart <= nonNull
      && Tracked(p, atStart, noNull, f, items, nonNull, seenNull, seenTys)
      && SeenRight(p, f, seen, seenNull, seenTys)
    }

    method VisitAll(f: nat, es: seq<Expr>)
      requires Ok() && Tracked(p, atStart, noNull, f, items, nonNull, seenNull, seenTys)
      modifies this`nonNull, this`inferredTy, this`items
      ensures Ok() && old(nonNull) <= nonNull && items == old(items) + UsesOf(es)
      ensures Tracked(p, atStart, noNull, f, items, nonNull, seenNull, seenTys)
    {
      hide Ok, Tracked, UseClears, UsesOf;
      ghost var before := items;
      NoUses();
      var i := 0;
      assert es[..0] == [];
      while i < |es|
        invariant 0 <= i <= |es| && Ok() && old(nonNull) <= nonNull && items == before + UsesOf(es[..i])
        invariant Tracked(p, atStart, noNull, f, items, nonNull, seenNull, seenTys)
      {
        VisitOne(f, es[i]);
        UsesMore(es, i);
        i := i + 1;
      }
      assert es[..i] == es;
    }

    method VisitOne(f: nat, e: Expr)
      requires Ok() && Tracked(p, atStart, noNull, f, items, nonNull, seenNull, seenTys)
      modifies this`nonNull, this`inferredTy, this`items
      ensures Ok() && old(nonNull) <= nonNull && items == old(items) + [Use(e)]
      ensures UseClears(p, old(nonNull), nonNull, f, e)
      ensures Tracked(p, atStart, noNull, f, items, nonNull, seenNull, seenTys)
    {
      hide Reliable, Typed, SsaOk, Tracked, UseClears;
      ghost var flags := nonNull;
      VisitMeExpr(f, e);
      TrackUse(p, atStart, noNull, f, items, flags, nonNull, seenNull, seenTys, e);
      items := items + [Use(e)];
    }

    /** The result of a call takes over the callee's mark. */
    method VisitCall(f: nat, lhs: nat, called: nat)
      requires Ok() && DefOf(p, f, lhs) == ByCall(called)
      modifies this`nonNull, this`inferredTy
      ensures Ok() && old(nonNull) <= nonNull
      ensures nonNull == old(nonNull) + if CallClears(p, noNull, called) then {(f, lhs)} else {}
      ensures inferredTy == if called < |p.funs| && p.funs[called].inferredReturnTy != 0 then
                              old(inferredTy)[(f, lhs) := p.funs[called].inferredReturnTy]
                            else old(inferredTy)
    {
      FlagStaysTyped(p, nonNull, inferredTy, f, lhs);
      if called < |p.funs| && p.funs[called].inferredReturnTy != 0 {
        CallIsTyped(p, nonNull, inferredTy, f, lhs, called);
        inferredTy := inferredTy[(f, lhs) := p.funs[called].inferredReturnTy];
        if called in noNull {
          FlagStaysTyped(p, nonNull, inferredTy, f, lhs);
          StaysReliable(p, nonNull, noNull, f, lhs);
          nonNull := nonNull + {(f, lhs)};
        }
      } else if called in noNull || called in p.malloc {
        StaysReliable(p, nonNull, noNull, f, lhs);
        nonNull := nonNull + {(f, lhs)};
      }
    }

    /** The value a statement returns is evaluated before it is looked at. */
    method TraversalMeStmt(f: nat, s: Stmt)
      requires Traversing(f) && StmtOk(p, f, s)
      modifies this
      ensures Traversing(f) && noNull == old(noNull) && old(nonNull) <= nonNull && atStart == old(atStart)
      ensures seen == old(seen) + if s.ret.Some? then {s.ret.value} else {}
      ensures items == old(items) + StmtItems(s) && tysOf == old(tysOf)
    {
      hide Reliable, Typed, SeenRight, SsaOk, ReturnsOk, TypesOk, NullsOk, Tracked, UsesOf, Inferred;
      VisitAll(f, s.uses);
      ReturnsStayOk(retTy, maybeNull, seen, old(nonNull), nonNull, f);
      if s.ret.Some? {
        VisitReturn(f, s.ret.value);
      }
      if s.callAssigned.Some? {
        VisitAssigned(f, s.callAssigned.value.0, s.callAssigned.value.1);
      }
    }

    method VisitReturn(f: nat, e: Expr)
      requires Traversing(f)
      modifies this
      ensures Traversing(f) && noNull == old(noNull) && old(nonNull) <= nonNull && atStart == old(atStart)
      ensures seen == old(seen) + {e} && items == old(items) + [Use(e), RetAt(e)] && tysOf == old(tysOf)
    {
      hide Reliable, Typed, SeenRight, SsaOk, ReturnsOk, TypesOk, NullsOk, Tracked, Inferred, InferredTy, MaybeNull;
      VisitOne(f, e);
      ReturnsStayOk(retTy, maybeNull, seen, old(nonNull), nonNull, f);
      NullsAreSeen(retTy, maybeNull, seen, seenNull, atStart, f);
      OneMoreSeen(p, old(nonNull), nonNull, inferredTy, f, seen, seenNull, seenTys, e);
      CachedIsTyped(p, nonNull, inferredTy, f, e);
      TrackReturn(p, atStart, noNull, f, items, nonNull, seenNull, seenTys, e, InferredTy(p, inferredTy, f, e));
      ReturnTyIdxInferring(f, e);
      items := items + [RetAt(e)];
    }

    method VisitAssigned(f: nat, lhs: nat, called: nat)
      requires Traversing(f) && DefOf(p, f, lhs) == ByCall(called)
      modifies this`nonNull, this`inferredTy, this`items
      ensures Traversing(f) && old(nonNull) <= nonNull && items == old(items) + [CallAt(lhs, called)]
    {
      hide Reliable, Typed, SeenRight, SsaOk, ReturnsOk, TypesOk, NullsOk, Tracked, CallClears;
      ghost var flags := nonNull;
      VisitCall(f, lhs, called);
      ReturnsStayOk(retTy, maybeNull, seen, flags, nonNull, f);
      TrackCall(p, atStart, noNull, f, items, flags, nonNull, seenNull, seenTys, lhs, called);
      items := items + [CallAt(lhs, called)];
    }

    method VisitPhis(f: nat, phis: seq<Phi>)
      requires Traversing(f) && forall i :: 0 <= i < |phis| ==> PhiOk(p, f, phis[i])
      modifies this`nonNull, this`inferredTy, this`items
      ensures Traversing(f) && old(nonNull) <= nonNull && items == old(items) + PhiItems(phis)
    {
      hide Reliable, Typed, SeenRight, SsaOk, ReturnsOk, TypesOk, NullsOk, Tracked, PhiItems, PhiOk;
      ghost var before := items;
      NoUses();
      var i := 0;
      assert phis[..0] == [];
      while i < |phis|
        invariant 0 <= i <= |phis| && Traversing(f) && old(nonNull) <= nonNull
        invariant items == before + PhiItems(phis[..i])
      {
        ghost var flags := nonNull;
        VisitVarPhiNode(f, phis[i]);
        ReturnsStayOk(retTy, maybeNull, seen, flags, nonNull, f);
        TrackPhi(p, atStart, noNull, f, items, flags, nonNull, seenNull, seenTys, phis[i]);
        items := items + [PhiAt(phis[i])];
        PhisMore(phis, i);
        i := i + 1;
      }
      assert phis[..i] == phis;
    }

    method TraversalBB(f: nat, b: Block)
      requires Traversing(f) && BlockOk(p, f, b)
      modifies this
      ensures Traversing(f) && noNull == old(noNull) && old(nonNull) <= nonNull && atStart == old(atStart)
      ensures seen == old(seen) + ReturnsOf(b.stmts)
      ensures items == old(items) + (PhiItems(b.phis) + StmtsItems(b.stmts)) && tysOf == old(tysOf)
    {
      hide Traversing, ReturnsOf, PhiItems, StmtItems, StmtsItems;
      NoReturns();
      NoUses();
      VisitPhis(f, b.phis);
      ghost var before := items;
      var i := 0;
      assert b.stmts[..0] == [];
      while i < |b.stmts|
        invariant 0 <= i <= |b.stmts| && Traversing(f) && noNull == old(noNull) && tysOf == old(tysOf)
        invariant old(nonNull) <= nonNull && atStart == old(atStart) && seen == old(seen) + ReturnsOf(b.stmts[..i])
        invariant items == before + StmtsItems(b.stmts[..i])
      {
        TraversalMeStmt(f, b.stmts[i]);
        ReturnsOfMore(b.stmts, i);
        StmtsMore(b.stmts, i);
        i := i + 1;
      }
      assert b.stmts[..i] == b.stmts;
    }

    /** Traverses the function and marks it if no return statement may return null. */
    method Perform(f: nat)
      requires Ok() && HasBody(p, f) && retTy == NotSeen && maybeNull && seen == seenNull == {} && seenTys == {}
      requires atStart == nonNull && items == []
      modifies this
      ensures Ok() && old(nonNull) <= nonNull
      ensures noNull == if retTy == Seen && !maybeNull then old(noNull) + {f} else old(noNull)
      ensures seen == ReturnedBy(p.funs[f]) && TypesOk(retTy, inferredRetTyIdx, seenTys)
      ensures retTy == Seen ==> (maybeNull <==> seenNull != {})
      ensures seenNull <= seen && forall e :: e in seenNull ==> MaybeNull(old(nonNull), f, e)
      ensures (exists a, b :: a in seenTys && b in seenTys && a != b) ==> noNull == old(noNull)
      ensures Deserves(p, old(nonNull), old(noNull), f, seenTys) ==> f in noNull
      ensures ReturnCount(BlocksItems(p.funs[f].blocks)) == 1 ==> OneType(seenTys)
      ensures tysOf == old(tysOf)[f := seenTys]
      ensures SeenRight(p, f, ReturnedBy(p.funs[f]), seenNull, seenTys)
      ensures (exists t :: AllAllocate(p, f, t)) ==> f in noNull
      ensures f in noNull && f !in old(noNull) && p.funs[f].returnsPointer ==> Markable(p, f)
    {
      hide Reliable, Typed, SsaOk, ReturnsOk, NullsOk, TypesOk, Tracked, SeenRight, Traversing, MarkJustified, HasBody;
      hide Deserves, ReturnCount, BlocksItems, ReturnedBy, AllAllocate, Markable, OneType;
      StartsTraversing(f);
      TraverseBlocks(f);
      Outcome(f);
      if retTy == Seen && !maybeNull {
        MarkStaysOk(f);
        noNull := noNull + {f};
      }
      tysOf := tysOf[f := seenTys];
    }

    lemma StartsTraversing(f: nat)
      requires Ok() && retTy == NotSeen && maybeNull && seen == seenNull == {} && seenTys == {}
      requires atStart == nonNull && items == []
      ensures Traversing(f)
    {
      TrackStarts(p, nonNull, noNull, f);
      hide Reliable, SsaOk, Typed, Tracked;
    }

    lemma MarkStaysOk(f: nat)
      requires Ok() && MarkJustified(p, nonNull, f)
      ensures SsaOk(p) && Reliable(p, nonNull, noNull + {f}) && Typed(p, nonNull, inferredTy)
    {
      hide Reliable, SsaOk, Typed, MarkJustified;
      MarkStaysReliable(p, nonNull, noNull, f);
    }

    /** What a traversal that is done has shown. */
    lemma Outcome(f: nat)
      requires Traversing(f) && HasBody(p, f) && seen == ReturnedBy(p.funs[f])
      requires items == BlocksItems(p.funs[f].blocks)
      ensures TypesOk(retTy, inferredRetTyIdx, seenTys) && (retTy == Seen ==> (maybeNull <==> seenNull != {}))
      ensures seenNull <= seen && forall e :: e in seenNull ==> MaybeNull(atStart, f, e)
      ensures SeenRight(p, f, ReturnedBy(p.funs[f]), seenNull, seenTys)
      ensures (exists a, b :: a in seenTys && b in seenTys && a != b) ==> retTy != Seen
      ensures Deserves(p, atStart, noNull, f, seenTys) ==> retTy == Seen && !maybeNull
      ensures (exists t :: AllAllocate(p, f, t)) ==> retTy == Seen && !maybeNull
      ensures retTy == Seen && p.funs[f].returnsPointer ==> Markable(p, f)
      ensures ReturnCount(BlocksItems(p.funs[f].blocks)) == 1 ==> OneType(seenTys)
      ensures Ok() && (retTy == Seen && !maybeNull ==> MarkJustified(p, nonNull, f))
    {
      hide Reliable, SsaOk, Typed, Deserves, SeenRight, AllAllocate, Markable, ReturnedBy, BlocksItems;
      if Deserves(p, atStart, noNull, f, seenTys) {
        DeservedMark(p, atStart, noNull, f, nonNull, seenNull, seenTys, retTy, inferredRetTyIdx, maybeNull);
      }
      if exists t :: AllAllocate(p, f, t) {
        var t :| AllAllocate(p, f, t);
        AllocatedMark(p, f, seenNull, seenTys, retTy, inferredRetTyIdx, maybeNull, t);
      }
      if retTy == Seen && p.funs[f].returnsPointer {
        SeenIsMarkable(p, f, seenNull, seenTys, inferredRetTyIdx);
      }
    }

    method TraverseBlocks(f: nat)
      requires Traversing(f) && HasBody(p, f) && seen == {} && items == []
      modifies this
      ensures Traversing(f) && noNull == old(noNull) && old(nonNull) <= nonNull && atStart == old(atStart)
      ensures seen == ReturnedBy(p.funs[f]) && items == BlocksItems(p.funs[f].blocks) && tysOf == old(tysOf)
    {
      hide Traversing, ReturnsIn, ReturnsOf, BlocksItems, StmtsItems, PhiItems;
      var bs := p.funs[f].blocks;
      NoUses();
      NoBlocks();
      var i := 0;
      assert bs[..0] == [];
      while i < |bs|
        invariant 0 <= i <= |bs| && Traversing(f) && noNull == old(noNull) && tysOf == old(tysOf)
        invariant old(nonNull) <= nonNull && atStart == old(atStart) && seen == ReturnsIn(bs[..i])
        invariant items == BlocksItems(bs[..i])
      {
        BlocksAreOk(f, i);
        TraversalBB(f, bs[i]);
        ReturnsInMore(bs, i);
        BlocksMore(bs, i);
        i := i + 1;
      }
      assert bs[..i] == bs;
    }

    lemma BlocksAreOk(f: nat, i: nat)
      requires Traversing(f) && HasBody(p, f) && i < |p.funs[f].blocks|
      ensures BlockOk(p, f, p.funs[f].blocks[i])
    {
    }

    /** Functions with a body that are declared never to return null are believed. */
    method Initialize(scc: seq<nat>)
      requires Ok() && forall i :: 0 <= i < |scc| ==> scc[i] < |p.funs|
      modifies this`noNull
      ensures Ok()
      ensures noNull == old(noNull) + set i | 0 <= i < |scc| && HasBody(p, scc[i]) && scc[i] in p.declared :: scc[i]
    {
      var i := 0;
      while i < |scc|
        invariant 0 <= i <= |scc| && Ok()
        invariant noNull == old(noNull) + set j | 0 <= j < i && HasBody(p, scc[j]) && scc[j] in p.declared :: scc[j]
      {
        if !p.funs[scc[i]].isEmpty && scc[i] in p.declared {
          MarkStaysReliable(p, nonNull, noNull, scc[i]);
          noNull := noNull + {scc[i]};
        }
        i := i + 1;
      }
    }

    /** Every function of the component that may be marked is marked, or has been traversed without deserving it. */
    method Prop(scc: seq<nat>)
      requires Ok() && forall i :: 0 <= i < |scc| ==> scc[i] < |p.funs|
      modifies this
      ensures Ok() && old(noNull) <= noNull && old(nonNull) <= nonNull
      ensures forall i {:trigger scc[i]} :: 0 <= i < |scc| ==>
                Settled(p, old(nonNull), old(noNull), noNull, tysOf, scc[i])
      ensures forall f {:trigger f in noNull} :: f in noNull && f !in old(noNull) ==> f in scc && Markable(p, f)
    {
      hide Reliable, Typed, SsaOk, SeenRight, Markable, Deserves, ReturnCount, OneType, BlocksItems, Settled;
      hide AllAllocate, TypesOk, ReturnedBy, MaybeNull, AllSettled;
      ghost var flags, marks := nonNull, noNull;
      NoneSettled(p, flags, marks, noNull, tysOf, scc);
      var i := 0;
      while i < |scc|
        invariant 0 <= i <= |scc| && Ok() && marks <= noNull && flags <= nonNull
        invariant AllSettled(p, flags, marks, noNull, tysOf, scc[..i])
        invariant forall f {:trigger f in noNull} :: f in noNull && f !in marks ==> f in scc && Markable(p, f)
      {
        var f := scc[i];
        retTy, maybeNull, seen, seenNull, seenTys, atStart, items := NotSeen, true, {}, {}, {}, nonNull, [];
        if !p.funs[f].isEmpty && p.funs[f].returnsPointer && f !in noNull {
          ghost var flags1, marks1, tys1 := nonNull, noNull, tysOf;
          Perform(f);
          OneSettled(p, flags, marks, flags1, marks1, noNull, seenTys, tys1, f);
          AllStaySettled(p, flags, marks, marks1, noNull, seenTys, tys1, f, scc[..i]);
        } else {
          NothingToSettle(p, flags, marks, noNull, tysOf, f);
        }
        OneMoreSettled(p, flags, marks, noNull, tysOf, scc, i);
        i := i + 1;
      }
      AllAreSettled(p, flags, marks, noNull, tysOf, scc, i);
    }

    /** The phase on one strongly connected component: whatever has been marked so far, no run of a marked function
        returns null; and a function with one return, whose value is certain, is marked. */
    method PhaseRun(scc: seq<nat>)
      requires Ok() && forall i :: 0 <= i < |scc| ==> scc[i] < |p.funs|
      modifies this
      ensures Ok() && old(noNull) <= noNull
      ensures forall r :: Valid(p, r) && r.f in noNull && r.ret.Some? ==> r.ret.value.1 != 0
      ensures forall i {:trigger scc[i]} :: 0 <= i < |scc| ==>
                && Settled(p, old(nonNull), old(noNull), noNull, tysOf, scc[i])
                && (HasBody(p, scc[i]) && scc[i] in p.declared ==> scc[i] in noNull)
                && (OneCertainReturn(p, old(nonNull), old(noNull), scc[i]) ==> scc[i] in noNull)
                && ((exists t :: AllAllocate(p, scc[i], t)) ==> scc[i] in noNull)
      ensures forall f {:trigger f in noNull} :: f in noNull && f !in old(noNull) ==>
                f in scc && (Markable(p, f) || (HasBody(p, f) && f in p.declared))
    {
      hide Reliable, Typed, SsaOk, Markable, AllAllocate, Valid, Deserves, ReturnsCertain, ReturnCount, BlocksItems;
      ghost var flags, marks := nonNull, noNull;
      Initialize(scc);
      ghost var marks1 := noNull;
      Prop(scc);
      forall i | 0 <= i < |scc|
        ensures Settled(p, flags, marks, noNull, tysOf, scc[i])
        ensures OneCertainReturn(p, flags, marks, scc[i]) ==> scc[i] in noNull
        ensures (exists t :: AllAllocate(p, scc[i], t)) ==> scc[i] in noNull
      {
        SettledBefore(p, flags, marks, marks1, noNull, tysOf, scc[i]);
        if OneCertainReturn(p, flags, marks, scc[i]) {
          OneReturnIsMarked(p, flags, marks, noNull, tysOf, scc[i]);
        }
        AllocatingIsMarked(p, flags, marks, noNull, tysOf, scc[i]);
      }
      forall r | Valid(p, r) && r.f in noNull && r.ret.Some?
        ensures r.ret.value.1 != 0
      {
        MarkedNeverReturnNull(p, nonNull, noNull, r);
      }
    }
  }

  /** The function is marked; or it cannot be; or it has been traversed, and what its returns showed is why not. */
  ghost predicate Settled(p: Program, flags: Flags, marks: set<nat>, marks': set<nat>, tysOf: map<nat, set<TyIdx>>,
                          f: nat) {
    HasBody(p, f) && p.funs[f].returnsPointer && f !in marks' ==>
      && f in tysOf && !Deserves(p, flags, marks, f, tysOf[f]) && !(exists t :: AllAllocate(p, f, t))
      && (ReturnCount(BlocksItems(p.funs[f].blocks)) == 1 ==> OneType(tysOf[f]))
  }

  /** A function that may be marked returns in one place, a value that is certain there. */
  ghost predicate OneCertainReturn(p: Program, flags: Flags, marks: set<nat>, f: nat) {
    HasBody(p, f) && p.funs[f].returnsPointer && ReturnCount(BlocksItems(p.funs[f].blocks)) == 1
    && ReturnsCertain(p, flags, marks, f)
  }

  lemma NothingToSettle(p: Program, flags: Flags, marks: set<nat>, marks': set<nat>, tysOf: map<nat, set<TyIdx>>,
                        f: nat)
    requires f < |p.funs| && !(!p.funs[f].isEmpty && p.funs[f].returnsPointer && f !in marks')
    ensures Settled(p, flags, marks, marks', tysOf, f)
  {
  }

  lemma OneSettled(p: Program, flags: Flags, marks: set<nat>, flags1: Flags, marks1: set<nat>, marks': set<nat>,
                   tys: set<TyIdx>, tysOf: map<nat, set<TyIdx>>, f: nat)
    requires flags <= flags1 && marks <= marks1 && f < |p.funs|
    requires Deserves(p, flags1, marks1, f, tys) || (exists t :: AllAllocate(p, f, t)) ==> f in marks'
    requires ReturnCount(BlocksItems(p.funs[f].blocks)) == 1 ==> OneType(tys)
    ensures Settled(p, flags, marks, marks', tysOf[f := tys], f)
  {
    hide Deserves, ReturnCount, OneType, BlocksItems;
    if Deserves(p, flags, marks, f, tys) {
      DeservesWithMore(p, flags, marks, flags1, marks1, f, tys);
    }
  }

  /** Another function stays settled when `f` is, and `f` once it is marked. */
  lemma StaysSettled(p: Program, flags: Flags, marks: set<nat>, marks1: set<nat>, marks': set<nat>, tys: set<TyIdx>,
                     tysOf: map<nat, set<TyIdx>>, f: nat, g: nat)
    requires Settled(p, flags, marks, marks1, tysOf, g) && marks1 <= marks'
    requires Settled(p, flags, marks, marks', tysOf[f := tys], f)
    ensures Settled(p, flags, marks, marks', tysOf[f := tys], g)
  {
    hide Deserves, ReturnCount, OneType, BlocksItems;
  }

  ghost predicate AllSettled(p: Program, flags: Flags, marks: set<nat>, marks': set<nat>,
                             tysOf: map<nat, set<TyIdx>>, fs: seq<nat>) {
    forall j {:trigger fs[j]} :: 0 <= j < |fs| ==> Settled(p, flags, marks, marks', tysOf, fs[j])
  }

  lemma NoneSettled(p: Program, flags: Flags, marks: set<nat>, marks': set<nat>, tysOf: map<nat, set<TyIdx>>,
                    scc: seq<nat>)
    ensures AllSettled(p, flags, marks, marks', tysOf, scc[..0])
  {
  }

  lemma OneMoreSettled(p: Program, flags: Flags, marks: set<nat>, marks': set<nat>, tysOf: map<nat, set<TyIdx>>,
                       scc: seq<nat>, i: nat)
    requires i < |scc| && AllSettled(p, flags, marks, marks', tysOf, scc[..i])
    requires Settled(p, flags, marks, marks', tysOf, scc[i])
    ensures AllSettled(p, flags, marks, marks', tysOf, scc[..i + 1])
  {
    hide Settled;
    assert scc[..i + 1] == scc[..i] + [scc[i]];
  }

  lemma AllAreSettled(p: Program, flags: Flags, marks: set<nat>, marks': set<nat>, tysOf: map<nat, set<TyIdx>>,
                      scc: seq<nat>, i: nat)
    requires i == |scc| && AllSettled(p, flags, marks, marks', tysOf, scc[..i])
    ensures forall j {:trigger scc[j]} :: 0 <= j < |scc| ==> Settled(p, flags, marks, marks', tysOf, scc[j])
  {
    hide Settled;
    assert scc[..i] == scc;
  }

  lemma AllStaySettled(p: Program, flags: Flags, marks: set<nat>, marks1: set<nat>, marks': set<nat>,
                       tys: set<TyIdx>, tysOf: map<nat, set<TyIdx>>, f: nat, fs: seq<nat>)
    requires AllSettled(p, flags, marks, marks1, tysOf, fs) && marks1 <= marks'
    requires Settled(p, flags, marks, marks', tysOf[f := tys], f)
    ensures AllSettled(p, flags, marks, marks', tysOf[f := tys], fs)
  {
    hide Settled;
    forall j | 0 <= j < |fs|
      ensures Settled(p, flags, marks, marks', tysOf[f := tys], fs[j])
    {
      StaysSettled(p, flags, marks, marks1, marks', tys, tysOf, f, fs[j]);
    }
  }

  lemma AllocatingIsMarked(p: Program, flags: Flags, marks: set<nat>, marks': set<nat>, tysOf: map<nat, set<TyIdx>>,
                           f: nat)
    requires Settled(p, flags, marks, marks', tysOf, f)
    ensures (exists t :: AllAllocate(p, f, t)) ==> f in marks'
  {
    hide Deserves, ReturnCount, OneType, BlocksItems;
  }

  lemma SettledBefore(p: Program, flags: Flags, marks: set<nat>, marks1: set<nat>, marks': set<nat>,
                      tysOf: map<nat, set<TyIdx>>, f: nat)
    requires marks <= marks1 && Settled(p, flags, marks1, marks', tysOf, f)
    ensures Settled(p, flags, marks, marks', tysOf, f)
  {
    hide Deserves;
    if f in tysOf && Deserves(p, flags, marks, f, tysOf[f]) {
      DeservesWithMore(p, flags, marks, flags, marks1, f, tysOf[f]);
    }
  }

  lemma OneReturnIsMarked(p: Program, flags: Flags, marks: set<nat>, marks': set<nat>, tysOf: map<nat, set<TyIdx>>,
                          f: nat)
    requires Settled(p, flags, marks, marks', tysOf, f) && OneCertainReturn(p, flags, marks, f)
    ensures f in marks'
  {
    hide ReturnsCertain, ReturnCount, BlocksItems;
    if f !in marks' {
      CountedReturn(p, f);
    }
  }

  /** Where there is a return, something is returned. */
  lemma CountedReturn(p: Program, f: nat)
    requires f < |p.funs| && ReturnCount(BlocksItems(p.funs[f].blocks)) > 0
    ensures ReturnedBy(p.funs[f]) != {}
  {
    ReturnInBlocks(p.funs[f].blocks);
  }

  lemma {:induction false} CountConcat(a: seq<Item>, b: seq<Item>)
    ensures ReturnCount(a + b) == ReturnCount(a) + ReturnCount(b)
    decreases |b|
  {
    if b == [] {
      assert a + b == a;
    } else {
      assert (a + b)[..|a + b| - 1] == a + b[..|b| - 1];
      CountConcat(a, b[..|b| - 1]);
    }
  }

  lemma {:induction false} NoReturnsCounted(items: seq<Item>)
    requires forall i :: 0 <= i < |items| ==> !items[i].RetAt?
    ensures ReturnCount(items) == 0
  {
    if items != [] {
      NoReturnsCounted(items[..|items| - 1]);
    }
  }

  lemma ReturnInStmt(s: Stmt)
    requires s.ret == None
    ensures ReturnCount(StmtItems(s)) == 0
  {
    NoReturnsCounted(StmtItems(s));
  }

  lemma {:induction false} ReturnInStmts(ss: seq<Stmt>)
    requires ReturnCount(StmtsItems(ss)) > 0
    ensures ReturnsOf(ss) != {}
  {
    if ss != [] {
      var n := |ss| - 1;
      assert ss[..n + 1] == ss;
      ReturnsOfMore(ss, n);
      CountConcat(StmtsItems(ss[..n]), StmtItems(ss[n]));
      if ReturnCount(StmtsItems(ss[..n])) > 0 {
        ReturnInStmts(ss[..n]);
      } else if ss[n].ret == None {
        ReturnInStmt(ss[n]);
      }
    }
  }

  lemma {:induction false} ReturnInBlocks(bs: seq<Block>)
    requires ReturnCount(BlocksItems(bs)) > 0
    ensures ReturnsIn(bs) != {}
  {
    if bs != [] {
      var n := |bs| - 1;
      assert bs[..n + 1] == bs;
      ReturnsInMore(bs, n);
      CountConcat(BlocksItems(bs[..n]), PhiItems(bs[n].phis) + StmtsItems(bs[n].stmts));
      CountConcat(PhiItems(bs[n].phis), StmtsItems(bs[n].stmts));
      NoReturnsCounted(PhiItems(bs[n].phis));
      if ReturnCount(BlocksItems(bs[..n])) > 0 {
        ReturnInBlocks(bs[..n]);
      } else {
        ReturnInStmts(bs[n].stmts);
      }
    }
  }
}
