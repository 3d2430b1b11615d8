/** Why a node of the caller's graph escapes after a callee's summary has been embedded. */
module EscapeBlame {
  import opened Wrappers
  import opened Chains
  import opened EscapeNodes
  import opened EscapeSpread
  import opened EscapeSteps
  import opened EscapeCreate
  import opened EscapeAddOut
  import opened EscapeMerge

  /** `v` is the field node of `o` for field `f`. */
  ghost predicate FieldFor(n: Nodes, o: nat, f: int, v: nat) {
    || (ANY_FIELD in Fields(n, o) && Fields(n, o)[ANY_FIELD] == v)
    || (f in Fields(n, o) && Fields(n, o)[f] == v)
  }

  /** The caller's node `G` is a field of an image of the callee object that the node `F` is the same field of. */
  ghost predicate FieldMatches(n: Nodes, k: Nodes, m: ObjectMap, F: nat, G: nat, p: nat, o: nat, f: int) {
    o in MapsTo(m, p) && f in Fields(k, p) && Fields(k, p)[f] == F && FieldFor(n, o, f, G)
  }

  /** The caller's node `G` plays the part of the callee's node `F`: as argument, as result, or as field of an image. */
  ghost predicate Matches(n: Nodes, k: Nodes, m: ObjectMap, roots: set<(nat, nat)>, F: nat, G: nat) {
    (F, G) in roots || exists p: nat, o: nat, f :: FieldMatches(n, k, m, F, G, p, o, f)
  }

  /** The callee's node `F`, whose part `v` plays, points to an object that `t` stands for. */
  ghost predicate DemandedBy(n: Nodes, k: Nodes, m: ObjectMap, roots: set<(nat, nat)>, v: nat, t: nat, F: nat, q: nat) {
    Matches(n, k, m, roots, F, v) && q in Pts(k, F) && t in MapsTo(m, q)
  }

  /** The callee's graph asks for a link from `v` to `t`. */
  ghost predicate Demanded(n: Nodes, k: Nodes, m: ObjectMap, roots: set<(nat, nat)>, v: nat, t: nat) {
    exists F: nat, q: nat :: DemandedBy(n, k, m, roots, v, t, F, q)
  }

  ghost function AskedOf(asked: set<(nat, nat)>, v: nat): set<nat> {
    set e | e in asked && e.0 == v :: e.1
  }

  /** A status is handed on over flow edges and over the links that were asked for, which are edges unless the node
      absorbed them. */
  ghost function LeadEdges(n: Nodes, asked: set<(nat, nat)>): seq<set<nat>> {
    seq(|n|, (v: nat) => FlowsTo(n, v) + AskedOf(asked, v))
  }

  /** By itself `y` has at least status `s`: it had before, or it stands for an object that escapes globally. */
  ghost predicate CauseOf(n0: Nodes, k: Nodes, m: ObjectMap, y: nat, s: nat) {
    Status(n0, y) >= s || exists q: nat :: y in MapsTo(m, q) && Status(k, q) == GLOBAL_ESCAPE
  }

  /** A node that by itself has at least status `s` leads to `x`. */
  ghost predicate Blamed(n0: Nodes, asked: set<(nat, nat)>, n: Nodes, k: Nodes, m: ObjectMap, s: nat, x: nat) {
    exists y: nat :: CauseOf(n0, k, m, y, s) && Reaches(LeadEdges(n, asked), y, x)
  }

  /** Every status has a cause. */
  ghost predicate AllBlamed(n0: Nodes, asked: set<(nat, nat)>, n: Nodes, k: Nodes, m: ObjectMap) {
    forall x: nat, s: nat {:trigger Blamed(n0, asked, n, k, m, s, x)} ::
      0 < s <= Status(n, x) ==> Blamed(n0, asked, n, k, m, s, x)
  }

  /** Every link that was asked for is demanded by the callee's graph, and is there. */
  ghost predicate AskedOk(roots: set<(nat, nat)>, asked: set<(nat, nat)>, n: Nodes, k: Nodes, m: ObjectMap) {
    forall e {:trigger e in asked} :: e in asked ==> Demanded(n, k, m, roots, e.0, e.1) && Leads(n, e.0, e.1)
  }

  /** Field `f` of `o` is `G`, and the same field of the callee object `p` is `F`. */
  ghost predicate SameField(n: Nodes, k: Nodes, F: nat, G: nat, p: nat, o: nat, f: int) {
    f in Fields(k, p) && Fields(k, p)[f] == F && FieldFor(n, o, f, G)
  }

  /** The caller's node `G` and the callee's `F` are reached in the same way, along no more than `depth` fields. */
  ghost predicate SameWay(n: Nodes, k: Nodes, roots: set<(nat, nat)>, F: nat, G: nat, depth: nat)
    decreases depth, 0
  {
    || (F, G) in roots
    || (depth > 0 && exists p: nat, o: nat, f ::
          SameField(n, k, F, G, p, o, f) && Corresponds(n, k, roots, o, p, depth - 1))
  }

  /** The object `o` of the caller and `q` of the callee can be pointed to by nodes that are reached in the same way. */
  ghost predicate Corresponds(n: Nodes, k: Nodes, roots: set<(nat, nat)>, o: nat, q: nat, depth: nat)
    decreases depth, 1
  {
    exists F: nat, G: nat {:trigger SameWay(n, k, roots, F, G, depth)} ::
      SameWay(n, k, roots, F, G, depth) && o in Pts(n, G) && q in Pts(k, F)
  }

  ghost predicate Grounded(n: Nodes, k: Nodes, roots: set<(nat, nat)>, o: nat, q: nat) {
    exists depth: nat :: Corresponds(n, k, roots, o, q, depth)
  }

  /** Objects stand only for what corresponds to them. */
  ghost predicate MapGrounded(roots: set<(nat, nat)>, n: Nodes, k: Nodes, m: ObjectMap) {
    forall q: nat, o: nat {:trigger o in MapsTo(m, q)} :: o in MapsTo(m, q) ==> Grounded(n, k, roots, o, q)
  }

  ghost predicate Wants(k: Nodes, m: ObjectMap, o: nat, f: int, q: nat) {
    o in MapsTo(m, q) && f in Fields(k, q)
  }

  /** The only new edges are links that were asked for, and the only new fields are those of what objects stand for. */
  ghost predicate NothingExtra(n0: Nodes, asked: set<(nat, nat)>, n: Nodes, k: Nodes, m: ObjectMap) {
    && (forall x: nat {:trigger Outs(n, x)} :: Outs(n, x) <= Outs(n0, x) + AskedOf(asked, x))
    && (forall o: nat, f {:trigger f in Fields(n, o)} :: f in Fields(n, o) ==>
          f in Fields(n0, o) || exists q: nat :: Wants(k, m, o, f, q))
  }

  /** Nothing gets lost. */
  ghost predicate NothingLost(n0: Nodes, n: Nodes) {
    && |n0| <= |n| && (forall x: nat {:trigger Status(n, x)} :: Status(n0, x) <= Status(n, x))
    && (forall x: nat {:trigger Outs(n, x)} :: Outs(n0, x) <= Outs(n, x))
  }

  /** There is a new node or edge, or a higher status. */
  ghost predicate More(n0: Nodes, n: Nodes) {
    || |n0| < |n|
    || (exists x: nat {:trigger Status(n, x)} :: Status(n0, x) < Status(n, x))
    || (exists x: nat {:trigger Outs(n, x)} :: !(Outs(n, x) <= Outs(n0, x)))
  }

  lemma MoreIsOther(n0: Nodes, n: Nodes)
    requires More(n0, n)
    ensures n != n0
  {
  }

  lemma MoreStays(n0: Nodes, n: Nodes, n': Nodes)
    requires NothingLost(n0, n) && NothingLost(n, n')
    ensures NothingLost(n0, n') && (More(n0, n) || More(n, n') ==> More(n0, n'))
  {
    forall x: nat
      ensures Status(n0, x) <= Status(n, x) <= Status(n', x) && Outs(n0, x) <= Outs(n, x) <= Outs(n', x)
    {
    }
  }

  /** What holds all through the embedding. */
  ghost predicate Accounted(n0: Nodes, roots: set<(nat, nat)>, asked: set<(nat, nat)>, n: Nodes, k: Nodes,
                            m: ObjectMap) {
    && AllBlamed(n0, asked, n, k, m) && AskedOk(roots, asked, n, k, m) && MapGrounded(roots, n, k, m)
    && NothingExtra(n0, asked, n, k, m) && NothingLost(n0, n)
  }

  lemma AccountStarts(n: Nodes, roots: set<(nat, nat)>, k: Nodes)
    ensures Accounted(n, roots, {}, n, k, map[])
  {
    forall x: nat, s: nat | 0 < s <= Status(n, x)
      ensures Blamed(n, {}, n, k, map[], s, x)
    {
      ReachesSelf(LeadEdges(n, {}), x);
      assert CauseOf(n, k, map[], x, s);
    }
  }

  // ---------------------------------------------------------------------------------------------
  // What is accounted for stays so.
  // ---------------------------------------------------------------------------------------------

  ghost predicate LeadsGrow(n: Nodes, asked: set<(nat, nat)>, n': Nodes, asked': set<(nat, nat)>) {
    && |n| <= |n'| && asked <= asked'
    && forall x: nat {:trigger FlowsTo(n', x)} {:trigger FlowsTo(n, x)} :: x < |n| ==> FlowsTo(n, x) <= FlowsTo(n', x)
  }

  lemma StepStays(n: Nodes, asked: set<(nat, nat)>, n': Nodes, asked': set<(nat, nat)>, a: nat, b: nat)
    requires LeadsGrow(n, asked, n', asked') && Step(LeadEdges(n, asked), a, b)
    ensures Step(LeadEdges(n', asked'), a, b)
  {
    assert AskedOf(asked, a) <= AskedOf(asked', a);
    assert FlowsTo(n, a) <= FlowsTo(n', a);
  }

  lemma ReachStays(n: Nodes, asked: set<(nat, nat)>, n': Nodes, asked': set<(nat, nat)>, y: nat, x: nat)
    requires LeadsGrow(n, asked, n', asked') && Reaches(LeadEdges(n, asked), y, x)
    ensures Reaches(LeadEdges(n', asked'), y, x)
  {
    forall a: nat, b: nat | Step(LeadEdges(n, asked), a, b)
      ensures Step(LeadEdges(n', asked'), a, b)
    {
      StepStays(n, asked, n', asked', a, b);
    }
    ReachesMore(LeadEdges(n, asked), LeadEdges(n', asked'), y, x);
  }

  lemma CauseStays(n0: Nodes, k: Nodes, m: ObjectMap, m': ObjectMap, y: nat, s: nat)
    requires MapGrows(m, m') && CauseOf(n0, k, m, y, s)
    ensures CauseOf(n0, k, m', y, s)
  {
    if Status(n0, y) < s {
      var q: nat :| y in MapsTo(m, q) && Status(k, q) == GLOBAL_ESCAPE;
      assert MapsTo(m, q) <= MapsTo(m', q);
    }
  }

  lemma BlameStays(n0: Nodes, asked: set<(nat, nat)>, n: Nodes, k: Nodes, m: ObjectMap, asked': set<(nat, nat)>,
                   n': Nodes, m': ObjectMap, s: nat, x: nat)
    requires LeadsGrow(n, asked, n', asked') && MapGrows(m, m') && Blamed(n0, asked, n, k, m, s, x)
    ensures Blamed(n0, asked', n', k, m', s, x)
  {
    hide LeadsGrow, MapGrows, CauseOf, Reaches;
    var y: nat :| CauseOf(n0, k, m, y, s) && Reaches(LeadEdges(n, asked), y, x);
    CauseStays(n0, k, m, m', y, s);
    ReachStays(n, asked, n', asked', y, x);
  }

  /** Blame is handed on. */
  lemma BlameGoesOn(n0: Nodes, asked: set<(nat, nat)>, n: Nodes, k: Nodes, m: ObjectMap, s: nat, v: nat, x: nat)
    requires Blamed(n0, asked, n, k, m, s, v) && Reaches(LeadEdges(n, asked), v, x)
    ensures Blamed(n0, asked, n, k, m, s, x)
  {
    var y: nat :| CauseOf(n0, k, m, y, s) && Reaches(LeadEdges(n, asked), y, v);
    ReachesTrans(LeadEdges(n, asked), y, v, x);
  }

  lemma MatchesStays(n: Nodes, k: Nodes, m: ObjectMap, roots: set<(nat, nat)>, F: nat, G: nat, n': Nodes, m': ObjectMap)
    requires Matches(n, k, m, roots, F, G) && Grows(n, n') && MapGrows(m, m')
    ensures Matches(n', k, m', roots, F, G)
  {
    if (F, G) !in roots {
      var p: nat, o: nat, f :| FieldMatches(n, k, m, F, G, p, o, f);
      assert MapsTo(m, p) <= MapsTo(m', p);
      assert ANY_FIELD in Fields(n, o) ==> ANY_FIELD in Fields(n', o);
      assert f in Fields(n, o) ==> f in Fields(n', o);
      assert FieldMatches(n', k, m', F, G, p, o, f);
    }
  }

  lemma DemandStays(n: Nodes, k: Nodes, m: ObjectMap, roots: set<(nat, nat)>, v: nat, t: nat, n': Nodes, m': ObjectMap)
    requires Demanded(n, k, m, roots, v, t) && Grows(n, n') && MapGrows(m, m')
    ensures Demanded(n', k, m', roots, v, t)
  {
    var F: nat, q: nat :| DemandedBy(n, k, m, roots, v, t, F, q);
    MatchesStays(n, k, m, roots, F, v, n', m');
    assert MapsTo(m, q) <= MapsTo(m', q);
    assert DemandedBy(n', k, m', roots, v, t, F, q);
  }

  lemma LeadsStays(n: Nodes, n': Nodes, v: nat, t: nat)
    requires Leads(n, v, t) && Pts(n, v) <= Pts(n', v)
    requires Status(n, v) <= Status(n', v) && Status(n, t) <= Status(n', t)
    ensures Leads(n', v, t)
  {
  }

  lemma AskedStays(roots: set<(nat, nat)>, asked: set<(nat, nat)>, n: Nodes, k: Nodes, m: ObjectMap, n': Nodes,
                   m': ObjectMap)
    requires AskedOk(roots, asked, n, k, m) && Grows(n, n') && MapGrows(m, m')
    ensures AskedOk(roots, asked, n', k, m')
  {
    hide Demanded, Leads, MapGrows;
    forall e | e in asked
      ensures Demanded(n', k, m', roots, e.0, e.1) && Leads(n', e.0, e.1)
    {
      DemandStays(n, k, m, roots, e.0, e.1, n', m');
      LeadsStays(n, n', e.0, e.1);
    }
  }

  lemma AllBlameStays(n0: Nodes, asked: set<(nat, nat)>, n: Nodes, k: Nodes, m: ObjectMap, n': Nodes, m': ObjectMap)
    requires AllBlamed(n0, asked, n, k, m) && LeadsGrow(n, asked, n', asked) && MapGrows(m, m')
    requires forall x: nat :: Status(n', x) == Status(n, x)
    ensures AllBlamed(n0, asked, n', k, m')
  {
    hide Blamed, LeadsGrow, MapGrows;
    forall x: nat, s: nat | 0 < s <= Status(n', x)
      ensures Blamed(n0, asked, n', k, m', s, x)
    {
      BlameStays(n0, asked, n, k, m, asked, n', m', s, x);
    }
  }

  lemma {:induction false} SameWayStays(n: Nodes, n': Nodes, k: Nodes, roots: set<(nat, nat)>, F: nat, G: nat,
                                        depth: nat)
    requires Grows(n, n') && SameWay(n, k, roots, F, G, depth)
    ensures SameWay(n', k, roots, F, G, depth)
    decreases depth, 0
  {
    if (F, G) !in roots {
      var p: nat, o: nat, f :| SameField(n, k, F, G, p, o, f) && Corresponds(n, k, roots, o, p, depth - 1);
      CorrespondsStays(n, n', k, roots, o, p, depth - 1);
      SameFieldStays(n, n', k, F, G, p, o, f);
      hide Corresponds, SameField, Grows;
      assert SameField(n', k, F, G, p, o, f) && Corresponds(n', k, roots, o, p, depth - 1);
    }
  }

  lemma SameFieldStays(n: Nodes, n': Nodes, k: Nodes, F: nat, G: nat, p: nat, o: nat, f: int)
    requires Grows(n, n') && SameField(n, k, F, G, p, o, f)
    ensures SameField(n', k, F, G, p, o, f)
  {
    assert ANY_FIELD in Fields(n, o) ==> ANY_FIELD in Fields(n', o);
    assert f in Fields(n, o) ==> f in Fields(n', o);
  }

  lemma {:induction false} CorrespondsStays(n: Nodes, n': Nodes, k: Nodes, roots: set<(nat, nat)>, o: nat, q: nat,
                                            depth: nat)
    requires Grows(n, n') && Corresponds(n, k, roots, o, q, depth)
    ensures Corresponds(n', k, roots, o, q, depth)
    decreases depth, 1
  {
    var F: nat, G: nat :| SameWay(n, k, roots, F, G, depth) && o in Pts(n, G) && q in Pts(k, F);
    SameWayStays(n, n', k, roots, F, G, depth);
    assert Pts(n, G) <= Pts(n', G);
  }

  lemma GroundedStays(n: Nodes, n': Nodes, k: Nodes, roots: set<(nat, nat)>, o: nat, q: nat)
    requires Grows(n, n') && Grounded(n, k, roots, o, q)
    ensures Grounded(n', k, roots, o, q)
  {
    hide Grows, Corresponds;
    var depth: nat :| Corresponds(n, k, roots, o, q, depth);
    CorrespondsStays(n, n', k, roots, o, q, depth);
  }

  lemma MapStaysGrounded(roots: set<(nat, nat)>, n: Nodes, n': Nodes, k: Nodes, m: ObjectMap)
    requires Grows(n, n') && MapGrounded(roots, n, k, m)
    ensures MapGrounded(roots, n', k, m)
  {
    hide Grows, Grounded;
    forall q: nat, o: nat | o in MapsTo(m, q)
      ensures Grounded(n', k, roots, o, q)
    {
      GroundedStays(n, n', k, roots, o, q);
    }
  }

  /** What a node points to corresponds to what the node whose part it plays points to. */
  lemma MatchGrounds(n: Nodes, k: Nodes, m: ObjectMap, roots: set<(nat, nat)>, F: nat, G: nat, o: nat, q: nat)
    requires MapGrounded(roots, n, k, m) && Matches(n, k, m, roots, F, G) && o in Pts(n, G) && q in Pts(k, F)
    ensures Grounded(n, k, roots, o, q)
  {
    if (F, G) in roots {
      assert SameWay(n, k, roots, F, G, 0);
      assert Corresponds(n, k, roots, o, q, 0);
    } else {
      var p: nat, o': nat, f :| FieldMatches(n, k, m, F, G, p, o', f);
      assert Grounded(n, k, roots, o', p);
      var depth: nat :| Corresponds(n, k, roots, o', p, depth);
      hide Corresponds;
      assert SameField(n, k, F, G, p, o', f) && Corresponds(n, k, roots, o', p, depth + 1 - 1);
      assert SameWay(n, k, roots, F, G, depth + 1);
      ByTheSameWay(n, k, roots, F, G, depth + 1, o, q);
    }
  }

  lemma ByTheSameWay(n: Nodes, k: Nodes, roots: set<(nat, nat)>, F: nat, G: nat, depth: nat, o: nat, q: nat)
    requires SameWay(n, k, roots, F, G, depth) && o in Pts(n, G) && q in Pts(k, F)
    ensures Corresponds(n, k, roots, o, q, depth)
  {
  }

  lemma WantsStays(n0: Nodes, asked: set<(nat, nat)>, n: Nodes, k: Nodes, m: ObjectMap, asked': set<(nat, nat)>,
                   n': Nodes, m': ObjectMap)
    requires NothingExtra(n0, asked, n, k, m) && MapGrows(m, m') && asked <= asked'
    requires forall x: nat :: Outs(n', x) <= Outs(n, x) + AskedOf(asked', x)
    requires forall o: nat, f :: f in Fields(n', o) ==> f in Fields(n, o) || exists q: nat :: Wants(k, m', o, f, q)
    ensures NothingExtra(n0, asked', n', k, m')
  {
    forall x: nat
      ensures Outs(n', x) <= Outs(n0, x) + AskedOf(asked', x)
    {
      assert Outs(n, x) <= Outs(n0, x) + AskedOf(asked, x);
      assert AskedOf(asked, x) <= AskedOf(asked', x);
    }
    forall o: nat, f | f in Fields(n', o) && f !in Fields(n0, o)
      ensures exists q: nat :: Wants(k, m', o, f, q)
    {
      if f in Fields(n, o) {
        var q: nat :| Wants(k, m, o, f, q);
        assert MapsTo(m, q) <= MapsTo(m', q);
        assert Wants(k, m', o, f, q);
      }
    }
  }

  /** More images, nothing else. */
  lemma MapAccounted(n0: Nodes, roots: set<(nat, nat)>, asked: set<(nat, nat)>, n: Nodes, k: Nodes, m: ObjectMap,
                     m': ObjectMap)
    requires Accounted(n0, roots, asked, n, k, m) && MapGrows(m, m') && MapGrounded(roots, n, k, m')
    ensures Accounted(n0, roots, asked, n, k, m')
  {
    assert Grows(n, n) && LeadsGrow(n, asked, n, asked);
    WantsStays(n0, asked, n, k, m, asked, n, m');
    hide AllBlamed, AskedOk, Grows, LeadsGrow, MapGrows, MapGrounded, NothingExtra;
    AskedStays(roots, asked, n, k, m, n, m');
    AllBlameStays(n0, asked, n, k, m, n, m');
  }

  // ---------------------------------------------------------------------------------------------
  // The steps of the embedding.
  // ---------------------------------------------------------------------------------------------

  lemma FlowReach(n: Nodes, n': Nodes, asked: set<(nat, nat)>, y: nat, x: nat)
    requires LeadsGrow(n, {}, n', asked) && Reaches(FlowEdges(n), y, x)
    ensures Reaches(LeadEdges(n', asked), y, x)
  {
    forall a: nat, b: nat | Step(FlowEdges(n), a, b)
      ensures Step(LeadEdges(n', asked), a, b)
    {
      assert b in FlowsTo(n, a) && FlowsTo(n, a) <= FlowsTo(n', a);
    }
    ReachesMore(FlowEdges(n), LeadEdges(n', asked), y, x);
  }

  lemma RaiseAccounted(n0: Nodes, roots: set<(nat, nat)>, asked: set<(nat, nat)>, n: Nodes, n': Nodes, k: Nodes,
                       m: ObjectMap, o: nat, q: nat)
    requires Accounted(n0, roots, asked, n, k, m) && o in MapsTo(m, q) && Status(k, q) == GLOBAL_ESCAPE
    requires Inv(n) && StatusSpread(n, n', o, GLOBAL_ESCAPE)
    ensures Accounted(n0, roots, asked, n', k, m)
    ensures More(n0, n) || n' != n ==> More(n0, n')
  {
    hide Inv, StatusSpread, AllBlamed, AskedOk, MapGrounded, NothingExtra, NothingLost, More, Grows, MapGrows;
    RaiseMore(n, n', o, GLOBAL_ESCAPE);
    MoreStays(n0, n, n');
    RaiseGrows(n, n', o, GLOBAL_ESCAPE);
    MapGrowsSelf(m);
    AskedStays(roots, asked, n, k, m, n', m);
    MapStaysGrounded(roots, n, n', k, m);
    RaiseNothingExtra(n0, asked, n, n', k, m, o);
    RaiseBlamed(n0, asked, n, n', k, m, o, q);
  }

  lemma MapGrowsSelf(m: ObjectMap)
    ensures MapGrows(m, m)
  {
  }

  lemma RaiseNothingExtra(n0: Nodes, asked: set<(nat, nat)>, n: Nodes, n': Nodes, k: Nodes, m: ObjectMap, o: nat)
    requires NothingExtra(n0, asked, n, k, m) && StatusSpread(n, n', o, GLOBAL_ESCAPE)
    ensures NothingExtra(n0, asked, n', k, m)
  {
    SameFlows(n, n');
    MapGrowsSelf(m);
    WantsStays(n0, asked, n, k, m, asked, n', m);
  }

  lemma RaiseBlamed(n0: Nodes, asked: set<(nat, nat)>, n: Nodes, n': Nodes, k: Nodes, m: ObjectMap, o: nat, q: nat)
    requires AllBlamed(n0, asked, n, k, m) && o in MapsTo(m, q) && Status(k, q) == GLOBAL_ESCAPE
    requires Inv(n) && StatusSpread(n, n', o, GLOBAL_ESCAPE)
    ensures AllBlamed(n0, asked, n', k, m)
  {
    SameFlows(n, n');
    assert LeadsGrow(n, asked, n', asked) && LeadsGrow(n, {}, n', asked) && MapGrows(m, m);
    hide Blamed, LeadsGrow, MapGrows, Inv;
    forall x: nat, s: nat | 0 < s <= Status(n', x)
      ensures Blamed(n0, asked, n', k, m, s, x)
    {
      if s <= Status(n, x) {
        BlameStays(n0, asked, n, k, m, asked, n', m, s, x);
      } else {
        FlowReach(n, n', asked, o, x);
        BlamedBy(n0, asked, n', k, m, s, x, o, q);
      }
    }
  }

  lemma RaiseMore(n: Nodes, n': Nodes, o: nat, st: EAStatus)
    requires Inv(n) && StatusSpread(n, n', o, st)
    ensures NothingLost(n, n') && (n' != n ==> More(n, n'))
  {
    RaiseKeepsFlows(n, n', o, st);
    SameFlows(n, n');
    if n' != n {
      var x: nat :| x < |n| && n'[x] != n[x];
      assert Status(n, x) < Status(n', x);
    }
  }

  lemma RaiseGrows(n: Nodes, n': Nodes, o: nat, st: EAStatus)
    requires Inv(n) && StatusSpread(n, n', o, st)
    ensures Grows(n, n')
  {
    RaiseKeepsFlows(n, n', o, st);
    SameFlows(n, n');
  }

  lemma BlamedBy(n0: Nodes, asked: set<(nat, nat)>, n: Nodes, k: Nodes, m: ObjectMap, s: nat, x: nat, o: nat, q: nat)
    requires o in MapsTo(m, q) && Status(k, q) == GLOBAL_ESCAPE && Reaches(LeadEdges(n, asked), o, x)
    ensures Blamed(n0, asked, n, k, m, s, x)
  {
    assert CauseOf(n0, k, m, o, s);
  }

  lemma OneMoreGrows(n: Nodes, n': Nodes, kind: NodeKind, st: EAStatus, fid: int, owner: nat)
    requires Owned(n) && OneMore(n, n', kind, st, fid, owner)
    ensures Grows(n, n') && forall asked :: LeadsGrow(n, asked, n', asked)
  {
    forall x: nat | x < |n|
      ensures FlowsTo(n, x) <= FlowsTo(n', x)
    {
      forall y | y in FlowsTo(n, x)
        ensures y in FlowsTo(n', x)
      {
        if IsObject(n, x) {
          var f :| f in Fields(n, x) && Fields(n, x)[f] == y;
          assert f in Fields(n', x) && Fields(n', x)[f] == y;
        }
      }
    }
  }

  /** A new field has the status of its owner. */
  lemma FieldAccounted(n0: Nodes, roots: set<(nat, nat)>, asked: set<(nat, nat)>, n: Nodes, n': Nodes, k: Nodes,
                       m: ObjectMap, o: nat, f: int, q: nat)
    requires Accounted(n0, roots, asked, n, k, m) && Inv(n) && OneMore(n, n', FieldNode, Status(n, o), f, o)
    requires o in MapsTo(m, q) && f in Fields(k, q)
    ensures Accounted(n0, roots, asked, n', k, m) && More(n0, n')
  {
    assert Owned(n);
    hide Inv, Owned, OneMore, AllBlamed, AskedOk, MapGrounded, NothingExtra, NothingLost, More, Grows, LeadsGrow;
    hide MapGrows;
    FieldMore(n, n', o, f);
    MoreStays(n0, n, n');
    OneMoreGrows(n, n', FieldNode, Status(n, o), f, o);
    MapGrowsSelf(m);
    AskedStays(roots, asked, n, k, m, n', m);
    MapStaysGrounded(roots, n, n', k, m);
    FieldNothingExtra(n0, asked, n, n', k, m, o, f, q);
    FieldBlamed(n0, asked, n, n', k, m, o, f);
  }

  lemma FieldMore(n: Nodes, n': Nodes, o: nat, f: int)
    requires OneMore(n, n', FieldNode, Status(n, o), f, o)
    ensures NothingLost(n, n') && More(n, n')
  {
  }

  lemma FieldNothingExtra(n0: Nodes, asked: set<(nat, nat)>, n: Nodes, n': Nodes, k: Nodes, m: ObjectMap, o: nat,
                          f: int, q: nat)
    requires NothingExtra(n0, asked, n, k, m) && OneMore(n, n', FieldNode, Status(n, o), f, o)
    requires o in MapsTo(m, q) && f in Fields(k, q)
    ensures NothingExtra(n0, asked, n', k, m)
  {
    assert Wants(k, m, o, f, q);
    MapGrowsSelf(m);
    WantsStays(n0, asked, n, k, m, asked, n', m);
  }

  lemma FieldBlamed(n0: Nodes, asked: set<(nat, nat)>, n: Nodes, n': Nodes, k: Nodes, m: ObjectMap, o: nat, f: int)
    requires AllBlamed(n0, asked, n, k, m) && OneMore(n, n', FieldNode, Status(n, o), f, o)
    requires LeadsGrow(n, asked, n', asked)
    ensures AllBlamed(n0, asked, n', k, m)
  {
    assert Step(LeadEdges(n', asked), o, |n|) by {
      assert f in Fields(n', o) && Fields(n', o)[f] == |n|;
    }
    hide Blamed, LeadsGrow, MapGrows;
    MapGrowsSelf(m);
    forall x: nat, s: nat | 0 < s <= Status(n', x)
      ensures Blamed(n0, asked, n', k, m, s, x)
    {
      BlameStays(n0, asked, n, k, m, asked, n', m, s, if x == |n| then o else x);
      if x == |n| {
        ReachesSelf(LeadEdges(n', asked), x);
        StepReaches(LeadEdges(n', asked), o, x, x);
        BlameGoesOn(n0, asked, n', k, m, s, o, x);
      }
    }
  }

  lemma AddedFlows(n: Nodes, n': Nodes, v: nat, w: nat)
    requires v < |n| && OutNodeAdded(n, n', v, w)
    ensures |n'| == |n| && forall x: nat :: FlowsTo(n, x) <= FlowsTo(n', x)
  {
    if w !in Outs(n, v) {
      var s :| OutNodeVia(n, s, n', v, w);
      SameFlows(n, s);
      if !Absorbed(n, v) {
        EdgeAddedReads(s, v, w);
        SameEdges(EdgeAdded(s, v, w), n');
      }
    }
  }

  /** Whose status a new `out` edge raises. */
  lemma AddedRaises(n: Nodes, n': Nodes, v: nat, w: nat, x: nat)
    requires v < |n| && OutNodeAdded(n, n', v, w)
    ensures Status(n', x) == Status(n, x) || (Status(n', x) == Status(n, v) && Reaches(FlowEdges(n), w, x))
  {
    if w !in Outs(n, v) {
      var s :| OutNodeVia(n, s, n', v, w);
      assert Status(s, x) == Status(n, x) || (Status(s, x) == Status(n, v) && Reaches(FlowEdges(n), w, x));
      if !Absorbed(n, v) {
        EdgeAddedReads(s, v, w);
        SameEdges(EdgeAdded(s, v, w), n');
      }
    }
  }

  lemma AddedNothingExtra(n0: Nodes, asked: set<(nat, nat)>, n: Nodes, n': Nodes, k: Nodes, m: ObjectMap, v: nat,
                          w: nat)
    requires NothingExtra(n0, asked, n, k, m) && v < |n| && OutNodeAdded(n, n', v, w)
    ensures NothingExtra(n0, asked + {(v, w)}, n', k, m)
  {
    assert MapGrows(m, m);
    AddedOuts(n, n', v, w);
    var asked' := asked + {(v, w)};
    assert w in AskedOf(asked', v) by {
      assert (v, w) in asked';
    }
    hide NothingExtra, OutNodeAdded, MapGrows;
    WantsStays(n0, asked, n, k, m, asked', n', m);
  }

  lemma AddedOuts(n: Nodes, n': Nodes, v: nat, w: nat)
    requires v < |n| && OutNodeAdded(n, n', v, w)
    ensures forall x: nat :: Outs(n', x) <= Outs(n, x) + (if x == v then {w} else {}) && Fields(n', x) == Fields(n, x)
  {
    if w !in Outs(n, v) {
      var s :| OutNodeVia(n, s, n', v, w);
      SameFlows(n, s);
      if !Absorbed(n, v) {
        EdgeAddedReads(s, v, w);
        SameEdges(EdgeAdded(s, v, w), n');
      }
    }
  }

  /** Every status but that of `w`, which is no larger than that of `v`, has a cause. */
  ghost predicate AllBlamedBut(n0: Nodes, asked: set<(nat, nat)>, n: Nodes, k: Nodes, m: ObjectMap, v: nat, w: nat) {
    forall x: nat, s: nat {:trigger Blamed(n0, asked, n, k, m, s, x)} ::
      0 < s <= Status(n, x) && (x != w || s > Status(n, v)) ==> Blamed(n0, asked, n, k, m, s, x)
  }

  lemma AddBlamed(n0: Nodes, asked: set<(nat, nat)>, n: Nodes, n': Nodes, k: Nodes, m: ObjectMap, v: nat, w: nat)
    requires AllBlamedBut(n0, asked, n, k, m, v, w) && OutNodeAdded(n, n', v, w) && v < |n| && v != w
    ensures AllBlamed(n0, asked + {(v, w)}, n', k, m)
  {
    var asked' := asked + {(v, w)};
    AddedFlows(n, n', v, w);
    assert LeadsGrow(n, asked, n', asked') && LeadsGrow(n, {}, n', asked') && MapGrows(m, m);
    assert Step(LeadEdges(n', asked'), v, w) by {
      assert (v, w) in asked' && w in AskedOf(asked', v);
    }
    hide Blamed, LeadsGrow, MapGrows, OutNodeAdded, AskedOf;
    forall x: nat, s: nat | 0 < s <= Status(n', x)
      ensures Blamed(n0, asked', n', k, m, s, x)
    {
      AddedRaises(n, n', v, w, x);
      if s <= Status(n, x) && (x != w || s > Status(n, v)) {
        BlameStays(n0, asked, n, k, m, asked', n', m, s, x);
      } else {
        ReachesSelf(FlowEdges(n), x);
        BlameStays(n0, asked, n, k, m, asked', n', m, s, v);
        FlowReach(n, n', asked', w, x);
        StepReaches(LeadEdges(n', asked'), v, w, x);
        BlameGoesOn(n0, asked', n', k, m, s, v, x);
      }
    }
  }

  lemma GainedGrows(n: Nodes, n': Nodes, v: nat, w: nat)
    requires Gained(n, n', v, w)
    ensures Grows(n, n')
  {
  }

  lemma AskedAdded(roots: set<(nat, nat)>, asked: set<(nat, nat)>, n: Nodes, k: Nodes, m: ObjectMap, n': Nodes, v: nat,
                   w: nat)
    requires AskedOk(roots, asked, n, k, m) && Gained(n, n', v, w) && w in Pts(n, w) && Demanded(n, k, m, roots, v, w)
    ensures AskedOk(roots, asked + {(v, w)}, n', k, m)
  {
    GainedGrows(n, n', v, w);
    assert MapGrows(m, m);
    AskedStays(roots, asked, n, k, m, n', m);
    DemandStays(n, k, m, roots, v, w, n', m);
    GainedIsEdgesOnly(n, n', v, w);
    hide Demanded, Leads, Gained, Grows, EdgesOnly;
  }

  lemma AddedMore(n: Nodes, n': Nodes, v: nat, w: nat)
    requires Inv(n) && CanAdd(n, v, w) && OutNodeAdded(n, n', v, w)
    ensures NothingLost(n, n') && (n' != n ==> More(n, n'))
  {
    hide *;
    if w in Outs(n, v) {
      KnownIsSame(n, n', v, w);
      NothingLostSelf(n);
    } else {
      var s := AddedThrough(n, n', v, w);
      RaiseMore(n, s, w, Status(n, v));
      if !Absorbed(n, v) {
        EdgeMore(s, n', v, w);
        MoreStays(n, s, n');
      }
    }
  }

  lemma NothingLostSelf(n: Nodes)
    ensures NothingLost(n, n)
  {
  }

  lemma KnownIsSame(n: Nodes, n': Nodes, v: nat, w: nat)
    requires w in Outs(n, v) && OutNodeAdded(n, n', v, w)
    ensures n' == n
  {
  }

  lemma AddedThrough(n: Nodes, n': Nodes, v: nat, w: nat) returns (s: Nodes)
    requires w !in Outs(n, v) && OutNodeAdded(n, n', v, w)
    ensures StatusSpread(n, s, w, Status(n, v)) && v < |s| && w < |s| && w !in Outs(s, v)
    ensures if Absorbed(n, v) then n' == s else Spread(EdgeAdded(s, v, w), n', v, Pts(s, w))
  {
    s :| OutNodeVia(n, s, n', v, w);
    SameFlows(n, s);
  }

  lemma EdgeMore(s: Nodes, n': Nodes, v: nat, w: nat)
    requires v < |s| && w < |s| && w !in Outs(s, v) && Spread(EdgeAdded(s, v, w), n', v, Pts(s, w))
    ensures NothingLost(s, n') && More(s, n')
  {
    assert SameButPoints(EdgeAdded(s, v, w), n');
    hide Spread, EdgeAdded, SameButPoints;
    EdgeAddedReads(s, v, w);
    SameEdges(EdgeAdded(s, v, w), n');
    assert |n'| == |s| by {
      SameSize(EdgeAdded(s, v, w), n');
    }
    assert w in Outs(n', v);
  }

  lemma SameSize(n: Nodes, n': Nodes)
    requires SameButPoints(n, n')
    ensures |n'| == |n|
  {
  }

  /** A link the callee's graph demands is made. */
  lemma AddedAccounted(n0: Nodes, roots: set<(nat, nat)>, asked: set<(nat, nat)>, n: Nodes, n': Nodes, k: Nodes,
                       m: ObjectMap, v: nat, w: nat)
    requires Accounted(n0, roots, asked, n, k, m) && Inv(n) && CanAdd(n, v, w) && IsObject(n, w)
    requires OutNodeAdded(n, n', v, w) && Demanded(n, k, m, roots, v, w)
    ensures Accounted(n0, roots, asked + {(v, w)}, n', k, m)
    ensures More(n0, n) || n' != n ==> More(n0, n')
  {
    AddedKeepsInv(n, n', v, w);
    AddedMore(n, n', v, w);
    MoreStays(n0, n, n');
    assert w in Pts(n, w) && v != w && v < |n|;
    hide Inv, CanAdd, OutNodeAdded, Demanded, Gained, Blamed;
    AddBlamed(n0, asked, n, n', k, m, v, w);
    AskedAdded(roots, asked, n, k, m, n', v, w);
    AddedNothingExtra(n0, asked, n, n', k, m, v, w);
    GainedGrows(n, n', v, w);
    MapStaysGrounded(roots, n, n', k, m);
    hide AllBlamed, AskedOk, MapGrounded, NothingExtra;
  }

  /** A phantom is made, with the status of the node it is for, and linked. */
  lemma PhantomAccounted(n0: Nodes, roots: set<(nat, nat)>, asked: set<(nat, nat)>, n: Nodes, n1: Nodes, n2: Nodes,
                         k: Nodes, m: ObjectMap, m': ObjectMap, F: nat, v: nat, q: nat)
    requires Accounted(n0, roots, asked, n, k, m) && Inv(n) && Pts(n, v) == {} && Live(n, v)
    requires n1 == ObjectCreated(n, Status(n, v)) && OutNodeAdded(n1, n2, v, |n|) && Recorded(m, m', |n|, q)
    requires Matches(n, k, m, roots, F, v) && q in Pts(k, F)
    ensures Accounted(n0, roots, asked + {(v, |n|)}, n2, k, m') && More(n0, n2)
  {
    PhantomMore(n, n1, n2, v);
    MoreStays(n0, n, n2);
    EmptyIsUnreached(n, v);
    PhantomCreated(n, n1, v);
    ObjectIsOneMore(n, Status(n, v));
    OneMoreGrows(n, n1, ObjectNode, Status(n, v), 0, 0);
    RecordedGrows(k, m, m', |n|, q);
    AddedKeepsInv(n1, n2, v, |n|);
    assert |n| in Pts(n1, |n|) && v < |n1| && v != |n|;
    PhantomBlamed(n0, asked, n, n1, k, m, m', v);
    WantsStays(n0, asked, n, k, m, asked, n1, m');
    AddedNothingExtra(n0, asked, n1, n2, k, m', v, |n|);
    PhantomGrounded(n, n1, n2, roots, k, m, m', F, v, q);
    AddBlamed(n0, asked, n1, n2, k, m', v, |n|);
    AskedStays(roots, asked, n, k, m, n1, m');
    PhantomDemanded(n, n1, k, m, m', roots, F, v, q);
    AskedAdded(roots, asked, n1, k, m', n2, v, |n|);
    hide AllBlamed, AskedOk, MapGrounded, NothingExtra;
  }

  lemma PhantomGrounded(n: Nodes, n1: Nodes, n2: Nodes, roots: set<(nat, nat)>, k: Nodes, m: ObjectMap, m': ObjectMap,
                        F: nat, v: nat, q: nat)
    requires Inv(n) && Pts(n, v) == {} && Live(n, v) && MapGrounded(roots, n, k, m) && Recorded(m, m', |n|, q)
    requires n1 == ObjectCreated(n, Status(n, v)) && OutNodeAdded(n1, n2, v, |n|)
    requires Matches(n, k, m, roots, F, v) && q in Pts(k, F)
    ensures MapGrounded(roots, n2, k, m')
  {
    EmptyIsUnreached(n, v);
    PhantomNodes(n, n1, n2, v);
    assert EdgesOnly(n2, n2) && MapGrows(m, m);
    KeptThenGrown(n, n2, n2);
    MapStaysGrounded(roots, n, n2, k, m);
    MatchesStays(n, k, m, roots, F, v, n2, m);
    MatchGrounds(n2, k, m, roots, F, v, |n|, q);
    RecordedGrounded(roots, n2, k, m, m', |n|, q);
  }

  lemma RecordedGrounded(roots: set<(nat, nat)>, n: Nodes, k: Nodes, m: ObjectMap, m': ObjectMap, o: nat, q: nat)
    requires MapGrounded(roots, n, k, m) && Recorded(m, m', o, q) && Grounded(n, k, roots, o, q)
    ensures MapGrounded(roots, n, k, m')
  {
    hide Grounded;
  }

  lemma PhantomMore(n: Nodes, n1: Nodes, n2: Nodes, v: nat)
    requires Inv(n) && Pts(n, v) == {} && Live(n, v)
    requires n1 == ObjectCreated(n, Status(n, v)) && OutNodeAdded(n1, n2, v, |n|)
    ensures NothingLost(n, n2) && More(n, n2)
  {
    hide *;
    EmptyIsUnreached(n, v);
    PhantomCreated(n, n1, v);
    ObjectMore(n, Status(n, v));
    AddedMore(n1, n2, v, |n|);
    MoreStays(n, n1, n2);
  }

  lemma ObjectMore(n: Nodes, st: EAStatus)
    ensures NothingLost(n, ObjectCreated(n, st)) && More(n, ObjectCreated(n, st))
  {
    ObjectIsOneMore(n, st);
    hide ObjectCreated;
  }

  lemma PhantomDemanded(n: Nodes, n1: Nodes, k: Nodes, m: ObjectMap, m': ObjectMap, roots: set<(nat, nat)>, F: nat,
                        v: nat, q: nat)
    requires Matches(n, k, m, roots, F, v) && q in Pts(k, F) && Grows(n, n1) && Recorded(m, m', |n|, q)
    ensures Demanded(n1, k, m', roots, v, |n|)
  {
    RecordedGrows(k, m, m', |n|, q);
    MatchesStays(n, k, m, roots, F, v, n1, m');
    RecordedMaps(m, m', |n|, q);
    assert DemandedBy(n1, k, m', roots, v, |n|, F, q);
  }

  lemma PhantomBlamed(n0: Nodes, asked: set<(nat, nat)>, n: Nodes, n1: Nodes, k: Nodes, m: ObjectMap, m': ObjectMap,
                      v: nat)
    requires AllBlamed(n0, asked, n, k, m) && OneMore(n, n1, ObjectNode, Status(n, v), 0, 0) && MapGrows(m, m')
    requires LeadsGrow(n, asked, n1, asked)
    ensures AllBlamedBut(n0, asked, n1, k, m', v, |n|)
  {
    hide Blamed, LeadsGrow, MapGrows;
    forall x: nat, s: nat | 0 < s <= Status(n1, x) && (x != |n| || s > Status(n1, v))
      ensures Blamed(n0, asked, n1, k, m', s, x)
    {
      BlameStays(n0, asked, n, k, m, asked, n1, m', s, x);
    }
  }

  lemma WalkedGrows(n: Nodes, m: ObjectMap, n': Nodes, m': ObjectMap, k: Nodes)
    requires Walked(n, m, n', m', k)
    ensures Grows(n, n') && MapGrows(m, m')
  {
    assert EdgesOnly(n', n');
    hide MapGrows;
    KeptThenGrown(n, n', n');
  }

  lemma MatchesWalked(n: Nodes, m: ObjectMap, n': Nodes, m': ObjectMap, k: Nodes, roots: set<(nat, nat)>, F: nat,
                      G: nat)
    requires Matches(n, k, m, roots, F, G) && Walked(n, m, n', m', k)
    ensures Matches(n', k, m', roots, F, G)
  {
    hide *;
    WalkedGrows(n, m, n', m', k);
    MatchesStays(n, k, m, roots, F, G, n', m');
  }

  lemma RecordedAccounted(n0: Nodes, roots: set<(nat, nat)>, asked: set<(nat, nat)>, n: Nodes, k: Nodes, m: ObjectMap,
                          m': ObjectMap, F: nat, G: nat, o: nat, q: nat)
    requires Accounted(n0, roots, asked, n, k, m) && Recorded(m, m', o, q)
    requires Matches(n, k, m, roots, F, G) && o in Pts(n, G) && q in Pts(k, F)
    ensures Accounted(n0, roots, asked, n, k, m')
  {
    assert MapGrounded(roots, n, k, m);
    hide *;
    RecordedGrows(k, m, m', o, q);
    MatchGrounds(n, k, m, roots, F, G, o, q);
    RecordedGrounded(roots, n, k, m, m', o, q);
    MapAccounted(n0, roots, asked, n, k, m, m');
  }

  lemma LookedUpAccounted(n0: Nodes, roots: set<(nat, nat)>, asked: set<(nat, nat)>, n: Nodes, k: Nodes, m: ObjectMap,
                          m': ObjectMap, F: nat, G: nat)
    requires Accounted(n0, roots, asked, n, k, m) && forall t: nat :: MapsTo(m', t) == MapsTo(m, t)
    ensures Accounted(n0, roots, asked, n, k, m')
    ensures Matches(n, k, m, roots, F, G) ==> Matches(n, k, m', roots, F, G)
  {
    assert MapGrows(m, m') && Grows(n, n) && MapGrounded(roots, n, k, m');
    hide Accounted, MapGrows, Grows, Matches, MapGrounded;
    MapAccounted(n0, roots, asked, n, k, m, m');
    if Matches(n, k, m, roots, F, G) {
      MatchesStays(n, k, m, roots, F, G, n, m');
    }
  }

  lemma DemandOf(n: Nodes, k: Nodes, m: ObjectMap, roots: set<(nat, nat)>, F: nat, v: nat, q: nat, t: nat)
    requires Matches(n, k, m, roots, F, v) && q in Pts(k, F) && t in MapsTo(m, q)
    ensures Demanded(n, k, m, roots, v, t)
  {
    assert DemandedBy(n, k, m, roots, v, t, F, q);
  }

  lemma RootMatches(n: Nodes, k: Nodes, m: ObjectMap, roots: set<(nat, nat)>, F: nat, G: nat)
    requires (F, G) in roots
    ensures Matches(n, k, m, roots, F, G)
  {
  }

  lemma FieldIsMatch(n: Nodes, k: Nodes, m: ObjectMap, roots: set<(nat, nat)>, o: nat, q: nat, f: int, G: nat)
    requires o in MapsTo(m, q) && f in Fields(k, q) && FieldOf(n, o, f) == Some(G)
    ensures Matches(n, k, m, roots, Fields(k, q)[f], G)
  {
    assert FieldMatches(n, k, m, Fields(k, q)[f], G, q, o, f);
  }

  /** A node that pointed nowhere is linked to one more object. */
  lemma LinkAccounted(n0: Nodes, roots: set<(nat, nat)>, asked: set<(nat, nat)>, n: Nodes, s: Nodes, t: Nodes,
                      k: Nodes, m: ObjectMap, F: nat, q: nat, v: nat, o: nat)
    requires Accounted(n0, roots, asked, s, k, m) && Linking(n, s, v, MapsTo(m, q)) && Pts(n, v) == {}
    requires Matches(n, k, m, roots, F, v) && q in Pts(k, F) && o in MapsTo(m, q)
    requires CanAdd(s, v, o) && IsObject(s, o) && OutNodeAdded(s, t, v, o)
    ensures Accounted(n0, roots, asked + {(v, o)}, t, k, m)
    ensures More(n0, s) || t != s ==> More(n0, t)
  {
    LinkingGrows(n, s, v, MapsTo(m, q));
    assert MapGrows(m, m);
    hide *;
    MatchesStays(n, k, m, roots, F, v, s, m);
    DemandOf(s, k, m, roots, F, v, q, o);
    AddedAccounted(n0, roots, asked, s, t, k, m, v, o);
  }

  lemma LinkingGrows(n: Nodes, s: Nodes, v: nat, objs: set<nat>)
    requires Linking(n, s, v, objs) && Pts(n, v) == {}
    ensures Grows(n, s) && Inv(s)
  {
    LinkEnds(n, s, v, objs);
    hide Inv, Linking;
    assert EdgesOnly(s, s);
    KeptThenGrown(n, s, s);
  }

  /** A field of an image is linked in the edge phase. */
  lemma EdgeAccounted(n0: Nodes, roots: set<(nat, nat)>, asked: set<(nat, nat)>, n: Nodes, s: Nodes, t: Nodes, k: Nodes,
                      m: ObjectMap, p: nat, o: nat, f: int, q: nat, w: nat)
    requires Accounted(n0, roots, asked, s, k, m) && EdgePhase(n, s, k, m)
    requires o in MapsTo(m, p) && f in Fields(k, p) && q in Pts(k, Fields(k, p)[f]) && w in MapsTo(m, q)
    requires FieldOf(s, o, f).Some? && OutNodeAdded(s, t, FieldOf(s, o, f).value, w)
    ensures Accounted(n0, roots, asked + {(FieldOf(s, o, f).value, w)}, t, k, m)
    ensures More(n0, s) || t != s ==> More(n0, t)
  {
    var v := FieldOf(s, o, f).value;
    EdgePhaseField(n, s, k, m, o, f, q, w);
    assert IsObject(s, w);
    hide *;
    FieldIsMatch(s, k, m, roots, o, p, f, v);
    DemandOf(s, k, m, roots, Fields(k, p)[f], v, q, w);
    AddedAccounted(n0, roots, asked, s, t, k, m, v, w);
  }

  /** The result is linked. */
  lemma ResultAccounted(n0: Nodes, roots: set<(nat, nat)>, asked: set<(nat, nat)>, n: Nodes, s: Nodes, t: Nodes,
                        k: Nodes, m: ObjectMap, F: nat, q: nat, v: nat, o: nat)
    requires Accounted(n0, roots, asked, s, k, m) && ResultPhase(n, s, k, m) && Live(n, v) && !IsObject(n, v)
    requires (F, v) in roots && q in Pts(k, F) && o in MapsTo(m, q) && OutNodeAdded(s, t, v, o)
    ensures Accounted(n0, roots, asked + {(v, o)}, t, k, m)
    ensures More(n0, s) || t != s ==> More(n0, t)
  {
    ResultCanBeLinked(n, s, k, m, v, q, o);
    assert IsObject(s, o);
    hide *;
    RootMatches(s, k, m, roots, F, v);
    DemandOf(s, k, m, roots, F, v, q, o);
    AddedAccounted(n0, roots, asked, s, t, k, m, v, o);
  }

  // ---------------------------------------------------------------------------------------------
  // The embedding as a whole.
  // ---------------------------------------------------------------------------------------------

  /** Argument nodes play the parts of argument nodes, and the node of the result that of the callee's result. */
  ghost function Roots(n: Nodes, caller: seq<Actual>, callee: seq<Actual>): set<(nat, nat)> {
    (set i | 0 <= i < |caller| && i < |callee| :: (callee[i].node, caller[i].node)) + ResultRoots(n, caller, callee)
  }

  ghost function Last(s: seq<Actual>): Actual
    requires |s| > 0
  {
    s[|s| - 1]
  }

  lemma LastReads(s: seq<Actual>)
    requires |s| > 0
    ensures Last(s) == s[|s| - 1]
  {
  }

  ghost function ResultRoots(n: Nodes, caller: seq<Actual>, callee: seq<Actual>): set<(nat, nat)> {
    if |caller| > 0 && |callee| > 0 && caller[|caller| - 1].isReturn then
      set r | r in Outs(n, Last(caller).node) :: (Last(callee).node, r)
    else {}
  }

  lemma RootsRead(n: Nodes, caller: seq<Actual>, callee: seq<Actual>)
    ensures forall i :: 0 <= i < |caller| && i < |callee| ==>
              (callee[i].node, caller[i].node) in Roots(n, caller, callee)
  {
  }

  lemma ResultIsRoot(n: Nodes, n1: Nodes, n2: Nodes, caller: seq<Actual>, callee: seq<Actual>)
    requires SameResult(n, n1, caller) && SameResult(n1, n2, caller) && |caller| > 0 && |callee| > 0
    ensures caller[|caller| - 1].isReturn ==> forall r :: r in Outs(n2, Last(caller).node) ==>
              (Last(callee).node, r) in Roots(n, caller, callee)
  {
  }

  /** No more than the callee's graph asks for has been done: which objects stand for what, which edges and fields are
      new, and which statuses there are: a node has at least status `s` exactly if it is led to from a node that had so
      before or stands for a callee object that escapes globally. */
  ghost predicate Explained(n: Nodes, n': Nodes, callee: Summary, m: ObjectMap, caller: seq<Actual>,
                            asked: set<(nat, nat)>) {
    && AskedOk(Roots(n, caller, callee.args), asked, n', callee.nodes, m)
    && MapGrounded(Roots(n, caller, callee.args), n', callee.nodes, m)
    && NothingExtra(n, asked, n', callee.nodes, m)
    && forall x: nat, s: EAStatus {:trigger Blamed(n, asked, n', callee.nodes, m, s, x)} ::
         s > 0 ==> (Status(n', x) >= s <==> Blamed(n, asked, n', callee.nodes, m, s, x))
  }

  lemma MergedIsExplained(n: Nodes, n': Nodes, callee: Summary, m: ObjectMap, caller: seq<Actual>,
                          madeFor: map<nat, nat>, asked: set<(nat, nat)>)
    requires Inv(n') && Merged(n, n', callee, m, caller, madeFor)
    requires Accounted(n, Roots(n, caller, callee.args), asked, n', callee.nodes, m)
    ensures Explained(n, n', callee, m, caller, asked)
  {
    hide ArgsMapped, ResultEmbedded, Phantoms, ObjectEmbedded, Demanded, Blamed;
    forall x: nat, s: EAStatus | s > 0 && Blamed(n, asked, n', callee.nodes, m, s, x)
      ensures Status(n', x) >= s
    {
      BlamedHasStatus(n, Roots(n, caller, callee.args), asked, n', callee.nodes, m, s, x);
    }
  }

  lemma BlamedHasStatus(n0: Nodes, roots: set<(nat, nat)>, asked: set<(nat, nat)>, n: Nodes, k: Nodes, m: ObjectMap,
                        s: EAStatus, x: nat)
    requires Inv(n) && AskedOk(roots, asked, n, k, m) && Grows(n0, n) && GlobalsMapped(n, k, m)
    requires Blamed(n0, asked, n, k, m, s, x)
    ensures Status(n, x) >= s
  {
    hide Reaches;
    var y: nat :| CauseOf(n0, k, m, y, s) && Reaches(LeadEdges(n, asked), y, x);
    assert Status(n, y) >= s by {
      assert Status(n0, y) <= Status(n, y);
    }
    hide CauseOf, Grows, GlobalsMapped, AskedOk, Inv;
    AlongLeads(n, roots, asked, k, m, s, y, x);
  }

  lemma AlongLeads(n: Nodes, roots: set<(nat, nat)>, asked: set<(nat, nat)>, k: Nodes, m: ObjectMap, s: EAStatus,
                   y: nat, x: nat)
    requires Inv(n) && AskedOk(roots, asked, n, k, m) && Status(n, y) >= s && Reaches(LeadEdges(n, asked), y, x)
    ensures Status(n, x) >= s
  {
    if s > 0 {
      var good := set v: nat | v < |n| && Status(n, v) >= s;
      hide AskedOk, Inv;
      forall a: nat, b: nat | a in good && Step(LeadEdges(n, asked), a, b)
        ensures b in good
      {
        OneLead(n, roots, asked, k, m, a, b);
      }
      var p :| Chain(LeadEdges(n, asked), p, y, x);
      CarriedAlong(LeadEdges(n, asked), p, y, x, good);
    }
  }

  lemma OneLead(n: Nodes, roots: set<(nat, nat)>, asked: set<(nat, nat)>, k: Nodes, m: ObjectMap, a: nat, b: nat)
    requires Inv(n) && AskedOk(roots, asked, n, k, m) && Step(LeadEdges(n, asked), a, b)
    ensures Status(n, a) <= Status(n, b)
  {
    if b in FlowsTo(n, a) {
      assert StatusFlows(n);
    } else {
      assert (a, b) in asked;
      assert Leads(n, a, b);
      if b in Pts(n, a) {
        StatusToPointee(n, a, b);
      }
    }
  }

  /** If only the global nodes had status `s`, nothing stands for a globally escaping callee object, the global object
      stands for nothing, and no global node is an argument or the result, then no other node gets that status. */
  lemma NothingNewEscapes(n: Nodes, n': Nodes, callee: Summary, m: ObjectMap, caller: seq<Actual>,
                          asked: set<(nat, nat)>, s: EAStatus, x: nat)
    requires Inv(n') && Explained(n, n', callee, m, caller, asked) && s > 0
    requires forall y: nat :: Status(n, y) >= s ==> IsGlobal(y)
    requires forall q: nat, o: nat {:trigger o in MapsTo(m, q)} ::
               o in MapsTo(m, q) ==> Status(callee.nodes, q) != GLOBAL_ESCAPE && o != GLOBAL_OBJ
    requires forall e :: e in Roots(n, caller, callee.args) ==> !IsGlobal(e.1)
    ensures Status(n', x) >= s ==> IsGlobal(x)
  {
    hide Explained, Inv, Roots, Blamed, Reaches, AskedOk, LeadEdges;
    if Status(n', x) >= s {
      var k, roots := callee.nodes, Roots(n, caller, callee.args);
      var y, p := CauseFound(n, n', callee, m, caller, asked, s, x);
      forall a: nat, b: nat | a in {0, 1, 2} && Step(LeadEdges(n', asked), a, b)
        ensures b in {0, 1, 2}
      {
        GlobalsLeadNowhere(n', roots, asked, k, m, a, b);
      }
      CarriedAlong(LeadEdges(n', asked), p, y, x, {0, 1, 2});
    }
  }

  lemma CauseFound(n: Nodes, n': Nodes, callee: Summary, m: ObjectMap, caller: seq<Actual>, asked: set<(nat, nat)>,
                   s: EAStatus, x: nat) returns (y: nat, p: seq<nat>)
    requires Explained(n, n', callee, m, caller, asked) && s > 0 && Status(n', x) >= s
    ensures AskedOk(Roots(n, caller, callee.args), asked, n', callee.nodes, m)
    ensures CauseOf(n, callee.nodes, m, y, s) && Chain(LeadEdges(n', asked), p, y, x)
  {
    assert Blamed(n, asked, n', callee.nodes, m, s, x);
    hide AskedOk, CauseOf;
    y :| CauseOf(n, callee.nodes, m, y, s) && Reaches(LeadEdges(n', asked), y, x);
    p :| Chain(LeadEdges(n', asked), p, y, x);
  }

  lemma GlobalsLeadNowhere(n: Nodes, roots: set<(nat, nat)>, asked: set<(nat, nat)>, k: Nodes, m: ObjectMap, a: nat,
                           b: nat)
    requires Inv(n) && AskedOk(roots, asked, n, k, m) && IsGlobal(a) && Step(LeadEdges(n, asked), a, b)
    requires forall q: nat, o: nat {:trigger o in MapsTo(m, q)} :: o in MapsTo(m, q) ==> o != GLOBAL_OBJ
    requires forall e :: e in roots ==> !IsGlobal(e.1)
    ensures IsGlobal(b)
  {
    if b !in FlowsTo(n, a) {
      assert (a, b) in asked;
      var F: nat, q: nat :| DemandedBy(n, k, m, roots, a, b, F, q);
      var p: nat, o: nat, f :| FieldMatches(n, k, m, F, a, p, o, f);
      GlobalFieldOwner(n, o, f, a);
    }
  }

  lemma GlobalFieldOwner(n: Nodes, o: nat, f: int, a: nat)
    requires Inv(n) && IsGlobal(a) && FieldFor(n, o, f, a)
    ensures o == GLOBAL_OBJ
  {
    assert IsField(n, a) && Belongs(n, a) == {o};
    assert Fields(n, GLOBAL_OBJ)[ANY_FIELD] == GLOBAL_FIELD;
    assert Belongs(n, GLOBAL_FIELD) == {GLOBAL_OBJ};
  }

  /** A node that escapes globally and points somewhere hands its status on without an edge that tells. */
  lemma AbsorbedLeavesNoEdge(n: Nodes, n': Nodes, v: nat, w: nat, x: nat)
    requires Absorbed(n, v) && w !in Outs(n, v) && OutNodeAdded(n, n', v, w)
    ensures Status(n', w) == GLOBAL_ESCAPE
    ensures Outs(n', x) == Outs(n, x) && Pts(n', x) == Pts(n, x) && Fields(n', x) == Fields(n, x)
  {
    var s :| OutNodeVia(n, s, n', v, w);
    SameFlows(n, s);
  }
}
