/** The memory of inlining costs, through a whole run of the inliner. */
module InlineMemory {
  import opened InlineCost
  import opened InlineEdits
  import opened Wrappers

  /** What the threshold of a call depends on. */
  datatype Call = Call(isHot: bool, isRecursive: bool, hasInlineAttr: bool, calledOnce: bool)

  /** The thresholds set by options. */
  datatype Limits = Limits(small: nat, hot: nat, recursive: nat)

  /** The threshold for a call: shifts of 32-bit numbers drop what does not fit. */
  function Threshold(limits: Limits, call: Call): nat {
    var t := if call.isHot then limits.hot else limits.small;
    var t := if call.isRecursive && t <= limits.recursive then limits.recursive else t;
    var t := if call.hasInlineAttr then t * 8 % (UINT32_MAX + 1) else t;
    if call.calledOnce then t * 32 % (UINT32_MAX + 1) else t
  }

  ghost predicate LimitsOk(limits: Limits) {
    limits.small < UINT32_MAX && limits.hot < UINT32_MAX && limits.recursive < UINT32_MAX
  }

  /** Hot calls have a threshold of their own, recursive ones at least that for recursion; an inline attribute
      multiplies by 8 and a single caller by 32, as far as 32 bits go. */
  lemma ThresholdMeans(limits: Limits, hot: bool, recursive: bool, attr: bool)
    ensures Threshold(limits, Call(true, false, false, false)) == limits.hot
    ensures Threshold(limits, Call(false, false, false, false)) == limits.small
    ensures var t := Threshold(limits, Call(hot, true, false, false));
      var u := Threshold(limits, Call(hot, false, false, false));
      t >= limits.recursive && t >= u && (t == limits.recursive || t == u)
    ensures Threshold(limits, Call(hot, recursive, true, false))
         == 8 * Threshold(limits, Call(hot, recursive, false, false)) % 0x1_0000_0000
    ensures Threshold(limits, Call(hot, recursive, attr, true))
         == 32 * Threshold(limits, Call(hot, recursive, attr, false)) % 0x1_0000_0000
  {
  }

  /** No threshold is the number that marks functions which are never inlined. */
  lemma ThresholdIsNoMark(limits: Limits, call: Call)
    requires LimitsOk(limits)
    ensures Threshold(limits, call) < UINT32_MAX
  {
    var t := if call.isHot then limits.hot else limits.small;
    var t2 := if call.isRecursive && t <= limits.recursive then limits.recursive else t;
    var t3 := if call.hasInlineAttr then t2 * 8 % (UINT32_MAX + 1) else t2;
    ShiftIsEven(t2, 8);
    ShiftIsEven(t3, 32);
  }

  lemma ShiftIsEven(t: nat, factor: nat)
    requires factor % 2 == 0
    ensures t * factor % (UINT32_MAX + 1) < UINT32_MAX
  {
    var k := factor / 2;
    var r, d := t * factor % (UINT32_MAX + 1), t * factor / (UINT32_MAX + 1);
    assert t * factor == 2 * (t * k);
    assert r == 2 * (t * k - d * ((UINT32_MAX + 1) / 2));
  }

  // ---------------------------------------------------------------------------------------------
  // The invariant.
  // ---------------------------------------------------------------------------------------------

  /** Which body a cost was measured on: the one the function had, which has undergone `edits` since, or one saved
      before the function was inlined into itself. */
  datatype Origin = OfPresent(edits: seq<Edit>) | OfSaved

  /** How a remembered cost came about. */
  datatype Note = Note(found: nat, measured: Node, origin: Origin)

  ghost predicate NoteOk(cost: nat, note: Note, present: Node, small: nat) {
    && note.found < UINT32_MAX && IsBody(note.measured) && cost == Remembered(note.measured, note.found, small)
    && (note.origin.OfPresent? ==>
          CanReplay(note.measured, note.origin.edits) && present == Replay(note.measured, note.origin.edits))
  }

  ghost predicate MemoryOk(costs: map<nat, nat>, notes: map<nat, Note>, bodies: map<nat, Node>, small: nat) {
    && costs.Keys == notes.Keys && notes.Keys <= bodies.Keys
    && (forall f :: f in bodies ==> IsBody(bodies[f]))
    && forall f :: f in costs ==> NoteOk(costs[f], notes[f], bodies[f], small)
  }

  /** While `current` is inlined into itself, only the saved body is measured. */
  ghost predicate SavedOk(saved: Option<Node>, notes: map<nat, Note>, current: nat) {
    saved.Some? ==>
      IsBody(saved.value) && (current in notes ==>
                                notes[current].origin == OfSaved && notes[current].measured == saved.value)
  }

  ghost function Noted(note: Note, e: Edit): Note {
    if note.origin.OfPresent? then note.(origin := OfPresent(note.origin.edits + [e])) else note
  }

  ghost function NotedAt(notes: map<nat, Note>, f: nat, e: Edit): map<nat, Note> {
    if f in notes then notes[f := Noted(notes[f], e)] else notes
  }

  lemma EditKeepsNote(cost: nat, note: Note, present: Node, small: nat, e: Edit)
    requires NoteOk(cost, note, present, small) && CanEdit(present, e)
    ensures NoteOk(cost, Noted(note, e), Edited(present, e), small)
  {
    if note.origin.OfPresent? {
      ReplayMore(note.measured, note.origin.edits, e);
    }
  }

  lemma EditKeepsMemory(costs: map<nat, nat>, notes: map<nat, Note>, bodies: map<nat, Node>, small: nat, f: nat,
                        e: Edit)
    requires MemoryOk(costs, notes, bodies, small) && f in bodies && CanEdit(bodies[f], e)
    ensures MemoryOk(costs, NotedAt(notes, f, e), bodies[f := Edited(bodies[f], e)], small)
    ensures IsBody(Edited(bodies[f], e))
  {
    hide IsBody, NoteOk, Edited, Noted;
    EditCost(bodies[f], e, small);
    if f in costs {
      EditKeepsNote(costs[f], notes[f], bodies[f], small, e);
    }
  }

  lemma MeasuredKeepsMemory(costs: map<nat, nat>, notes: map<nat, Note>, bodies: map<nat, Node>, small: nat, f: nat,
                            note: Note)
    requires MemoryOk(costs, notes, bodies, small) && f in bodies
    requires note.found < UINT32_MAX && IsBody(note.measured)
    requires note.origin == OfSaved || (note.origin == OfPresent([]) && note.measured == bodies[f])
    ensures MemoryOk(costs[f := Remembered(note.measured, note.found, small)], notes[f := note], bodies, small)
  {
    hide IsBody, Remembered;
  }

  /** The result of a decision for a function whose cost is remembered. */
  ghost predicate DecidedBy(note: Note, body: Node, threshold: nat, small: nat, canInline: bool) {
    && (canInline <==> Verdict(Remembered(note.measured, note.found, small), threshold))
    && match note.origin
    case OfPresent(edits) =>
      CanReplay(note.measured, edits) && body == Replay(note.measured, edits)
      && ((canInline <==> Small(body, threshold, small))
          <==> StillRight(note.measured, edits, note.found, threshold, small))
      && (threshold <= note.found ==>
            ((canInline <==> Small(body, threshold, small)) <==> !Missed(note.measured, edits, threshold, small)))
    case OfSaved =>
      threshold <= note.found ==> (canInline <==> Small(note.measured, threshold, small))
  }

  lemma BodiesOk(costs: map<nat, nat>, notes: map<nat, Note>, bodies: map<nat, Node>, small: nat, f: nat)
    requires MemoryOk(costs, notes, bodies, small) && f in bodies
    ensures IsBody(bodies[f]) && (f in costs <==> f in notes)
  {
  }

  lemma Forgotten(costs: map<nat, nat>, notes: map<nat, Note>, bodies: map<nat, Node>, small: nat, f: nat, body: Node)
    requires MemoryOk(costs, notes, bodies, small) && f in bodies && IsBody(body)
    ensures MemoryOk(costs - {f}, notes - {f}, bodies[f := body], small)
  {
    hide IsBody, NoteOk;
  }

  lemma Decided(cost: nat, note: Note, body: Node, threshold: nat, small: nat)
    requires NoteOk(cost, note, body, small) && threshold < UINT32_MAX
    ensures DecidedBy(note, body, threshold, small, Verdict(cost, threshold))
  {
    hide IsBody, Remembered, Small, StillRight, Missed, Verdict;
    match note.origin
    case OfPresent(edits) => RememberedAfterEdits(note.measured, edits, note.found, threshold, small);
    case OfSaved =>
      if threshold <= note.found {
        RememberedDecidesAlike(note.measured, note.found, threshold, small);
      }
  }

  // ---------------------------------------------------------------------------------------------
  // The inliner.
  // ---------------------------------------------------------------------------------------------

  /** In how many rounds `f` has been inlined into itself. */
  ghost function LevelOf(levels: map<nat, nat>, f: nat): nat {
    if f in levels then levels[f] else 0
  }

  /** No function is inlined into itself in more rounds than it may be, except that one round always can be. */
  ghost predicate LevelsOk(levels: map<nat, nat>, maxInlineLevel: nat) {
    forall f {:trigger f in levels} :: f in levels ==> 1 <= levels[f] && (levels[f] == 1 || levels[f] <= maxInlineLevel)
  }

  class CostMemory {
    const limits: Limits
    const maxInlineLevel: nat
    var bodies: map<nat, Node>
    /** While a function is inlined into itself: its body before that. */
    var currFuncBody: Option<Node>
    var funcToCostMap: map<nat, nat>
    /** In how many rounds a function has been inlined into itself. */
    var recursiveFuncToInlineLevel: map<nat, nat>
    ghost var notes: map<nat, Note>
    /** The function whose calls are looked at. */
    ghost var current: nat

    ghost predicate Valid()
      reads this
    {
      && LimitsOk(limits) && MemoryOk(funcToCostMap, notes, bodies, limits.small)
      && SavedOk(currFuncBody, notes, current) && LevelsOk(recursiveFuncToInlineLevel, maxInlineLevel)
    }

    constructor (bodies: map<nat, Node>, limits: Limits, maxInlineLevel: nat)
      requires LimitsOk(limits) && forall f :: f in bodies ==> IsBody(bodies[f])
      ensures Valid() && this.bodies == bodies && this.limits == limits && this.maxInlineLevel == maxInlineLevel
      ensures funcToCostMap == map[] && notes == map[] && recursiveFuncToInlineLevel == map[] && currFuncBody == None
    {
      this.bodies, this.limits, this.maxInlineLevel, currFuncBody := bodies, limits, maxInlineLevel, None;
      funcToCostMap, recursiveFuncToInlineLevel, notes, current := map[], map[], map[], 0;
    }

    /** A round over the calls in `caller` begins. */
    method BeginRound(caller: nat)
      requires Valid()
      modifies this`currFuncBody, this`current
      ensures Valid() && currFuncBody == None && current == caller
    {
      currFuncBody, current := None, caller;
    }

    /** The body that a call of `callee` in `caller` would get. */
    function BodyFor(caller: nat, callee: nat): Node
      requires callee in bodies
      reads this
    {
      if caller == callee && currFuncBody.Some? then currFuncBody.value else bodies[callee]
    }

    /** Decides whether `callee` is inlined at a call in `caller`. */
    method AnalyzeCallee(caller: nat, callee: nat, call: Call) returns (canInline: bool)
      requires Valid() && caller == current && callee in bodies && (call.isRecursive <==> caller == callee)
      modifies this`funcToCostMap, this`notes
      ensures Valid()
      ensures callee !in old(notes) ==>
                && (canInline <==> Small(BodyFor(caller, callee), Threshold(limits, call), limits.small))
                && notes == old(notes)[callee := NewNote(caller, callee, Threshold(limits, call))]
                && funcToCostMap.Keys == old(funcToCostMap).Keys + {callee}
                && forall f :: f in old(funcToCostMap) ==> funcToCostMap[f] == old(funcToCostMap)[f]
      ensures callee in old(notes) ==>
                && funcToCostMap == old(funcToCostMap) && notes == old(notes)
                && DecidedBy(notes[callee], bodies[callee], Threshold(limits, call), limits.small, canInline)
                && (caller == callee && currFuncBody.Some? ==> notes[callee].origin == OfSaved
                                                               && BodyFor(caller, callee) == notes[callee].measured)
    {
      hide Threshold, Small, Walk, Preorder, Verdict, Remembered, LimitsOk, NoteOk, DecidedBy, IsBody;
      var threshold := Threshold(limits, call);
      ThresholdIsNoMark(limits, call);
      if callee in funcToCostMap {
        Decided(funcToCostMap[callee], notes[callee], bodies[callee], threshold, limits.small);
        return Verdict(funcToCostMap[callee], threshold);
      }
      canInline := MeasureCallee(caller, callee, threshold);
    }

    ghost function NewNote(caller: nat, callee: nat, threshold: nat): Note
      requires callee in bodies
      reads this
    {
      Note(threshold, BodyFor(caller, callee),
           if caller == callee && currFuncBody.Some? then OfSaved else OfPresent([]))
    }

    method MeasureCallee(caller: nat, callee: nat, threshold: nat) returns (canInline: bool)
      requires Valid() && caller == current && callee in bodies && callee !in funcToCostMap && threshold < UINT32_MAX
      modifies this`funcToCostMap, this`notes
      ensures Valid() && (canInline <==> Small(BodyFor(caller, callee), threshold, limits.small))
      ensures notes == old(notes)[callee := NewNote(caller, callee, threshold)]
      ensures funcToCostMap
           == old(funcToCostMap)[callee := Remembered(BodyFor(caller, callee), threshold, limits.small)]
    {
      hide Small, Walk, Preorder, Verdict, Remembered, LimitsOk, NoteOk, IsBody, MemoryOk;
      var calleeBody := BodyFor(caller, callee);
      ghost var note := NewNote(caller, callee, threshold);
      EarlyExitDecidesAlike(calleeBody, threshold, limits.small);
      BodiesOk(funcToCostMap, notes, bodies, limits.small, callee);
      var checkResult, cost := GetFuncCost(calleeBody, 0, threshold, limits.small);
      WhatIsRemembered(calleeBody, threshold, limits.small);
      MeasuredKeepsMemory(funcToCostMap, notes, bodies, limits.small, callee, note);
      notes := notes[callee := note];
      if checkResult == NotAllowedNode {
        funcToCostMap := funcToCostMap[callee := UINT32_MAX];
        return false;
      }
      funcToCostMap := funcToCostMap[callee := cost];
      canInline := Verdict(cost, threshold);
    }

    /** Inlines `callee` at the call at `path` in `caller`, whose body then becomes `body`: a call of an empty function
        is removed; else the callee's pu-static variables become global, even when it turns out that the function has
        been inlined into itself often enough. */
    method PerformInline(caller: nat, callee: nat, path: seq<nat>, body: Node) returns (inlined: bool)
      requires Valid() && caller == current && caller in bodies && callee in bodies
      requires CallAt(bodies[caller], path) && IsBody(body)
      modifies this`bodies, this`currFuncBody, this`funcToCostMap, this`recursiveFuncToInlineLevel, this`notes
      ensures Valid()
      ensures inlined <==> old(bodies)[callee].children != [] && !LevelReached(old(recursiveFuncToInlineLevel), callee)
      ensures bodies ==
                if old(bodies)[callee].children == [] then old(bodies)[caller := WithoutCall(old(bodies)[caller], path)]
                else if inlined then old(bodies)[callee := Converted(old(bodies)[callee])][caller := body]
                else old(bodies)[callee := Converted(old(bodies)[callee])]
      ensures funcToCostMap == if inlined then old(funcToCostMap) - {caller} else old(funcToCostMap)
      ensures notes == if old(bodies)[callee].children == [] then NotedAt(old(notes), caller, RemoveCall(path))
                       else NotedAt(old(notes), callee, Convert) - if inlined then {caller} else {}
      ensures currFuncBody == if inlined && caller == callee && old(currFuncBody) == None
                              then Some(Converted(old(bodies)[callee])) else old(currFuncBody)
      ensures recursiveFuncToInlineLevel
           == if inlined && caller == callee && old(currFuncBody) == None
              then old(recursiveFuncToInlineLevel)[callee := LevelOf(old(recursiveFuncToInlineLevel), callee) + 1]
              else old(recursiveFuncToInlineLevel)
    {
      hide IsBody, NoteOk, CallAt, WithoutCall, Converted, LimitsOk, MemoryOk;
      if bodies[callee].children == [] {
        EditKeepsMemory(funcToCostMap, notes, bodies, limits.small, caller, RemoveCall(path));
        notes := NotedAt(notes, caller, RemoveCall(path));
        bodies := bodies[caller := WithoutCall(bodies[caller], path)];
        return false;
      }
      EditKeepsMemory(funcToCostMap, notes, bodies, limits.small, callee, Convert);
      notes := NotedAt(notes, callee, Convert);
      bodies := bodies[callee := Converted(bodies[callee])];
      if callee in recursiveFuncToInlineLevel && recursiveFuncToInlineLevel[callee] >= maxInlineLevel {
        return false;
      }
      if caller == callee && currFuncBody == None {
        currFuncBody := Some(bodies[callee]);
        recursiveFuncToInlineLevel := recursiveFuncToInlineLevel[callee :=
          1 + if callee in recursiveFuncToInlineLevel then recursiveFuncToInlineLevel[callee] else 0];
      }
      Forgotten(funcToCostMap, notes, bodies, limits.small, caller, body);
      bodies := bodies[caller := body];
      funcToCostMap, notes := funcToCostMap - {caller}, notes - {caller};
      inlined := true;
    }

    /** The function has been inlined into itself in as many rounds as it may, but at least in one. */
    ghost predicate LevelReached(levels: map<nat, nat>, f: nat) {
      LevelOf(levels, f) > 0 && LevelOf(levels, f) >= maxInlineLevel
    }
  }

  lemma WhatIsRemembered(body: Node, threshold: nat, small: nat)
    ensures var w := Walk(Preorder(body), 0, threshold, small);
      Remembered(body, threshold, small) == if w.0 == NotAllowedNode then UINT32_MAX else w.1
    ensures !Verdict(UINT32_MAX, threshold)
  {
  }

  // ---------------------------------------------------------------------------------------------
  // Two runs that decide wrongly.
  // ---------------------------------------------------------------------------------------------

  function Block(statements: seq<Node>): Node {
    Node(BlockOp, statements)
  }

  lemma BlocksOk()
    ensures IsBody(Block([])) && IsBody(Block([CALL])) && CallAt(Block([CALL]), [0])
  {
    CallFacts(0);
  }

  /** Functions 0 and 2 call function 1, which sets a pu-static variable: it is inlined into both, although it has
      become too big by being inlined into the first. */
  method ConversionGoesUnnoticed() returns (m: CostMemory, canInline: bool)
    ensures m.Valid() && 1 in m.bodies && m.limits == Limits(5, 5, 5)
    ensures canInline && !Small(m.BodyFor(2, 1), 5, 5)
  {
    hide IsBody, Small, CallAt, Set, Remembered;
    BlocksOk();
    ConversionIsMissed(5);
    var call, callee := Call(false, false, false, false), Block([Set(PuStatic, OtherOp)]);
    m := new CostMemory(map[0 := Block([CALL]), 1 := callee, 2 := Block([CALL])], Limits(5, 5, 5), 1);
    m.BeginRound(0);
    var first := m.AnalyzeCallee(0, 1, call);
    var inlined := m.PerformInline(0, 1, [0], Block([]));
    m.BeginRound(2);
    canInline := m.AnalyzeCallee(2, 1, call);
  }

  /** Function 0 calls itself and the empty function 1, and function 2 calls function 0: that is not inlined, although
      it has become small when the call of the empty function was removed. */
  method RemovalGoesUnnoticed() returns (m: CostMemory, canInline: bool)
    ensures m.Valid() && 0 in m.bodies && m.limits == Limits(15, 15, 15)
    ensures !canInline && Small(m.BodyFor(2, 0), 15, 15)
  {
    hide IsBody, Small, CallAt, Set, Remembered;
    BlocksOk();
    RemovalIsMissed(15);
    m := new CostMemory(map[0 := CALLING, 1 := Block([]), 2 := Block([CALL])], Limits(15, 15, 15), 1);
    m.BeginRound(0);
    var itself := m.AnalyzeCallee(0, 0, Call(false, true, false, false));
    var inlined := m.PerformInline(0, 1, [1], CALLING);
    m.BeginRound(2);
    canInline := m.AnalyzeCallee(2, 0, Call(false, false, false, false));
  }
}
