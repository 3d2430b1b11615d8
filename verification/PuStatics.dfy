/** Turning a callee's pu-static symbols into file-static ones, and moving its other symbols behind a caller's. */
module PuStatics {
  import opened Wrappers

  /** A reference to a symbol; `NullRef` refers to none. */
  datatype Ref = NullRef | LocalRef(idx: nat) | GlobalRef(idx: nat)

  /** Initial values: the address of a symbol, an array or a structure of values, and values without addresses. */
  datatype Init = Address(r: Ref) | Aggregate(elems: seq<Init>) | Scalar

  /** A symbol and its initial value. The number tells symbols apart. */
  datatype Symbol = Symbol(id: nat, isPstatic: bool, init: Option<Init>)

  type Locals = seq<Option<Symbol>>
  type Globals = seq<Symbol>

  /** Only the first entry of the table is empty. */
  ghost predicate OnlyFirstNull(t: Locals) {
    |t| > 0 && forall i :: 0 <= i < |t| ==> (t[i] == None <==> i == 0)
  }

  ghost predicate IsStatic(t: Locals, i: nat) {
    i < |t| && t[i].Some? && t[i].value.isPstatic
  }

  /** How many pu-static symbols there are before index `i`. */
  ghost function Statics(t: Locals, i: nat): (r: nat)
    ensures r <= i
  {
    if i == 0 then 0 else Statics(t, i - 1) + (if IsStatic(t, i - 1) then 1 else 0)
  }

  /** Where the symbol at index `i` is found afterwards, when there were `g` global symbols before. */
  ghost function NewRef(t: Locals, g: nat, i: nat): Ref {
    if i == 0 then NullRef else if IsStatic(t, i) then GlobalRef(g + Statics(t, i)) else LocalRef(i - Statics(t, i))
  }

  ghost function MoveRef(t: Locals, g: nat, r: Ref): Ref {
    if r.LocalRef? then NewRef(t, g, r.idx) else r
  }

  ghost function MoveRefs(t: Locals, g: nat, rs: seq<Ref>): seq<Ref> {
    seq(|rs|, (k: nat) requires k < |rs| => MoveRef(t, g, rs[k]))
  }

  /** Whether an initial value is the address of a symbol in the local table. */
  ghost predicate IsLocalAddress(init: Option<Init>) {
    init.Some? && init.value.Address? && init.value.r.LocalRef?
  }

  /** The initial value of the pu-static symbol at index `i` afterwards: the address of a pu-static symbol that comes
      later is lost, and aggregates are not looked into. */
  ghost function NewInit(t: Locals, g: nat, i: nat, init: Option<Init>): Option<Init> {
    if IsLocalAddress(init) && IsStatic(t, init.value.r.idx) then
      Some(Address(if init.value.r.idx <= i then NewRef(t, g, init.value.r.idx) else NullRef))
    else init
  }

  ghost function NewSymbol(t: Locals, g: nat, i: nat): Symbol
    requires IsStatic(t, i)
  {
    Symbol(t[i].value.id, false, NewInit(t, g, i, t[i].value.init))
  }

  /** The symbols that have become global, of those before index `i`. */
  ghost function Moved(t: Locals, g: nat, i: nat): (r: seq<Symbol>)
    requires i <= |t|
    ensures |r| == Statics(t, i)
  {
    if i == 0 then [] else Moved(t, g, i - 1) + (if IsStatic(t, i - 1) then [NewSymbol(t, g, i - 1)] else [])
  }

  /** The symbols that have stayed, of those before index `i`. */
  ghost function Stayed(t: Locals, i: nat): (r: Locals)
    requires i <= |t|
    ensures |r| == i - Statics(t, i)
  {
    if i == 0 then [] else Stayed(t, i - 1) + (if IsStatic(t, i - 1) then [] else [t[i - 1]])
  }

  lemma {:induction false} MovedAt(t: Locals, g: nat, i: nat, n: nat)
    requires i < n <= |t| && IsStatic(t, i)
    ensures Statics(t, i) < Statics(t, n) && Moved(t, g, n)[Statics(t, i)] == NewSymbol(t, g, i)
    decreases n
  {
    if i < n - 1 {
      MovedAt(t, g, i, n - 1);
    }
  }

  lemma {:induction false} StayedAt(t: Locals, i: nat, n: nat)
    requires i < n <= |t| && !IsStatic(t, i)
    ensures i - Statics(t, i) < n - Statics(t, n) && Stayed(t, n)[i - Statics(t, i)] == t[i]
    decreases n
  {
    if i < n - 1 {
      StayedAt(t, i, n - 1);
    }
  }

  ghost predicate RefsInside(t: Locals, rs: seq<Ref>) {
    forall k :: 0 <= k < |rs| && rs[k].LocalRef? ==> 0 < rs[k].idx < |t|
  }

  ghost predicate InitsInside(t: Locals) {
    forall i :: 0 <= i < |t| ==> InitInside(t, i)
  }

  ghost predicate InitInside(t: Locals, i: nat)
    requires i < |t|
  {
    t[i].Some? && IsLocalAddress(t[i].value.init) ==> t[i].value.init.value.r.idx < |t|
  }

  lemma SortStarts(t: Locals, g: nat)
    requires OnlyFirstNull(t)
    ensures Statics(t, 1) == 0 && Moved(t, g, 1) == [] && Stayed(t, 1) == [None]
  {
    assert Stayed(t, 0) == [] && Moved(t, g, 0) == [];
  }

  lemma SortStep(t: Locals, g: nat, i: nat)
    requires OnlyFirstNull(t) && InitsInside(t) && 0 < i < |t|
    ensures Statics(t, i + 1) == Statics(t, i) + if IsStatic(t, i) then 1 else 0
    ensures Moved(t, g, i + 1) == Moved(t, g, i) + if IsStatic(t, i) then [NewSymbol(t, g, i)] else []
    ensures Stayed(t, i + 1) == Stayed(t, i) + if IsStatic(t, i) then [] else [t[i]]
    ensures InitInside(t, i)
  {
  }

  class PuFunction {
    var locals: Locals
    var body: seq<Ref>

    constructor (locals: Locals, body: seq<Ref>)
      ensures this.locals == locals && this.body == body
    {
      this.locals, this.body := locals, body;
    }

    method HasPStatic() returns (r: bool)
      ensures r <==> exists j :: 0 <= j < |locals| && IsStatic(locals, j)
    {
      var i := 0;
      while i < |locals|
        invariant 0 <= i <= |locals| && forall j :: 0 <= j < i ==> !IsStatic(locals, j)
      {
        if locals[i].Some? && locals[i].value.isPstatic {
          assert IsStatic(locals, i);
          return true;
        }
        i := i + 1;
      }
      r := false;
    }

    /** Sorts the symbols into the global table and a new local one, and notes where each has gone. */
    method SortSymbols(globals: Globals) returns (newGlobals: Globals, localSymbols: Locals, oldStIdx2New: seq<Ref>)
      requires OnlyFirstNull(locals) && InitsInside(locals)
      ensures newGlobals == globals + Moved(locals, |globals|, |locals|)
      ensures localSymbols == Stayed(locals, |locals|)
      ensures |oldStIdx2New| == |locals|
      ensures forall j :: 0 <= j < |locals| ==> oldStIdx2New[j] == NewRef(locals, |globals|, j)
    {
      hide Moved, Stayed, Statics, InitsInside;
      ghost var g := |globals|;
      SortStarts(locals, g);
      newGlobals, localSymbols, oldStIdx2New := globals, [None], seq(|locals|, _ => NullRef);
      var pstaticNum, i := 0, 1;
      while i < |locals|
        invariant 1 <= i <= |locals| && pstaticNum == Statics(locals, i)
        invariant newGlobals == globals + Moved(locals, g, i) && localSymbols == Stayed(locals, i)
        invariant |oldStIdx2New| == |locals|
        invariant forall j :: 0 <= j < |locals| ==> oldStIdx2New[j] == if j < i then NewRef(locals, g, j) else NullRef
      {
        SortStep(locals, g, i);
        var sym := locals[i].value;
        if sym.isPstatic {
          oldStIdx2New := oldStIdx2New[i := GlobalRef(|newGlobals|)];
          var init := UpdateInit(sym.init, oldStIdx2New);
          assert init == NewInit(locals, g, i, sym.init);
          newGlobals := newGlobals + [Symbol(sym.id, false, init)];
          pstaticNum := pstaticNum + 1;
        } else {
          oldStIdx2New := oldStIdx2New[i := LocalRef(i - pstaticNum)];
          localSymbols := localSymbols + [Some(sym)];
        }
        i := i + 1;
      }
    }

    /** An initial value that is the address of a pu-static symbol becomes that of wherever the symbol is known to have
        gone so far. */
    method UpdateInit(init: Option<Init>, oldStIdx2New: seq<Ref>) returns (r: Option<Init>)
      requires |oldStIdx2New| == |locals|
      requires IsLocalAddress(init) ==> init.value.r.idx < |locals|
      ensures r == if IsLocalAddress(init) && IsStatic(locals, init.value.r.idx)
                   then Some(Address(oldStIdx2New[init.value.r.idx])) else init
    {
      r := init;
      if init.Some? && init.value.Address? && init.value.r.LocalRef? {
        var idx := init.value.r.idx;
        var valueSym := locals[idx];
        if valueSym.Some? && valueSym.value.isPstatic {
          r := Some(Address(oldStIdx2New[idx]));
        }
      }
    }

    method ReplaceSymbols(oldStIdx2New: seq<Ref>, ghost t: Locals, ghost g: nat)
      requires RefsInside(t, body) && |oldStIdx2New| == |t|
      requires forall j :: 0 <= j < |t| ==> oldStIdx2New[j] == NewRef(t, g, j)
      modifies this`body
      ensures body == MoveRefs(t, g, old(body))
    {
      var k := 0;
      while k < |body|
        invariant 0 <= k <= |body| == |old(body)|
        invariant forall m :: 0 <= m < |body| ==> body[m] == if m < k then MoveRef(t, g, old(body)[m]) else old(body)[m]
      {
        if body[k].LocalRef? {
          body := body[k := oldStIdx2New[body[k].idx]];
        }
        k := k + 1;
      }
    }

    /** Moves the function's pu-static symbols to the global table. */
    method ConvertPStaticToFStatic(globals: Globals) returns (newGlobals: Globals)
      requires OnlyFirstNull(locals) && RefsInside(locals, body) && InitsInside(locals)
      modifies this
      ensures newGlobals == globals + Moved(old(locals), |globals|, |old(locals)|)
      ensures locals == Stayed(old(locals), |old(locals)|)
      ensures body == MoveRefs(old(locals), |globals|, old(body))
    {
      ghost var t, g := locals, |globals|;
      var hasPStatic := HasPStatic();
      if !hasPStatic {
        NothingMoves(t, g, |t|);
        AllRefsStay(t, g, body);
        return globals;
      }
      var localSymbols, oldStIdx2New;
      newGlobals, localSymbols, oldStIdx2New := SortSymbols(globals);
      locals := localSymbols;
      ReplaceSymbols(oldStIdx2New, t, g);
    }
  }

  lemma {:induction false} NothingMoves(t: Locals, g: nat, i: nat)
    requires i <= |t| && forall j :: 0 <= j < |t| ==> !IsStatic(t, j)
    ensures Statics(t, i) == 0 && Moved(t, g, i) == [] && Stayed(t, i) == t[..i]
  {
    if i > 0 {
      NothingMoves(t, g, i - 1);
    }
  }

  lemma AllRefsStay(t: Locals, g: nat, rs: seq<Ref>)
    requires OnlyFirstNull(t) && (forall j :: 0 <= j < |t| ==> !IsStatic(t, j)) && RefsInside(t, rs)
    ensures MoveRefs(t, g, rs) == rs
  {
    forall k | 0 <= k < |rs|
      ensures MoveRef(t, g, rs[k]) == rs[k]
    {
      if rs[k].LocalRef? {
        NothingMoves(t, g, rs[k].idx);
      }
    }
  }

  // ---------------------------------------------------------------------------------------------
  // What the conversion keeps.
  // ---------------------------------------------------------------------------------------------

  /** The symbol a reference denotes. */
  ghost function Denoted(t: Locals, globals: Globals, r: Ref): Option<nat> {
    match r
    case NullRef => None
    case LocalRef(i) => if i < |t| && t[i].Some? then Some(t[i].value.id) else None
    case GlobalRef(i) => if i < |globals| then Some(globals[i].id) else None
  }

  /** Every reference of the body denotes the same symbol as before. */
  lemma RefsDenoteTheSame(t: Locals, globals: Globals, r: Ref)
    requires OnlyFirstNull(t) && Denoted(t, globals, r).Some?
    ensures Denoted(Stayed(t, |t|), globals + Moved(t, |globals|, |t|), MoveRef(t, |globals|, r))
         == Denoted(t, globals, r)
  {
    if r.LocalRef? {
      if IsStatic(t, r.idx) {
        MovedAt(t, |globals|, r.idx, |t|);
      } else {
        StayedAt(t, r.idx, |t|);
      }
    }
  }

  /** The symbols that stay are renumbered densely, from 1 on and in the same order. */
  lemma DenseAndOrdered(t: Locals, i: nat, j: nat)
    requires OnlyFirstNull(t) && 0 < i < j < |t| && !IsStatic(t, i) && !IsStatic(t, j)
    ensures 0 < i - Statics(t, i) < j - Statics(t, j) < |Stayed(t, |t|)|
  {
    StayedAt(t, 0, i);
    StayedAt(t, i, j);
    StayedAt(t, j, |t|);
  }

  lemma {:induction false} EveryIndexIsUsed(t: Locals, n: nat, m: nat) returns (i: nat)
    requires n <= |t| && m < |Stayed(t, n)|
    ensures i < n && !IsStatic(t, i) && i - Statics(t, i) == m
    decreases n
  {
    if m < |Stayed(t, n - 1)| {
      i := EveryIndexIsUsed(t, n - 1, m);
    } else {
      i := n - 1;
    }
  }

  /** No two symbols end up in the same place. */
  lemma NewRefsDiffer(t: Locals, g: nat, i: nat, j: nat)
    requires OnlyFirstNull(t) && 0 < i < j < |t|
    ensures NewRef(t, g, i) != NewRef(t, g, j)
  {
    if IsStatic(t, i) && IsStatic(t, j) {
      MovedAt(t, g, i, j);
    } else if !IsStatic(t, i) && !IsStatic(t, j) {
      StayedAt(t, i, j);
    }
  }

  // ---------------------------------------------------------------------------------------------
  // What it does to initial values.
  // ---------------------------------------------------------------------------------------------

  /** The addresses in an initial value, from left to right. */
  ghost function Addresses(v: Init): seq<Ref> {
    match v
    case Address(r) => [r]
    case Aggregate(elems) => AddressesIn(elems)
    case Scalar => []
  }

  ghost function AddressesIn(vs: seq<Init>): seq<Ref> {
    if vs == [] then [] else Addresses(vs[0]) + AddressesIn(vs[1..])
  }

  /** The symbols that references denote. */
  ghost function DenotedAll(t: Locals, globals: Globals, rs: seq<Ref>): seq<Option<nat>> {
    seq(|rs|, (k: nat) requires k < |rs| => Denoted(t, globals, rs[k]))
  }

  ghost predicate IdsDiffer(t: Locals) {
    forall i, j :: 0 <= i < j < |t| && t[i].Some? && t[j].Some? ==> t[i].value.id != t[j].value.id
  }

  ghost predicate RefInside(t: Locals, globals: Globals, r: Ref) {
    match r
    case NullRef => true
    case LocalRef(i) => 0 < i < |t|
    case GlobalRef(i) => i < |globals|
  }

  ghost predicate AllInside(t: Locals, globals: Globals, rs: seq<Ref>) {
    forall k :: 0 <= k < |rs| ==> RefInside(t, globals, rs[k])
  }

  /** An old local index that is not updated denotes the symbol that has moved there, which comes from further behind,
      or none. */
  lemma OldIndexDenotes(t: Locals, after: Globals, m: nat) returns (j: nat)
    requires OnlyFirstNull(t)
    ensures m < |Stayed(t, |t|)| ==>
              && m <= j < |t| && !IsStatic(t, j) && j - Statics(t, j) == m
              && Denoted(Stayed(t, |t|), after, LocalRef(m)) == Denoted(t, after, LocalRef(j))
    ensures m >= |Stayed(t, |t|)| ==> Denoted(Stayed(t, |t|), after, LocalRef(m)) == None
  {
    hide Stayed, OnlyFirstNull;
    j := 0;
    if m < |Stayed(t, |t|)| {
      j := EveryIndexIsUsed(t, |t|, m);
      StayedAt(t, j, |t|);
    }
  }

  /** Exactly the symbols before the first pu-static one are found under their old index. */
  ghost predicate KeepsIndex(t: Locals, i: nat) {
    !IsStatic(t, i) && Statics(t, i) == 0
  }

  lemma OldIndexKeptExactly(t: Locals, globals: Globals, after: Globals, i: nat)
    requires OnlyFirstNull(t) && IdsDiffer(t) && 0 < i < |t|
    ensures Denoted(Stayed(t, |t|), after, LocalRef(i)) == Denoted(t, globals, LocalRef(i)) <==> KeepsIndex(t, i)
  {
    if KeepsIndex(t, i) {
      StayedAt(t, i, |t|);
    } else if i < |Stayed(t, |t|)| {
      var j := EveryIndexIsUsed(t, |t|, i);
      StayedAt(t, j, |t|);
      assert j != i;
    }
  }

  lemma RefLeftAlone(t: Locals, globals: Globals, moved: Globals, r: Ref)
    requires OnlyFirstNull(t) && IdsDiffer(t) && RefInside(t, globals, r)
    ensures Denoted(Stayed(t, |t|), globals + moved, r) == Denoted(t, globals, r)
       <==> (r.LocalRef? ==> KeepsIndex(t, r.idx))
  {
    if r.LocalRef? {
      OldIndexKeptExactly(t, globals, globals + moved, r.idx);
    }
  }

  lemma LeftAloneKeptExactly(t: Locals, globals: Globals, moved: Globals, rs: seq<Ref>)
    requires OnlyFirstNull(t) && IdsDiffer(t) && AllInside(t, globals, rs)
    ensures DenotedAll(Stayed(t, |t|), globals + moved, rs) == DenotedAll(t, globals, rs)
       <==> forall r :: r in rs && r.LocalRef? ==> KeepsIndex(t, r.idx)
  {
    hide OnlyFirstNull, IdsDiffer, KeepsIndex, Denoted;
    var after, before := DenotedAll(Stayed(t, |t|), globals + moved, rs), DenotedAll(t, globals, rs);
    forall k | 0 <= k < |rs|
      ensures after[k] == before[k] <==> (rs[k].LocalRef? ==> KeepsIndex(t, rs[k].idx))
    {
      RefLeftAlone(t, globals, moved, rs[k]);
    }
  }

  /** Which local addresses in the initial value `v` of the pu-static symbol at index `i` are kept. */
  ghost predicate AddressKept(t: Locals, i: nat, v: Init, r: Ref)
    requires r.LocalRef?
  {
    if IsStatic(t, r.idx) then v == Address(r) && r.idx <= i else KeepsIndex(t, r.idx)
  }

  /** The initial value of a pu-static symbol denotes the same symbols afterwards exactly if each address of a pu-static
      symbol in it is the whole value, that symbol does not come later in the table, and the other local symbols it has
      the address of come before the first pu-static one. */
  lemma InitKeptExactly(t: Locals, globals: Globals, i: nat)
    requires OnlyFirstNull(t) && IdsDiffer(t) && IsStatic(t, i) && t[i].value.init.Some?
    requires AllInside(t, globals, Addresses(t[i].value.init.value))
    ensures var v := t[i].value.init.value; var after := globals + Moved(t, |globals|, |t|);
      |globals| + Statics(t, i) < |after|
      && var s := after[|globals| + Statics(t, i)];
         s.id == t[i].value.id && s.init.Some? && (s.init.value == v || IsLocalAddress(t[i].value.init))
         && (DenotedAll(Stayed(t, |t|), after, Addresses(s.init.value)) == DenotedAll(t, globals, Addresses(v))
             <==> forall r :: r in Addresses(v) && r.LocalRef? ==> AddressKept(t, i, v, r))
  {
    var v, g := t[i].value.init.value, |globals|;
    var moved, stayed := Moved(t, g, |t|), Stayed(t, |t|);
    MovedAt(t, g, i, |t|);
    if v.Address? && v.r.LocalRef? && IsStatic(t, v.r.idx) {
      var r := if v.r.idx <= i then NewRef(t, g, v.r.idx) else NullRef;
      assert DenotedAll(t, globals, [v.r])[0] == Denoted(t, globals, v.r);
      assert DenotedAll(stayed, globals + moved, [r])[0] == Denoted(stayed, globals + moved, r);
      if v.r.idx <= i {
        RefsDenoteTheSame(t, globals, v.r);
      }
    } else {
      LeftAloneKeptExactly(t, globals, moved, Addresses(v));
      assert forall r :: r in Addresses(v) && r.LocalRef? ==> (AddressKept(t, i, v, r) <==> KeepsIndex(t, r.idx));
    }
  }

  /** The initial value of a symbol that stays is not touched at all. */
  lemma StayingInitKeptExactly(t: Locals, globals: Globals, i: nat)
    requires OnlyFirstNull(t) && IdsDiffer(t) && 0 < i < |t| && !IsStatic(t, i) && t[i].value.init.Some?
    requires AllInside(t, globals, Addresses(t[i].value.init.value))
    ensures var v := t[i].value.init.value; var after := globals + Moved(t, |globals|, |t|);
      i - Statics(t, i) < |Stayed(t, |t|)| && Stayed(t, |t|)[i - Statics(t, i)] == t[i]
      && (DenotedAll(Stayed(t, |t|), after, Addresses(v)) == DenotedAll(t, globals, Addresses(v))
          <==> forall r :: r in Addresses(v) && r.LocalRef? ==> KeepsIndex(t, r.idx))
  {
    StayedAt(t, i, |t|);
    LeftAloneKeptExactly(t, globals, Moved(t, |globals|, |t|), Addresses(t[i].value.init.value));
  }

  /** Two pu-static symbols that hold each other's address: one of the addresses is lost. */
  lemma ForwardAddressIsLost()
    ensures var t := [None, Some(Symbol(7, true, Some(Address(LocalRef(2))))),
                      Some(Symbol(8, true, Some(Address(LocalRef(1)))))];
      OnlyFirstNull(t)
      && Moved(t, 0, 3) == [Symbol(7, false, Some(Address(NullRef))), Symbol(8, false, Some(Address(GlobalRef(0))))]
  {
    var t := [None, Some(Symbol(7, true, Some(Address(LocalRef(2))))),
              Some(Symbol(8, true, Some(Address(LocalRef(1)))))];
    assert Moved(t, 0, 1) == [] && Statics(t, 1) == 0;
    assert Moved(t, 0, 2) == [Symbol(7, false, Some(Address(NullRef)))] && Statics(t, 2) == 1;
  }

  /** An array of the address of an earlier pu-static symbol: the element comes to denote the local symbol that has
      moved to the old place of that symbol. */
  lemma AddressInArrayIsLost()
    ensures var foo := Aggregate([Address(LocalRef(1))]);
      var t := [None, Some(Symbol(7, true, Some(Scalar))), Some(Symbol(8, true, Some(foo))),
                Some(Symbol(9, false, None))];
      OnlyFirstNull(t) && Moved(t, 0, 4) == [Symbol(7, false, Some(Scalar)), Symbol(8, false, Some(foo))]
      && Denoted(t, [], LocalRef(1)) == Some(7) && Denoted(Stayed(t, 4), Moved(t, 0, 4), LocalRef(1)) == Some(9)
  {
    var foo := Aggregate([Address(LocalRef(1))]);
    var t := [None, Some(Symbol(7, true, Some(Scalar))), Some(Symbol(8, true, Some(foo))),
              Some(Symbol(9, false, None))];
    assert Moved(t, 0, 1) == [] && Statics(t, 1) == 0 && Stayed(t, 1) == [None];
    assert Moved(t, 0, 2) == [Symbol(7, false, Some(Scalar))] && Statics(t, 2) == 1 && Stayed(t, 2) == [None];
    assert Moved(t, 0, 3) == [Symbol(7, false, Some(Scalar)), Symbol(8, false, Some(foo))] && Stayed(t, 3) == [None];
  }
}
