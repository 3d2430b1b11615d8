/** Flattening try regions that inlining has put inside a try region. */
module NestedTry {
  import opened Wrappers

  /** Comments and labels do nothing themselves; the numbers name statements and handlers. */
  datatype TStmt = Try(handlers: seq<nat>) | EndTry | Label(l: nat) | Comment | Other(id: nat)

  ghost predicate Meaningful(s: TStmt) {
    !s.Label? && !s.Comment?
  }

  /** A region begins or ends. */
  ghost predicate IsBound(s: TStmt) {
    s.Try? || s == EndTry
  }

  // ---------------------------------------------------------------------------------------------
  // What the statements between the outer try and its end mean.
  // ---------------------------------------------------------------------------------------------

  /** Inner regions are opened and closed in turn; `inside` tells whether one is open. */
  ghost predicate Nested(ss: seq<TStmt>, inside: bool) {
    if ss == [] then !inside
    else match ss[0]
      case Try(_) => !inside && Nested(ss[1..], true)
      case EndTry => inside && Nested(ss[1..], false)
      case _ => Nested(ss[1..], inside)
  }

  ghost function FirstMeaningful(ss: seq<TStmt>): Option<TStmt> {
    if ss == [] then None else if Meaningful(ss[0]) then Some(ss[0]) else FirstMeaningful(ss[1..])
  }

  ghost function LastMeaningful(ss: seq<TStmt>): Option<TStmt> {
    if ss == [] then None
    else if Meaningful(ss[|ss| - 1]) then Some(ss[|ss| - 1]) else LastMeaningful(ss[..|ss| - 1])
  }

  /** Behind the end of every inner region there is a meaningful statement. */
  ghost predicate GoesOn(ss: seq<TStmt>) {
    forall k :: 0 <= k < |ss| && ss[k] == EndTry ==> FirstMeaningful(ss[k + 1..]).Some?
  }

  /** What the source asserts of the statements between the outer try and its end. */
  ghost predicate Asserted(ss: seq<TStmt>) {
    Nested(ss, false) && GoesOn(ss) && !(FirstMeaningful(ss).Some? && FirstMeaningful(ss).value.Try?)
  }

  /** The handlers of the region that is open behind a statement. */
  ghost function OpenAfter(s: TStmt, open: Option<seq<nat>>): Option<seq<nat>> {
    match s
    case Try(h) => Some(h)
    case EndTry => None
    case _ => open
  }

  ghost function EndOf(ss: seq<TStmt>, open: Option<seq<nat>>): Option<seq<nat>> {
    if ss == [] then open else EndOf(ss[1..], OpenAfter(ss[0], open))
  }

  /** The handlers of each statement, innermost first, when regions are nested in one with handlers `outer`. */
  ghost function NestedHandlers(ss: seq<TStmt>, outer: seq<nat>, inner: Option<seq<nat>>)
    : seq<(nat, Option<seq<nat>>)>
  {
    if ss == [] then []
    else Own(ss[0], OpenRegion(inner, outer)) + NestedHandlers(ss[1..], outer, OpenAfter(ss[0], inner))
  }

  /** A statement with its handlers. */
  ghost function Own(s: TStmt, open: Option<seq<nat>>): seq<(nat, Option<seq<nat>>)> {
    if s.Other? then [(s.id, open)] else []
  }

  /** The region that is open in the result when `inner` is open in the source. */
  ghost function OpenRegion(inner: Option<seq<nat>>, outer: seq<nat>): Option<seq<nat>> {
    Some(if inner.Some? then inner.value + outer else outer)
  }

  /** The handlers of each statement when only the region opened last counts. */
  ghost function FlatHandlers(ss: seq<TStmt>, open: Option<seq<nat>>): seq<(nat, Option<seq<nat>>)> {
    if ss == [] then []
    else Own(ss[0], open) + FlatHandlers(ss[1..], OpenAfter(ss[0], open))
  }

  /** No region is opened inside another, and none is closed that is not open. */
  ghost predicate Alternating(ss: seq<TStmt>, open: bool) {
    if ss == [] then true
    else match ss[0]
      case Try(_) => !open && Alternating(ss[1..], true)
      case EndTry => open && Alternating(ss[1..], false)
      case _ => Alternating(ss[1..], open)
  }

  /** The statements without the bounds of try regions. */
  ghost function Payload(ss: seq<TStmt>): seq<TStmt> {
    if ss == [] then []
    else (if ss[0].Try? || ss[0].EndTry? then [] else [ss[0]]) + Payload(ss[1..])
  }

  lemma {:induction false} EndConcat(a: seq<TStmt>, b: seq<TStmt>, open: Option<seq<nat>>)
    ensures EndOf(a + b, open) == EndOf(b, EndOf(a, open))
    ensures Payload(a + b) == Payload(a) + Payload(b)
    decreases |a|
  {
    if a == [] {
      assert a + b == b;
    } else {
      assert (a + b)[1..] == a[1..] + b;
      EndConcat(a[1..], b, OpenAfter(a[0], open));
    }
  }

  lemma {:induction false} NestedConcat(a: seq<TStmt>, b: seq<TStmt>, outer: seq<nat>, inner: Option<seq<nat>>)
    ensures NestedHandlers(a + b, outer, inner)
         == NestedHandlers(a, outer, inner) + NestedHandlers(b, outer, EndOf(a, inner))
    ensures EndOf(a + b, inner) == EndOf(b, EndOf(a, inner))
    ensures Payload(a + b) == Payload(a) + Payload(b)
    decreases |a|
  {
    EndConcat(a, b, inner);
    hide Payload, OpenAfter, OpenRegion, Own;
    if a == [] {
      assert a + b == b;
    } else {
      assert (a + b)[1..] == a[1..] + b && (a + b)[0] == a[0];
      NestedConcat(a[1..], b, outer, OpenAfter(a[0], inner));
    }
  }

  lemma {:induction false} AlternatingConcat(a: seq<TStmt>, b: seq<TStmt>, open: Option<seq<nat>>)
    ensures Alternating(a + b, open.Some?) <==> Alternating(a, open.Some?) && Alternating(b, EndOf(a, open).Some?)
    decreases |a|
  {
    if a == [] {
      assert a + b == b;
    } else {
      assert (a + b)[1..] == a[1..] + b;
      AlternatingConcat(a[1..], b, OpenAfter(a[0], open));
    }
  }

  lemma {:induction false} FlatConcat(a: seq<TStmt>, b: seq<TStmt>, open: Option<seq<nat>>)
    ensures FlatHandlers(a + b, open) == FlatHandlers(a, open) + FlatHandlers(b, EndOf(a, open))
    ensures EndOf(a + b, open) == EndOf(b, EndOf(a, open))
    ensures Alternating(a + b, open.Some?) <==> Alternating(a, open.Some?) && Alternating(b, EndOf(a, open).Some?)
    decreases |a|
  {
    EndConcat(a, b, open);
    AlternatingConcat(a, b, open);
    hide Payload, Alternating, OpenAfter, Own;
    if a == [] {
      assert a + b == b;
    } else {
      assert (a + b)[1..] == a[1..] + b && (a + b)[0] == a[0];
      FlatConcat(a[1..], b, OpenAfter(a[0], open));
    }
  }

  /** Comments and labels change nothing. */
  lemma {:induction false} Silent(ss: seq<TStmt>, open: Option<seq<nat>>)
    requires forall k :: 0 <= k < |ss| ==> !Meaningful(ss[k])
    ensures FlatHandlers(ss, open) == [] && EndOf(ss, open) == open && Alternating(ss, open.Some?)
    ensures forall outer :: NestedHandlers(ss, outer, open) == []
    ensures FirstMeaningful(ss) == None && LastMeaningful(ss) == None && Payload(ss) == ss
  {
    hide NestedHandlers, LastMeaningful, Payload;
    SilentLast(ss);
    SilentPayload(ss);
    forall outer
      ensures NestedHandlers(ss, outer, open) == []
    {
      SilentNested(ss, outer, open);
    }
    if ss != [] {
      Silent(ss[1..], open);
    }
  }

  lemma {:induction false} SilentNested(ss: seq<TStmt>, outer: seq<nat>, inner: Option<seq<nat>>)
    requires forall k :: 0 <= k < |ss| ==> !Meaningful(ss[k])
    ensures NestedHandlers(ss, outer, inner) == []
  {
    if ss != [] {
      SilentNested(ss[1..], outer, inner);
    }
  }

  lemma {:induction false} SilentPayload(ss: seq<TStmt>)
    requires forall k :: 0 <= k < |ss| ==> !Meaningful(ss[k])
    ensures Payload(ss) == ss
  {
    if ss != [] {
      SilentPayload(ss[1..]);
    }
  }

  lemma {:induction false} SilentLast(ss: seq<TStmt>)
    requires forall k :: 0 <= k < |ss| ==> !Meaningful(ss[k])
    ensures LastMeaningful(ss) == None
  {
    if ss != [] {
      SilentLast(ss[..|ss| - 1]);
    }
  }

  lemma {:induction false} LastOfConcat(a: seq<TStmt>, b: seq<TStmt>)
    ensures LastMeaningful(a + b) == if LastMeaningful(b).Some? then LastMeaningful(b) else LastMeaningful(a)
    decreases |b|
  {
    if b == [] {
      assert a + b == a;
    } else {
      assert (a + b)[..|a + b| - 1] == a + b[..|b| - 1];
      LastOfConcat(a, b[..|b| - 1]);
    }
  }

  // ---------------------------------------------------------------------------------------------
  // The walk.
  // ---------------------------------------------------------------------------------------------

  /** What statements are when only the region opened last counts. */
  ghost predicate Made(ss: seq<TStmt>, open: Option<seq<nat>>, hs: seq<(nat, Option<seq<nat>>)>, end: Option<seq<nat>>,
                       pay: seq<TStmt>) {
    FlatHandlers(ss, open) == hs && EndOf(ss, open) == end && Alternating(ss, open.Some?) && Payload(ss) == pay
  }

  /** What statements mean when regions are nested. */
  ghost predicate Means(ss: seq<TStmt>, outer: seq<nat>, inner: Option<seq<nat>>, hs: seq<(nat, Option<seq<nat>>)>,
                        end: Option<seq<nat>>, pay: seq<TStmt>) {
    NestedHandlers(ss, outer, inner) == hs && EndOf(ss, inner) == end && Payload(ss) == pay
  }

  lemma MadeConcat(a: seq<TStmt>, b: seq<TStmt>, open: Option<seq<nat>>, hs: seq<(nat, Option<seq<nat>>)>,
                   mid: Option<seq<nat>>, pay: seq<TStmt>, hs': seq<(nat, Option<seq<nat>>)>, end: Option<seq<nat>>,
                   pay': seq<TStmt>)
    requires Made(a, open, hs, mid, pay) && Made(b, mid, hs', end, pay')
    ensures Made(a + b, open, hs + hs', end, pay + pay')
  {
    FlatConcat(a, b, open);
    NestedConcat(a, b, [], open);
  }

  lemma MeansConcat(a: seq<TStmt>, b: seq<TStmt>, outer: seq<nat>, inner: Option<seq<nat>>,
                    hs: seq<(nat, Option<seq<nat>>)>, mid: Option<seq<nat>>, pay: seq<TStmt>,
                    hs': seq<(nat, Option<seq<nat>>)>, end: Option<seq<nat>>, pay': seq<TStmt>)
    requires Means(a, outer, inner, hs, mid, pay) && Means(b, outer, mid, hs', end, pay')
    ensures Means(a + b, outer, inner, hs + hs', end, pay + pay')
  {
    NestedConcat(a, b, outer, inner);
  }

  lemma MadeSilent(m: seq<TStmt>, open: Option<seq<nat>>, outer: seq<nat>)
    requires forall k :: 0 <= k < |m| ==> !Meaningful(m[k])
    ensures Made(m, open, [], open, m) && Means(m, outer, open, [], open, m) && LastMeaningful(m) == None
  {
    Silent(m, open);
  }

  lemma MadeOne(s: TStmt, open: Option<seq<nat>>, outer: seq<nat>)
    ensures s.Try? && open == None ==> Made([s], open, [], Some(s.handlers), [])
    ensures s.Try? ==> Means([s], outer, open, [], Some(s.handlers), [])
    ensures s == EndTry && open.Some? ==> Made([s], open, [], None, [])
    ensures s == EndTry ==> Means([s], outer, open, [], None, [])
    ensures s.Other? ==> Made([s], open, [(s.id, open)], open, [s])
    ensures s.Other? ==>
              Means([s], outer, open, [(s.id, Some(if open.Some? then open.value + outer else outer))], open, [s])
    ensures LastMeaningful([s]) == if Meaningful(s) then Some(s) else None
  {
    assert [s][1..] == [] && [s][..0] == [];
  }

  /** `done` has been made of `before`. */
  ghost predicate Matches(before: seq<TStmt>, done: seq<TStmt>, outer: seq<nat>, inner: Option<seq<nat>>) {
    && Made(done, Some(outer), NestedHandlers(before, outer, None), OpenRegion(inner, outer), Payload(before))
    && EndOf(before, None) == inner
  }

  /** What is still to come, when `inner` is open and `last` was the last meaningful statement. */
  ghost predicate Upcoming(rest: seq<TStmt>, inner: Option<seq<nat>>, last: Option<TStmt>) {
    && Nested(rest, inner.Some?) && GoesOn(rest)
    && (inner == None ==>
          if last == None then !(FirstMeaningful(rest).Some? && FirstMeaningful(rest).value.Try?)
          else last.value.Other?)
  }

  /** More has been made of more. */
  lemma MatchMore(before: seq<TStmt>, done: seq<TStmt>, outer: seq<nat>, inner: Option<seq<nat>>, b: seq<TStmt>,
                  d: seq<TStmt>, hs: seq<(nat, Option<seq<nat>>)>, inner': Option<seq<nat>>, pay: seq<TStmt>)
    requires Matches(before, done, outer, inner) && Means(b, outer, inner, hs, inner', pay)
    requires Made(d, OpenRegion(inner, outer), hs, OpenRegion(inner', outer), pay)
    ensures Matches(before + b, done + d, outer, inner')
  {
    MadeConcat(done, d, Some(outer), NestedHandlers(before, outer, None), OpenRegion(inner, outer), Payload(before), hs,
               OpenRegion(inner', outer), pay);
    NestedConcat(before, b, outer, None);
  }

  lemma {:induction false} NestedSuffix(ss: seq<TStmt>, k: nat, inner: Option<seq<nat>>)
    requires Nested(ss, inner.Some?) && GoesOn(ss) && k <= |ss|
    ensures Nested(ss[k..], EndOf(ss[..k], inner).Some?) && GoesOn(ss[k..])
  {
    if k > 0 {
      var next := OpenAfter(ss[0], inner);
      assert GoesOn(ss[1..]) by {
        forall j | 0 <= j < |ss[1..]| && ss[1..][j] == EndTry
          ensures FirstMeaningful(ss[1..][j + 1..]).Some?
        {
          assert ss[j + 1] == EndTry && ss[1..][j + 1..] == ss[j + 1 + 1..];
        }
      }
      NestedSuffix(ss[1..], k - 1, next);
      assert ss[1..][k - 1..] == ss[k..] && ss[..k][1..] == ss[1..][..k - 1];
    }
  }

  /** A statement that neither opens nor closes a region is passed over. */
  lemma PassOver(before: seq<TStmt>, outer: seq<nat>, done: seq<TStmt>, rest: seq<TStmt>, inner: Option<seq<nat>>)
    requires Matches(before, done, outer, inner) && Upcoming(rest, inner, LastMeaningful(done))
    requires rest != [] && !rest[0].Try? && !rest[0].EndTry?
    ensures Matches(before + [rest[0]], done + [rest[0]], outer, inner)
    ensures Upcoming(rest[1..], inner, LastMeaningful(done + [rest[0]]))
  {
    var s := rest[0];
    NestedSuffix(rest, 1, inner);
    assert rest[..1] == [s] && [s][1..] == [];
    LastOfConcat(done, [s]);
    MadeOne(s, inner, outer);
    MadeOne(s, OpenRegion(inner, outer), outer);
    if s.Other? {
      MatchMore(before, done, outer, inner, [s], [s], [(s.id, OpenRegion(inner, outer))], inner, [s]);
    } else {
      MadeSilent([s], inner, outer);
      MadeSilent([s], OpenRegion(inner, outer), outer);
      MatchMore(before, done, outer, inner, [s], [s], [], inner, [s]);
    }
  }

  /** Closing the region behind the last meaningful statement instead of here makes no difference. */
  lemma CloseEarlier(a: seq<TStmt>, b: seq<TStmt>, open: seq<nat>, hs: seq<(nat, Option<seq<nat>>)>, pay: seq<TStmt>)
    requires Made(a + b, Some(open), hs, Some(open), pay) && forall k :: 0 <= k < |b| ==> !Meaningful(b[k])
    ensures Made(a + [EndTry] + b, Some(open), hs, None, pay)
  {
    FlatConcat(a, b, Some(open));
    NestedConcat(a, b, [], Some(open));
    var mid, p := EndOf(a, Some(open)), Payload(a);
    MadeSilent(b, mid, []);
    assert Made(a, Some(open), hs, Some(open), p) && pay == p + b;
    MadeOne(EndTry, Some(open), []);
    MadeSilent(b, None, []);
    hide Made;
    MadeConcat(a, [EndTry], Some(open), hs, Some(open), p, [], None, []);
    MadeConcat(a + [EndTry], b, Some(open), hs, None, p, [], None, b);
    assert hs + [] == hs && p + [] == p;
  }

  /** An inner region is opened behind the statement before index `j`: the outer region is closed there. */
  lemma OpenInner(before: seq<TStmt>, outer: seq<nat>, done: seq<TStmt>, rest: seq<TStmt>, inner: Option<seq<nat>>,
                  j: nat)
    requires Matches(before, done, outer, inner) && Upcoming(rest, inner, LastMeaningful(done))
    requires rest != [] && rest[0].Try?
    requires j <= |done| && forall k :: j <= k < |done| ==> !Meaningful(done[k])
    ensures var h := rest[0].handlers;
      Matches(before + [rest[0]], done[..j] + [EndTry] + done[j..] + [Try(h + outer)], outer, Some(h))
      && Upcoming(rest[1..], Some(h), LastMeaningful(done[..j] + [EndTry] + done[j..] + [Try(h + outer)]))
  {
    var a, b, h := done[..j], done[j..], rest[0].handlers;
    var hs, p := NestedHandlers(before, outer, None), Payload(before);
    assert done == a + b && rest[..1] == [rest[0]] && [rest[0]][1..] == [];
    NestedSuffix(rest, 1, inner);
    assert inner == None;
    CloseEarlier(a, b, outer, hs, p);
    MadeOne(Try(h + outer), None, outer);
    MadeOne(rest[0], None, outer);
    NestedConcat(before, [rest[0]], outer, None);
    hide Made;
    MadeConcat(a + [EndTry] + b, [Try(h + outer)], Some(outer), hs, None, p, [], Some(h + outer), []);
    assert hs + [] == hs && p + [] == p;
  }

  /** The end of an inner region and the comments and labels behind it. */
  lemma EndThenSilent(m: seq<TStmt>, outer: seq<nat>, inner: Option<seq<nat>>)
    requires forall k :: 0 <= k < |m| ==> !Meaningful(m[k])
    ensures Means([EndTry] + m, outer, inner, [], None, m) && Made([EndTry] + m, OpenRegion(inner, outer), [], None, m)
  {
    var open := OpenRegion(inner, outer);
    MadeOne(EndTry, inner, outer);
    MadeOne(EndTry, open, outer);
    MadeSilent(m, None, outer);
    MadeConcat([EndTry], m, open, [], None, [], [], None, m);
    MeansConcat([EndTry], m, outer, inner, [], None, [], [], None, m);
    assert [] + m == m;
  }

  lemma EndsWith(a: seq<TStmt>, s: TStmt, open: Option<seq<nat>>)
    ensures EndOf(a + [s], open) == OpenAfter(s, EndOf(a, open))
  {
    EndConcat(a, [s], open);
    assert [s][1..] == [];
    assert EndOf([s], EndOf(a, open)) == EndOf([], OpenAfter(s, EndOf(a, open)));
  }

  /** The part of `rest` up to the next meaningful statement. */
  lemma UpToNext(rest: seq<TStmt>, outer: seq<nat>, inner: Option<seq<nat>>, j: nat)
    requires Nested(rest, inner.Some?) && GoesOn(rest) && rest != [] && rest[0] == EndTry
    requires 0 < j < |rest| && forall k :: 0 < k < j ==> !Meaningful(rest[k])
    ensures Means(rest[..j], outer, inner, [], None, rest[1..j])
    ensures Made(rest[..j], OpenRegion(inner, outer), [], None, rest[1..j])
    ensures rest[..j + 1] == rest[..j] + [rest[j]] && EndOf(rest[..j + 1], inner) == OpenAfter(rest[j], None)
    ensures Nested(rest[j + 1..], OpenAfter(rest[j], None).Some?) && GoesOn(rest[j + 1..])
  {
    assert rest[..j] == [EndTry] + rest[1..j] && rest[..j + 1] == rest[..j] + [rest[j]];
    EndThenSilent(rest[1..j], outer, inner);
    EndsWith(rest[..j], rest[j], inner);
    assert EndOf(rest[..j], inner) == None;
    NestedSuffix(rest, j + 1, inner);
  }

  /** An inner region ends and the next meaningful statement opens another one. */
  lemma NextInner(before: seq<TStmt>, outer: seq<nat>, done: seq<TStmt>, rest: seq<TStmt>, inner: Option<seq<nat>>,
                  j: nat)
    requires Matches(before, done, outer, inner) && Upcoming(rest, inner, LastMeaningful(done))
    requires rest != [] && rest[0] == EndTry
    requires 0 < j < |rest| && rest[j].Try? && forall k :: 0 < k < j ==> !Meaningful(rest[k])
    ensures var h := rest[j].handlers; var d := done + (rest[..j] + [Try(h + outer)]);
      Matches(before + rest[..j + 1], d, outer, Some(h)) && Upcoming(rest[j + 1..], Some(h), LastMeaningful(d))
  {
    var m, h := rest[1..j], rest[j].handlers;
    UpToNext(rest, outer, inner, j);
    MadeOne(Try(h + outer), None, outer);
    MadeOne(rest[j], None, outer);
    hide Made, Means, Matches, Nested, GoesOn, EndOf, LastMeaningful;
    MadeConcat(rest[..j], [Try(h + outer)], OpenRegion(inner, outer), [], None, m, [], Some(h + outer), []);
    MeansConcat(rest[..j], [rest[j]], outer, inner, [], None, m, [], Some(h), []);
    MatchMore(before, done, outer, inner, rest[..j + 1], rest[..j] + [Try(h + outer)], [], Some(h), m + []);
  }

  /** An inner region ends: the outer one is opened again before the next meaningful statement. */
  lemma Reopen(before: seq<TStmt>, outer: seq<nat>, done: seq<TStmt>, rest: seq<TStmt>, inner: Option<seq<nat>>, j: nat)
    requires Matches(before, done, outer, inner) && Upcoming(rest, inner, LastMeaningful(done))
    requires rest != [] && rest[0] == EndTry
    requires 0 < j < |rest| && rest[j].Other? && forall k :: 0 < k < j ==> !Meaningful(rest[k])
    ensures var d := done + (rest[..j] + ([Try(outer)] + [rest[j]]));
      Matches(before + rest[..j + 1], d, outer, None) && Upcoming(rest[j + 1..], None, LastMeaningful(d))
  {
    var m, s := rest[1..j], rest[j];
    var hs := [(s.id, Some(outer))];
    var t := [Try(outer)] + [s];
    UpToNext(rest, outer, inner, j);
    MadeOne(Try(outer), None, outer);
    MadeOne(s, Some(outer), outer);
    MadeOne(s, None, outer);
    EndsInOther(done, rest[..j], [Try(outer)], s);
    hide Made, Means, Matches, Nested, GoesOn, EndOf, LastMeaningful;
    MadeConcat([Try(outer)], [s], None, [], Some(outer), [], hs, Some(outer), [s]);
    MadeConcat(rest[..j], t, OpenRegion(inner, outer), [], None, m, [] + hs, Some(outer), [] + [s]);
    MeansConcat(rest[..j], [s], outer, inner, [], None, m, hs, None, [s]);
    assert [] + ([] + hs) == [] + hs && m + ([] + [s]) == m + [s];
    MatchMore(before, done, outer, inner, rest[..j + 1], rest[..j] + t, [] + hs, None, m + [s]);
  }

  lemma EndsInOther(a: seq<TStmt>, b: seq<TStmt>, c: seq<TStmt>, s: TStmt)
    requires s.Other?
    ensures LastMeaningful(a + (b + (c + [s]))) == Some(s)
  {
    var d := a + (b + (c + [s]));
    assert d[|d| - 1] == s;
  }

  /** What follows the end of an inner region: comments and labels, then a statement or another region. */
  lemma {:induction false} AfterEnd(ss: seq<TStmt>, j: nat)
    requires Nested(ss, false) && FirstMeaningful(ss).Some? && j <= |ss|
    requires forall k :: 0 <= k < j ==> !Meaningful(ss[k])
    ensures (forall k :: 0 <= k < |ss| ==> !Meaningful(ss[k])) ==> false
    ensures j < |ss| && Meaningful(ss[j]) ==> ss[j].Try? || ss[j].Other?
    ensures j < |ss|
  {
    if j > 0 {
      AfterEnd(ss[1..], j - 1);
    }
    if forall k :: 0 <= k < |ss| ==> !Meaningful(ss[k]) {
      Silent(ss, None);
    }
  }

  lemma UpcomingFacts(rest: seq<TStmt>, inner: Option<seq<nat>>, last: Option<TStmt>)
    requires Upcoming(rest, inner, last) && rest != []
    ensures rest[0].Try? ==> last.Some? && last.value.Other?
    ensures rest[0] == EndTry ==> Nested(rest, true) && GoesOn(rest)
  {
  }

  /** The index behind the last meaningful statement. */
  method FindLast(flat: seq<TStmt>) returns (last: nat)
    requires LastMeaningful(flat).Some?
    ensures 0 < last <= |flat| && LastMeaningful(flat) == Some(flat[last - 1])
    ensures forall k :: last <= k < |flat| ==> !Meaningful(flat[k])
  {
    last := |flat|;
    assert flat[..last] == flat;
    while flat[last - 1].Label? || flat[last - 1].Comment?
      invariant 0 < last <= |flat| && LastMeaningful(flat) == LastMeaningful(flat[..last])
      invariant forall k :: last <= k < |flat| ==> !Meaningful(flat[k])
      decreases last
    {
      assert flat[..last][..last - 1] == flat[..last - 1];
      last := last - 1;
    }
  }

  /** The index of the first meaningful statement behind the end of an inner region. */
  method FindNext(rest: seq<TStmt>) returns (first: nat)
    requires rest != [] && rest[0] == EndTry && Nested(rest, true) && GoesOn(rest)
    ensures 0 < first < |rest| && (rest[first].Try? || rest[first].Other?)
    ensures forall k :: 0 < k < first ==> !Meaningful(rest[k])
  {
    first := 1;
    assert FirstMeaningful(rest[0 + 1..]).Some?;
    AfterEnd(rest[1..], 0);
    while rest[first].Label? || rest[first].Comment?
      invariant 0 < first < |rest| && forall k :: 0 < k < first ==> !Meaningful(rest[k])
      decreases |rest| - first
    {
      AfterEnd(rest[1..], first);
      first := first + 1;
    }
    AfterEnd(rest[1..], first - 1);
  }

  /** The place directly behind the last meaningful statement. */
  ghost predicate BehindLast(flat: seq<TStmt>, last: nat) {
    0 < last <= |flat| && Meaningful(flat[last - 1]) && forall k :: last <= k < |flat| ==> !Meaningful(flat[k])
  }

  lemma {:induction false} MeaningfulIsLast(ss: seq<TStmt>, last: nat)
    requires 0 < last <= |ss| && LastMeaningful(ss) == Some(ss[last - 1])
    ensures Meaningful(ss[last - 1])
  {
    FoundIsMeaningful(ss);
  }

  lemma {:induction false} FoundIsMeaningful(ss: seq<TStmt>)
    requires LastMeaningful(ss).Some?
    ensures Meaningful(LastMeaningful(ss).value)
  {
    if !Meaningful(ss[|ss| - 1]) {
      FoundIsMeaningful(ss[..|ss| - 1]);
    }
  }

  /** An inner region begins: the outer one is ended behind the last meaningful statement. */
  method EnterInner(ghost before: seq<TStmt>, outer: seq<nat>, flat: seq<TStmt>, rest: seq<TStmt>,
                    ghost inner: Option<seq<nat>>) returns (made: seq<TStmt>)
    requires Matches(before, flat, outer, inner) && Upcoming(rest, inner, LastMeaningful(flat))
    requires rest != [] && rest[0].Try?
    ensures Matches(before + [rest[0]], made, outer, Some(rest[0].handlers))
    ensures Upcoming(rest[1..], Some(rest[0].handlers), LastMeaningful(made))
    ensures exists last: nat :: BehindLast(flat, last)
              && made == flat[..last] + [EndTry] + flat[last..] + [Try(rest[0].handlers + outer)]
  {
    UpcomingFacts(rest, inner, LastMeaningful(flat));
    var last := FindLast(flat);
    OpenInner(before, outer, flat, rest, inner, last);
    assert BehindLast(flat, last) by {
      MeaningfulIsLast(flat, last);
    }
    made := flat[..last] + [EndTry] + flat[last..] + [Try(rest[0].handlers + outer)];
  }

  /** An inner region ends; the statements up to index `first` of `rest` are dealt with. */
  method LeaveInner(ghost before: seq<TStmt>, outer: seq<nat>, flat: seq<TStmt>, rest: seq<TStmt>,
                    ghost inner: Option<seq<nat>>)
      returns (made: seq<TStmt>, first: nat, ghost inner': Option<seq<nat>>)
    requires Matches(before, flat, outer, inner) && Upcoming(rest, inner, LastMeaningful(flat))
    requires rest != [] && rest[0] == EndTry
    ensures first < |rest| && Matches(before + rest[..first + 1], made, outer, inner')
    ensures Upcoming(rest[first + 1..], inner', LastMeaningful(made))
    ensures 0 < first && (rest[first].Try? || rest[first].Other?) && forall k :: 0 < k < first ==> !Meaningful(rest[k])
    ensures made == flat + (rest[..first] + if rest[first].Try? then [Try(rest[first].handlers + outer)]
                                            else [Try(outer)] + [rest[first]])
  {
    hide *;
    UpcomingFacts(rest, inner, LastMeaningful(flat));
    first := FindNext(rest);
    if rest[first].Try? {
      NextInner(before, outer, flat, rest, inner, first);
      made := flat + (rest[..first] + [Try(rest[first].handlers + outer)]);
      inner' := Some(rest[first].handlers);
    } else {
      Reopen(before, outer, flat, rest, inner, first);
      made := flat + (rest[..first] + ([Try(outer)] + [rest[first]]));
      inner' := None;
    }
  }

  /** Deals with the next statement, or with all up to the one behind the end of an inner region. */
  method OneStep(ghost before: seq<TStmt>, outer: seq<nat>, flat: seq<TStmt>, rest: seq<TStmt>,
                 ghost inner: Option<seq<nat>>)
      returns (made: seq<TStmt>, count: nat, changed: bool, ghost inner': Option<seq<nat>>)
    requires Matches(before, flat, outer, inner) && Upcoming(rest, inner, LastMeaningful(flat))
    requires rest != []
    ensures 0 < count <= |rest| && Matches(before + rest[..count], made, outer, inner')
    ensures Upcoming(rest[count..], inner', LastMeaningful(made))
    ensures !changed ==> made == flat + rest[..count]
    ensures changed <==> rest[0].Try? || rest[0] == EndTry
    ensures !changed ==> count == 1
  {
    hide *;
    assert rest[..1] == [rest[0]];
    match rest[0] {
      case Try(h) =>
        made := EnterInner(before, outer, flat, rest, inner);
        count, changed, inner' := 1, true, Some(h);
      case EndTry =>
        var first;
        made, first, inner' := LeaveInner(before, outer, flat, rest, inner);
        count, changed := first + 1, true;
      case _ =>
        PassOver(before, outer, flat, rest, inner);
        made, count, changed, inner' := flat + [rest[0]], 1, false, inner;
    }
  }

  lemma NextPart(ss: seq<TStmt>, k: nat, n: nat)
    requires k <= |ss| && n <= |ss| - k
    ensures ss[..k + n] == ss[..k] + ss[k..][..n] && ss[k..][n..] == ss[k + n..]
  {
  }

  lemma NextBound(ss: seq<TStmt>, k: nat, n: nat, changed: bool, c: bool)
    requires k < |ss| && 0 < n <= |ss| - k && (changed <==> exists j :: 0 <= j < k && IsBound(ss[j]))
    requires (c <==> ss[k..][0].Try? || ss[k..][0] == EndTry) && (!c ==> n == 1)
    ensures changed || c <==> exists j :: 0 <= j < k + n && IsBound(ss[j])
  {
    assert ss[k..][0] == ss[k];
    if changed {
      var j :| 0 <= j < k && IsBound(ss[j]);
      assert 0 <= j < k + n && IsBound(ss[j]);
    } else if !c {
      forall j | 0 <= j < k + n
        ensures !IsBound(ss[j])
      {
        assert j < k || j == k;
      }
    }
  }

  lemma WalkStarts(ss: seq<TStmt>, outer: seq<nat>)
    requires Asserted(ss)
    ensures Matches([], [], outer, None) && Upcoming(ss, None, LastMeaningful([]))
  {
  }

  lemma WalkEnds(ss: seq<TStmt>, flat: seq<TStmt>, outer: seq<nat>, inner: Option<seq<nat>>)
    requires Matches(ss, flat, outer, inner) && Upcoming([], inner, LastMeaningful(flat))
    ensures Alternating(flat, true) && EndOf(flat, Some(outer)) == Some(outer)
    ensures FlatHandlers(flat, Some(outer)) == NestedHandlers(ss, outer, None)
    ensures Payload(flat) == Payload(ss)
  {
  }

  /** Rewrites the statements between an outer try with handlers `outer` and its end. */
  method ResolveNestedTryBlock(ss: seq<TStmt>, outer: seq<nat>) returns (flat: seq<TStmt>, changed: bool)
    requires Asserted(ss)
    ensures Alternating(flat, true) && EndOf(flat, Some(outer)) == Some(outer)
    ensures FlatHandlers(flat, Some(outer)) == NestedHandlers(ss, outer, None)
    ensures Payload(flat) == Payload(ss)
    ensures !changed ==> flat == ss
    ensures changed <==> exists j :: 0 <= j < |ss| && IsBound(ss[j])
  {
    hide *;
    flat, changed := [], false;
    ghost var inner := None;
    var k := 0;
    assert ss[..0] == [] && ss[0..] == ss;
    WalkStarts(ss, outer);
    while k < |ss|
      invariant k <= |ss| && Matches(ss[..k], flat, outer, inner)
      invariant Upcoming(ss[k..], inner, LastMeaningful(flat))
      invariant !changed ==> flat == ss[..k]
      invariant changed <==> exists j :: 0 <= j < k && IsBound(ss[j])
    {
      var made, count, c;
      made, count, c, inner := OneStep(ss[..k], outer, flat, ss[k..], inner);
      NextBound(ss, k, count, changed, c);
      NextPart(ss, k, count);
      flat, changed, k := made, changed || c, k + count;
    }
    assert ss[..|ss|] == ss && ss[|ss|..] == [];
    WalkEnds(ss, flat, outer, inner);
  }
}
