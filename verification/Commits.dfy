/** Commit histories, and how far back each ancestor of a commit lies. */
module Commits {

  type Id = string

  /** The commits that can be loaded, with the ids of their parents; a parent may be missing. */
  type History = map<Id, seq<Id>>

  ghost predicate IsParent(h: History, c: Id, p: Id) {
    c in h && p in h[c] && p in h
  }

  /** Parents come before their children, as they must when an id is a hash of the parents' ids. */
  ghost predicate IsAcyclic(h: History, rank: Id -> nat) {
    forall c, p :: IsParent(h, c, p) ==> rank(p) < rank(c)
  }

  /** `d` steps from child to parent lead from `a` to `b`. */
  ghost predicate Reaches(h: History, a: Id, b: Id, d: nat)
    decreases d
  {
    if d == 0 then a in h && a == b
    else exists p :: IsParent(h, a, p) && Reaches(h, p, b, d - 1)
  }

  /** `b` is `a` itself or an ancestor of it. */
  ghost predicate IsAncestor(h: History, a: Id, b: Id) {
    exists d: nat :: Reaches(h, a, b, d)
  }

  /** `d` is the length of the shortest way from `a` back to `b`. */
  ghost predicate IsDepth(h: History, a: Id, b: Id, d: nat) {
    Reaches(h, a, b, d) && forall e: nat :: Reaches(h, a, b, e) ==> d <= e
  }

  /** The shortest distances from `a` to itself and all its ancestors. */
  ghost predicate AreDepths(h: History, a: Id, depths: map<Id, nat>) {
    forall c :: if c in depths then IsDepth(h, a, c, depths[c]) else !IsAncestor(h, a, c)
  }

  lemma {:induction false} ReachesThen(h: History, a: Id, b: Id, c: Id, d: nat, e: nat)
    requires Reaches(h, a, b, d) && Reaches(h, b, c, e)
    ensures Reaches(h, a, c, d + e)
    decreases d
  {
    if d > 0 {
      var p :| IsParent(h, a, p) && Reaches(h, p, b, d - 1);
      ReachesThen(h, p, b, c, d - 1, e);
    }
  }

  lemma ReachesParent(h: History, a: Id, c: Id, p: Id, d: nat)
    requires Reaches(h, a, c, d) && IsParent(h, c, p)
    ensures Reaches(h, a, p, d + 1)
  {
    assert Reaches(h, p, p, 0);
    assert Reaches(h, c, p, 1);
    ReachesThen(h, a, c, p, d, 1);
  }

  /** Whatever is reached, is reached last through one of its children. */
  lemma {:induction false} LastStep(h: History, a: Id, c: Id, d: nat) returns (child: Id)
    requires d > 0 && Reaches(h, a, c, d)
    ensures IsParent(h, child, c) && Reaches(h, a, child, d - 1)
    decreases d
  {
    var p :| IsParent(h, a, p) && Reaches(h, p, c, d - 1);
    if d == 1 {
      child := a;
    } else {
      child := LastStep(h, p, c, d - 1);
    }
  }

  lemma {:induction false} DepthExists(h: History, a: Id, b: Id, d: nat)
    requires Reaches(h, a, b, d)
    ensures exists least: nat :: IsDepth(h, a, b, least)
    decreases d
  {
    if e: nat :| e < d && Reaches(h, a, b, e) {
      DepthExists(h, a, b, e);
    } else {
      assert IsDepth(h, a, b, d);
    }
  }

  // The worklist: commits still to look at, with the distance at which they were met.

  type Entry = (Id, nat)

  /** Every distance found, and every distance waiting, is that of some way back. */
  ghost predicate AreDistances(h: History, a: Id, depths: map<Id, nat>, stack: seq<Entry>) {
    && (forall c :: c in depths ==> Reaches(h, a, c, depths[c]))
    && (forall e :: e in stack ==> Reaches(h, a, e.0, e.1))
  }

  /** `c` is known to be at most `d` away, or will be. */
  ghost predicate Covered(depths: map<Id, nat>, stack: seq<Entry>, c: Id, d: nat) {
    (c in depths && depths[c] <= d) || exists e :: e in stack && e.0 == c && e.1 <= d
  }

  /** The start and every parent of a commit met are covered. */
  ghost predicate AllCovered(h: History, a: Id, depths: map<Id, nat>, stack: seq<Entry>) {
    && Covered(depths, stack, a, 0)
    && forall c, p :: c in depths && IsParent(h, c, p) ==> Covered(depths, stack, p, depths[c] + 1)
  }

  /** The stack after the parents that can be loaded are pushed. */
  function Pushed(h: History, stack: seq<Entry>, ids: seq<Id>, depth: nat): seq<Entry>
    decreases |ids|
  {
    if ids == [] then stack
    else Pushed(h, if ids[0] in h then stack + [(ids[0], depth)] else stack, ids[1..], depth)
  }

  lemma {:induction false} PushedHas(h: History, stack: seq<Entry>, ids: seq<Id>, depth: nat, e: Entry)
    ensures e in Pushed(h, stack, ids, depth) <==> e in stack || (e.0 in ids && e.0 in h && e.1 == depth)
    decreases |ids|
  {
    if ids != [] {
      PushedHas(h, if ids[0] in h then stack + [(ids[0], depth)] else stack, ids[1..], depth, e);
      assert e.0 in ids <==> e.0 == ids[0] || e.0 in ids[1..];
    }
  }

  /** A popped entry that is no news leaves everything covered. */
  lemma SkipKeepsCovered(h: History, a: Id, depths: map<Id, nat>, stack: seq<Entry>)
    requires stack != [] && AllCovered(h, a, depths, stack)
    requires var (c, d) := stack[|stack| - 1]; c in depths && depths[c] <= d
    ensures AllCovered(h, a, depths, stack[..|stack| - 1])
  {
    forall c, d: nat | Covered(depths, stack, c, d)
      ensures Covered(depths, stack[..|stack| - 1], c, d)
    {
      if !(c in depths && depths[c] <= d) {
        var e :| e in stack && e.0 == c && e.1 <= d;
        assert e in stack[..|stack| - 1];
      }
    }
  }

  /** After a shorter distance is noted and the parents are pushed, everything is covered again. */
  lemma NoteKeepsCovered(h: History, a: Id, depths: map<Id, nat>, stack: seq<Entry>)
    requires stack != [] && AllCovered(h, a, depths, stack)
    requires var (c, d) := stack[|stack| - 1]; c in h && (c in depths ==> d < depths[c])
    ensures var (c, d) := stack[|stack| - 1];
            AllCovered(h, a, depths[c := d], Pushed(h, stack[..|stack| - 1], h[c], d + 1))
  {
    var (c, d) := stack[|stack| - 1];
    var depths', stack' := depths[c := d], Pushed(h, stack[..|stack| - 1], h[c], d + 1);
    forall b, e: nat | Covered(depths, stack, b, e)
      ensures Covered(depths', stack', b, e)
    {
      NoteKeepsOne(h, depths, stack, b, e);
    }
    forall p | IsParent(h, c, p)
      ensures Covered(depths', stack', p, d + 1)
    {
      PushedHas(h, stack[..|stack| - 1], h[c], d + 1, (p, d + 1));
    }
  }

  lemma NoteKeepsOne(h: History, depths: map<Id, nat>, stack: seq<Entry>, b: Id, e: nat)
    requires stack != [] && Covered(depths, stack, b, e)
    requires var (c, d) := stack[|stack| - 1]; c in h && (c in depths ==> d < depths[c])
    ensures var (c, d) := stack[|stack| - 1];
            Covered(depths[c := d], Pushed(h, stack[..|stack| - 1], h[c], d + 1), b, e)
  {
    var (c, d) := stack[|stack| - 1];
    if !(b in depths && depths[b] <= e) {
      var entry :| entry in stack && entry.0 == b && entry.1 <= e;
      if entry in stack[..|stack| - 1] {
        PushedHas(h, stack[..|stack| - 1], h[c], d + 1, entry);
      }
    }
  }

  lemma NoteKeepsDistances(h: History, a: Id, depths: map<Id, nat>, stack: seq<Entry>)
    requires stack != [] && AreDistances(h, a, depths, stack)
    requires stack[|stack| - 1].0 in h
    ensures var (c, d) := stack[|stack| - 1];
            AreDistances(h, a, depths[c := d], Pushed(h, stack[..|stack| - 1], h[c], d + 1))
  {
    var (c, d) := stack[|stack| - 1];
    assert (c, d) in stack;
    forall e | e in Pushed(h, stack[..|stack| - 1], h[c], d + 1)
      ensures Reaches(h, a, e.0, e.1)
    {
      PushedHas(h, stack[..|stack| - 1], h[c], d + 1, e);
      if e !in stack[..|stack| - 1] {
        ReachesParent(h, a, c, e.0, d);
      }
    }
  }

  /** With nothing left to look at, no way back is shorter than the distance found. */
  lemma {:induction false} NoShorterWay(h: History, a: Id, depths: map<Id, nat>, b: Id, c: Id, d: nat)
    requires AllCovered(h, a, depths, []) && b in depths && Reaches(h, b, c, d)
    ensures c in depths && depths[c] <= depths[b] + d
    decreases d
  {
    if d > 0 {
      var p :| IsParent(h, b, p) && Reaches(h, p, c, d - 1);
      assert Covered(depths, [], p, depths[b] + 1);
      NoShorterWay(h, a, depths, p, c, d - 1);
    }
  }

  lemma EmptyStackMeansDepths(h: History, a: Id, depths: map<Id, nat>)
    requires AreDistances(h, a, depths, []) && AllCovered(h, a, depths, [])
    ensures AreDepths(h, a, depths)
  {
    assert Covered(depths, [], a, 0);
    forall c, d: nat | Reaches(h, a, c, d)
      ensures c in depths && depths[c] <= d
    {
      NoShorterWay(h, a, depths, a, c, d);
    }
  }

  // One round of the loop, and how many there can be.

  datatype Search = Search(depths: map<Id, nat>, stack: seq<Entry>)

  function ParentIds(h: History, c: Id): seq<Id> {
    if c in h then h[c] else []
  }

  /** Pops an entry; if it is news, notes the distance and pushes the parents. */
  ghost predicate IsRound(h: History, s: Search, next: Search) {
    && s.stack != []
    && var (c, d) := s.stack[|s.stack| - 1];
       var rest := s.stack[..|s.stack| - 1];
       if c in s.depths && s.depths[c] <= d then next.depths == s.depths && next.stack == rest
       else next.depths == s.depths[c := d] && next.stack == Pushed(h, rest, ParentIds(h, c), d + 1)
  }

  /** `n` rounds lead from `first` to `s`. */
  ghost predicate IsAfterRounds(h: History, first: Search, n: nat, s: Search)
    decreases n
  {
    if n == 0 then s == first
    else exists before: Search :: IsAfterRounds(h, first, n - 1, before) && IsRound(h, before, s)
  }

  function Start(commit: Id): Search {
    Search(map[], [(commit, 0)])
  }

  ghost predicate IsSearch(h: History, a: Id, s: Search) {
    AreDistances(h, a, s.depths, s.stack) && AllCovered(h, a, s.depths, s.stack)
  }

  lemma ReachedIsThere(h: History, a: Id, b: Id, d: nat)
    requires Reaches(h, a, b, d)
    ensures a in h && b in h
    decreases d
  {
    if d > 0 {
      var p :| IsParent(h, a, p) && Reaches(h, p, b, d - 1);
      ReachedIsThere(h, p, b, d - 1);
    }
  }

  lemma StartIsSearch(h: History, a: Id)
    requires a in h
    ensures IsSearch(h, a, Start(a))
  {
    assert [(a, 0)][0] in [(a, 0)];
  }

  lemma TopIsThere(h: History, a: Id, s: Search)
    requires IsSearch(h, a, s) && s.stack != []
    ensures var (c, d) := s.stack[|s.stack| - 1]; c in h && Reaches(h, a, c, d)
  {
    var e := s.stack[|s.stack| - 1];
    assert e in s.stack;
    ReachedIsThere(h, a, e.0, e.1);
  }

  lemma RoundKeepsSearch(h: History, a: Id, s: Search, next: Search)
    requires IsSearch(h, a, s) && IsRound(h, s, next)
    ensures IsSearch(h, a, next)
  {
    TopIsThere(h, a, s);
    var (c, d) := s.stack[|s.stack| - 1];
    if c in s.depths && s.depths[c] <= d {
      SkipKeepsSearch(h, a, s.depths, s.stack, next);
    } else {
      NoteKeepsSearch(h, a, s.depths, s.stack, next);
    }
  }

  lemma SkipKeepsSearch(h: History, a: Id, depths: map<Id, nat>, stack: seq<Entry>, next: Search)
    requires stack != [] && IsSearch(h, a, Search(depths, stack))
    requires var (c, d) := stack[|stack| - 1]; c in depths && depths[c] <= d
    requires next.depths == depths && next.stack == stack[..|stack| - 1]
    ensures IsSearch(h, a, next)
  {
    SkipKeepsCovered(h, a, depths, stack);
  }

  lemma NoteKeepsSearch(h: History, a: Id, depths: map<Id, nat>, stack: seq<Entry>, next: Search)
    requires stack != [] && IsSearch(h, a, Search(depths, stack))
    requires var (c, d) := stack[|stack| - 1]; c in h && (c in depths ==> d < depths[c])
    requires var (c, d) := stack[|stack| - 1];
             next.depths == depths[c := d] && next.stack == Pushed(h, stack[..|stack| - 1], ParentIds(h, c), d + 1)
    ensures IsSearch(h, a, next)
  {
    NoteKeepsCovered(h, a, depths, stack);
    NoteKeepsDistances(h, a, depths, stack);
  }

  /** Leaving out a commit changes nothing for those that rank below it. */
  lemma {:induction false} ReachesWithout(h: History, rank: Id -> nat, top: Id, a: Id, b: Id, d: nat)
    requires IsAcyclic(h, rank) && rank(a) < rank(top) && Reaches(h, a, b, d)
    ensures Reaches(h - {top}, a, b, d)
    decreases d
  {
    if d > 0 {
      var p :| IsParent(h, a, p) && Reaches(h, p, b, d - 1);
      ReachesWithout(h, rank, top, p, b, d - 1);
      assert IsParent(h - {top}, a, p);
    }
  }

  /** No way back is as long as there are commits. */
  lemma {:induction false} WaysAreShort(h: History, rank: Id -> nat, a: Id, b: Id, d: nat)
    requires IsAcyclic(h, rank) && Reaches(h, a, b, d)
    ensures d < |h|
    decreases d
  {
    ReachedIsThere(h, a, b, d);
    assert |h - {a}| == |h| - 1 by {
      assert (h - {a}).Keys == h.Keys - {a};
    }
    if d > 0 {
      var p :| IsParent(h, a, p) && Reaches(h, p, b, d - 1);
      ReachesWithout(h, rank, a, p, b, d - 1);
      forall c, q | IsParent(h - {a}, c, q)
        ensures rank(q) < rank(c)
      {
        assert IsParent(h, c, q);
      }
      WaysAreShort(h - {a}, rank, p, b, d - 1);
    }
  }

  ghost function SumOver(ids: set<Id>, f: Id -> nat): nat {
    if ids == {} then 0
    else
      var c :| c in ids;
      f(c) + SumOver(ids - {c}, f)
  }

  lemma {:induction false} SumOverSplit(ids: set<Id>, f: Id -> nat, c: Id)
    requires c in ids
    ensures SumOver(ids, f) == f(c) + SumOver(ids - {c}, f)
    decreases ids
  {
    var first :| first in ids && SumOver(ids, f) == f(first) + SumOver(ids - {first}, f);
    if first != c {
      SumOverSplit(ids - {first}, f, c);
      SumOverSplit(ids - {c}, f, first);
      assert ids - {first} - {c} == ids - {c} - {first};
    }
  }

  lemma {:induction false} SumOverSame(ids: set<Id>, f: Id -> nat, g: Id -> nat)
    requires forall c :: c in ids ==> f(c) == g(c)
    ensures SumOver(ids, f) == SumOver(ids, g)
    decreases ids
  {
    if ids != {} {
      var c :| c in ids;
      SumOverSplit(ids, f, c);
      SumOverSplit(ids, g, c);
      SumOverSame(ids - {c}, f, g);
    }
  }

  lemma {:induction false} SumOverTimes(ids: set<Id>, f: Id -> nat, k: nat, g: Id -> nat)
    requires forall c :: c in ids ==> g(c) == k * f(c)
    ensures SumOver(ids, g) == k * SumOver(ids, f)
    decreases ids
  {
    if ids != {} {
      var c :| c in ids;
      SumOverSplit(ids, f, c);
      SumOverSplit(ids, g, c);
      SumOverTimes(ids - {c}, f, k, g);
      assert k * (f(c) + SumOver(ids - {c}, f)) == k * f(c) + k * SumOver(ids - {c}, f);
    }
  }

  /** How often a commit can still be noted: every time its distance falls. */
  function Room(h: History, depths: map<Id, nat>, c: Id): nat {
    if c in depths then depths[c] else |h|
  }

  function FollowUps(h: History, depths: map<Id, nat>, c: Id): nat {
    Room(h, depths, c) * |ParentIds(h, c)|
  }

  /** Parent links, counted once for every time their commit can still be noted. */
  ghost function LinksToFollow(h: History, depths: map<Id, nat>): nat {
    SumOver(h.Keys, (c: Id) => FollowUps(h, depths, c))
  }

  ghost function Links(h: History): nat {
    SumOver(h.Keys, (c: Id) => |ParentIds(h, c)|)
  }

  /** A bound on the rounds that are left. */
  ghost function RoundsLeft(h: History, s: Search): nat {
    |s.stack| + LinksToFollow(h, s.depths)
  }

  /** A bound on all rounds: polynomial in commits and parent links. */
  ghost function MostRounds(h: History): nat {
    1 + |h| * Links(h)
  }

  lemma StartWithinMost(h: History, commit: Id)
    ensures RoundsLeft(h, Start(commit)) == MostRounds(h)
  {
    SumOverTimes(h.Keys, (c: Id) => |ParentIds(h, c)|, |h|, (c: Id) => FollowUps(h, map[], c));
  }

  lemma {:induction false} PushedLength(h: History, stack: seq<Entry>, ids: seq<Id>, depth: nat)
    ensures |Pushed(h, stack, ids, depth)| <= |stack| + |ids|
    decreases |ids|
  {
    if ids != [] {
      PushedLength(h, if ids[0] in h then stack + [(ids[0], depth)] else stack, ids[1..], depth);
    }
  }

  lemma FewerTimes(low: nat, high: nat, links: nat)
    requires low < high
    ensures low * links + links <= high * links
  {
    var more := high - low - 1;
    assert high * links == low * links + links + more * links;
  }

  /** Noting a smaller distance gives up all links of the commit once. */
  lemma NoteUsesLinks(h: History, depths: map<Id, nat>, c: Id, d: nat)
    requires c in h && d < Room(h, depths, c)
    ensures LinksToFollow(h, depths[c := d]) + |ParentIds(h, c)| <= LinksToFollow(h, depths)
  {
    var f, g := (x: Id) => FollowUps(h, depths[c := d], x), (x: Id) => FollowUps(h, depths, x);
    SumOverSplit(h.Keys, f, c);
    SumOverSplit(h.Keys, g, c);
    SumOverSame(h.Keys - {c}, f, g);
    NoteFollowUps(h, depths, c, d);
  }

  lemma NoteFollowUps(h: History, depths: map<Id, nat>, c: Id, d: nat)
    requires d < Room(h, depths, c)
    ensures FollowUps(h, depths[c := d], c) + |ParentIds(h, c)| <= FollowUps(h, depths, c)
  {
    FewerTimes(d, Room(h, depths, c), |ParentIds(h, c)|);
  }

  lemma RoundUsesOne(h: History, a: Id, rank: Id -> nat, s: Search, next: Search)
    requires IsAcyclic(h, rank) && IsSearch(h, a, s) && IsRound(h, s, next)
    ensures RoundsLeft(h, next) < RoundsLeft(h, s)
  {
    TopIsThere(h, a, s);
    var (c, d) := s.stack[|s.stack| - 1];
    WaysAreShort(h, rank, a, c, d);
    if !(c in s.depths && s.depths[c] <= d) {
      NoteUsesOne(h, s, next);
    }
  }

  lemma NoteUsesOne(h: History, s: Search, next: Search)
    requires IsRound(h, s, next)
    requires var (c, d) := s.stack[|s.stack| - 1]; c in h && d < Room(h, s.depths, c)
    ensures RoundsLeft(h, next) < RoundsLeft(h, s)
  {
    var (c, d) := s.stack[|s.stack| - 1];
    NoteUsesLinks(h, s.depths, c, d);
    PushedLength(h, s.stack[..|s.stack| - 1], ParentIds(h, c), d + 1);
  }

  /** There are never more rounds than one more than commits times parent links. */
  lemma {:induction false} RoundsBounded(h: History, a: Id, rank: Id -> nat, n: nat, s: Search)
    requires IsAcyclic(h, rank) && a in h && IsAfterRounds(h, Start(a), n, s)
    ensures IsSearch(h, a, s) && n + RoundsLeft(h, s) <= MostRounds(h)
    decreases n
  {
    if n == 0 {
      StartIsSearch(h, a);
      StartWithinMost(h, a);
    } else {
      var before: Search :| IsAfterRounds(h, Start(a), n - 1, before) && IsRound(h, before, s);
      RoundsBounded(h, a, rank, n - 1, before);
      RoundKeepsSearch(h, a, before, s);
      RoundUsesOne(h, a, rank, before, s);
    }
  }

  /**
   All ancestors of a commit with their distances. A commit met again on a shorter way is
   looked at again; in the end every distance is the shortest, within one round more than
   commits times parent links.
   */
  method ListFromWithDepth(h: History, commit: Id, ghost rank: Id -> nat) returns (depths: map<Id, nat>)
    requires IsAcyclic(h, rank)
    ensures AreDepths(h, commit, depths)
    ensures commit in h ==>
              exists n: nat :: n <= MostRounds(h) && IsAfterRounds(h, Start(commit), n, Search(depths, []))
  {
    depths := map[];
    if commit !in h {
      NothingReached(h, commit);
      return;
    }
    var stack: seq<Entry> := [(commit, 0)];
    ghost var n: nat := 0;
    while stack != []
      invariant IsAfterRounds(h, Start(commit), n, Search(depths, stack))
      decreases MostRounds(h) - n
    {
      ghost var s := Search(depths, stack);
      CanGoOn(h, commit, rank, n, s);
      depths, stack := LookAtNext(h, depths, stack);
      OneMoreRound(h, Start(commit), n, s, Search(depths, stack));
      n := n + 1;
    }
    AllFound(h, commit, rank, n, Search(depths, stack));
  }

  lemma CanGoOn(h: History, a: Id, rank: Id -> nat, n: nat, s: Search)
    requires IsAcyclic(h, rank) && a in h && IsAfterRounds(h, Start(a), n, s) && s.stack != []
    ensures n < MostRounds(h) && s.stack[|s.stack| - 1].0 in h
  {
    RoundsBounded(h, a, rank, n, s);
    TopIsThere(h, a, s);
  }

  lemma OneMoreRound(h: History, first: Search, n: nat, s: Search, next: Search)
    requires IsAfterRounds(h, first, n, s) && IsRound(h, s, next)
    ensures IsAfterRounds(h, first, n + 1, next)
  {
  }

  lemma AllFound(h: History, a: Id, rank: Id -> nat, n: nat, s: Search)
    requires IsAcyclic(h, rank) && a in h && IsAfterRounds(h, Start(a), n, s) && s.stack == []
    ensures n <= MostRounds(h) && AreDepths(h, a, s.depths)
  {
    RoundsBounded(h, a, rank, n, s);
    EmptyStackMeansDepths(h, a, s.depths);
  }

  /** The body of the loop. */
  method LookAtNext(h: History, depths: map<Id, nat>, stack: seq<Entry>)
    returns (depths': map<Id, nat>, stack': seq<Entry>)
    requires stack != [] && stack[|stack| - 1].0 in h
    ensures IsRound(h, Search(depths, stack), Search(depths', stack'))
  {
    var (current, depth) := stack[|stack| - 1];
    depths', stack' := depths, stack[..|stack| - 1];
    if current in depths && depths[current] <= depth {
      return;
    }
    depths' := depths[current := depth];
    stack' := PushParents(h, stack', h[current], depth + 1);
  }

  lemma NothingReached(h: History, a: Id)
    requires a !in h
    ensures AreDepths(h, a, map[])
  {
    forall c, d: nat
      ensures !Reaches(h, a, c, d)
    {
      if Reaches(h, a, c, d) {
        ReachedIsThere(h, a, c, d);
      }
    }
  }

  method PushParents(h: History, stack: seq<Entry>, ids: seq<Id>, depth: nat) returns (pushed: seq<Entry>)
    ensures pushed == Pushed(h, stack, ids, depth)
  {
    pushed := stack;
    for i := 0 to |ids|
      invariant Pushed(h, pushed, ids[i..], depth) == Pushed(h, stack, ids, depth)
    {
      assert ids[i..][1..] == ids[i + 1..];
      if ids[i] in h {
        pushed := pushed + [(ids[i], depth)];
      }
    }
  }
}
