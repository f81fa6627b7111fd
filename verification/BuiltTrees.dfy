/** Which trees the builder can make: exactly the organic ones. */
module BuiltTrees {
  import opened Sums
  import opened Naming
  import opened DirTrees
  import opened Apportionment
  import opened Randomness
  import opened TreeBuilder

  ghost predicate DistinctNames(ts: seq<Tree>) {
    forall i, j :: 0 <= i < j < |ts| ==> ts[i].name != ts[j].name
  }

  /** A tree with a file in every directory, at most `room` levels below it, and no two siblings of one name. */
  ghost predicate Organic(t: Tree, room: int)
    decreases t
  {
    && t.files != []
    && (t.children != [] ==> room > 0)
    && DistinctNames(t.children)
    && forall c :: c in t.children ==> Organic(c, room - 1)
  }

  // Every built tree is organic.

  /** Whatever is drawn, no file is lost, repeated or reordered, and the tree is organic. */
  lemma {:induction false} BuiltIsOrganic(setup: Setup, files: seq<Path>, depth: int, at: Address, name: string)
    requires setup.Valid()
    ensures var t := Built(setup, files, depth, at, name);
            && t.name == name
            && Preorder(t) == files
            && if files == [] then t.children == [] else Organic(t, setup.maxDepth - depth)
    decreases |files|, 0, 0
  {
    if files != [] {
      var nHere := Clamp(setup.draws.sample(at), |files|);
      var remaining := files[nHere..];
      assert files == files[..nHere] + remaining;
      if remaining != [] && depth < setup.maxDepth {
        var sizes := ChildSizes(setup, at, |remaining|);
        assert sizes[0..] == sizes;
        BuiltChildrenAreOrganic(setup, remaining, sizes, 0, {}, depth, at);
      }
    }
  }

  /** Organic trees side by side that hold `files` between them under names not in `used`. */
  ghost predicate OrganicSiblings(ts: seq<Tree>, files: seq<Path>, used: set<string>, room: int) {
    && PreorderAll(ts) == files
    && DistinctNames(ts)
    && forall c :: c in ts ==> c.name !in used && Organic(c, room)
  }

  /** The next child, organic and built from the first files, goes before the others. */
  lemma OneMoreSibling(setup: Setup, files: seq<Path>, sizes: seq<int>, i: nat, used: set<string>, depth: int,
                       at: Address)
    requires setup.Valid() && AreSizes(sizes) && i < |sizes|
    requires SumInt(sizes[i..]) == |files| && SumInt(sizes[i + 1..]) == |files| - sizes[i] && 0 < sizes[i] <= |files|
    requires var name, room := FreshName(setup.draws.word(at, i), "", used), setup.maxDepth - depth - 1;
             var c := Built(setup, files[..sizes[i]], depth + 1, at + [i], name);
             && c.name == name && Preorder(c) == files[..sizes[i]] && Organic(c, room)
             && OrganicSiblings(BuiltChildren(setup, files[sizes[i]..], sizes, i + 1, used + {name}, depth, at),
                                files[sizes[i]..], used + {name}, room)
    ensures OrganicSiblings(BuiltChildren(setup, files, sizes, i, used, depth, at), files, used,
                            setup.maxDepth - depth - 1)
  {
    var name := FreshName(setup.draws.word(at, i), "", used);
    var c := Built(setup, files[..sizes[i]], depth + 1, at + [i], name);
    var rest := BuiltChildren(setup, files[sizes[i]..], sizes, i + 1, used + {name}, depth, at);
    assert ([c] + rest)[1..] == rest;
    assert files == files[..sizes[i]] + files[sizes[i]..];
  }

  lemma {:induction false} BuiltChildrenAreOrganic(setup: Setup, files: seq<Path>, sizes: seq<int>, i: nat,
                                                   used: set<string>, depth: int, at: Address)
    requires setup.Valid() && AreSizes(sizes) && i <= |sizes| && SumInt(sizes[i..]) == |files|
    ensures OrganicSiblings(BuiltChildren(setup, files, sizes, i, used, depth, at), files, used,
                            setup.maxDepth - depth - 1)
    decreases |files|, 1, |sizes| - i, 1
  {
    if i < |sizes| {
      NextSize(sizes, i);
      if sizes[i] == 0 {
        BuiltChildrenAreOrganic(setup, files, sizes, i + 1, used, depth, at);
      } else {
        NextChildIsOrganic(setup, files, sizes, i, used, depth, at);
      }
    }
  }

  lemma {:induction false} NextChildIsOrganic(setup: Setup, files: seq<Path>, sizes: seq<int>, i: nat,
                                              used: set<string>, depth: int, at: Address)
    requires setup.Valid() && AreSizes(sizes) && i < |sizes| && SumInt(sizes[i..]) == |files|
    requires 0 < sizes[i] <= |files| && SumInt(sizes[i + 1..]) == |files| - sizes[i]
    ensures OrganicSiblings(BuiltChildren(setup, files, sizes, i, used, depth, at), files, used,
                            setup.maxDepth - depth - 1)
    decreases |files|, 1, |sizes| - i, 0
  {
    var name := FreshName(setup.draws.word(at, i), "", used);
    BuiltIsOrganic(setup, files[..sizes[i]], depth + 1, at + [i], name);
    BuiltChildrenAreOrganic(setup, files[sizes[i]..], sizes, i + 1, used + {name}, depth, at);
    OneMoreSibling(setup, files, sizes, i, used, depth, at);
  }

  // Every directory below the root of a built tree is named after a word.

  /** The name a word gets where `used` is taken. */
  ghost predicate NamedAfterWord(name: string, used: set<string>, words: set<string>) {
    exists w :: w in words && name == FreshName(w, "", used)
  }

  function Names(ts: seq<Tree>): set<string> {
    set t | t in ts :: t.name
  }

  /** Each of these siblings is named after a word, given the names taken before it. */
  ghost predicate SiblingsNamed(ts: seq<Tree>, used: set<string>, words: set<string>) {
    forall k {:trigger NamedAfterWord(ts[k].name, used + Names(ts[..k]), words)} :: 0 <= k < |ts| ==>
      NamedAfterWord(ts[k].name, used + Names(ts[..k]), words)
  }

  ghost predicate Named(t: Tree, words: set<string>)
    decreases t
  {
    SiblingsNamed(t.children, {}, words) && forall c :: c in t.children ==> Named(c, words)
  }

  /** All words that are drawn come from the vocabulary. */
  ghost predicate FromWords(draws: Draws, words: set<string>) {
    forall at, i: nat :: draws.word(at, i) in words
  }

  ghost predicate AllNamed(ts: seq<Tree>, used: set<string>, words: set<string>) {
    SiblingsNamed(ts, used, words) && forall c :: c in ts ==> Named(c, words)
  }

  lemma SiblingsPrepend(c: Tree, rest: seq<Tree>, used: set<string>, words: set<string>)
    requires NamedAfterWord(c.name, used, words) && SiblingsNamed(rest, used + {c.name}, words)
    ensures SiblingsNamed([c] + rest, used, words)
  {
    forall k | 0 <= k < |[c] + rest|
      ensures NamedAfterWord(([c] + rest)[k].name, used + Names(([c] + rest)[..k]), words)
    {
      SiblingPrepend(c, rest, used, words, k);
    }
  }

  lemma SiblingPrepend(c: Tree, rest: seq<Tree>, used: set<string>, words: set<string>, k: nat)
    requires k <= |rest| && NamedAfterWord(c.name, used, words) && SiblingsNamed(rest, used + {c.name}, words)
    ensures NamedAfterWord(([c] + rest)[k].name, used + Names(([c] + rest)[..k]), words)
  {
    if k == 0 {
      assert used + Names(([c] + rest)[..0]) == used;
    } else {
      var before := used + {c.name} + Names(rest[..k - 1]);
      assert NamedAfterWord(rest[k - 1].name, before, words);
      NamesPrepend(c, rest, k, used);
    }
  }

  lemma NamesPrepend(c: Tree, rest: seq<Tree>, k: nat, used: set<string>)
    requires 0 < k <= |rest|
    ensures used + Names(([c] + rest)[..k]) == used + {c.name} + Names(rest[..k - 1])
  {
    assert ([c] + rest)[..k] == [c] + rest[..k - 1];
  }

  lemma NamedPrepend(c: Tree, rest: seq<Tree>, used: set<string>, words: set<string>)
    requires NamedAfterWord(c.name, used, words) && Named(c, words) && AllNamed(rest, used + {c.name}, words)
    ensures AllNamed([c] + rest, used, words)
  {
    SiblingsPrepend(c, rest, used, words);
  }

  lemma {:induction false} BuiltIsNamed(setup: Setup, words: set<string>, files: seq<Path>, depth: int, at: Address,
                                        name: string)
    requires setup.Valid() && FromWords(setup.draws, words)
    ensures Named(Built(setup, files, depth, at, name), words)
    decreases |files|, 0, 0
  {
    if files != [] {
      var nHere := Clamp(setup.draws.sample(at), |files|);
      var remaining := files[nHere..];
      if remaining != [] && depth < setup.maxDepth {
        var sizes := ChildSizes(setup, at, |remaining|);
        assert sizes[0..] == sizes;
        BuiltChildrenAreNamed(setup, words, remaining, sizes, 0, {}, depth, at);
      }
    }
  }

  lemma {:induction false} BuiltChildrenAreNamed(setup: Setup, words: set<string>, files: seq<Path>, sizes: seq<int>,
                                                 i: nat, used: set<string>, depth: int, at: Address)
    requires setup.Valid() && FromWords(setup.draws, words)
    requires AreSizes(sizes) && i <= |sizes| && SumInt(sizes[i..]) == |files|
    ensures AllNamed(BuiltChildren(setup, files, sizes, i, used, depth, at), used, words)
    decreases |files|, 1, |sizes| - i, 1
  {
    if i < |sizes| {
      NextSize(sizes, i);
      if sizes[i] == 0 {
        BuiltChildrenAreNamed(setup, words, files, sizes, i + 1, used, depth, at);
      } else {
        NextChildIsNamed(setup, words, files, sizes, i, used, depth, at);
      }
    }
  }

  lemma {:induction false} NextChildIsNamed(setup: Setup, words: set<string>, files: seq<Path>, sizes: seq<int>,
                                            i: nat, used: set<string>, depth: int, at: Address)
    requires setup.Valid() && FromWords(setup.draws, words)
    requires AreSizes(sizes) && i < |sizes| && SumInt(sizes[i..]) == |files|
    requires 0 < sizes[i] <= |files| && SumInt(sizes[i + 1..]) == |files| - sizes[i]
    ensures AllNamed(BuiltChildren(setup, files, sizes, i, used, depth, at), used, words)
    decreases |files|, 1, |sizes| - i, 0
  {
    var word := setup.draws.word(at, i);
    var name := FreshName(word, "", used);
    assert word in words;
    BuiltIsOrganic(setup, files[..sizes[i]], depth + 1, at + [i], name);
    BuiltIsNamed(setup, words, files[..sizes[i]], depth + 1, at + [i], name);
    BuiltChildrenAreNamed(setup, words, files[sizes[i]..], sizes, i + 1, used + {name}, depth, at);
    NamedPrepend(Built(setup, files[..sizes[i]], depth + 1, at + [i], name),
                 BuiltChildren(setup, files[sizes[i]..], sizes, i + 1, used + {name}, depth, at), used, words);
  }

  /** An organic tree is no deeper than its room, and has no more directories than files. */
  lemma {:induction false} OrganicBounds(t: Tree, room: int)
    requires Organic(t, room)
    ensures Height(t) <= if room > 0 then room else 0
    ensures NodeCount(t) <= |Preorder(t)|
    decreases t, 0
  {
    if t.children != [] {
      OrganicBoundsAll(t.children, room - 1);
    }
  }

  lemma {:induction false} OrganicBoundsAll(ts: seq<Tree>, room: int)
    requires room >= 0 && forall c :: c in ts ==> Organic(c, room)
    ensures HeightAll(ts) <= room
    ensures |ts| <= NodeCountAll(ts) <= |PreorderAll(ts)|
    decreases ts, 1
  {
    if ts != [] {
      OrganicBounds(ts[0], room);
      OrganicBoundsAll(ts[1..], room);
    }
  }

  /** The address of a directory of the tree. */
  ghost predicate IsDirectory(t: Tree, at: Address) {
    at == [] || (at[0] < |t.children| && IsDirectory(t.children[at[0]], at[1..]))
  }

  /** No directory lies deeper than the height. */
  lemma {:induction false} DirectoriesWithinHeight(t: Tree, at: Address)
    requires IsDirectory(t, at)
    ensures |at| <= Height(t)
    decreases at
  {
    if at != [] {
      DirectoriesWithinHeight(t.children[at[0]], at[1..]);
      ChildHeight(t.children, at[0]);
    }
  }

  lemma {:induction false} ChildHeight(ts: seq<Tree>, i: nat)
    requires i < |ts|
    ensures Height(ts[i]) <= HeightAll(ts)
  {
    if i > 0 {
      ChildHeight(ts[1..], i - 1);
    }
  }

  /** Any directories there are, each named by its address, are no more than the nodes. */
  lemma {:induction false} DirectoriesCounted(t: Tree, ats: set<Address>)
    requires forall at :: at in ats ==> IsDirectory(t, at)
    ensures |ats| <= NodeCount(t)
    decreases t, 0
  {
    var below := ats - {[]};
    forall at | at in below
      ensures at != [] && at[0] < |t.children| && IsDirectory(t.children[at[0]], at[1..])
    {
    }
    DirectoriesCountedFrom(t.children, 0, below);
    assert t.children[0..] == t.children;
    assert ats <= below + {[]};
    SubsetSize(ats, below + {[]});
  }

  lemma {:induction false} SubsetSize<T>(a: set<T>, b: set<T>)
    requires a <= b
    ensures |a| <= |b|
  {
    assert b == a + (b - a);
  }

  lemma {:induction false} DirectoriesCountedFrom(ts: seq<Tree>, i: nat, ats: set<Address>)
    requires i <= |ts|
    requires forall at :: at in ats ==> at != [] && i <= at[0] < |ts| && IsDirectory(ts[at[0]], at[1..])
    ensures |ats| <= NodeCountAll(ts[i..])
    decreases ts[i..], 1
  {
    if i == |ts| {
      assert ats == {};
    } else {
      var first := set at | at in ats && at[0] == i :: at[1..];
      var mine := set at | at in ats && at[0] == i;
      assert ts[i..][1..] == ts[i + 1..] && ts[i..][0] == ts[i];
      DirectoriesCounted(ts[i], first);
      DirectoriesCountedFrom(ts, i + 1, ats - mine);
      TailsDistinct(mine, i, first);
      assert ats == mine + (ats - mine);
    }
  }

  lemma {:induction false} TailsDistinct(ats: set<Address>, i: nat, tails: set<Address>)
    requires forall at :: at in ats ==> at != [] && at[0] == i && at[1..] in tails
    ensures |ats| <= |tails|
    decreases ats
  {
    if ats != {} {
      var at :| at in ats;
      forall other | other in ats - {at}
        ensures other[1..] in tails - {at[1..]}
      {
        assert other == [i] + other[1..] && at == [i] + at[1..];
      }
      TailsDistinct(ats - {at}, i, tails - {at[1..]});
    }
  }

  /** An organic tree has no directory deeper than its room, and no more directories than files. */
  lemma OrganicDirectories(t: Tree, room: int, ats: set<Address>)
    requires Organic(t, room) && forall at :: at in ats ==> IsDirectory(t, at)
    ensures |ats| <= |Preorder(t)|
    ensures forall at :: at in ats ==> |at| <= if room > 0 then room else 0
  {
    OrganicBounds(t, room);
    DirectoriesCounted(t, ats);
    forall at | at in ats
      ensures |at| <= Height(t)
    {
      DirectoriesWithinHeight(t, at);
    }
  }

  // Every organic tree can be built: the draws that make it.

  /** The directory at an address; an empty one where there is none. */
  function TreeAt(t: Tree, at: Address): Tree {
    if at == [] then t
    else if at[0] < |t.children| then TreeAt(t.children[at[0]], at[1..])
    else Node("", [], [])
  }

  /** `n` times `x`, by addition. */
  function Times(x: real, n: nat): real {
    if n == 0 then 0.0 else x + Times(x, n - 1)
  }

  lemma {:induction false} TimesIsProduct(x: real, n: nat)
    ensures Times(x, n) == x * n as real
  {
    if n > 0 {
      TimesIsProduct(x, n - 1);
      assert x * (n - 1) as real + x == x * n as real;
    }
  }

  lemma {:induction false} TimesAdd(x: real, y: real, n: nat)
    ensures Times(x + y, n) == Times(x, n) + Times(y, n)
  {
    if n > 0 {
      TimesAdd(x, y, n - 1);
    }
  }

  /** `n` equal parts of any amount. */
  lemma EqualParts(amount: nat, n: nat) returns (share: real)
    requires n > 0
    ensures share >= 0.0 && Times(share, n) == amount as real
  {
    share := amount as real / n as real;
    TimesIsProduct(share, n);
  }

  lemma TimesOne(x: real, n: nat)
    requires n > 0
    ensures Times(x, n) == n as real <==> x == 1.0
  {
    TimesIsProduct(x, n);
    assert (x - 1.0) * n as real == x * n as real - n as real;
  }

  /** Times `total`, the shares are the numbers of files of the children. */
  ghost predicate Fits(shares: seq<real>, ts: seq<Tree>, total: nat) {
    && |shares| == |ts|
    && forall i :: 0 <= i < |ts| ==> shares[i] >= 0.0 && Times(shares[i], total) == |Preorder(ts[i])| as real
  }

  lemma {:induction false} FitExists(ts: seq<Tree>, total: nat)
    requires total > 0
    ensures exists shares :: Fits(shares, ts, total)
  {
    if ts == [] {
      assert Fits([], ts, total);
    } else {
      var first := EqualParts(|Preorder(ts[0])|, total);
      FitExists(ts[1..], total);
      var rest :| Fits(rest, ts[1..], total);
      assert Fits([first] + rest, ts, total);
    }
  }

  lemma {:induction false} FitSum(shares: seq<real>, ts: seq<Tree>, total: nat)
    requires Fits(shares, ts, total)
    ensures Times(SumReal(shares), total) == |PreorderAll(ts)| as real
  {
    if ts == [] {
      TimesIsProduct(0.0, total);
    } else {
      FitSum(shares[1..], ts[1..], total);
      TimesAdd(shares[0], SumReal(shares[1..]), total);
    }
  }

  /** Shares that give each child exactly its files. */
  ghost function FittingShares(ts: seq<Tree>): (shares: seq<real>)
    requires PreorderAll(ts) != []
    ensures Fits(shares, ts, |PreorderAll(ts)|) && AreShares(shares, |ts|)
  {
    var total := |PreorderAll(ts)|;
    FitExists(ts, total);
    var shares :| Fits(shares, ts, total);
    FitSum(shares, ts, total);
    TimesOne(SumReal(shares), total);
    shares
  }

  /** Everything to the first of `n` children. */
  function FirstTakesAll(n: nat): seq<real> {
    if n == 0 then [] else [1.0] + seq(n - 1, _ => 0.0)
  }

  ghost function SharesOf(t: Tree, n: nat): seq<real> {
    if n == |t.children| && PreorderAll(t.children) != [] then FittingShares(t.children) else FirstTakesAll(n)
  }

  /** A word that the name of the `i`-th sibling can have come from. */
  ghost function WordFor(ts: seq<Tree>, i: nat, words: set<string>): (word: string)
    requires words != {}
    ensures word in words
    ensures i < |ts| && NamedAfterWord(ts[i].name, Names(ts[..i]), words) ==>
              ts[i].name == FreshName(word, "", Names(ts[..i]))
  {
    if i < |ts| && NamedAfterWord(ts[i].name, Names(ts[..i]), words) then
      var w :| w in words && ts[i].name == FreshName(w, "", Names(ts[..i])); w
    else
      var w :| w in words; w
  }

  ghost function DrawsFor(t: Tree, words: set<string>): Draws
    requires words != {}
  {
    Draws(
      (at: Address) => |TreeAt(t, at).files|,
      (at: Address) => if TreeAt(t, at).children == [] then 1 else |TreeAt(t, at).children|,
      (at: Address, n: nat) => SharesOf(TreeAt(t, at), n),
      (at: Address, i: nat) => WordFor(TreeAt(t, at).children, i, words))
  }

  lemma {:induction false} ZerosSum(s: seq<real>)
    requires forall i :: 0 <= i < |s| ==> s[i] == 0.0
    ensures SumReal(s) == 0.0
  {
    if s != [] {
      ZerosSum(s[1..]);
    }
  }

  lemma SharesOfAreShares(t: Tree, n: nat)
    requires n > 0
    ensures AreShares(SharesOf(t, n), n)
  {
    if !(n == |t.children| && PreorderAll(t.children) != []) {
      var shares := FirstTakesAll(n);
      assert shares[1..] == seq(n - 1, _ => 0.0);
      ZerosSum(shares[1..]);
    }
  }

  lemma DrawsForInRange(t: Tree, words: set<string>)
    requires words != {}
    ensures InRange(DrawsFor(t, words)) && FromWords(DrawsFor(t, words), words)
  {
    forall at, n: nat | n > 0
      ensures AreShares(DrawsFor(t, words).shares(at, n), n)
    {
      SharesOfAreShares(TreeAt(t, at), n);
    }
  }

  lemma {:induction false} TreeAtChild(t: Tree, at: Address, i: nat)
    requires i < |TreeAt(t, at).children|
    ensures TreeAt(t, at + [i]) == TreeAt(t, at).children[i]
  {
    if at == [] {
      assert at + [i] == [i] && [i][1..] == [];
    } else {
      assert (at + [i])[1..] == at[1..] + [i];
      TreeAtChild(t.children[at[0]], at[1..], i);
    }
  }

  /** With those draws, the exact share of every child is the number of files it has. */
  lemma ShareGivesSize(whole: Tree, at: Address, i: nat, share: real)
    requires var ts := TreeAt(whole, at).children;
             && i < |ts| <= |PreorderAll(ts)|
             && share == if |ts| == 1 then 1.0 else FittingShares(ts)[i]
    ensures var ts := TreeAt(whole, at).children; Times(share, |PreorderAll(ts)|) == |Preorder(ts[i])| as real
  {
    var ts := TreeAt(whole, at).children;
    if |ts| == 1 {
      OnlyChild(ts);
      TimesOne(1.0, |PreorderAll(ts)|);
    }
  }

  lemma OnlyChild(ts: seq<Tree>)
    requires |ts| == 1
    ensures PreorderAll(ts) == Preorder(ts[0])
  {
    assert ts[1..] == [];
    assert PreorderAll(ts) == Preorder(ts[0]) + PreorderAll([]);
  }

  lemma QuotaAt(setup: Setup, at: Address, n: nat, count: nat, i: nat) returns (share: real)
    requires setup.Valid() && i < count <= n && setup.draws.branching(at) == count
    ensures |ChildQuotas(setup, at, n)| == count == |setup.draws.shares(at, count)|
    ensures share == if count == 1 then 1.0 else setup.draws.shares(at, count)[i]
    ensures ChildQuotas(setup, at, n)[i] == Times(share, n)
  {
    assert Clamp(setup.draws.branching(at), n) == count;
    share := if count == 1 then 1.0 else setup.draws.shares(at, count)[i];
    TimesIsProduct(share, n);
  }

  lemma SizesRecovered(setup: Setup, whole: Tree, words: set<string>, at: Address)
    requires setup.Valid() && words != {} && setup.draws == DrawsFor(whole, words)
    requires var ts := TreeAt(whole, at).children; 0 < |ts| <= |PreorderAll(ts)|
    ensures var ts := TreeAt(whole, at).children; ChildSizes(setup, at, |PreorderAll(ts)|) == Sizes(ts)
  {
    var ts := TreeAt(whole, at).children;
    var n := |PreorderAll(ts)|;
    var quotas, sizes := ChildQuotas(setup, at, n), ChildSizes(setup, at, n);
    var _ := QuotaAt(setup, at, n, |ts|, 0);
    SplitIsLargestRemainder(quotas, n, setup.argsort);
    forall i | 0 <= i < |ts|
      ensures sizes[i] == |Preorder(ts[i])|
    {
      QuotaRecovered(setup, whole, words, at, i);
      WholeQuotaKept(quotas, n, sizes, i);
    }
  }

  lemma QuotaRecovered(setup: Setup, whole: Tree, words: set<string>, at: Address, i: nat)
    requires setup.Valid() && words != {} && setup.draws == DrawsFor(whole, words)
    requires var ts := TreeAt(whole, at).children; i < |ts| <= |PreorderAll(ts)|
    ensures var ts := TreeAt(whole, at).children;
            var quotas := ChildQuotas(setup, at, |PreorderAll(ts)|);
            |quotas| == |ts| && quotas[i] == |Preorder(ts[i])| as real
  {
    var ts := TreeAt(whole, at).children;
    var share := QuotaAt(setup, at, |PreorderAll(ts)|, |ts|, i);
    assert setup.draws.shares(at, |ts|) == FittingShares(ts);
    ShareGivesSize(whole, at, i, share);
  }

  lemma OrganicHasFiles(t: Tree, room: int)
    requires Organic(t, room)
    ensures Preorder(t) != [] && |t.children| <= |PreorderAll(t.children)|
  {
    if t.children != [] {
      OrganicBoundsAll(t.children, room - 1);
    }
  }

  lemma BuildsNext(setup: Setup, c: Tree, rest: seq<Tree>, sizes: seq<int>, i: nat, used: set<string>, depth: int,
                   at: Address)
    requires setup.Valid() && AreSizes(sizes) && i < |sizes|
    requires sizes[i] == |Preorder(c)| > 0 && SumInt(sizes[i + 1..]) == |PreorderAll(rest)|
    requires FreshName(setup.draws.word(at, i), "", used) == c.name
    requires Built(setup, Preorder(c), depth + 1, at + [i], c.name) == c
    requires BuiltChildren(setup, PreorderAll(rest), sizes, i + 1, used + {c.name}, depth, at) == rest
    ensures PreorderAll([c] + rest) == Preorder(c) + PreorderAll(rest)
    ensures SumInt(sizes[i..]) == |PreorderAll([c] + rest)|
    ensures BuiltChildren(setup, PreorderAll([c] + rest), sizes, i, used, depth, at) == [c] + rest
  {
    NextSize(sizes, i);
    assert ([c] + rest)[1..] == rest;
    var files := Preorder(c) + PreorderAll(rest);
    assert files[..sizes[i]] == Preorder(c) && files[sizes[i]..] == PreorderAll(rest);
  }

  lemma HeadAndRest<T>(s: seq<T>, i: nat)
    requires i < |s|
    ensures s[i..] == [s[i]] + s[i + 1..]
  {
  }

  lemma OrganicChild(t: Tree, room: int, i: nat)
    requires Organic(t, room) && i < |t.children|
    ensures Organic(t.children[i], room - 1) && Preorder(t.children[i]) != []
  {
    assert t.children[i] in t.children;
    OrganicHasFiles(t.children[i], room - 1);
  }

  lemma DrawnForChild(whole: Tree, words: set<string>, at: Address, i: nat)
    requires words != {} && i < |TreeAt(whole, at).children| && SiblingsNamed(TreeAt(whole, at).children, {}, words)
    ensures var ts := TreeAt(whole, at).children;
            FreshName(DrawsFor(whole, words).word(at, i), "", Names(ts[..i])) == ts[i].name
    ensures TreeAt(whole, at + [i]) == TreeAt(whole, at).children[i]
  {
    TreeAtChild(whole, at, i);
    var ts := TreeAt(whole, at).children;
    assert {} + Names(ts[..i]) == Names(ts[..i]);
    assert NamedAfterWord(ts[i].name, {} + Names(ts[..i]), words);
  }

  /** The `k`-th child gets its own name and comes out as it is in `t`. */
  ghost predicate ChildBuilds(setup: Setup, t: Tree, at: Address, depth: int, k: nat)
    requires setup.Valid() && k < |t.children|
  {
    var c := t.children[k];
    && Preorder(c) != []
    && FreshName(setup.draws.word(at, k), "", Names(t.children[..k])) == c.name
    && Built(setup, Preorder(c), depth + 1, at + [k], c.name) == c
  }

  /** The children from the `i`-th on come out as they are in `t`. */
  ghost predicate RestBuilt(setup: Setup, t: Tree, at: Address, depth: int, i: nat)
    requires setup.Valid() && i <= |t.children|
  {
    var ts, sizes := t.children, Sizes(t.children);
    && SumInt(sizes[i..]) == |PreorderAll(ts[i..])|
    && BuiltChildren(setup, PreorderAll(ts[i..]), sizes, i, Names(ts[..i]), depth, at) == ts[i..]
  }

  lemma RestBuiltStep(setup: Setup, t: Tree, at: Address, depth: int, i: nat)
    requires setup.Valid() && i < |t.children|
    requires ChildBuilds(setup, t, at, depth, i)
    requires RestBuilt(setup, t, at, depth, i + 1)
    ensures RestBuilt(setup, t, at, depth, i)
  {
    var ts := t.children;
    assert ts[..i + 1] == ts[..i] + [ts[i]];
    assert Names(ts[..i + 1]) == Names(ts[..i]) + {ts[i].name};
    BuildsNext(setup, ts[i], ts[i + 1..], Sizes(ts), i, Names(ts[..i]), depth, at);
    HeadAndRest(ts, i);
  }

  lemma {:induction false} RestBuilds(setup: Setup, t: Tree, at: Address, depth: int, i: nat)
    requires setup.Valid() && i <= |t.children|
    requires forall k :: 0 <= k < |t.children| ==> ChildBuilds(setup, t, at, depth, k)
    ensures RestBuilt(setup, t, at, depth, i)
    decreases |t.children| - i
  {
    if i == |t.children| {
      assert t.children[i..] == [] && Sizes(t.children)[i..] == [];
    } else {
      RestBuilds(setup, t, at, depth, i + 1);
      RestBuiltStep(setup, t, at, depth, i);
    }
  }

  /** A directory whose own files, shares and children come out right comes out right. */
  lemma NodeBuilds(setup: Setup, t: Tree, at: Address, depth: int)
    requires setup.Valid() && setup.draws.sample(at) == |t.files| > 0
    requires t.children == [] || (
      && depth < setup.maxDepth
      && PreorderAll(t.children) != []
      && ChildSizes(setup, at, |PreorderAll(t.children)|) == Sizes(t.children)
      && RestBuilt(setup, t, at, depth, 0))
    ensures Built(setup, Preorder(t), depth, at, t.name) == t
  {
    var files := Preorder(t);
    assert files[..|t.files|] == t.files && files[|t.files|..] == PreorderAll(t.children);
    if t.children == [] {
      assert files == t.files;
    } else {
      var sizes := Sizes(t.children);
      assert sizes[0..] == sizes && t.children[0..] == t.children && Names(t.children[..0]) == {};
    }
  }

  lemma NamedChild(t: Tree, words: set<string>, i: nat)
    requires Named(t, words) && i < |t.children|
    ensures SiblingsNamed(t.children, {}, words) && Named(t.children[i], words)
  {
    assert t.children[i] in t.children;
  }

  /** A directory with children whose children all come out right comes out right. */
  lemma BranchBuilds(setup: Setup, whole: Tree, words: set<string>, at: Address, depth: int, t: Tree)
    requires setup.Valid() && words != {} && setup.draws == DrawsFor(whole, words) && TreeAt(whole, at) == t
    requires Organic(t, setup.maxDepth - depth)
    requires forall k :: 0 <= k < |t.children| ==> ChildBuilds(setup, t, at, depth, k)
    ensures Built(setup, Preorder(t), depth, at, t.name) == t
  {
    if t.children != [] {
      OrganicHasFiles(t, setup.maxDepth - depth);
      SizesRecovered(setup, whole, words, at);
      RestBuilds(setup, t, at, depth, 0);
    }
    NodeBuilds(setup, t, at, depth);
  }

  /** The draws made for a tree build that very tree from its files. */
  lemma {:induction false} BuildsOrganic(setup: Setup, whole: Tree, words: set<string>, at: Address, depth: int,
                                         t: Tree)
    requires setup.Valid() && words != {} && setup.draws == DrawsFor(whole, words) && TreeAt(whole, at) == t
    requires Organic(t, setup.maxDepth - depth) && Named(t, words)
    ensures Built(setup, Preorder(t), depth, at, t.name) == t
    decreases t, 1
  {
    forall k | 0 <= k < |t.children|
      ensures ChildBuilds(setup, t, at, depth, k)
    {
      OrganicChild(t, setup.maxDepth - depth, k);
      NamedChild(t, words, k);
      BuildsOrganicChild(setup, whole, words, at, depth, t, k);
    }
    BranchBuilds(setup, whole, words, at, depth, t);
  }

  lemma {:induction false} BuildsOrganicChild(setup: Setup, whole: Tree, words: set<string>, at: Address, depth: int,
                                              t: Tree, k: nat)
    requires setup.Valid() && words != {} && setup.draws == DrawsFor(whole, words) && TreeAt(whole, at) == t
    requires k < |t.children| && SiblingsNamed(t.children, {}, words)
    requires var c := t.children[k]; Preorder(c) != [] && Organic(c, setup.maxDepth - depth - 1) && Named(c, words)
    ensures ChildBuilds(setup, t, at, depth, k)
    decreases t, 0
  {
    DrawnForChild(whole, words, at, k);
    BuildsOrganic(setup, whole, words, at + [k], depth + 1, t.children[k]);
  }

  /**
   The builder's range: over all draws, the trees it can make of some files under a name are
   exactly the organic trees of that name that hold those files in preorder and whose
   directories are named after words of the vocabulary.
   */
  lemma BuildsExactlyOrganic(files: seq<Path>, name: string, maxDepth: int, argsort: seq<real> -> seq<nat>,
                             words: set<string>, t: Tree)
    requires files != [] && IsArgsort(argsort) && words != {}
    ensures (exists draws :: InRange(draws) && FromWords(draws, words)
                             && Built(Setup(maxDepth, draws, argsort), files, 0, [], name) == t)
       <==> t.name == name && Preorder(t) == files && Organic(t, maxDepth) && Named(t, words)
  {
    forall draws | InRange(draws) && FromWords(draws, words)
                   && Built(Setup(maxDepth, draws, argsort), files, 0, [], name) == t
      ensures t.name == name && Preorder(t) == files && Organic(t, maxDepth) && Named(t, words)
    {
      BuiltIsOrganic(Setup(maxDepth, draws, argsort), files, 0, [], name);
      BuiltIsNamed(Setup(maxDepth, draws, argsort), words, files, 0, [], name);
    }
    if t.name == name && Preorder(t) == files && Organic(t, maxDepth) && Named(t, words) {
      OrganicCanBeBuilt(maxDepth, argsort, words, t);
    }
  }

  lemma OrganicCanBeBuilt(maxDepth: int, argsort: seq<real> -> seq<nat>, words: set<string>, t: Tree)
    requires IsArgsort(argsort) && words != {} && Organic(t, maxDepth) && Named(t, words)
    ensures InRange(DrawsFor(t, words)) && FromWords(DrawsFor(t, words), words)
    ensures Built(Setup(maxDepth, DrawsFor(t, words), argsort), Preorder(t), 0, [], t.name) == t
  {
    DrawsForInRange(t, words);
    BuildsOrganic(Setup(maxDepth, DrawsFor(t, words), argsort), t, words, [], 0, t);
  }
}
