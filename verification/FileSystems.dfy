/** A file system as the reorganiser uses it: move files, make directories, remove empty ones. */
module FileSystems {
  import opened Common
  import opened DirTrees
  import opened Moves

  type Content = string
  type Files = map<Path, Content>

  datatype Failure = SourceMissing | DestinationExists | NoDirectory

  /** Files and directories are different things, lie in a directory, and are never named "..". */
  ghost predicate WellFormed(files: Files, dirs: set<Path>) {
    && files.Keys !! dirs
    && [] in dirs
    && (forall p {:trigger Parent(p)} :: p in files || p in dirs ==> Parent(p) in dirs)
    && (forall p {:trigger BaseName(p)} :: p in files || p in dirs ==> BaseName(p) != "..")
  }

  lemma {:induction false} PrefixesAreDirs(files: Files, dirs: set<Path>, p: Path, d: Path)
    requires WellFormed(files, dirs)
    requires p in files || p in dirs
    requires d < p
    ensures d in dirs
    decreases |p|
  {
    if d != Parent(p) {
      PrefixesAreDirs(files, dirs, Parent(p), d);
    }
  }

  /** The place on disk a path leads to: ".." goes back up, and stays at the root. */
  function Resolve(p: Path): Path {
    if p == [] then []
    else if BaseName(p) == ".." then Parent(Resolve(Parent(p)))
    else Resolve(Parent(p)) + [BaseName(p)]
  }

  /** A path without ".." leads to the place it spells. */
  lemma {:induction false} PlainPathsResolve(p: Path)
    requires forall k :: 0 <= k < |p| ==> p[k] != ".."
    ensures Resolve(p) == p
  {
    if p != [] {
      PlainPathsResolve(Parent(p));
      assert p == Parent(p) + [BaseName(p)];
    }
  }

  /** No place on disk has ".." in it. */
  lemma {:induction false} ResolvedIsPlain(p: Path)
    ensures forall k :: 0 <= k < |Resolve(p)| ==> Resolve(p)[k] != ".."
  {
    if p != [] {
      ResolvedIsPlain(Parent(p));
    }
  }

  lemma {:induction false} EntriesResolve(files: Files, dirs: set<Path>, p: Path)
    requires WellFormed(files, dirs) && (p in files || p in dirs)
    ensures Resolve(p) == p
    decreases |p|
  {
    if p != [] {
      EntriesResolve(files, dirs, Parent(p));
      assert p == Parent(p) + [BaseName(p)];
    }
  }

  /**
   One move between places on disk. A target that is a directory takes the file inside it,
   where an entry of that name is an error; a target that is a file is replaced.
   */
  function MoveOne(files: Files, dirs: set<Path>, m: Move): (Files, Option<Failure>) {
    if m.source !in files then (files, Some(SourceMissing))
    else if m.target in dirs then
      var inside := m.target + [BaseName(m.source)];
      if inside in files || inside in dirs then (files, Some(DestinationExists))
      else ((files - {m.source})[inside := files[m.source]], None)
    else if Parent(m.target) !in dirs then (files, Some(NoDirectory))
    else ((files - {m.source})[m.target := files[m.source]], None)
  }

  /** All moves in order, up to the first that fails. */
  function Run(files: Files, dirs: set<Path>, moves: seq<Move>): (Files, Option<Failure>)
    decreases |moves|
  {
    if moves == [] then (files, None)
    else
      var (files', failure) := MoveOne(files, dirs, moves[0]);
      if failure != None then (files', failure) else Run(files', dirs, moves[1..])
  }

  /**
   When a move succeeds: the file is there, and the target is either a directory without an
   entry of the file's name, or no directory but in one. Otherwise nothing changes.
   */
  lemma MoveSucceedsExactly(files: Files, dirs: set<Path>, m: Move)
    ensures var (after, failure) := MoveOne(files, dirs, m);
            var inside := m.target + [BaseName(m.source)];
            && (failure == None
                <==> && m.source in files
                     && if m.target in dirs then inside !in files && inside !in dirs else Parent(m.target) in dirs)
            && (failure != None ==> after == files)
            && (failure == Some(SourceMissing) <==> m.source !in files)
            && (failure == Some(NoDirectory) <==> m.source in files && m.target !in dirs && Parent(m.target) !in dirs)
  {
  }

  /** A move that succeeds takes the file to its one landing place; every other file stays as it is. */
  lemma MoveLands(files: Files, dirs: set<Path>, m: Move)
    requires MoveOne(files, dirs, m).1 == None
    ensures var after := MoveOne(files, dirs, m).0;
            var place := if m.target in dirs then m.target + [BaseName(m.source)] else m.target;
            && m.source in files && place in after && after[place] == files[m.source]
            && (m.source != place ==> m.source !in after)
            && forall p :: p != place && p != m.source ==>
                 (p in after <==> p in files) && (p in files ==> after[p] == files[p])
  {
  }

  /** Each move of a run is made on what the ones before it left. */
  lemma {:induction false} RunStep(files: Files, dirs: set<Path>, moves: seq<Move>, k: nat)
    requires k < |moves| && Run(files, dirs, moves[..k]).1 == None
    ensures Run(files, dirs, moves[..k + 1]) == MoveOne(Run(files, dirs, moves[..k]).0, dirs, moves[k])
    decreases k
  {
    var (files', failure) := MoveOne(files, dirs, moves[0]);
    assert moves[..k + 1][1..] == moves[1..][..k];
    if k == 0 {
      assert Run(files', dirs, []) == (files', None);
    } else if failure == None {
      assert moves[..k][1..] == moves[1..][..k - 1];
      RunStep(files', dirs, moves[1..], k - 1);
    }
  }

  lemma {:induction false} PrefixSucceeds(files: Files, dirs: set<Path>, moves: seq<Move>, k: nat)
    requires k <= |moves| && Run(files, dirs, moves).1 == None
    ensures Run(files, dirs, moves[..k]).1 == None
    decreases k
  {
    if k > 0 {
      assert moves[..k][1..] == moves[1..][..k - 1];
      PrefixSucceeds(MoveOne(files, dirs, moves[0]).0, dirs, moves[1..], k - 1);
    }
  }

  /** Each of the moves succeeds on what the moves before it left. */
  ghost predicate EachSucceeds(files: Files, dirs: set<Path>, moves: seq<Move>) {
    forall k :: 0 <= k < |moves| ==> MoveOne(Run(files, dirs, moves[..k]).0, dirs, moves[k]).1 == None
  }

  /** A run succeeds if and only if each of its moves does, on what the moves before it left. */
  lemma RunSucceedsExactly(files: Files, dirs: set<Path>, moves: seq<Move>)
    ensures Run(files, dirs, moves).1 == None <==> EachSucceeds(files, dirs, moves)
  {
    if Run(files, dirs, moves).1 == None {
      forall k | 0 <= k < |moves|
        ensures MoveOne(Run(files, dirs, moves[..k]).0, dirs, moves[k]).1 == None
      {
        PrefixSucceeds(files, dirs, moves, k);
        PrefixSucceeds(files, dirs, moves, k + 1);
        RunStep(files, dirs, moves, k);
      }
    } else {
      var n := RunStops(files, dirs, moves);
    }
  }

  /** No move of a run that succeeds goes onto an entry inside a directory, file or directory. */
  lemma NothingReplacedInside(files: Files, dirs: set<Path>, moves: seq<Move>, k: nat)
    requires k < |moves| && Run(files, dirs, moves).1 == None && moves[k].target in dirs
    ensures var before, inside := Run(files, dirs, moves[..k]).0, moves[k].target + [BaseName(moves[k].source)];
            inside !in before && inside !in dirs
  {
    PrefixSucceeds(files, dirs, moves, k);
    PrefixSucceeds(files, dirs, moves, k + 1);
    RunStep(files, dirs, moves, k);
    MoveSucceedsExactly(Run(files, dirs, moves[..k]).0, dirs, moves[k]);
  }

  /** A run goes on up to the first move that fails; what the moves before that left is what there is in the end. */
  lemma {:induction false} RunStops(files: Files, dirs: set<Path>, moves: seq<Move>) returns (n: nat)
    ensures var (after, failure) := Run(files, dirs, moves);
            && n <= |moves| && Run(files, dirs, moves[..n]) == (after, None)
            && (failure == None <==> n == |moves|)
            && (n < |moves| ==> MoveOne(after, dirs, moves[n]) == (after, failure))
    decreases |moves|
  {
    n := 0;
    if moves != [] && MoveOne(files, dirs, moves[0]).1 == None {
      n := RunStops(MoveOne(files, dirs, moves[0]).0, dirs, moves[1..]);
      assert moves[..n + 1][1..] == moves[1..][..n];
      n := n + 1;
    }
  }

  /** Where a file ends up when every move does what it says. */
  function Destination(moves: seq<Move>, p: Path): Path {
    if moves == [] then p
    else if moves[0].source == p then moves[0].target
    else Destination(moves[1..], p)
  }

  /** Every file of `before` is at its destination, contents kept. */
  ghost predicate Arrived(before: Files, moves: seq<Move>, after: Files) {
    forall p :: p in before ==> Destination(moves, p) in after && after[Destination(moves, p)] == before[p]
  }

  /** Everything in `after` is the destination of one of `files`. */
  ghost predicate AreImages(files: set<Path>, moves: seq<Move>, after: set<Path>) {
    forall q :: q in after ==> exists p :: p in files && Destination(moves, p) == q
  }

  /** `after` is `before` with every file at its destination, contents kept, none lost, and nothing else. */
  ghost predicate IsRenaming(before: Files, moves: seq<Move>, after: Files) {
    |after.Keys| == |before.Keys| && Arrived(before, moves, after) && AreImages(before.Keys, moves, after.Keys)
  }

  ghost predicate SourcesDistinct(moves: seq<Move>) {
    forall i, j :: 0 <= i < j < |moves| ==> moves[i].source != moves[j].source
  }

  ghost predicate TargetsDistinct(moves: seq<Move>) {
    forall i, j :: 0 <= i < j < |moves| ==> moves[i].target != moves[j].target
  }

  /** Every move is of a file there is, and no file is moved twice. */
  ghost predicate MovesFiles(files: Files, moves: seq<Move>) {
    && SourcesDistinct(moves)
    && (forall m :: m in moves ==> m.source in files)
  }

  ghost predicate IsSource(moves: seq<Move>, p: Path) {
    exists m :: m in moves && m.source == p
  }

  /** The targets are distinct places in existing directories, no directories themselves, and no file stays at one. */
  ghost predicate TargetsApart(files: Files, dirs: set<Path>, moves: seq<Move>) {
    && TargetsDistinct(moves)
    && (forall m :: m in moves ==>
          && m.target !in dirs
          && Parent(m.target) in dirs
          && (m.target in files ==> IsSource(moves, m.target)))
  }

  /** No file is moved onto one that has yet to move. */
  ghost predicate NoOverwrite(moves: seq<Move>) {
    forall i, j :: 0 <= i < j < |moves| ==> moves[i].target != moves[j].source
  }

  /** How many moves land on a file that has yet to move. */
  ghost function Overwritten(moves: seq<Move>): nat {
    if moves == [] then 0
    else (if IsSource(moves[1..], moves[0].target) then 1 else 0) + Overwritten(moves[1..])
  }

  /** Where a move puts its file: at the target, or inside it if it is a directory. */
  function Landing(dirs: set<Path>, m: Move): Path {
    if m.target in dirs then m.target + [BaseName(m.source)] else m.target
  }

  /** The landing places that no later move takes its file from. */
  ghost function Kept(dirs: set<Path>, moves: seq<Move>): set<Path> {
    if moves == [] then {}
    else
      var landing := Landing(dirs, moves[0]);
      (if IsSource(moves[1..], landing) then {} else {landing}) + Kept(dirs, moves[1..])
  }

  function Sources(moves: seq<Move>): set<Path> {
    set m | m in moves :: m.source
  }

  /**
   What any run that succeeds leaves, whatever its targets: the files that were not moved and
   the last landing places. Every further file there was is lost.
   */
  lemma {:induction false} FinalPlaces(files: Files, dirs: set<Path>, moves: seq<Move>)
    requires MovesFiles(files, moves) && Run(files, dirs, moves).1 == None
    ensures Run(files, dirs, moves).0.Keys == files.Keys - Sources(moves) + Kept(dirs, moves)
    decreases |moves|
  {
    if moves != [] {
      var first, rest := moves[0], moves[1..];
      var files' := MoveOne(files, dirs, first).0;
      RestMovable(files, dirs, moves);
      FinalPlaces(files', dirs, rest);
      LandedAt(files, dirs, first);
      SourcesFromFirst(moves);
      PlacesStep(files.Keys, first.source, Landing(dirs, first), Sources(rest), Kept(dirs, rest));
    }
  }

  lemma RestMovable(files: Files, dirs: set<Path>, moves: seq<Move>)
    requires moves != [] && MovesFiles(files, moves) && MoveOne(files, dirs, moves[0]).1 == None
    ensures MovesFiles(MoveOne(files, dirs, moves[0]).0, moves[1..])
  {
    RestMovesFiles(files, moves);
  }

  lemma PlacesStep(files: set<Path>, source: Path, landing: Path, sources: set<Path>, kept: set<Path>)
    ensures files - {source} + {landing} - sources + kept
         == files - ({source} + sources) + ((if landing in sources then {} else {landing}) + kept)
  {
  }

  lemma LandedAt(files: Files, dirs: set<Path>, m: Move)
    requires MoveOne(files, dirs, m).1 == None
    ensures MoveOne(files, dirs, m).0.Keys == files.Keys - {m.source} + {Landing(dirs, m)}
  {
  }

  lemma SourcesFromFirst(moves: seq<Move>)
    requires moves != []
    ensures Sources(moves) == {moves[0].source} + Sources(moves[1..])
    ensures forall p :: IsSource(moves[1..], p) <==> p in Sources(moves[1..])
  {
  }

  lemma RestMovesFiles(files: Files, moves: seq<Move>)
    requires moves != [] && MovesFiles(files, moves)
    ensures forall m :: m in moves[1..] ==> m.source in files && m.source != moves[0].source
  {
    forall m | m in moves[1..]
      ensures m.source in files && m.source != moves[0].source
    {
      var i :| 1 <= i < |moves| && moves[i] == m;
    }
  }

  lemma StepKeepsApart(files: Files, dirs: set<Path>, moves: seq<Move>)
    requires moves != [] && MovesFiles(files, moves) && TargetsApart(files, dirs, moves)
    ensures var (files', failure) := MoveOne(files, dirs, moves[0]);
            && failure == None
            && MovesFiles(files', moves[1..]) && TargetsApart(files', dirs, moves[1..])
            && files' == (files - {moves[0].source})[moves[0].target := files[moves[0].source]]
  {
    var first, rest := moves[0], moves[1..];
    assert first in moves;
    var files' := MoveOne(files, dirs, first).0;
    forall m | m in rest
      ensures m in moves && m.source in files' && (m.target in files' ==> IsSource(rest, m.target))
    {
      var i :| 1 <= i < |moves| && moves[i] == m;
      assert m.target != first.target && m.source != first.source;
      if m.target in files' {
        var s :| s in moves && s.source == m.target;
        assert s in rest;
      }
    }
  }

  lemma FirstTargetTaken(files: Files, dirs: set<Path>, moves: seq<Move>)
    requires moves != [] && MovesFiles(files, moves) && TargetsApart(files, dirs, moves)
    ensures moves[0].target in files <==> moves[0].target == moves[0].source || IsSource(moves[1..], moves[0].target)
  {
    var first, rest := moves[0], moves[1..];
    assert first in moves && forall m :: m in rest ==> m in moves;
    if IsSource(moves, first.target) {
      var m :| m in moves && m.source == first.target;
      assert m == first || m in rest;
    }
  }

  /** With the targets apart, each overwriting move costs exactly one file. */
  lemma {:induction false} FilesLost(files: Files, dirs: set<Path>, moves: seq<Move>)
    requires MovesFiles(files, moves) && TargetsApart(files, dirs, moves)
    ensures var (after, failure) := Run(files, dirs, moves);
            failure == None && |after| == |files| - Overwritten(moves)
    decreases |moves|
  {
    if moves != [] {
      var first, rest := moves[0], moves[1..];
      assert first in moves;
      StepKeepsApart(files, dirs, moves);
      RestMovesFiles(files, moves);
      var files' := MoveOne(files, dirs, first).0;
      FilesLost(files', dirs, rest);
      FirstTargetTaken(files, dirs, moves);
      assert files'.Keys == files.Keys - {first.source} + {first.target};
    }
  }

  /** When moreover nothing is overwritten, every file arrives with its contents. */
  lemma {:induction false} AllArrive(files: Files, dirs: set<Path>, moves: seq<Move>)
    requires MovesFiles(files, moves) && TargetsApart(files, dirs, moves) && NoOverwrite(moves)
    ensures IsRenaming(files, moves, Run(files, dirs, moves).0)
    decreases |moves|
  {
    if moves != [] {
      var files', after := MoveOne(files, dirs, moves[0]).0, Run(files, dirs, moves).0;
      StepKeepsApart(files, dirs, moves);
      FirstMoves(files, dirs, moves);
      AllArrive(files', dirs, moves[1..]);
      ArrivedStep(files, moves, files', after);
      ImagesStep(files, moves, files', after.Keys);
    }
    FilesLost(files, dirs, moves);
    NoneOverwritten(moves);
  }

  /** `files` after the first move, when it lands at its target. */
  ghost predicate FirstMoved(files: Files, moves: seq<Move>, files': Files) {
    && moves != [] && moves[0].source in files
    && (moves[0].target in files ==> moves[0].target == moves[0].source)
    && files' == (files - {moves[0].source})[moves[0].target := files[moves[0].source]]
    && Destination(moves[1..], moves[0].target) == moves[0].target
  }

  lemma ArrivedStep(files: Files, moves: seq<Move>, files': Files, after: Files)
    requires FirstMoved(files, moves, files') && Arrived(files', moves[1..], after)
    ensures Arrived(files, moves, after)
  {
    forall p | p in files
      ensures Destination(moves, p) in after && after[Destination(moves, p)] == files[p]
    {
      var p' := if p == moves[0].source then moves[0].target else p;
      assert p' in files' && files'[p'] == files[p];
    }
  }

  lemma ImagesStep(files: Files, moves: seq<Move>, files': Files, after: set<Path>)
    requires FirstMoved(files, moves, files') && AreImages(files'.Keys, moves[1..], after)
    ensures AreImages(files.Keys, moves, after)
  {
    forall q | q in after
      ensures exists p :: p in files.Keys && Destination(moves, p) == q
    {
      var p' :| p' in files'.Keys && Destination(moves[1..], p') == q;
      var p := if p' == moves[0].target then moves[0].source else p';
      assert p in files.Keys && Destination(moves, p) == q;
    }
  }

  lemma FirstMoves(files: Files, dirs: set<Path>, moves: seq<Move>)
    requires moves != []
    requires MovesFiles(files, moves) && TargetsApart(files, dirs, moves) && NoOverwrite(moves)
    ensures FirstMoved(files, moves, MoveOne(files, dirs, moves[0]).0) && NoOverwrite(moves[1..])
  {
    var first, rest := moves[0], moves[1..];
    assert first in moves;
    StaysPut(rest, first.target);
    if IsSource(moves, first.target) {
      var i :| 0 <= i < |moves| && moves[i].source == first.target;
    }
  }

  lemma {:induction false} StaysPut(moves: seq<Move>, p: Path)
    requires forall i :: 0 <= i < |moves| ==> moves[i].source != p
    ensures Destination(moves, p) == p
  {
    if moves != [] {
      StaysPut(moves[1..], p);
    }
  }

  /** Whatever happens, no file takes the place of a directory, and no move without one of its own succeeds. */
  lemma {:induction false} RunRespectsDirs(files: Files, dirs: set<Path>, moves: seq<Move>)
    requires files.Keys !! dirs
    ensures var (after, failure) := Run(files, dirs, moves);
            && after.Keys !! dirs
            && (failure == None ==> forall m :: m in moves ==> m.target in dirs || Parent(m.target) in dirs)
    decreases |moves|
  {
    if moves != [] && MoveOne(files, dirs, moves[0]).1 == None {
      RunRespectsDirs(MoveOne(files, dirs, moves[0]).0, dirs, moves[1..]);
    }
  }

  lemma {:induction false} DestinationOf(moves: seq<Move>, i: nat)
    requires i < |moves|
    requires SourcesDistinct(moves)
    ensures Destination(moves, moves[i].source) == moves[i].target
  {
    if i > 0 {
      assert moves[0].source != moves[i].source;
      DestinationOf(moves[1..], i - 1);
    }
  }

  /** Images are no larger than what they are images of. */
  lemma {:induction false} ImageNotLarger(files: set<Path>, moves: seq<Move>, after: set<Path>)
    requires AreImages(files, moves, after)
    ensures |after| <= |files|
    decreases files
  {
    if files == {} {
      assert after == {};
    } else {
      var p :| p in files;
      var rest := after - {Destination(moves, p)};
      forall q | q in rest
        ensures exists o :: o in files - {p} && Destination(moves, o) == q
      {
        var o :| o in files && Destination(moves, o) == q;
        assert o in files - {p};
      }
      assert AreImages(files - {p}, moves, rest);
      ImageNotLarger(files - {p}, moves, rest);
      assert after <= rest + {Destination(moves, p)};
    }
  }

  /** With as many images as files, no two files share a destination. */
  lemma ImagesInjective(files: set<Path>, moves: seq<Move>, after: set<Path>, p: Path, q: Path)
    requires AreImages(files, moves, after) && |after| == |files|
    requires p in files && q in files && Destination(moves, p) == Destination(moves, q)
    ensures p == q
  {
    if p != q {
      DroppedPreimage(files, moves, after, p, q);
      ImageNotLarger(files - {p}, moves, after);
    }
  }

  lemma RenamingImages(files: Files, moves: seq<Move>, after: Files)
    requires IsRenaming(files, moves, after)
    ensures AreImages(files.Keys, moves, after.Keys) && |after.Keys| == |files.Keys|
  {
  }

  lemma DroppedPreimage(files: set<Path>, moves: seq<Move>, after: set<Path>, p: Path, q: Path)
    requires AreImages(files, moves, after)
    requires p != q && q in files && Destination(moves, p) == Destination(moves, q)
    ensures AreImages(files - {p}, moves, after)
  {
    forall r | r in after
      ensures exists o :: o in files - {p} && Destination(moves, o) == r
    {
      var o :| o in files && Destination(moves, o) == r;
      var other := if o == p then q else o;
      assert other in files - {p} && Destination(moves, other) == r;
    }
  }

  lemma {:induction false} NoneOverwritten(moves: seq<Move>)
    ensures Overwritten(moves) == 0 <==> NoOverwrite(moves)
  {
    if moves != [] {
      NoneOverwritten(moves[1..]);
      if !NoOverwrite(moves) && NoOverwrite(moves[1..]) {
        var i, j :| 0 <= i < j < |moves| && moves[i].target == moves[j].source;
        assert i == 0 && moves[j] in moves[1..];
      }
      if IsSource(moves[1..], moves[0].target) {
        var m :| m in moves[1..] && m.source == moves[0].target;
        var j :| 1 <= j < |moves| && moves[j] == m;
        assert !NoOverwrite(moves);
      }
      assert NoOverwrite(moves) ==> NoOverwrite(moves[1..]);
    }
  }

  /** A run that puts every file in place had its targets apart. */
  lemma InPlaceMeansApart(files: Files, dirs: set<Path>, moves: seq<Move>)
    requires WellFormed(files, dirs) && MovesFiles(files, moves)
    requires Run(files, dirs, moves).1 == None && IsRenaming(files, moves, Run(files, dirs, moves).0)
    ensures TargetsApart(files, dirs, moves)
  {
    var after := Run(files, dirs, moves).0;
    RunRespectsDirs(files, dirs, moves);
    RenamingImages(files, moves, after);
    forall i | 0 <= i < |moves|
      ensures moves[i].target !in dirs && Destination(moves, moves[i].source) == moves[i].target
    {
      DestinationOf(moves, i);
      assert moves[i] in moves;
    }
    forall i, j | 0 <= i < j < |moves|
      ensures moves[i].target != moves[j].target
    {
      assert moves[i] in moves && moves[j] in moves;
      if moves[i].target == moves[j].target {
        ImagesInjective(files.Keys, moves, after.Keys, moves[i].source, moves[j].source);
      }
    }
    forall m | m in moves && m.target in files
      ensures IsSource(moves, m.target)
    {
      if !IsSource(moves, m.target) {
        var i :| 0 <= i < |moves| && moves[i] == m;
        StaysPut(moves, m.target);
        ImagesInjective(files.Keys, moves, after.Keys, m.source, m.target);
      }
    }
  }

  /**
   Exactly when the moves do what they say: the run succeeds with every file at its
   destination if and only if the targets are distinct places in existing directories, none a
   directory or a file staying put, and no file is moved onto one that has yet to move.
   */
  lemma MovesPlaceExactly(files: Files, dirs: set<Path>, moves: seq<Move>)
    requires WellFormed(files, dirs) && MovesFiles(files, moves)
    ensures var (after, failure) := Run(files, dirs, moves);
            failure == None && IsRenaming(files, moves, after)
            <==> TargetsApart(files, dirs, moves) && NoOverwrite(moves)
  {
    var (after, failure) := Run(files, dirs, moves);
    if failure == None && IsRenaming(files, moves, after) {
      InPlaceMeansApart(files, dirs, moves);
      FilesLost(files, dirs, moves);
      NoneOverwritten(moves);
    }
    if TargetsApart(files, dirs, moves) && NoOverwrite(moves) {
      FilesLost(files, dirs, moves);
      AllArrive(files, dirs, moves);
    }
  }
}
