/** When a pass over the streaming dataset completes, and how many steps it takes. */
module StreamProgress {
  import opened Streams
  import opened StreamSafety

  /** Fetches for one file: one per full or partial buffer, and one even if there are no rows. */
  function FetchesFor(rows: nat, bufferSize: nat): nat
    requires bufferSize > 0
  {
    if rows <= bufferSize then 1 else 1 + FetchesFor(rows - bufferSize, bufferSize)
  }

  /** Enough fetches for all rows, and one fewer would not do. */
  lemma {:induction false} FetchesForIsCeiling(rows: nat, bufferSize: nat)
    requires bufferSize > 0
    ensures var n := FetchesFor(rows, bufferSize);
            1 <= n && rows <= n * bufferSize && (n == 1 || (n - 1) * bufferSize < rows)
  {
    if rows > bufferSize {
      FetchesForIsCeiling(rows - bufferSize, bufferSize);
      var n := FetchesFor(rows - bufferSize, bufferSize);
      assert (n + 1) * bufferSize == n * bufferSize + bufferSize;
      assert n * bufferSize == (n - 1) * bufferSize + bufferSize;
    }
  }

  function FetchesOver(paths: seq<seq<Row>>, bufferSize: nat): nat
    requires bufferSize > 0
  {
    if paths == [] then 0 else FetchesFor(|paths[0]|, bufferSize) + FetchesOver(paths[1..], bufferSize)
  }

  /** Fetches still to be made. */
  function FetchesLeft(cfg: Config, pathIdx: nat, fetchIdx: nat): nat
    requires cfg.bufferSize > 0
  {
    if pathIdx >= |cfg.paths| then 0
    else
      var end := RowsBefore(cfg, pathIdx + 1);
      FetchesFor(if fetchIdx <= end then end - fetchIdx else 0, cfg.bufferSize)
      + FetchesOver(cfg.paths[pathIdx + 1..], cfg.bufferSize)
  }

  /** At the start of a file all its fetches are still to come. */
  lemma FreshPath(cfg: Config, p: nat)
    requires p <= |cfg.paths| && cfg.bufferSize > 0
    ensures FetchesLeft(cfg, p, RowsBefore(cfg, p)) == FetchesOver(cfg.paths[p..], cfg.bufferSize)
  {
    if p < |cfg.paths| {
      PathRows(cfg, p);
      assert cfg.paths[p..][1..] == cfg.paths[p + 1..];
    }
  }

  lemma FetchLowersCount(cfg: Config, p: nat, fetchIdx: nat, size: nat)
    requires p < |cfg.paths| && cfg.bufferSize > 0 && fetchIdx <= RowsBefore(cfg, p + 1)
    requires var left := RowsBefore(cfg, p + 1) - fetchIdx;
             size == if left < cfg.bufferSize then left else cfg.bufferSize
    ensures FetchesLeft(cfg, if fetchIdx + size >= RowsBefore(cfg, p + 1) then p + 1 else p, fetchIdx + size)
         == FetchesLeft(cfg, p, fetchIdx) - 1
  {
    if fetchIdx + size >= RowsBefore(cfg, p + 1) {
      FreshPath(cfg, p + 1);
    }
  }

  lemma FetchCountsDown(cfg: Config, s: State)
    requires Inv(cfg, s) && s.producer == Fetch && cfg.bufferSize > 0
    ensures var s' := Step(cfg, s, ProducerFetch);
            FetchesLeft(cfg, s'.pathIdx, s'.fetchIdx) == FetchesLeft(cfg, s.pathIdx, s.fetchIdx) - 1
  {
    FetchedRows(cfg, s);
    FetchLowersCount(cfg, s.pathIdx, s.fetchIdx, |NextBuffer(cfg, s)|);
  }

  /** A step that is neither a sleep, nor a failed test, nor a call that raises. */
  predicate Useful(cfg: Config, s: State, a: Action)
    requires AtStep(s, a) && CannotFault(cfg, s, a)
  {
    match a
    case ProducerCheck => s.pathIdx >= |cfg.paths| || |s.buffers| < cfg.numBuffers
    case Call(idx) => idx < |AllRows(cfg)|
    case ConsumerTest => !Spent(s)
    case ConsumerPopTest => |s.buffers| > 1 && Spent(s)
    case ConsumerTake => HasFeatures(cfg.features, s.buffers[0][s.bufferIdx])
    case _ => true
  }

  /** Every row has the chosen features. */
  ghost predicate RowsHaveFeatures(cfg: Config) {
    cfg.features.Some? ==> forall row, f :: row in AllRows(cfg) && f in cfg.features.value ==> f in row
  }

  function ProducerRank(p: Producer): nat {
    match p
    case Check => 1
    case Fetch => 0
    case Append(_) => 5
    case Done => 0
  }

  function ConsumerRank(c: Consumer): nat {
    match c
    case Idle => 2
    case Test => 1
    case PopTest => 1
    case Pop => 0
    case Reset => 2
    case Take => 0
  }

  /** Useful steps that can still be made. */
  function Rank(cfg: Config, s: State): nat
    requires cfg.bufferSize > 0 && |s.returned| <= |AllRows(cfg)|
  {
    6 * FetchesLeft(cfg, s.pathIdx, s.fetchIdx) + ProducerRank(s.producer) + 3 * |s.buffers|
    + 3 * (|AllRows(cfg)| - |s.returned|) + ConsumerRank(s.consumer)
  }

  lemma StepInv(cfg: Config, s: State, a: Action)
    requires Inv(cfg, s) && AtStep(s, a)
    ensures CannotFault(cfg, s, a) && Inv(cfg, Step(cfg, s, a))
  {
    if a in {ProducerCheck, ProducerFetch, ProducerAppend} {
      ProducerKeepsInv(cfg, s, a);
    } else {
      ConsumerKeepsInv(cfg, s, a);
    }
  }

  /** Only fetching moves the fetch position. */
  lemma OtherStepsDoNotFetch(cfg: Config, s: State, a: Action)
    requires AtStep(s, a) && CannotFault(cfg, s, a) && a != ProducerFetch
    ensures var s' := Step(cfg, s, a);
            s'.pathIdx == s.pathIdx && s'.fetchIdx == s.fetchIdx && s'.fetches == s.fetches
  {
  }

  lemma RankOfStep(cfg: Config, s: State, a: Action)
    requires cfg.bufferSize > 0 && AtStep(s, a) && CannotFault(cfg, s, a)
    requires |s.returned| <= |AllRows(cfg)| && |Step(cfg, s, a).returned| <= |AllRows(cfg)|
    requires var s' := Step(cfg, s, a);
             FetchesLeft(cfg, s'.pathIdx, s'.fetchIdx)
             == FetchesLeft(cfg, s.pathIdx, s.fetchIdx) - if a == ProducerFetch then 1 else 0
    requires a == ConsumerTake ==> Useful(cfg, s, a)
    ensures if Useful(cfg, s, a) then Rank(cfg, Step(cfg, s, a)) < Rank(cfg, s)
            else Rank(cfg, Step(cfg, s, a)) == Rank(cfg, s)
  {
  }

  /** Useful steps lower the rank; the others leave it, if no row lacks a feature. */
  lemma StepRank(cfg: Config, s: State, a: Action)
    requires cfg.bufferSize > 0 && RowsHaveFeatures(cfg)
    requires Inv(cfg, s) && AtStep(s, a)
    ensures CannotFault(cfg, s, a) && Inv(cfg, Step(cfg, s, a))
    ensures if Useful(cfg, s, a) then Rank(cfg, Step(cfg, s, a)) < Rank(cfg, s)
            else Rank(cfg, Step(cfg, s, a)) == Rank(cfg, s)
  {
    StepInv(cfg, s, a);
    if a == ProducerFetch {
      FetchCountsDown(cfg, s);
    } else {
      OtherStepsDoNotFetch(cfg, s, a);
    }
    if a == ConsumerTake {
      NextRow(cfg, s);
    }
    RankOfStep(cfg, s, a);
  }

  ghost function UsefulSteps(cfg: Config, s: State, actions: seq<Action>): nat
    requires IsSchedule(cfg, s, actions)
    decreases |actions|
  {
    if actions == [] then 0
    else
      (if Useful(cfg, s, actions[0]) then 1 else 0) + UsefulSteps(cfg, Step(cfg, s, actions[0]), actions[1..])
  }

  lemma {:induction false} UsefulStepsWithinRank(cfg: Config, s: State, actions: seq<Action>)
    requires cfg.bufferSize > 0 && RowsHaveFeatures(cfg)
    requires Inv(cfg, s) && IsSchedule(cfg, s, actions)
    ensures Inv(cfg, After(cfg, s, actions))
    ensures UsefulSteps(cfg, s, actions) + Rank(cfg, After(cfg, s, actions)) <= Rank(cfg, s)
    decreases |actions|
  {
    if actions != [] {
      StepRank(cfg, s, actions[0]);
      UsefulStepsWithinRank(cfg, Step(cfg, s, actions[0]), actions[1..]);
    }
  }

  lemma InitRank(cfg: Config)
    requires cfg.bufferSize > 0
    ensures Rank(cfg, Init()) == 6 * FetchesOver(cfg.paths, cfg.bufferSize) + 3 * |AllRows(cfg)| + 3
  {
    assert cfg.paths[..0] == [] && cfg.paths[0..] == cfg.paths;
    FreshPath(cfg, 0);
  }

  /**
   A step bound over all schedules: apart from sleeping and failed tests, at most six steps
   per fetch and three per row, however the threads interleave.
   */
  lemma UsefulStepsBounded(cfg: Config, actions: seq<Action>)
    requires cfg.bufferSize > 0 && RowsHaveFeatures(cfg) && IsSchedule(cfg, Init(), actions)
    ensures UsefulSteps(cfg, Init(), actions)
         <= 6 * FetchesOver(cfg.paths, cfg.bufferSize) + 3 * |AllRows(cfg)| + 3
  {
    InitInv(cfg);
    InitRank(cfg);
    UsefulStepsWithinRank(cfg, Init(), actions);
  }

  lemma {:induction false} FetchesAccounted(cfg: Config, s: State, actions: seq<Action>)
    requires cfg.bufferSize > 0 && Inv(cfg, s) && IsSchedule(cfg, s, actions)
    ensures var s' := After(cfg, s, actions);
            && Inv(cfg, s')
            && s'.fetches + FetchesLeft(cfg, s'.pathIdx, s'.fetchIdx)
               == s.fetches + FetchesLeft(cfg, s.pathIdx, s.fetchIdx)
    decreases |actions|
  {
    if actions != [] {
      var a := actions[0];
      StepInv(cfg, s, a);
      if a == ProducerFetch {
        FetchCountsDown(cfg, s);
      } else {
        OtherStepsDoNotFetch(cfg, s, a);
      }
      FetchesAccounted(cfg, Step(cfg, s, a), actions[1..]);
    }
  }

  /** By the time the background thread ends it has made exactly the fetches the files call for. */
  lemma FetchesExact(cfg: Config, actions: seq<Action>)
    requires cfg.bufferSize > 0 && IsSchedule(cfg, Init(), actions)
    ensures var s := After(cfg, Init(), actions);
            && s.fetches <= FetchesOver(cfg.paths, cfg.bufferSize)
            && (s.producer == Done ==> s.fetches == FetchesOver(cfg.paths, cfg.bufferSize))
  {
    InitInv(cfg);
    InitRank(cfg);
    FetchesAccounted(cfg, Init(), actions);
  }
}
