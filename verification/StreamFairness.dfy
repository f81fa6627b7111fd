/** A scheduler that keeps giving both threads their turns finishes the pass, within a fixed number of rounds. */
module StreamFairness {
  import opened Streams
  import opened StreamSafety
  import opened StreamProgress
  import opened StreamLiveness

  predicate IsProducerStep(a: Action) {
    a in {ProducerCheck, ProducerFetch, ProducerAppend}
  }

  function ProducerSteps(actions: seq<Action>): nat {
    if actions == [] then 0 else (if IsProducerStep(actions[0]) then 1 else 0) + ProducerSteps(actions[1..])
  }

  function CallerSteps(actions: seq<Action>): nat {
    if actions == [] then 0 else (if IsProducerStep(actions[0]) then 0 else 1) + CallerSteps(actions[1..])
  }

  /** All calls ask for a row there is. */
  ghost predicate CallsInRange(cfg: Config, actions: seq<Action>) {
    forall a :: a in actions && a.Call? ==> a.idx < |AllRows(cfg)|
  }

  /** A stretch of the schedule with a step of the background thread, unless it has ended, and two of the caller. */
  ghost predicate IsFairRound(cfg: Config, s: State, actions: seq<Action>) {
    && IsSchedule(cfg, s, actions)
    && CallsInRange(cfg, actions)
    && CallerSteps(actions) >= 2
    && (s.producer != Done ==> ProducerSteps(actions) >= 1)
  }

  /** The background thread's next step, whatever it is, is a useful one. */
  ghost predicate ProducerReady(cfg: Config, s: State) {
    exists a :: IsProducerStep(a) && AtStep(s, a) && CannotFault(cfg, s, a) && Useful(cfg, s, a)
  }

  /** So is the caller's. */
  ghost predicate CallerReady(cfg: Config, s: State) {
    match s.consumer
    case Test => !Spent(s)
    case PopTest => |s.buffers| > 1 && Spent(s)
    case _ => true
  }

  lemma {:induction false} ReadyProducerMoves(cfg: Config, s: State, actions: seq<Action>)
    requires IsSchedule(cfg, s, actions) && ProducerReady(cfg, s) && ProducerSteps(actions) >= 1
    requires CallsInRange(cfg, actions) && RowsHaveFeatures(cfg) && Inv(cfg, s)
    ensures UsefulSteps(cfg, s, actions) >= 1
    decreases |actions|
  {
    var a := actions[0];
    if a == ConsumerTake {
      NextRow(cfg, s);
    }
    if !Useful(cfg, s, a) {
      StepInv(cfg, s, a);
      ReadyStays(cfg, s, a);
      ReadyProducerMoves(cfg, Step(cfg, s, a), actions[1..]);
    }
  }

  /** A step of the caller that is not useful leaves the background thread ready. */
  lemma ReadyStays(cfg: Config, s: State, a: Action)
    requires ProducerReady(cfg, s) && AtStep(s, a) && CannotFault(cfg, s, a) && !Useful(cfg, s, a)
    ensures !IsProducerStep(a) && ProducerReady(cfg, Step(cfg, s, a))
  {
    var p :| IsProducerStep(p) && AtStep(s, p) && CannotFault(cfg, s, p) && Useful(cfg, s, p);
    var s' := Step(cfg, s, a);
    assert AtStep(s', p) && CannotFault(cfg, s', p) && Useful(cfg, s', p);
  }

  lemma {:induction false} ReadyCallerMoves(cfg: Config, s: State, actions: seq<Action>)
    requires IsSchedule(cfg, s, actions) && CallerReady(cfg, s) && CallerSteps(actions) >= 1
    requires CallsInRange(cfg, actions) && RowsHaveFeatures(cfg) && Inv(cfg, s)
    ensures UsefulSteps(cfg, s, actions) >= 1
    decreases |actions|
  {
    var a := actions[0];
    if a == ConsumerTake {
      NextRow(cfg, s);
    }
    if !Useful(cfg, s, a) {
      assert a == ProducerCheck && Step(cfg, s, a) == s;
      ReadyCallerMoves(cfg, s, actions[1..]);
    }
  }

  /** If the caller is ready, or will be after its next failed test, two steps of it include a useful one. */
  lemma {:induction false} SoonReadyCallerMoves(cfg: Config, s: State, actions: seq<Action>)
    requires IsSchedule(cfg, s, actions) && CallerSteps(actions) >= 2
    requires CallsInRange(cfg, actions) && RowsHaveFeatures(cfg) && Inv(cfg, s)
    requires s.consumer == Test ==> !Spent(s) || |s.buffers| > 1
    requires s.consumer == PopTest ==> !Spent(s) || |s.buffers| > 1
    ensures UsefulSteps(cfg, s, actions) >= 1
    decreases |actions|
  {
    if CallerReady(cfg, s) {
      ReadyCallerMoves(cfg, s, actions);
      return;
    }
    var a := actions[0];
    if !Useful(cfg, s, a) {
      StepInv(cfg, s, a);
      if IsProducerStep(a) {
        assert Step(cfg, s, a) == s;
        SoonReadyCallerMoves(cfg, s, actions[1..]);
      } else {
        ReadyCallerMoves(cfg, Step(cfg, s, a), actions[1..]);
      }
    }
  }

  /** While rows are left, every fair round makes progress. */
  lemma FairRoundProgress(cfg: Config, s: State, actions: seq<Action>)
    requires CanComplete(cfg) && Inv(cfg, s) && HistoryInv(cfg, s) && |s.returned| < |AllRows(cfg)|
    requires IsFairRound(cfg, s, actions)
    ensures UsefulSteps(cfg, s, actions) >= 1
  {
    if s.consumer in {Test, PopTest} && Spent(s) && |s.buffers| <= 1 {
      var a := ProducerNotStuck(cfg, s);
      assert IsProducerStep(a);
      ReadyProducerMoves(cfg, s, actions);
    } else {
      SoonReadyCallerMoves(cfg, s, actions);
    }
  }

  /** Round after round, each fair from where the one before it ended. */
  ghost predicate AreFairRounds(cfg: Config, s: State, rounds: seq<seq<Action>>)
    decreases |rounds|
  {
    rounds == [] || (IsFairRound(cfg, s, rounds[0]) && AreFairRounds(cfg, After(cfg, s, rounds[0]), rounds[1..]))
  }

  ghost function AfterRounds(cfg: Config, s: State, rounds: seq<seq<Action>>): State
    requires AreFairRounds(cfg, s, rounds)
    decreases |rounds|
  {
    if rounds == [] then s else AfterRounds(cfg, After(cfg, s, rounds[0]), rounds[1..])
  }

  lemma {:induction false} RowsStayTaken(cfg: Config, s: State, actions: seq<Action>)
    requires IsSchedule(cfg, s, actions)
    ensures |After(cfg, s, actions).returned| >= |s.returned|
    decreases |actions|
  {
    if actions != [] {
      RowsStayTaken(cfg, Step(cfg, s, actions[0]), actions[1..]);
    }
  }

  /** More fair rounds than the rank leave no row untaken. */
  lemma {:induction false} FairRoundsFinish(cfg: Config, s: State, rounds: seq<seq<Action>>)
    requires CanComplete(cfg) && Inv(cfg, s) && HistoryInv(cfg, s) && AreFairRounds(cfg, s, rounds)
    requires cfg.bufferSize > 0 && RowsHaveFeatures(cfg)
    requires |s.returned| == |AllRows(cfg)| || |rounds| > Rank(cfg, s)
    ensures |AfterRounds(cfg, s, rounds).returned| == |AllRows(cfg)|
    decreases |rounds|
  {
    if rounds != [] {
      var s' := After(cfg, s, rounds[0]);
      InvariantsAlways(cfg, s, rounds[0]);
      if |s.returned| == |AllRows(cfg)| {
        RowsStayTaken(cfg, s, rounds[0]);
      } else {
        FairRoundProgress(cfg, s, rounds[0]);
        UsefulStepsWithinRank(cfg, s, rounds[0]);
      }
      FairRoundsFinish(cfg, s', rounds[1..]);
    }
  }

  /**
   Liveness: with a completable configuration, any schedule of more than six fair rounds per
   fetch and three per row, plus three, hands out every row.
   */
  lemma FairSchedulesComplete(cfg: Config, rounds: seq<seq<Action>>)
    requires CanComplete(cfg) && cfg.bufferSize > 0
    requires AreFairRounds(cfg, Init(), rounds)
    requires |rounds| > 6 * FetchesOver(cfg.paths, cfg.bufferSize) + 3 * |AllRows(cfg)| + 3
    ensures |AfterRounds(cfg, Init(), rounds).returned| == |AllRows(cfg)|
  {
    InitHistory(cfg);
    InitRank(cfg);
    FairRoundsFinish(cfg, Init(), rounds);
  }
}
