/** Exactly which configurations let a pass over the dataset complete. */
module StreamLiveness {
  import opened Common
  import opened Streams
  import opened StreamSafety
  import opened StreamProgress

  /** Rows the very first fetch returns. */
  function FirstFetch(cfg: Config): nat {
    if cfg.paths == [] then 0
    else if |cfg.paths[0]| < cfg.bufferSize then |cfg.paths[0]|
    else cfg.bufferSize
  }

  /**
   A pass can complete: there is nothing to read, or every row has the features, buffers hold
   rows, and either there are two buffers or one buffer takes everything.
   */
  ghost predicate CanComplete(cfg: Config) {
    AllRows(cfg) == [] ||
    (&& RowsHaveFeatures(cfg)
     && cfg.bufferSize > 0
     && (cfg.numBuffers >= 2 || (cfg.numBuffers == 1 && |AllRows(cfg)| <= FirstFetch(cfg))))
  }

  function BuffersHeld(s: State): nat {
    |s.buffers| + if s.producer.Append? then 1 else 0
  }

  /** What the number of fetches says about the position; with one buffer nothing is ever popped. */
  ghost predicate HistoryInv(cfg: Config, s: State) {
    && (s.fetches == 0 ==> s.fetchIdx == 0 && s.pathIdx == 0)
    && (s.fetches == 1 ==> s.fetchIdx == FirstFetch(cfg))
    && (s.fetches >= 1 ==> s.fetchIdx >= FirstFetch(cfg))
    && BuffersHeld(s) <= s.fetches
    && (cfg.numBuffers <= 1 ==> BuffersHeld(s) == s.fetches)
    && (cfg.bufferSize == 0 ==> s.fetchIdx == 0)
  }

  lemma StepKeepsHistory(cfg: Config, s: State, a: Action)
    requires Inv(cfg, s) && HistoryInv(cfg, s) && AtStep(s, a)
    ensures CannotFault(cfg, s, a) && HistoryInv(cfg, Step(cfg, s, a))
  {
    InvCannotFault(cfg, s, a);
    if a == ProducerFetch {
      FetchKeepsHistory(cfg, s);
    } else {
      OtherStepKeepsHistory(cfg, s, a);
    }
  }

  lemma OtherStepKeepsHistory(cfg: Config, s: State, a: Action)
    requires QueueInv(cfg, s) && HistoryInv(cfg, s) && AtStep(s, a) && CannotFault(cfg, s, a) && a != ProducerFetch
    ensures HistoryInv(cfg, Step(cfg, s, a))
  {
  }

  lemma FetchKeepsHistory(cfg: Config, s: State)
    requires Inv(cfg, s) && HistoryInv(cfg, s) && s.producer == Fetch
    ensures HistoryInv(cfg, Step(cfg, s, ProducerFetch))
  {
    FetchedRows(cfg, s);
    if s.fetches == 0 {
      assert cfg.paths[..0] == [];
      PathRows(cfg, 0);
    }
  }

  lemma {:induction false} InvariantsAlways(cfg: Config, s: State, actions: seq<Action>)
    requires Inv(cfg, s) && HistoryInv(cfg, s) && IsSchedule(cfg, s, actions)
    ensures Inv(cfg, After(cfg, s, actions)) && HistoryInv(cfg, After(cfg, s, actions))
    decreases |actions|
  {
    if actions != [] {
      StepInv(cfg, s, actions[0]);
      StepKeepsHistory(cfg, s, actions[0]);
      InvariantsAlways(cfg, Step(cfg, s, actions[0]), actions[1..]);
    }
  }

  /** With its one buffer spent and the producer idle, the caller has had every row fetched so far. */
  lemma SpentMeansAllTaken(cfg: Config, s: State)
    requires Inv(cfg, s) && Spent(s) && |s.buffers| <= 1
    requires s.consumer in {Test, PopTest} && !s.producer.Append?
    ensures |s.returned| == s.fetchIdx
  {
    if s.buffers == [] {
      assert Concat(s.buffers) == [];
    } else {
      assert s.buffers[1..] == [];
      assert Concat(s.buffers) == s.buffers[0];
    }
    assert Unread(s) == [] && InFlight(s) == [];
  }

  /** With rows left to take, the producer is not stuck while the queue holds at most one spent buffer. */
  lemma ProducerNotStuck(cfg: Config, s: State) returns (a: Action)
    requires CanComplete(cfg) && Inv(cfg, s) && HistoryInv(cfg, s) && |s.returned| < |AllRows(cfg)|
    requires Spent(s) && |s.buffers| <= 1 && s.consumer in {Test, PopTest}
    ensures AtStep(s, a) && CannotFault(cfg, s, a) && Useful(cfg, s, a)
  {
    match s.producer
    case Check =>
      SpentMeansAllTaken(cfg, s);
      a := ProducerCheck;
    case Fetch => a := ProducerFetch;
    case Append(_) => a := ProducerAppend;
    case Done =>
      SpentMeansAllTaken(cfg, s);
      assert false;
  }

  lemma OneUseful(cfg: Config, s: State, a: Action)
    requires AtStep(s, a) && CannotFault(cfg, s, a) && Useful(cfg, s, a)
    ensures IsSchedule(cfg, s, [a]) && UsefulSteps(cfg, s, [a]) == 1
  {
    var s' := Step(cfg, s, a);
    assert [a][1..] == [] && IsSchedule(cfg, s', []) && UsefulSteps(cfg, s', []) == 0;
  }

  lemma UsefulNext(cfg: Config, s: State, a: Action, b: Action)
    requires AtStep(s, a) && CannotFault(cfg, s, a) && !Useful(cfg, s, a)
    requires var s' := Step(cfg, s, a); AtStep(s', b) && CannotFault(cfg, s', b) && Useful(cfg, s', b)
    ensures IsSchedule(cfg, s, [a, b]) && UsefulSteps(cfg, s, [a, b]) == 1
  {
    OneUseful(cfg, Step(cfg, s, a), b);
    assert [a, b][1..] == [b];
  }

  /** The useful step at hand, if any, or else the caller's failed test that leads to one. */
  lemma NextSteps(cfg: Config, s: State) returns (a: Action, b: Option<Action>)
    requires CanComplete(cfg) && Inv(cfg, s) && HistoryInv(cfg, s) && |s.returned| < |AllRows(cfg)|
    ensures AtStep(s, a) && CannotFault(cfg, s, a)
    ensures b == None ==> Useful(cfg, s, a)
    ensures b.Some? ==> var s' := Step(cfg, s, a);
              !Useful(cfg, s, a) && AtStep(s', b.value) && CannotFault(cfg, s', b.value) && Useful(cfg, s', b.value)
  {
    b := None;
    match s.consumer
    case Idle => a := Call(0);
    case Pop => a := ConsumerPop;
    case Reset => a := ConsumerReset;
    case Take =>
      NextRow(cfg, s);
      a := ConsumerTake;
    case Test =>
      a := ConsumerTest;
      if Spent(s) && |s.buffers| > 1 {
        b := Some(ConsumerPopTest);
      } else if Spent(s) {
        a := ProducerNotStuck(cfg, s);
      }
    case PopTest =>
      a := ConsumerPopTest;
      if !Spent(s) {
        b := Some(ConsumerTest);
      } else if |s.buffers| <= 1 {
        a := ProducerNotStuck(cfg, s);
      }
  }

  /** A useful step is at hand, at most one failed test away. */
  lemma NotStuck(cfg: Config, s: State) returns (actions: seq<Action>)
    requires CanComplete(cfg) && Inv(cfg, s) && HistoryInv(cfg, s) && |s.returned| < |AllRows(cfg)|
    ensures |actions| <= 2 && IsSchedule(cfg, s, actions) && UsefulSteps(cfg, s, actions) == 1
  {
    var a, b := NextSteps(cfg, s);
    match b
    case None =>
      OneUseful(cfg, s, a);
      actions := [a];
    case Some(next) =>
      UsefulNext(cfg, s, a, next);
      actions := [a, next];
  }

  lemma {:induction false} ScheduleConcat(cfg: Config, s: State, a: seq<Action>, b: seq<Action>)
    requires IsSchedule(cfg, s, a) && IsSchedule(cfg, After(cfg, s, a), b)
    ensures IsSchedule(cfg, s, a + b) && After(cfg, s, a + b) == After(cfg, After(cfg, s, a), b)
    decreases |a|
  {
    if a == [] {
      assert a + b == b;
    } else {
      assert (a + b)[1..] == a[1..] + b;
      ScheduleConcat(cfg, Step(cfg, s, a[0]), a[1..], b);
    }
  }

  /** From any state the invariants allow, the pass can be finished. */
  lemma {:induction false} FinishFrom(cfg: Config, s: State) returns (actions: seq<Action>)
    requires CanComplete(cfg) && Inv(cfg, s) && HistoryInv(cfg, s)
    ensures IsSchedule(cfg, s, actions) && |After(cfg, s, actions).returned| == |AllRows(cfg)|
    decreases if cfg.bufferSize > 0 then Rank(cfg, s) else 0
  {
    if |s.returned| == |AllRows(cfg)| {
      return [];
    }
    var first := NotStuck(cfg, s);
    UsefulStepsWithinRank(cfg, s, first);
    InvariantsAlways(cfg, s, first);
    var rest := FinishFrom(cfg, After(cfg, s, first));
    ScheduleConcat(cfg, s, first, rest);
    actions := first + rest;
  }

  lemma InitHistory(cfg: Config)
    ensures Inv(cfg, Init()) && HistoryInv(cfg, Init())
  {
    InitInv(cfg);
  }

  /** Wherever the threads have got to, a completable pass can still be completed. */
  lemma NeverDeadlocks(cfg: Config, sofar: seq<Action>)
    requires CanComplete(cfg) && IsSchedule(cfg, Init(), sofar)
    ensures exists more :: IsSchedule(cfg, Init(), sofar + more)
                        && |After(cfg, Init(), sofar + more).returned| == |AllRows(cfg)|
  {
    InitHistory(cfg);
    InvariantsAlways(cfg, Init(), sofar);
    var more := FinishFrom(cfg, After(cfg, Init(), sofar));
    ScheduleConcat(cfg, Init(), sofar, more);
  }

  /** Without the condition no schedule ever hands out the last row. */
  lemma NeverCompletes(cfg: Config, actions: seq<Action>)
    requires !CanComplete(cfg) && IsSchedule(cfg, Init(), actions)
    ensures |After(cfg, Init(), actions).returned| < |AllRows(cfg)|
  {
    InitHistory(cfg);
    InvariantsAlways(cfg, Init(), actions);
    var s, rows := After(cfg, Init(), actions), AllRows(cfg);
    if !RowsHaveFeatures(cfg) {
      var row :| row in rows && !HasFeatures(cfg.features, row);
      var k :| 0 <= k < |rows| && rows[k] == row;
    }
  }

  /** A full pass is possible if and only if the configuration is completable. */
  lemma CompletesExactly(cfg: Config)
    ensures (exists actions :: IsSchedule(cfg, Init(), actions)
                            && |After(cfg, Init(), actions).returned| == |AllRows(cfg)|)
       <==> CanComplete(cfg)
  {
    if CanComplete(cfg) {
      NeverDeadlocks(cfg, []);
    } else {
      forall actions | IsSchedule(cfg, Init(), actions)
        ensures |After(cfg, Init(), actions).returned| < |AllRows(cfg)|
      {
        NeverCompletes(cfg, actions);
      }
    }
  }
}
