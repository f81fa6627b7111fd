/**
 The streaming dataset as a transition system. A background thread fetches buffers of rows
 into a bounded queue while the caller takes rows out one by one; the two interleave freely
 between the steps below.
 */
module Streams {
  import opened Common

  /** A row of a data frame: its cells by column. */
  type Row = map<string, string>

  datatype Config = Config(paths: seq<seq<Row>>, features: Option<seq<string>>, numBuffers: int, bufferSize: nat)

  /** Where the background thread is: testing for work, about to fetch, about to append what it fetched, or gone. */
  datatype Producer = Check | Fetch | Append(buffer: seq<Row>) | Done

  /**
   Where the caller is: outside, at the loop test of a call, at the test for a spent buffer,
   about to pop it, about to reset the index, or about to take a row.
   */
  datatype Consumer = Idle | Test | PopTest | Pop | Reset | Take

  datatype State = State(
    pathIdx: nat, fetchIdx: nat, bufferIdx: nat, buffers: seq<seq<Row>>,
    producer: Producer, consumer: Consumer,
    returned: seq<Row>, fetches: nat)

  datatype Action =
    | ProducerCheck | ProducerFetch | ProducerAppend
    | Call(idx: int) | ConsumerTest | ConsumerPopTest | ConsumerPop | ConsumerReset | ConsumerTake

  function Concat(parts: seq<seq<Row>>): seq<Row> {
    if parts == [] then [] else parts[0] + Concat(parts[1..])
  }

  /** All rows of the dataset, file after file. */
  function AllRows(cfg: Config): seq<Row> {
    Concat(cfg.paths)
  }

  /** Number of rows in the first `i` files. */
  function RowsBefore(cfg: Config, i: nat): nat
    requires i <= |cfg.paths|
  {
    |Concat(cfg.paths[..i])|
  }

  /** The provider's slice: rows from `start` up to `end` or the last row. */
  function Slice(rows: seq<Row>, start: int, end: int): seq<Row> {
    var hi := if end < 0 then 0 else if end > |rows| then |rows| else end;
    var lo := if start < 0 then 0 else if start > hi then hi else start;
    rows[lo..hi]
  }

  predicate HasFeatures(features: Option<seq<string>>, row: Row) {
    features.Some? ==> forall f :: f in features.value ==> f in row
  }

  /** The item made of a row: the row itself, or its cells for the chosen features. */
  function Item(features: Option<seq<string>>, row: Row): Row {
    match features
    case None => row
    case Some(fs) => map f | f in fs && f in row :: row[f]
  }

  /** The row itself without chosen features; else exactly the chosen features, all of them cells of the row. */
  ghost predicate IsSelection(features: Option<seq<string>>, row: Row, item: Row) {
    match features
    case None => item == row
    case Some(fs) =>
      && item.Keys == (set f | f in fs)
      && forall f :: f in fs ==> f in row && item[f] == row[f]
  }

  /** An item is the selection of the row's cells, and there is one exactly if no feature is missing. */
  lemma ItemIsSelection(features: Option<seq<string>>, row: Row)
    ensures HasFeatures(features, row) ==> IsSelection(features, row, Item(features, row))
    ensures HasFeatures(features, row) <==> exists item :: IsSelection(features, row, item)
  {
    if HasFeatures(features, row) {
      assert IsSelection(features, row, Item(features, row));
    }
  }

  function Init(): State {
    State(0, 0, 0, [], Check, Idle, [], 0)
  }

  /** The first buffer has no row left to take, or there is no buffer at all. */
  predicate Spent(s: State) {
    |s.buffers| < 1 || s.bufferIdx >= |s.buffers[0]|
  }

  /** A step of the thread that stands before it. */
  predicate AtStep(s: State, a: Action) {
    match a
    case ProducerCheck => s.producer == Check
    case ProducerFetch => s.producer == Fetch
    case ProducerAppend => s.producer.Append?
    case Call(_) => s.consumer == Idle
    case ConsumerTest => s.consumer == Test
    case ConsumerPopTest => s.consumer == PopTest
    case ConsumerPop => s.consumer == Pop
    case ConsumerReset => s.consumer == Reset
    case ConsumerTake => s.consumer == Take
  }

  /** The step would not index out of range. */
  predicate CannotFault(cfg: Config, s: State, a: Action) {
    match a
    case ProducerFetch => s.pathIdx < |cfg.paths|
    case ConsumerPop => s.buffers != []
    case ConsumerTake => !Spent(s)
    case _ => true
  }

  /** What one fetch asks for. */
  function NextBuffer(cfg: Config, s: State): seq<Row>
    requires s.pathIdx < |cfg.paths|
  {
    var start := s.fetchIdx - RowsBefore(cfg, s.pathIdx);
    Slice(cfg.paths[s.pathIdx], start, start + cfg.bufferSize)
  }

  function Step(cfg: Config, s: State, a: Action): State
    requires CannotFault(cfg, s, a) && AtStep(s, a)
  {
    match a
    case ProducerCheck =>
      if s.pathIdx >= |cfg.paths| then s.(producer := Done)
      else if |s.buffers| < cfg.numBuffers then s.(producer := Fetch)
      else s
    case ProducerFetch =>
      var buffer := NextBuffer(cfg, s);
      var fetchIdx := s.fetchIdx + |buffer|;
      s.(producer := Append(buffer), fetchIdx := fetchIdx, fetches := s.fetches + 1,
         pathIdx := if fetchIdx >= RowsBefore(cfg, s.pathIdx + 1) then s.pathIdx + 1 else s.pathIdx)
    case ProducerAppend => s.(producer := Check, buffers := s.buffers + [s.producer.buffer])
    case Call(idx) => if idx >= |AllRows(cfg)| then s else s.(consumer := Test)
    case ConsumerTest => s.(consumer := if Spent(s) then PopTest else Take)
    case ConsumerPopTest => s.(consumer := if |s.buffers| > 1 && Spent(s) then Pop else Test)
    case ConsumerPop => s.(consumer := Reset, buffers := s.buffers[1..])
    case ConsumerReset => s.(consumer := Test, bufferIdx := 0)
    case ConsumerTake =>
      var row := s.buffers[0][s.bufferIdx];
      if HasFeatures(cfg.features, row) then
        s.(consumer := Idle, bufferIdx := s.bufferIdx + 1, returned := s.returned + [Item(cfg.features, row)])
      else
        s.(consumer := Idle)
  }

  /** A schedule: which thread moves next, over and over. */
  ghost predicate IsSchedule(cfg: Config, s: State, actions: seq<Action>)
    decreases |actions|
  {
    actions == [] ||
    (AtStep(s, actions[0]) && CannotFault(cfg, s, actions[0])
     && IsSchedule(cfg, Step(cfg, s, actions[0]), actions[1..]))
  }

  ghost function After(cfg: Config, s: State, actions: seq<Action>): State
    requires IsSchedule(cfg, s, actions)
    decreases |actions|
  {
    if actions == [] then s else After(cfg, Step(cfg, s, actions[0]), actions[1..])
  }

  // The invariant.

  /** Rows in the queue that have not been taken. */
  function Unread(s: State): seq<Row> {
    var queued := Concat(s.buffers);
    if s.consumer == Reset then queued
    else if s.bufferIdx <= |queued| then queued[s.bufferIdx..]
    else []
  }

  function InFlight(s: State): seq<Row> {
    if s.producer.Append? then s.producer.buffer else []
  }

  /** The fetch offset lies within the current file, at its end only if it has no rows. */
  ghost predicate FetchInv(cfg: Config, s: State) {
    && s.pathIdx <= |cfg.paths|
    && (if s.pathIdx == |cfg.paths| then s.fetchIdx == |AllRows(cfg)|
        else
          && RowsBefore(cfg, s.pathIdx) <= s.fetchIdx
          && (s.fetchIdx < RowsBefore(cfg, s.pathIdx + 1)
              || (cfg.paths[s.pathIdx] == [] && s.fetchIdx == RowsBefore(cfg, s.pathIdx))))
    && (s.producer == Fetch ==> s.pathIdx < |cfg.paths|)
    && (s.producer == Done ==> s.pathIdx == |cfg.paths|)
  }

  /** The queue is bounded, and the index stays within its first buffer. */
  ghost predicate QueueInv(cfg: Config, s: State) {
    && (s.buffers != [] ==> |s.buffers| <= cfg.numBuffers)
    && (s.producer == Fetch || s.producer.Append? ==> |s.buffers| < cfg.numBuffers)
    && (s.buffers == [] ==> s.bufferIdx == 0 && s.consumer in {Idle, Test, PopTest})
    && (s.buffers != [] && s.consumer != Reset ==> s.bufferIdx <= |s.buffers[0]|)
    && (s.consumer == Take ==> !Spent(s))
    && (s.consumer == Pop ==> |s.buffers| > 1 && Spent(s))
  }

  /** Taken, unread and in-flight rows together are exactly the rows fetched so far, in order. */
  ghost predicate DataInv(cfg: Config, s: State) {
    var rows := AllRows(cfg);
    && |s.returned| <= s.fetchIdx <= |rows|
    && rows[|s.returned|..s.fetchIdx] == Unread(s) + InFlight(s)
    && forall i :: 0 <= i < |s.returned| ==>
         IsSelection(cfg.features, rows[i], s.returned[i])
  }

  ghost predicate Inv(cfg: Config, s: State) {
    FetchInv(cfg, s) && QueueInv(cfg, s) && DataInv(cfg, s)
  }
}
