/** The dataset object itself: its fields, and one method for each step the two threads take. */
module StreamingDatasets {
  import opened Common
  import opened Streams
  import opened StreamSafety
  import opened StreamProgress

  /** What a fetch leaves behind is the next state. */
  lemma Fetched(cfg: Config, s: State, buffer: seq<Row>, s': State)
    requires Inv(cfg, s) && s.producer == Fetch && buffer == NextBuffer(cfg, s)
    requires s'.fetchIdx == s.fetchIdx + |buffer| && s'.fetches == s.fetches + 1 && s'.producer == Append(buffer)
    requires s'.pathIdx == s.pathIdx + if s'.fetchIdx >= RowsBefore(cfg, s.pathIdx + 1) then 1 else 0
    requires s'.bufferIdx == s.bufferIdx && s'.buffers == s.buffers
    requires s'.consumer == s.consumer && s'.returned == s.returned
    ensures CannotFault(cfg, s, ProducerFetch) && s' == Step(cfg, s, ProducerFetch) && Inv(cfg, s')
  {
    InvCannotFault(cfg, s, ProducerFetch);
    FetchStep(cfg, s, buffer, s');
    StepInv(cfg, s, ProducerFetch);
  }

  lemma FetchStep(cfg: Config, s: State, buffer: seq<Row>, s': State)
    requires s.producer == Fetch && s.pathIdx < |cfg.paths| && buffer == NextBuffer(cfg, s)
    requires s'.fetchIdx == s.fetchIdx + |buffer| && s'.fetches == s.fetches + 1 && s'.producer == Append(buffer)
    requires s'.pathIdx == s.pathIdx + if s'.fetchIdx >= RowsBefore(cfg, s.pathIdx + 1) then 1 else 0
    requires s'.bufferIdx == s.bufferIdx && s'.buffers == s.buffers
    requires s'.consumer == s.consumer && s'.returned == s.returned
    ensures s' == Step(cfg, s, ProducerFetch)
  {
  }

  class StreamingDataset {
    const cfg: Config
    const culmSizes: seq<nat>
    const height: nat

    var buffers: seq<seq<Row>>
    var pathIdx: nat
    var fetchIdx: nat
    var bufferIdx: nat

    /** Where each thread stands. */
    var producer: Producer
    var consumer: Consumer

    ghost var returned: seq<Row>
    ghost var fetches: nat

    ghost function Snapshot(): State
      reads this
    {
      State(pathIdx, fetchIdx, bufferIdx, buffers, producer, consumer, returned, fetches)
    }

    ghost predicate Valid()
      reads this
    {
      && |culmSizes| == |cfg.paths|
      && (forall i :: 0 <= i < |culmSizes| ==> culmSizes[i] == RowsBefore(cfg, i + 1))
      && height == |AllRows(cfg)|
      && Inv(cfg, Snapshot())
    }

    constructor (cfg: Config)
      ensures Valid() && this.cfg == cfg && Snapshot() == Init()
    {
      var culm: seq<nat>, total := [], 0;
      assert cfg.paths[..0] == [];
      for i := 0 to |cfg.paths|
        invariant |culm| == i && total == RowsBefore(cfg, i)
        invariant forall k :: 0 <= k < i ==> culm[k] == RowsBefore(cfg, k + 1)
      {
        PathRows(cfg, i);
        total := total + |cfg.paths[i]|;
        culm := culm + [total];
      }
      assert cfg.paths[..|cfg.paths|] == cfg.paths;
      this.cfg, culmSizes, height := cfg, culm, total;
      buffers, pathIdx, fetchIdx, bufferIdx := [], 0, 0, 0;
      producer, consumer := Check, Idle;
      returned, fetches := [], 0;
      InitInv(cfg);
    }

    // The background thread.

    method CheckForWork()
      requires Valid() && producer == Check
      modifies this`producer
      ensures Valid() && Snapshot() == Step(cfg, old(Snapshot()), ProducerCheck)
    {
      ghost var s := Snapshot();
      StepInv(cfg, s, ProducerCheck);
      if pathIdx >= |cfg.paths| {
        producer := Done;
      } else if |buffers| < cfg.numBuffers {
        producer := Fetch;
      }
    }

    /** Asks the provider for the next stretch of the current file, counted from that file's own start. */
    method SliceCurrentPath() returns (buffer: seq<Row>)
      requires Valid() && pathIdx < |cfg.paths|
      ensures buffer == NextBuffer(cfg, Snapshot())
    {
      assert cfg.paths[..0] == [];
      var start: int, end: int := fetchIdx, fetchIdx + cfg.bufferSize;
      if pathIdx > 0 {
        var culmSize := culmSizes[pathIdx - 1];
        start, end := start - culmSize, end - culmSize;
      }
      assert start == fetchIdx - RowsBefore(cfg, pathIdx);
      buffer := Slice(cfg.paths[pathIdx], start, end);
    }

    /** Fetches the next buffer, and moves to the next file at the end of this one. */
    method FetchNextBuffer()
      requires Valid() && producer == Fetch
      modifies this`producer, this`fetchIdx, this`pathIdx, this`fetches
      ensures Valid()
      ensures CannotFault(cfg, old(Snapshot()), ProducerFetch)
      ensures Snapshot() == Step(cfg, old(Snapshot()), ProducerFetch)
    {
      ghost var s := Snapshot();
      var buffer := SliceCurrentPath();
      fetchIdx := fetchIdx + |buffer|;
      if fetchIdx >= culmSizes[pathIdx] {
        pathIdx := pathIdx + 1;
      }
      fetches := fetches + 1;
      producer := Append(buffer);
      Fetched(cfg, s, buffer, Snapshot());
    }

    method AppendBuffer()
      requires Valid() && producer.Append?
      modifies this`producer, this`buffers
      ensures Valid() && Snapshot() == Step(cfg, old(Snapshot()), ProducerAppend)
    {
      StepInv(cfg, Snapshot(), ProducerAppend);
      buffers := buffers + [producer.buffer];
      producer := Check;
    }

    // The caller's thread: one call of __getitem__, step by step.

    method BeginGetItem(idx: int) returns (indexError: bool)
      requires Valid() && consumer == Idle
      modifies this`consumer
      ensures Valid() && Snapshot() == Step(cfg, old(Snapshot()), Call(idx))
      ensures indexError <==> idx >= |AllRows(cfg)|
    {
      StepInv(cfg, Snapshot(), Call(idx));
      if idx >= height {
        return true;
      }
      consumer := Test;
      return false;
    }

    method TestBuffer()
      requires Valid() && consumer == Test
      modifies this`consumer
      ensures Valid() && Snapshot() == Step(cfg, old(Snapshot()), ConsumerTest)
    {
      StepInv(cfg, Snapshot(), ConsumerTest);
      if |buffers| < 1 || bufferIdx >= |buffers[0]| {
        consumer := PopTest;
      } else {
        consumer := Take;
      }
    }

    method TestForSpentBuffer()
      requires Valid() && consumer == PopTest
      modifies this`consumer
      ensures Valid() && Snapshot() == Step(cfg, old(Snapshot()), ConsumerPopTest)
    {
      StepInv(cfg, Snapshot(), ConsumerPopTest);
      if |buffers| > 1 && bufferIdx >= |buffers[0]| {
        consumer := Pop;
      } else {
        consumer := Test;
      }
    }

    method PopBuffer()
      requires Valid() && consumer == Pop
      modifies this`consumer, this`buffers
      ensures Valid()
      ensures CannotFault(cfg, old(Snapshot()), ConsumerPop)
      ensures Snapshot() == Step(cfg, old(Snapshot()), ConsumerPop)
    {
      StepInv(cfg, Snapshot(), ConsumerPop);
      buffers := buffers[1..];
      consumer := Reset;
    }

    method ResetIndex()
      requires Valid() && consumer == Reset
      modifies this`consumer, this`bufferIdx
      ensures Valid() && Snapshot() == Step(cfg, old(Snapshot()), ConsumerReset)
    {
      StepInv(cfg, Snapshot(), ConsumerReset);
      bufferIdx := 0;
      consumer := Test;
    }

    /** The row cut down to the features, unless it lacks one. */
    method ExtractItem(row: Row) returns (item: Option<Row>)
      ensures item.Some? ==> IsSelection(cfg.features, row, item.value)
      ensures item == None ==> cfg.features.Some? && exists f :: f in cfg.features.value && f !in row
      ensures item == if HasFeatures(cfg.features, row) then Some(Item(cfg.features, row)) else None
    {
      ItemIsSelection(cfg.features, row);
      if cfg.features == None {
        return Some(row);
      }
      var fs := cfg.features.value;
      var result: Row := map[];
      for i := 0 to |fs|
        invariant forall f :: f in fs[..i] ==> f in row
        invariant result == map f | f in fs[..i] && f in row :: row[f]
      {
        assert fs[..i + 1] == fs[..i] + [fs[i]];
        if fs[i] !in row {
          return None;
        }
        result := result[fs[i] := row[fs[i]]];
      }
      assert fs[..|fs|] == fs;
      return Some(result);
    }

    /** Takes the next row of the dataset; a missing feature raises and takes nothing. */
    method TakeItem() returns (item: Option<Row>)
      requires Valid() && consumer == Take
      modifies this`consumer, this`bufferIdx, this`returned
      ensures Valid()
      ensures CannotFault(cfg, old(Snapshot()), ConsumerTake)
      ensures Snapshot() == Step(cfg, old(Snapshot()), ConsumerTake)
      ensures |old(returned)| < |AllRows(cfg)|
      ensures var row := AllRows(cfg)[|old(returned)|];
              if item.Some? then IsSelection(cfg.features, row, item.value) && returned == old(returned) + [item.value]
              else
                && cfg.features.Some? && (exists f :: f in cfg.features.value && f !in row)
                && returned == old(returned)
    {
      ghost var s := Snapshot();
      StepInv(cfg, s, ConsumerTake);
      NextRow(cfg, s);
      item := ExtractItem(buffers[0][bufferIdx]);
      consumer := Idle;
      if item.Some? {
        bufferIdx := bufferIdx + 1;
        returned := returned + [item.value];
      }
      assert Snapshot() == Step(cfg, s, ConsumerTake);
    }

    /** Any interleaving of the two threads, one step at a time. */
    method Interleave(actions: seq<Action>)
      requires Valid() && IsSchedule(cfg, Snapshot(), actions)
      modifies this
      ensures Valid() && Snapshot() == After(cfg, old(Snapshot()), actions)
    {
      for i := 0 to |actions|
        invariant Valid() && IsSchedule(cfg, Snapshot(), actions[i..])
        invariant After(cfg, Snapshot(), actions[i..]) == After(cfg, old(Snapshot()), actions)
      {
        assert actions[i..][0] == actions[i] && actions[i..][1..] == actions[i + 1..];
        Perform(actions[i]);
      }
    }

    method Perform(a: Action)
      requires Valid() && AtStep(Snapshot(), a)
      modifies this
      ensures Valid()
      ensures CannotFault(cfg, old(Snapshot()), a)
      ensures Snapshot() == Step(cfg, old(Snapshot()), a)
    {
      StepInv(cfg, Snapshot(), a);
      match a
      case ProducerCheck => CheckForWork();
      case ProducerFetch => FetchNextBuffer();
      case ProducerAppend => AppendBuffer();
      case Call(idx) => var _ := BeginGetItem(idx);
      case ConsumerTest => TestBuffer();
      case ConsumerPopTest => TestForSpentBuffer();
      case ConsumerPop => PopBuffer();
      case ConsumerReset => ResetIndex();
      case ConsumerTake => var _ := TakeItem();
    }
  }
}
