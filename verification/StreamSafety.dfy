/** Under every interleaving the caller gets the rows of the files, each once and in order. */
module StreamSafety {
  import opened Streams

  lemma {:induction false} ConcatSum(a: seq<seq<Row>>, b: seq<seq<Row>>)
    ensures Concat(a + b) == Concat(a) + Concat(b)
  {
    if a == [] {
      assert a + b == b;
    } else {
      assert (a + b)[1..] == a[1..] + b;
      ConcatSum(a[1..], b);
    }
  }

  lemma ConcatSnoc(a: seq<seq<Row>>, x: seq<Row>)
    ensures Concat(a + [x]) == Concat(a) + x
  {
    ConcatSum(a, [x]);
    assert [x][1..] == [];
    assert Concat([x]) == x;
  }

  /** The prefix sums: file `i` occupies its own stretch of all rows. */
  lemma PathRows(cfg: Config, i: nat)
    requires i < |cfg.paths|
    ensures RowsBefore(cfg, i + 1) == RowsBefore(cfg, i) + |cfg.paths[i]| <= |AllRows(cfg)|
    ensures AllRows(cfg)[RowsBefore(cfg, i)..RowsBefore(cfg, i + 1)] == cfg.paths[i]
    ensures i + 1 == |cfg.paths| ==> RowsBefore(cfg, i + 1) == |AllRows(cfg)|
  {
    var p := cfg.paths;
    assert p[..i + 1] == p[..i] + [p[i]];
    ConcatSnoc(p[..i], p[i]);
    assert p == p[..i + 1] + p[i + 1..];
    ConcatSum(p[..i + 1], p[i + 1..]);
  }

  lemma SliceOfSlice<T>(s: seq<T>, a: nat, b: nat, c: nat, d: nat)
    requires a <= b <= |s| && c <= d <= b - a
    ensures s[a..b][c..d] == s[a + c..a + d]
  {
    var x, y := s[a..b][c..d], s[a + c..a + d];
    assert |x| == |y| && forall i :: 0 <= i < |x| ==> x[i] == s[a..b][c + i] == s[a + c + i] == y[i];
  }

  /**
   A fetch returns the next rows of the current file and never runs over its end, and what
   it returns is the next stretch of all rows.
   */
  lemma FetchedRows(cfg: Config, s: State)
    requires FetchInv(cfg, s) && s.pathIdx < |cfg.paths|
    ensures var buffer, end := NextBuffer(cfg, s), RowsBefore(cfg, s.pathIdx + 1);
            && |buffer| == (if end - s.fetchIdx < cfg.bufferSize then end - s.fetchIdx else cfg.bufferSize)
            && s.fetchIdx + |buffer| <= end <= |AllRows(cfg)|
            && buffer == AllRows(cfg)[s.fetchIdx..s.fetchIdx + |buffer|]
  {
    var buffer, from := NextBuffer(cfg, s), RowsBefore(cfg, s.pathIdx);
    PathRows(cfg, s.pathIdx);
    var start := s.fetchIdx - from;
    assert buffer == cfg.paths[s.pathIdx][start..start + |buffer|];
    SliceOfSlice(AllRows(cfg), from, RowsBefore(cfg, s.pathIdx + 1), start, start + |buffer|);
  }

  lemma InitInv(cfg: Config)
    ensures Inv(cfg, Init())
  {
    assert cfg.paths[..0] == [];
    if cfg.paths != [] {
      PathRows(cfg, 0);
    }
  }

  /** No step ever indexes out of range. */
  lemma InvCannotFault(cfg: Config, s: State, a: Action)
    requires Inv(cfg, s) && AtStep(s, a)
    ensures CannotFault(cfg, s, a)
  {
  }

  lemma FetchKeepsFetchInv(cfg: Config, s: State)
    requires FetchInv(cfg, s) && s.producer == Fetch
    ensures FetchInv(cfg, Step(cfg, s, ProducerFetch))
  {
    FetchedRows(cfg, s);
    PathRows(cfg, s.pathIdx);
    if s.pathIdx + 1 < |cfg.paths| {
      PathRows(cfg, s.pathIdx + 1);
    }
  }

  lemma Contiguous<T>(s: seq<T>, a: nat, b: nat, c: nat)
    requires a <= b <= c <= |s|
    ensures s[a..b] + s[b..c] == s[a..c]
  {
  }

  lemma MoreInFlight(cfg: Config, s: State, buffer: seq<Row>, s': State)
    requires DataInv(cfg, s) && InFlight(s) == [] && s'.producer == Append(buffer)
    requires s'.returned == s.returned && s'.buffers == s.buffers
    requires s'.consumer == s.consumer && s'.bufferIdx == s.bufferIdx
    requires s.fetchIdx <= s'.fetchIdx <= |AllRows(cfg)| && buffer == AllRows(cfg)[s.fetchIdx..s'.fetchIdx]
    ensures DataInv(cfg, s')
  {
    Contiguous(AllRows(cfg), |s.returned|, s.fetchIdx, s'.fetchIdx);
    assert Unread(s') == Unread(s);
    assert InFlight(s') == buffer;
  }

  lemma FetchKeepsDataInv(cfg: Config, s: State)
    requires Inv(cfg, s) && s.producer == Fetch
    ensures DataInv(cfg, Step(cfg, s, ProducerFetch))
  {
    FetchedRows(cfg, s);
    MoreInFlight(cfg, s, NextBuffer(cfg, s), Step(cfg, s, ProducerFetch));
  }

  lemma AppendKeepsInv(cfg: Config, s: State)
    requires Inv(cfg, s) && s.producer.Append?
    ensures Inv(cfg, Step(cfg, s, ProducerAppend))
  {
    ConcatSnoc(s.buffers, s.producer.buffer);
    var s' := Step(cfg, s, ProducerAppend);
    assert Unread(s') + InFlight(s') == Unread(s) + InFlight(s);
  }

  lemma ProducerKeepsInv(cfg: Config, s: State, a: Action)
    requires Inv(cfg, s) && AtStep(s, a) && a in {ProducerCheck, ProducerFetch, ProducerAppend}
    ensures CannotFault(cfg, s, a) && Inv(cfg, Step(cfg, s, a))
  {
    match a
    case ProducerCheck =>
    case ProducerFetch =>
      FetchKeepsFetchInv(cfg, s);
      FetchKeepsDataInv(cfg, s);
    case ProducerAppend =>
      AppendKeepsInv(cfg, s);
  }

  lemma ConsumerKeepsInv(cfg: Config, s: State, a: Action)
    requires Inv(cfg, s) && AtStep(s, a) && a !in {ProducerCheck, ProducerFetch, ProducerAppend}
    ensures CannotFault(cfg, s, a) && Inv(cfg, Step(cfg, s, a))
  {
    match a
    case ConsumerPop =>
      assert Concat(s.buffers)[s.bufferIdx..] == Concat(s.buffers[1..]);
    case ConsumerTake => TakeKeepsInv(cfg, s);
    case _ =>
  }

  /** The row about to be taken is the next one of all rows. */
  lemma NextRow(cfg: Config, s: State)
    requires Inv(cfg, s) && s.consumer == Take
    ensures |s.returned| < s.fetchIdx && s.buffers[0][s.bufferIdx] == AllRows(cfg)[|s.returned|]
    ensures s.bufferIdx < |Concat(s.buffers)| && Unread(s)[1..] == Concat(s.buffers)[s.bufferIdx + 1..]
  {
    var rows, n, queued := AllRows(cfg), |s.returned|, Concat(s.buffers);
    assert queued[s.bufferIdx] == s.buffers[0][s.bufferIdx];
    assert Unread(s)[0] == queued[s.bufferIdx];
    assert rows[n..s.fetchIdx][0] == rows[n];
  }

  /** Taking the next row moves it from the unread rows to those handed out. */
  lemma TakenKeepsDataInv(cfg: Config, s: State, s': State)
    requires DataInv(cfg, s) && |s.returned| < s.fetchIdx && |s'.returned| == |s.returned| + 1
    requires s'.returned[..|s.returned|] == s.returned
    requires IsSelection(cfg.features, AllRows(cfg)[|s.returned|], s'.returned[|s.returned|])
    requires s'.fetchIdx == s.fetchIdx && InFlight(s') == InFlight(s)
    requires Unread(s) != [] && Unread(s') == Unread(s)[1..]
    ensures DataInv(cfg, s')
  {
    var rows, n := AllRows(cfg), |s.returned|;
    assert rows[n + 1..s.fetchIdx] == rows[n..s.fetchIdx][1..];
    assert (Unread(s) + InFlight(s))[1..] == Unread(s)[1..] + InFlight(s);
  }

  lemma TakeKeepsDataInv(cfg: Config, s: State)
    requires Inv(cfg, s) && s.consumer == Take
    ensures DataInv(cfg, Step(cfg, s, ConsumerTake))
  {
    NextRow(cfg, s);
    var s' := Step(cfg, s, ConsumerTake);
    ItemIsSelection(cfg.features, s.buffers[0][s.bufferIdx]);
    if HasFeatures(cfg.features, s.buffers[0][s.bufferIdx]) {
      TakenKeepsDataInv(cfg, s, s');
    } else {
      assert Unread(s') == Unread(s);
    }
  }

  lemma TakeKeepsInv(cfg: Config, s: State)
    requires Inv(cfg, s) && s.consumer == Take
    ensures Inv(cfg, Step(cfg, s, ConsumerTake))
  {
    TakeKeepsDataInv(cfg, s);
  }

  lemma {:induction false} InvAlways(cfg: Config, s: State, actions: seq<Action>)
    requires Inv(cfg, s) && IsSchedule(cfg, s, actions)
    ensures Inv(cfg, After(cfg, s, actions))
    decreases |actions|
  {
    if actions != [] {
      var a := actions[0];
      if a in {ProducerCheck, ProducerFetch, ProducerAppend} {
        ProducerKeepsInv(cfg, s, a);
      } else {
        ConsumerKeepsInv(cfg, s, a);
      }
      InvAlways(cfg, Step(cfg, s, a), actions[1..]);
    }
  }

  /**
   Safety, for every interleaving and whatever indices the calls name: the n-th row handed
   out is row n of all files in order, the queue never outgrows its bound, and no thread
   ever faults.
   */
  lemma RowsInOrder(cfg: Config, actions: seq<Action>)
    requires IsSchedule(cfg, Init(), actions)
    ensures var s := After(cfg, Init(), actions);
            && |s.returned| <= |AllRows(cfg)|
            && (forall i :: 0 <= i < |s.returned| ==> IsSelection(cfg.features, AllRows(cfg)[i], s.returned[i]))
            && (s.buffers != [] ==> |s.buffers| <= cfg.numBuffers)
            && (forall a :: AtStep(s, a) ==> CannotFault(cfg, s, a))
  {
    InitInv(cfg);
    InvAlways(cfg, Init(), actions);
  }
}
