/** Streams of statements: their interleavings, and exactly when every interleaving succeeds. */
module SqlStreams {
  import opened MachineInt
  import opened Uuid
  import opened SqlLedger

  // ---------- Interleavings ----------

  /** The trace takes, one at a time and in order, the statements of the given streams. */
  ghost predicate Interleaves(streams: seq<seq<Statement>>, trace: seq<Statement>)
    decreases |trace|
  {
    if trace == [] then forall k | 0 <= k < |streams| :: streams[k] == []
    else exists k | 0 <= k < |streams| :: LastTaken(streams, trace, k)
  }

  /** Stream k supplied the last statement of the trace. */
  ghost predicate LastTaken(streams: seq<seq<Statement>>, trace: seq<Statement>, k: nat)
    requires trace != [] && k < |streams|
    decreases |trace|, 0
  {
    var s := streams[k];
    s != [] && s[|s| - 1] == trace[|trace| - 1]
    && Interleaves(streams[k := s[..|s| - 1]], trace[..|trace| - 1])
  }

  /** One stream after the other. */
  function Serial(streams: seq<seq<Statement>>): seq<Statement> {
    if streams == [] then [] else Serial(streams[..|streams| - 1]) + streams[|streams| - 1]
  }

  lemma {:induction false} SerialWithout(streams: seq<seq<Statement>>, k: nat)
    requires k < |streams| && streams[k] != []
    ensures var s := streams[k];
            multiset(Serial(streams)) == multiset(Serial(streams[k := s[..|s| - 1]])) + multiset{s[|s| - 1]}
  {
    var s, n := streams[k], |streams| - 1;
    var shorter := streams[k := s[..|s| - 1]];
    assert s == s[..|s| - 1] + [s[|s| - 1]];
    if k == n {
      assert shorter[..n] == streams[..n];
    } else {
      assert shorter[..n] == streams[..n][k := s[..|s| - 1]];
      SerialWithout(streams[..n], k);
    }
  }

  lemma {:induction false} EmptySerial(streams: seq<seq<Statement>>)
    requires forall k | 0 <= k < |streams| :: streams[k] == []
    ensures Serial(streams) == []
  {
    if streams != [] {
      EmptySerial(streams[..|streams| - 1]);
    }
  }

  /** An interleaving is a permutation of the serial order. */
  lemma {:induction false} InterleavingPermutes(streams: seq<seq<Statement>>, trace: seq<Statement>)
    requires Interleaves(streams, trace)
    ensures multiset(trace) == multiset(Serial(streams))
    decreases |trace|
  {
    hide Serial;
    if trace == [] {
      EmptySerial(streams);
    } else {
      var k :| 0 <= k < |streams| && LastTaken(streams, trace, k);
      var s := streams[k];
      InterleavingPermutes(streams[k := s[..|s| - 1]], trace[..|trace| - 1]);
      SerialWithout(streams, k);
      var last := trace[|trace| - 1];
      assert trace == trace[..|trace| - 1] + [last];
      assert multiset(trace) == multiset(trace[..|trace| - 1]) + multiset{last};
    }
  }

  /** Running the streams one after the other is one of their interleavings. */
  lemma {:induction false} SerialIsInterleaving(streams: seq<seq<Statement>>)
    ensures Interleaves(streams, Serial(streams))
    decreases |Serial(streams)|, |streams|
  {
    if streams != [] {
      var n := |streams| - 1;
      var s := streams[n];
      if s == [] {
        assert Serial(streams) == Serial(streams[..n]);
        SerialIsInterleaving(streams[..n]);
        ExtraEmptyStream(streams[..n], Serial(streams));
        assert streams == streams[..n] + [[]];
      } else {
        var shorter := streams[n := s[..|s| - 1]];
        var trace := Serial(streams);
        assert shorter[..n] == streams[..n];
        assert trace[..|trace| - 1] == Serial(shorter);
        SerialIsInterleaving(shorter);
        assert LastTaken(streams, trace, n);
      }
    }
  }

  lemma {:induction false} ExtraEmptyStream(streams: seq<seq<Statement>>, trace: seq<Statement>)
    requires Interleaves(streams, trace)
    ensures Interleaves(streams + [[]], trace)
    decreases |trace|
  {
    if trace != [] {
      var k :| 0 <= k < |streams| && LastTaken(streams, trace, k);
      var s := streams[k];
      ExtraEmptyStream(streams[k := s[..|s| - 1]], trace[..|trace| - 1]);
      assert (streams + [[]])[k := s[..|s| - 1]] == streams[k := s[..|s| - 1]] + [[]];
      assert LastTaken(streams + [[]], trace, k);
    }
  }

  lemma SerialOfOne(ss: seq<Statement>)
    ensures Serial([ss]) == ss
  {
    assert [ss][..0] == [];
  }

  /** A single stream has no interleaving but itself. */
  lemma {:induction false} OneStream(ss: seq<Statement>, trace: seq<Statement>)
    requires Interleaves([ss], trace)
    ensures trace == ss
    decreases |trace|
  {
    if trace == [] {
      assert [ss][0] == [];
    } else {
      var k :| 0 <= k < 1 && LastTaken([ss], trace, k);
      var front := ss[..|ss| - 1];
      assert [ss][k := front] == [front];
      OneStream(front, trace[..|trace| - 1]);
      assert trace == trace[..|trace| - 1] + [trace[|trace| - 1]] && ss == front + [ss[|ss| - 1]];
    }
  }

  // ---------- Interleavings that succeed ----------

  datatype Direction = Up | Down

  /** How far the statements move account a in one direction, moves the other way subtracted. */
  function Move(ss: seq<Statement>, d: Direction, a: UUID): int {
    match d
    case Up => SumOf(ss, Raise, a) - SumOf(ss, Lower, a)
    case Down => SumOf(ss, Lower, a) - SumOf(ss, Raise, a)
  }

  /** The farthest that any prefix moves account a. */
  function Peak(ss: seq<Statement>, d: Direction, a: UUID): nat {
    if ss == [] then 0
    else
      var before, whole := Peak(ss[..|ss| - 1], d, a), Move(ss, d, a);
      if whole > before then whole else before
  }

  function Peaks(streams: seq<seq<Statement>>, d: Direction, a: UUID): nat {
    if streams == [] then 0
    else Peaks(streams[..|streams| - 1], d, a) + Peak(streams[|streams| - 1], d, a)
  }

  /** Room for all streams standing at their peaks, above and below, and for every use of the version. */
  predicate PeakRoom(t: Tables, streams: seq<seq<Statement>>, a: UUID) {
    Active(t, a) ==>
      && t.accounts[a].balance + Peaks(streams, Up, a) <= MAX_INT64
      && t.accounts[a].balance - Peaks(streams, Down, a) >= MIN_INT64
      && t.accounts[a].version + SumOf(Serial(streams), Uses, a) <= MAX_INT32
  }

  /** The constraints let the new entry through, if s inserts one. */
  predicate Admitted(t: Tables, s: Statement) {
    s.InsertEntry? ==> !Rejected(t, s)
  }

  ghost predicate EveryInterleavingSucceeds(t: Tables, streams: seq<seq<Statement>>) {
    forall trace: seq<Statement> | Interleaves(streams, trace) :: ExecuteAll(t, trace).1
  }

  lemma MoveAppend(xs: seq<Statement>, ys: seq<Statement>, d: Direction, a: UUID)
    ensures Move(xs + ys, d, a) == Move(xs, d, a) + Move(ys, d, a)
  {
    hide SumOf;
    SumOfAppend(xs, ys, Raise, a);
    SumOfAppend(xs, ys, Lower, a);
  }

  lemma {:induction false} PeaksWithout(streams: seq<seq<Statement>>, k: nat, d: Direction, a: UUID)
    requires k < |streams| && streams[k] != []
    ensures Peaks(streams[k := streams[k][..|streams[k]| - 1]], d, a) <= Peaks(streams, d, a)
  {
    hide Move;
    var s, n := streams[k], |streams| - 1;
    var shorter := streams[k := s[..|s| - 1]];
    if k == n {
      assert shorter[..n] == streams[..n];
    } else {
      assert shorter[..n] == streams[..n][k := s[..|s| - 1]];
      PeaksWithout(streams[..n], k, d, a);
    }
  }

  lemma {:induction false} MoveWithinPeaks(streams: seq<seq<Statement>>, d: Direction, a: UUID)
    ensures Move(Serial(streams), d, a) <= Peaks(streams, d, a)
  {
    if streams != [] {
      var front, last := streams[..|streams| - 1], streams[|streams| - 1];
      MoveWithinPeaks(front, d, a);
      MoveAppend(Serial(front), last, d, a);
    }
  }

  lemma UsesWithout(streams: seq<seq<Statement>>, k: nat, a: UUID)
    requires k < |streams| && streams[k] != []
    ensures SumOf(Serial(streams[k := streams[k][..|streams[k]| - 1]]), Uses, a) <= SumOf(Serial(streams), Uses, a)
  {
    hide SumOf, Serial;
    var s := streams[k];
    var shorter := Serial(streams[k := s[..|s| - 1]]);
    SerialWithout(streams, k);
    SumOfPermutation(Serial(streams), shorter + [s[|s| - 1]], Uses, a);
    SumOfAppend(shorter, [s[|s| - 1]], Uses, a);
  }

  lemma PeakRoomWithout(t: Tables, streams: seq<seq<Statement>>, k: nat, a: UUID)
    requires k < |streams| && streams[k] != [] && PeakRoom(t, streams, a)
    ensures PeakRoom(t, streams[k := streams[k][..|streams[k]| - 1]], a)
  {
    hide Peaks, SumOf, Serial;
    PeaksWithout(streams, k, Up, a);
    PeaksWithout(streams, k, Down, a);
    UsesWithout(streams, k, a);
  }

  /** Where an interleaving leaves an account: within the peaks. */
  lemma TraceWithinPeaks(streams: seq<seq<Statement>>, trace: seq<Statement>, a: UUID)
    requires Interleaves(streams, trace)
    ensures Move(trace, Up, a) <= Peaks(streams, Up, a)
    ensures Move(trace, Down, a) <= Peaks(streams, Down, a)
    ensures SumOf(trace, Uses, a) == SumOf(Serial(streams), Uses, a)
  {
    hide SumOf, Peaks, Serial, Interleaves;
    InterleavingPermutes(streams, trace);
    SumOfPermutation(trace, Serial(streams), Raise, a);
    SumOfPermutation(trace, Serial(streams), Lower, a);
    SumOfPermutation(trace, Serial(streams), Uses, a);
    MoveWithinPeaks(streams, Up, a);
    MoveWithinPeaks(streams, Down, a);
  }

  lemma LastSucceeds(t: Tables, streams: seq<seq<Statement>>, trace: seq<Statement>)
    requires trace != [] && Interleaves(streams, trace) && ExecuteAll(t, trace[..|trace| - 1]).1
    requires Admitted(t, trace[|trace| - 1])
    requires forall a :: PeakRoom(t, streams, a)
    ensures !Rejected(ExecuteAll(t, trace[..|trace| - 1]).0, trace[|trace| - 1])
  {
    hide ExecuteAll, Interleaves, Peaks, Serial;
    var front, s := trace[..|trace| - 1], trace[|trace| - 1];
    ExecutionRows(t, front);
    if s.AdjustBalance? {
      var a := s.accountId;
      AccountsStayActive(t, front, a);
      if Active(t, a) {
        ExecutionEffect(t, front, a);
        assert PeakRoom(t, streams, a);
        TraceWithinPeaks(streams, trace, a);
      }
    }
  }

  lemma {:induction false} PeakRoomSuffices(t: Tables, streams: seq<seq<Statement>>, trace: seq<Statement>)
    requires Interleaves(streams, trace) && forall s <- trace :: Admitted(t, s)
    requires forall a :: PeakRoom(t, streams, a)
    ensures ExecuteAll(t, trace).1
    decreases |trace|
  {
    hide PeakRoom, Admitted, Rejected, Execute;
    if trace != [] {
      var k :| 0 <= k < |streams| && LastTaken(streams, trace, k);
      var s := streams[k];
      var shorter := streams[k := s[..|s| - 1]];
      forall a ensures PeakRoom(t, shorter, a) {
        PeakRoomWithout(t, streams, k, a);
      }
      PeakRoomSuffices(t, shorter, trace[..|trace| - 1]);
      LastSucceeds(t, streams, trace);
    }
  }

  /** Where the peak is reached. */
  function PeakAt(ss: seq<Statement>, d: Direction, a: UUID): (n: nat)
    ensures n <= |ss| && Move(ss[..n], d, a) == Peak(ss, d, a)
  {
    if ss == [] then 0
    else if Move(ss, d, a) > Peak(ss[..|ss| - 1], d, a) then
      assert ss[..|ss|] == ss;
      |ss|
    else
      var n := PeakAt(ss[..|ss| - 1], d, a);
      assert ss[..|ss| - 1][..n] == ss[..n];
      n
  }

  function Heads(streams: seq<seq<Statement>>, d: Direction, a: UUID): (ss: seq<seq<Statement>>)
    ensures |ss| == |streams|
  {
    seq(|streams|, i requires 0 <= i < |streams| => streams[i][..PeakAt(streams[i], d, a)])
  }

  function Tails(streams: seq<seq<Statement>>, d: Direction, a: UUID): (ss: seq<seq<Statement>>)
    ensures |ss| == |streams|
  {
    seq(|streams|, i requires 0 <= i < |streams| => streams[i][PeakAt(streams[i], d, a)..])
  }

  function Joined(xs: seq<seq<Statement>>, ys: seq<seq<Statement>>): (ss: seq<seq<Statement>>)
    requires |xs| == |ys|
    ensures |ss| == |xs|
  {
    seq(|xs|, i requires 0 <= i < |xs| => xs[i] + ys[i])
  }

  lemma {:induction false} HeadsReachPeaks(streams: seq<seq<Statement>>, d: Direction, a: UUID)
    ensures Move(Serial(Heads(streams, d, a)), d, a) == Peaks(streams, d, a)
  {
    if streams == [] {
      assert Serial(Heads(streams, d, a)) == [];
    } else {
      hide Move, Peak;
      var n := |streams| - 1;
      var heads := Heads(streams, d, a);
      assert heads[..n] == Heads(streams[..n], d, a);
      HeadsReachPeaks(streams[..n], d, a);
      MoveAppend(Serial(heads[..n]), heads[n], d, a);
    }
  }

  /** An interleaving of the first parts followed by one of the remaining parts. */
  lemma {:induction false} JoinedInterleaves(xs: seq<seq<Statement>>, ys: seq<seq<Statement>>,
                                             first: seq<Statement>, second: seq<Statement>)
    requires |xs| == |ys| && Interleaves(xs, first) && Interleaves(ys, second)
    ensures Interleaves(Joined(xs, ys), first + second)
    decreases |second|
  {
    if second == [] {
      assert forall k | 0 <= k < |xs| :: xs[k] + ys[k] == xs[k];
      assert Joined(xs, ys) == xs;
      assert first + second == first;
    } else {
      var k :| 0 <= k < |ys| && LastTaken(ys, second, k);
      var s, n := ys[k], |second| - 1;
      var shorter := ys[k := s[..|s| - 1]];
      JoinedInterleaves(xs, shorter, first, second[..n]);
      var joined, trace := Joined(xs, ys), first + second;
      assert joined[k][..|joined[k]| - 1] == xs[k] + s[..|s| - 1];
      assert joined[k := joined[k][..|joined[k]| - 1]] == Joined(xs, shorter);
      assert trace[..|trace| - 1] == first + second[..n];
      assert LastTaken(joined, trace, k);
    }
  }

  /** The order that first takes every stream to its peak. */
  lemma PeaksAreReached(t: Tables, streams: seq<seq<Statement>>, d: Direction, a: UUID)
    requires EveryInterleavingSucceeds(t, streams) && Active(t, a)
    ensures Fits(if d == Up then t.accounts[a].balance + Peaks(streams, Up, a)
                 else t.accounts[a].balance - Peaks(streams, Down, a))
  {
    hide Interleaves, ExecuteAll, Serial, SumOf;
    var heads, tails := Heads(streams, d, a), Tails(streams, d, a);
    SerialIsInterleaving(heads);
    SerialIsInterleaving(tails);
    JoinedInterleaves(heads, tails, Serial(heads), Serial(tails));
    assert forall i | 0 <= i < |streams| :: heads[i] + tails[i] == streams[i];
    assert Joined(heads, tails) == streams;
    assert ExecuteAll(t, Serial(heads) + Serial(tails)).1;
    FrontSucceeds(t, Serial(heads), Serial(tails));
    ExecutionEffect(t, Serial(heads), a);
    HeadsReachPeaks(streams, d, a);
  }

  lemma {:induction false} ExecutedIsAdmitted(t: Tables, ss: seq<Statement>)
    requires ExecuteAll(t, ss).1
    ensures forall s <- ss :: Admitted(t, s)
  {
    if ss != [] {
      var front, last := ss[..|ss| - 1], ss[|ss| - 1];
      ExecutedIsAdmitted(t, front);
      ExecutionRows(t, front);
      forall s <- ss ensures Admitted(t, s) {
        assert s in front || s == last;
      }
    }
  }

  /** Every interleaving succeeds exactly when the constraints admit every new entry and every account has
      room for all streams at their peaks. */
  lemma InterleavingHeadroomIsExact(t: Tables, streams: seq<seq<Statement>>)
    requires forall a <- t.accounts :: t.accounts[a].version <= MAX_INT32
    ensures EveryInterleavingSucceeds(t, streams) <==>
            (forall s <- Serial(streams) :: Admitted(t, s)) && (forall a :: PeakRoom(t, streams, a))
  {
    hide Interleaves, ExecuteAll, Serial, PeakRoom, Admitted;
    if (forall s <- Serial(streams) :: Admitted(t, s)) && (forall a :: PeakRoom(t, streams, a)) {
      forall trace: seq<Statement> | Interleaves(streams, trace) ensures ExecuteAll(t, trace).1 {
        RoomyInterleaving(t, streams, trace);
      }
    }
    if EveryInterleavingSucceeds(t, streams) {
      SerialIsInterleaving(streams);
      ExecutedIsAdmitted(t, Serial(streams));
      forall a ensures PeakRoom(t, streams, a) {
        SuccessNeedsPeakRoom(t, streams, a);
      }
    }
  }

  lemma RoomyInterleaving(t: Tables, streams: seq<seq<Statement>>, trace: seq<Statement>)
    requires (forall s <- Serial(streams) :: Admitted(t, s)) && (forall a :: PeakRoom(t, streams, a))
    requires Interleaves(streams, trace)
    ensures ExecuteAll(t, trace).1
  {
    hide Interleaves, ExecuteAll, Serial, PeakRoom, Admitted;
    InterleavingPermutes(streams, trace);
    forall s <- trace ensures Admitted(t, s) {
      assert s in multiset(trace);
      assert s in Serial(streams);
    }
    PeakRoomSuffices(t, streams, trace);
  }

  lemma SuccessNeedsPeakRoom(t: Tables, streams: seq<seq<Statement>>, a: UUID)
    requires forall b <- t.accounts :: t.accounts[b].version <= MAX_INT32
    requires EveryInterleavingSucceeds(t, streams)
    ensures PeakRoom(t, streams, a)
  {
    hide Interleaves, ExecuteAll, Serial, SumOf, Peaks;
    if Active(t, a) {
      PeaksAreReached(t, streams, Up, a);
      PeaksAreReached(t, streams, Down, a);
      SerialIsInterleaving(streams);
      assert ExecuteAll(t, Serial(streams)).1;
      ExecutionEffect(t, Serial(streams), a);
      VersionsWithinInt32(t, Serial(streams), a);
    }
  }

  // ---------- Totals and permuted streams ----------

  lemma {:induction false} PeakWithinSum(ss: seq<Statement>, a: UUID)
    ensures Peak(ss, Up, a) <= SumOf(ss, Raise, a)
    ensures Peak(ss, Down, a) <= SumOf(ss, Lower, a)
  {
    if ss != [] {
      hide Weight;
      PeakWithinSum(ss[..|ss| - 1], a);
    }
  }

  lemma {:induction false} PeaksWithinSums(streams: seq<seq<Statement>>, a: UUID)
    ensures Peaks(streams, Up, a) <= SumOf(Serial(streams), Raise, a)
    ensures Peaks(streams, Down, a) <= SumOf(Serial(streams), Lower, a)
  {
    if streams != [] {
      hide Peak;
      var front, last := streams[..|streams| - 1], streams[|streams| - 1];
      PeaksWithinSums(front, a);
      PeakWithinSum(last, a);
      SumOfAppend(Serial(front), last, Raise, a);
      SumOfAppend(Serial(front), last, Lower, a);
    }
  }

  lemma {:induction false} PeaksAppend(xs: seq<seq<Statement>>, ys: seq<seq<Statement>>, d: Direction, a: UUID)
    ensures Peaks(xs + ys, d, a) == Peaks(xs, d, a) + Peaks(ys, d, a)
    ensures Serial(xs + ys) == Serial(xs) + Serial(ys)
  {
    if ys == [] {
      assert xs + ys == xs;
    } else {
      hide Peak;
      assert (xs + ys)[..|xs + ys| - 1] == xs + ys[..|ys| - 1];
      PeaksAppend(xs, ys[..|ys| - 1], d, a);
    }
  }

  /** Taking one stream out takes its peak and its statements out. */
  lemma StreamRemoved(streams: seq<seq<Statement>>, k: nat, d: Direction, a: UUID)
    requires k < |streams|
    ensures var rest := streams[..k] + streams[k + 1..];
            && Peaks(streams, d, a) == Peaks(rest, d, a) + Peak(streams[k], d, a)
            && multiset(Serial(streams)) == multiset(Serial(rest)) + multiset(streams[k])
  {
    hide Peak;
    var upTo := streams[..k + 1];
    assert streams == upTo + streams[k + 1..] && upTo[..k] == streams[..k];
    PeaksAppend(upTo, streams[k + 1..], d, a);
    PeaksAppend(streams[..k], streams[k + 1..], d, a);
  }
}
