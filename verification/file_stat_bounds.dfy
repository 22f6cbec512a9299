/** What the numbers in a file's record say about the calls that were charged to it. */
module FileStatBounds {
  import opened FileStats
  import opened Maps
  import opened Words

  datatype Move = Move(ns: U64, bytes: S64)

  // ---- a file's record is determined by the calls charged to that file ----

  /** The durations of the opens (or closes) charged to a file, in order. */
  function Times(cs: seq<Charge>, name: string, open: bool): seq<U64> {
    if cs == [] then []
    else
      var init, last := Times(cs[..|cs| - 1], name, open), cs[|cs| - 1];
      if last.name != name then init
      else match last.op
        case Opened(ns) => if open then init + [ns] else init
        case Closed(ns) => if open then init else init + [ns]
        case _ => init
  }

  /** The reads (or writes) charged to a file, in order. */
  function Moves(cs: seq<Charge>, name: string, read: bool): seq<Move> {
    if cs == [] then []
    else
      var init, last := Moves(cs[..|cs| - 1], name, read), cs[|cs| - 1];
      if last.name != name then init
      else match last.op
        case Read(ns, bytes) => if read then init + [Move(ns, bytes)] else init
        case Written(ns, bytes) => if read then init else init + [Move(ns, bytes)]
        case _ => init
  }

  function TimedAll(ts: seq<U64>): OpenClose {
    if ts == [] then INIT_OPEN_CLOSE
    else Timed(TimedAll(ts[..|ts| - 1]), ts[|ts| - 1])
  }

  function MovedAll(ms: seq<Move>): ReadWrite {
    if ms == [] then INIT_READ_WRITE
    else Moved(MovedAll(ms[..|ms| - 1]), ms[|ms| - 1].ns, ms[|ms| - 1].bytes)
  }

  /** Calls on other files leave no trace in a file's record, and neither do reads in
      the write statistics or opens in the close statistics. */
  lemma {:induction false} RecordOfFile(cs: seq<Charge>, name: string)
    ensures StatOf(TableOf(cs), name)
         == FileStat(TimedAll(Times(cs, name, true)), TimedAll(Times(cs, name, false)),
                     MovedAll(Moves(cs, name, true)), MovedAll(Moves(cs, name, false)))
  {
    if cs != [] {
      RecordOfFile(cs[..|cs| - 1], name);
    }
  }

  /** A file has a record if and only if it was charged with a call, but for "NULL", which
      always has one. */
  lemma {:induction false} RecordedNames(cs: seq<Charge>, name: string)
    ensures name in TableOf(cs) <==> name == "NULL" || exists c :: c in cs && c.name == name
  {
    hide Updated;
    if cs != [] {
      var init, last := cs[..|cs| - 1], cs[|cs| - 1];
      RecordedNames(init, name);
      assert last in cs && forall c :: c in cs <==> c in init || c == last;
    }
  }

  // ---- opens and closes ----

  function Sum(ts: seq<U64>): nat {
    if ts == [] then 0 else Sum(ts[..|ts| - 1]) + ts[|ts| - 1]
  }

  /** Both counters are exact up to wrap-around. */
  lemma {:induction false} CountersWrap(ts: seq<U64>)
    ensures TimedAll(ts).count == Wrap(|ts|)
    ensures TimedAll(ts).totalNs == Wrap(Sum(ts))
  {
    hide Wrap;
    if ts == [] {
      WrapSmall(0);
    } else {
      var init, last := ts[..|ts| - 1], ts[|ts| - 1];
      CountersWrap(init);
      WrapAdd(|init|, 1);
      WrapAdd(Sum(init), last);
    }
  }

  /** Every charged duration lies between the recorded minimum and maximum; the maximum
      is one of the durations, and the minimum is one of them or still the initial value. */
  lemma {:induction false} Extremes(ts: seq<U64>)
    ensures var s := TimedAll(ts);
            && (forall t :: t in ts ==> s.minNs <= t <= s.maxNs)
            && s.minNs <= MIN_NS_INITIAL
            && (s.minNs == MIN_NS_INITIAL || s.minNs in ts)
            && (if ts == [] then s.maxNs == 0 else s.maxNs in ts)
  {
    hide Add64;
    if ts != [] {
      var init, last := ts[..|ts| - 1], ts[|ts| - 1];
      Extremes(init);
      assert last in ts && forall t :: t in ts <==> t in init || t == last;
    }
  }

  /** The reported minimum is the shortest duration exactly when some call
      took no longer than the initial value of the minimum. */
  lemma MinimumIsExact(ts: seq<U64>)
    requires ts != []
    ensures TimedAll(ts).minNs in ts <==> exists t :: t in ts && t <= 9_999_999_999_999
  {
    Extremes(ts);
  }

  lemma Distribute(n: nat, x: nat)
    ensures (n + 1) * x == n * x + x
  {}

  lemma {:induction false} SumBounds(ts: seq<U64>, lo: nat, hi: nat)
    requires forall t :: t in ts ==> lo <= t <= hi
    ensures |ts| * lo <= Sum(ts) <= |ts| * hi
  {
    if ts != [] {
      var init, last := ts[..|ts| - 1], ts[|ts| - 1];
      assert last in ts && forall t :: t in init ==> t in ts;
      SumBounds(init, lo, hi);
      Distribute(|init|, lo);
      Distribute(|init|, hi);
    }
  }

  /** Absent overflow the mean lies between the minimum and the maximum. */
  lemma MeanBetweenExtremes(ts: seq<U64>)
    requires |ts| < TWO64 && Sum(ts) < TWO64
    ensures var s := TimedAll(ts);
            && s.count * s.minNs <= s.totalNs <= s.count * s.maxNs
            && (s.count > 0 ==> s.minNs <= s.maxNs)
  {
    hide TimedAll, Wrap;
    CountersWrap(ts);
    WrapSmall(|ts|);
    WrapSmall(Sum(ts));
    Extremes(ts);
    var s := TimedAll(ts);
    SumBounds(ts, s.minNs, s.maxNs);
    if s.count > 0 {
      assert ts[0] in ts;
    }
  }

  // ---- transfer rates ----

  function Pos(bytes: int): nat {
    if bytes > 0 then bytes else 0
  }

  function SumNs(ms: seq<Move>): nat {
    if ms == [] then 0 else SumNs(ms[..|ms| - 1]) + ms[|ms| - 1].ns
  }

  /** The bytes moved; failed calls and ends of file move none. */
  function SumBytes(ms: seq<Move>): nat {
    if ms == [] then 0 else SumBytes(ms[..|ms| - 1]) + Pos(ms[|ms| - 1].bytes)
  }

  lemma MovedFields(s: ReadWrite, ns: U64, bytes: S64)
    ensures Moved(s, ns, bytes).totalB == Wrap(s.totalB + Pos(bytes))
    ensures Moved(s, ns, bytes).totalNs == Wrap(s.totalNs + ns)
    ensures Moved(s, ns, bytes).blocks == Bumped(s.blocks, bytes)
    ensures Moved(s, ns, bytes).minBps == if bytes > 0 then MinRate(s.minBps, RateOf(ns, bytes)) else s.minBps
    ensures Moved(s, ns, bytes).maxBps == if bytes > 0 then MaxRate(s.maxBps, RateOf(ns, bytes)) else s.maxBps
  {
    WrapSmall(s.totalB);
  }

  lemma {:induction false} TotalsWrap(ms: seq<Move>)
    ensures MovedAll(ms).totalNs == Wrap(SumNs(ms))
    ensures MovedAll(ms).totalB == Wrap(SumBytes(ms))
  {
    hide Wrap, Moved, Pos;
    if ms == [] {
      WrapSmall(0);
    } else {
      var init, last := ms[..|ms| - 1], ms[|ms| - 1];
      TotalsWrap(init);
      MovedFields(MovedAll(init), last.ns, last.bytes);
      WrapAdd(SumNs(init), last.ns);
      WrapAdd(SumBytes(init), Pos(last.bytes));
    }
  }

  /** a divided by b is at most the given rate. */
  predicate AtMost(bytes: nat, ns: nat, rate: Rate) {
    rate.Finite? ==> bytes as real * 1_000_000_000.0 <= rate.value * ns as real
  }

  predicate AtLeast(bytes: nat, ns: nat, rate: Rate) {
    rate.Finite? && rate.value * ns as real <= bytes as real * 1_000_000_000.0
  }

  lemma RateTimesTime(ns: U64, bytes: S64)
    requires ns > 0
    ensures RateOf(ns, bytes).Finite?
    ensures RateOf(ns, bytes).value * ns as real == bytes as real * 1_000_000_000.0
  {
    var b, n := bytes as real, ns as real;
    var s := n / 1_000_000_000.0;
    assert s * 1_000_000_000.0 == n;
    assert (b / s) * s == b;
    assert (b / s) * n == (b / s) * s * 1_000_000_000.0;
  }

  lemma ScaleUp(a: real, b: real, t: real)
    requires a <= b && t >= 0.0
    ensures a * t <= b * t
  {}

  lemma SplitTime(rate: real, ns: nat, ns': nat)
    ensures rate * (ns + ns') as real == rate * ns as real + rate * ns' as real
  {}

  /** At any rate at least its own a call moves no more bytes than in its time. */
  lemma CallBelowMaximum(call: Move, max: Rate)
    requires max.Finite? && !Below(max, Finite(0.0))
    requires call.bytes > 0 ==> !Below(max, RateOf(call.ns, call.bytes))
    ensures Pos(call.bytes) as real * 1_000_000_000.0 <= max.value * call.ns as real
  {
    if call.bytes > 0 {
      assert call.ns > 0;
      hide RateOf;
      RateTimesTime(call.ns, call.bytes);
      ScaleUp(RateOf(call.ns, call.bytes).value, max.value, call.ns as real);
    } else {
      ScaleUp(0.0, max.value, call.ns as real);
    }
  }

  /** One more call raises the maximum far enough to keep it above the mean. */
  lemma MaximumStep(bytes: nat, ns: nat, max: Rate, call: Move)
    requires AtMost(bytes, ns, max) && !Below(max, Finite(0.0))
    ensures var max' := if call.bytes > 0 then MaxRate(max, RateOf(call.ns, call.bytes)) else max;
            AtMost(bytes + Pos(call.bytes), ns + call.ns, max')
  {
    hide RateOf, Pos;
    var max' := if call.bytes > 0 then MaxRate(max, RateOf(call.ns, call.bytes)) else max;
    if max'.Finite? {
      ScaleUp(max.value, max'.value, ns as real);
      CallBelowMaximum(call, max');
      SplitTime(max'.value, ns, call.ns);
    }
  }

  /** At any rate at most its own a call moves no fewer bytes than in its time. */
  lemma CallAboveMinimum(call: Move, min: Rate)
    requires call.bytes > 0 && min.Finite? && !Below(RateOf(call.ns, call.bytes), min)
    ensures min.value * call.ns as real <= call.bytes as real * 1_000_000_000.0
  {
    hide RateOf;
    if call.ns > 0 {
      RateTimesTime(call.ns, call.bytes);
      ScaleUp(min.value, RateOf(call.ns, call.bytes).value, call.ns as real);
    } else {
      assert call.ns as real == 0.0;
    }
  }

  /** One more call that moves bytes lowers the minimum far enough to keep it below the mean. */
  lemma MinimumStep(bytes: nat, ns: nat, min: Rate, call: Move)
    requires AtLeast(bytes, ns, min) && call.bytes > 0
    ensures AtLeast(bytes + call.bytes, ns + call.ns, MinRate(min, RateOf(call.ns, call.bytes)))
  {
    hide RateOf;
    var min' := MinRate(min, RateOf(call.ns, call.bytes));
    ScaleUp(min'.value, min.value, ns as real);
    CallAboveMinimum(call, min');
    SplitTime(min'.value, ns, call.ns);
  }

  lemma RatesArePositive(ns: U64, bytes: S64)
    ensures bytes > 0 ==> !Below(RateOf(ns, bytes), Finite(0.0))
  {}

  lemma {:induction false} RateInvariant(ms: seq<Move>)
    ensures !Below(MovedAll(ms).maxBps, Finite(0.0))
    ensures AtMost(SumBytes(ms), SumNs(ms), MovedAll(ms).maxBps)
    ensures (forall m :: m in ms ==> m.bytes > 0) ==> AtLeast(SumBytes(ms), SumNs(ms), MovedAll(ms).minBps)
  {
    if ms != [] {
      var init, last := ms[..|ms| - 1], ms[|ms| - 1];
      RateInvariant(init);
      var s := MovedAll(init);
      MovedFields(s, last.ns, last.bytes);
      RatesArePositive(last.ns, last.bytes);
      hide Moved, RateOf, Bumped, AtMost, AtLeast;
      MaximumStep(SumBytes(init), SumNs(init), s.maxBps, last);
      if forall m :: m in ms ==> m.bytes > 0 {
        assert last in ms;
        assert forall m :: m in init ==> m in ms;
        MinimumStep(SumBytes(init), SumNs(init), s.minBps, last);
      }
    }
  }

  /** The rate of every call that moved bytes lies between the recorded minimum and maximum;
      each of the two is the rate of such a call or still its initial value. */
  lemma {:induction false} RateExtremes(ms: seq<Move>)
    ensures var s := MovedAll(ms);
            && (forall m :: m in ms && m.bytes > 0 ==>
                 !Below(RateOf(m.ns, m.bytes), s.minBps) && !Below(s.maxBps, RateOf(m.ns, m.bytes)))
            && (s.minBps == MIN_BPS_INITIAL || exists m :: m in ms && m.bytes > 0 && s.minBps == RateOf(m.ns, m.bytes))
            && (s.maxBps == Finite(0.0) || exists m :: m in ms && m.bytes > 0 && s.maxBps == RateOf(m.ns, m.bytes))
  {
    if ms != [] {
      var init, last := ms[..|ms| - 1], ms[|ms| - 1];
      RateExtremes(init);
      assert last in ms && forall m :: m in ms <==> m in init || m == last;
      hide RateOf, Bumped;
    }
  }

  /** Absent overflow the overall rate never exceeds the recorded maximum, although the
      total time also counts failed calls; it is not below the recorded minimum if every
      call moved bytes. */
  lemma OverallRateBetweenExtremes(ms: seq<Move>)
    requires SumNs(ms) < TWO64 && SumBytes(ms) < TWO64
    ensures AtMost(MovedAll(ms).totalB, MovedAll(ms).totalNs, MovedAll(ms).maxBps)
    ensures (forall m :: m in ms ==> m.bytes > 0) ==>
              AtLeast(MovedAll(ms).totalB, MovedAll(ms).totalNs, MovedAll(ms).minBps)
  {
    hide AtMost, AtLeast, MovedAll, Wrap;
    WrapSmall(SumNs(ms));
    WrapSmall(SumBytes(ms));
    TotalsWrap(ms);
    RateInvariant(ms);
  }

  lemma {:induction false} MinimumStaysLow(ms: seq<Move>)
    ensures !Below(MIN_BPS_INITIAL, MovedAll(ms).minBps)
  {
    if ms != [] {
      MinimumStaysLow(ms[..|ms| - 1]);
      MovedFields(MovedAll(ms[..|ms| - 1]), ms[|ms| - 1].ns, ms[|ms| - 1].bytes);
      hide Moved, RateOf;
    }
  }

  /** The reported minimum is the rate of a call that moved bytes exactly when some such
      call was no faster than the initial value of the minimum. */
  lemma MinimumRateIsExact(ms: seq<Move>)
    ensures (exists m :: m in ms && m.bytes > 0 && MovedAll(ms).minBps == RateOf(m.ns, m.bytes))
       <==> (exists m :: m in ms && m.bytes > 0 && !Below(Finite(9_999_999_999_999.0), RateOf(m.ns, m.bytes)))
  {
    hide MovedAll, RateOf;
    RateExtremes(ms);
    MinimumStaysLow(ms);
  }

  /** The mean rate is at least the recorded minimum. */
  predicate MeanAboveMinimum(s: ReadWrite) {
    AtLeast(s.totalB, s.totalNs, s.minBps)
  }

  /** The call moves bytes, or the time it takes still leaves the mean rate high enough. */
  predicate LeavesRoom(s: ReadWrite, m: Move) {
    m.bytes > 0 || AtLeast(s.totalB, s.totalNs + m.ns, s.minBps)
  }

  predicate MeanAboveMinimumThroughout(ms: seq<Move>) {
    MeanAboveMinimum(MovedAll(ms)) && (ms != [] ==> MeanAboveMinimumThroughout(ms[..|ms| - 1]))
  }

  predicate LeavesRoomThroughout(ms: seq<Move>) {
    ms != [] ==> LeavesRoom(MovedAll(ms[..|ms| - 1]), ms[|ms| - 1]) && LeavesRoomThroughout(ms[..|ms| - 1])
  }

  /** Absent overflow one more call keeps the mean rate above the minimum exactly if it
      leaves room. */
  lemma MeanStep(s: ReadWrite, m: Move)
    requires MeanAboveMinimum(s)
    requires s.totalB + Pos(m.bytes) < TWO64 && s.totalNs + m.ns < TWO64
    ensures MeanAboveMinimum(Moved(s, m.ns, m.bytes)) <==> LeavesRoom(s, m)
  {
    hide Moved, AtLeast, RateOf, MinRate, Bumped, Wrap;
    MovedFields(s, m.ns, m.bytes);
    WrapSmall(s.totalB + Pos(m.bytes));
    WrapSmall(s.totalNs + m.ns);
    if m.bytes > 0 {
      MinimumStep(s.totalB, s.totalNs, s.minBps, m);
    }
  }

  /** Absent overflow the mean rate is at least the recorded minimum throughout a sequence of
      calls exactly when every call that moves nothing leaves room for the time it takes. */
  lemma {:induction false} MeanAboveMinimumExactly(ms: seq<Move>)
    requires SumNs(ms) < TWO64 && SumBytes(ms) < TWO64
    ensures MeanAboveMinimumThroughout(ms) <==> LeavesRoomThroughout(ms)
  {
    hide Moved, MeanAboveMinimum, LeavesRoom, Wrap, Pos;
    if ms == [] {
      NothingMoved();
    } else {
      var init, last := ms[..|ms| - 1], ms[|ms| - 1];
      MeanAboveMinimumExactly(init);
      if MeanAboveMinimumThroughout(init) {
        TotalsWrap(init);
        WrapSmall(SumNs(init));
        WrapSmall(SumBytes(init));
        MeanStep(MovedAll(init), last);
      }
    }
  }

  lemma NothingMoved()
    ensures MeanAboveMinimum(INIT_READ_WRITE)
  {}

  /** A failed call is enough to push the overall rate below the recorded minimum. */
  lemma FailedCallBreaksMinimum()
    ensures var s := MovedAll([Move(1_000_000_000, 10), Move(1_000_000_000, -4)]);
            !AtLeast(s.totalB, s.totalNs, s.minBps)
  {
    var ms := [Move(1_000_000_000, 10), Move(1_000_000_000, -4)];
    assert ms[..1] == [Move(1_000_000_000, 10)];
    assert ms[..1][..0] == [];
    assert MovedAll(ms[..1]) == Moved(INIT_READ_WRITE, 1_000_000_000, 10);
    RateTimesTime(1_000_000_000, 10);
  }

  // ---- histograms ----

  function Counts(blocks: Blocks): map<int, int> {
    map k | k in blocks :: blocks[k].count
  }

  function Weights(blocks: Blocks): map<int, int> {
    map k | k in blocks :: Pos(blocks[k].size) * blocks[k].count
  }

  /** The histogram accounts for all bytes. */
  ghost predicate HistogramAgrees(s: ReadWrite) {
    Wrap(Total(Weights(s.blocks))) == s.totalB
  }

  function CountAt(blocks: Blocks, k: int): U64 {
    if k in blocks then blocks[k].count else 0
  }

  /** The size under which a call of the given size is counted. */
  function StoredSize(blocks: Blocks, bytes: S64): S64 {
    if Low32(bytes) in blocks then blocks[Low32(bytes)].size else bytes
  }

  /** Replacing a summand by its wrapped successor raises the wrapped sum by one. */
  lemma CountArithmetic(total: int, count: U64)
    ensures Wrap(total - count + Add64(count, 1)) == Wrap(total + 1)
  {
    if count + 1 == TWO64 {
      assert Add64(count, 1) == 0;
      WrapShift(total + 1, -1);
    } else {
      WrapSmall(count + 1);
    }
  }

  lemma WeightArithmetic(total: int, size: int, count: U64)
    ensures Wrap(total - size * count + size * Add64(count, 1)) == Wrap(total + size)
  {
    if count + 1 == TWO64 {
      assert Add64(count, 1) == 0;
      WrapShift(total + size, -size);
      assert size * count == size * TWO64 - size;
    } else {
      WrapSmall(count + 1);
      assert size * (count + 1) == size * count + size;
    }
  }

  lemma CountStep(blocks: Blocks, bytes: S64)
    ensures Wrap(Total(Counts(Bumped(blocks, bytes)))) == Wrap(Total(Counts(blocks)) + 1)
  {
    var k := Low32(bytes);
    var count := CountAt(blocks, k);
    assert Add64(0, 1) == 1;
    assert Counts(Bumped(blocks, bytes)) == Counts(blocks)[k := Add64(count, 1)];
    TotalUpdate(Counts(blocks), k, Add64(count, 1));
    assert (if k in Counts(blocks) then Counts(blocks)[k] else 0) == count;
    hide Counts, Bumped, Add64, Wrap, Low32;
    CountArithmetic(Total(Counts(blocks)), count);
  }

  lemma WeightStep(blocks: Blocks, bytes: S64)
    ensures Wrap(Total(Weights(Bumped(blocks, bytes)))) == Wrap(Total(Weights(blocks)) + Pos(StoredSize(blocks, bytes)))
  {
    var k, size := Low32(bytes), Pos(StoredSize(blocks, bytes));
    var count := CountAt(blocks, k);
    assert Add64(0, 1) == 1;
    assert Weights(Bumped(blocks, bytes)) == Weights(blocks)[k := size * Add64(count, 1)];
    TotalUpdate(Weights(blocks), k, size * Add64(count, 1));
    assert (if k in Weights(blocks) then Weights(blocks)[k] else 0) == size * count;
    hide Weights, Bumped, Add64, Wrap;
    WeightArithmetic(Total(Weights(blocks)), size, count);
  }

  /** The slot counts always add up to the number of calls. */
  lemma {:induction false} HistogramCountsCalls(ms: seq<Move>)
    ensures Wrap(Total(Counts(MovedAll(ms).blocks))) == Wrap(|ms|)
  {
    hide Moved, Bumped, Wrap;
    if ms == [] {
      assert Counts(map[]) == map[];
    } else {
      var init, last := ms[..|ms| - 1], ms[|ms| - 1];
      HistogramCountsCalls(init);
      MovedFields(MovedAll(init), last.ns, last.bytes);
      CountStep(MovedAll(init).blocks, last.bytes);
      WrapAdd(Total(Counts(MovedAll(init).blocks)), 1);
      WrapAdd(|init|, 1);
    }
  }

  /** The calls that fall into a slot, in order. */
  function InSlot(ms: seq<Move>, k: int): seq<Move> {
    if ms == [] then []
    else
      var init, last := InSlot(ms[..|ms| - 1], k), ms[|ms| - 1];
      if Low32(last.bytes) == k then init + [last] else init
  }

  /** There is a slot for the low 32 bits of every size that occurred, and for no others; its
      count is the number of calls that fall into it, up to wrap-around, and the size that it
      stores is that of the first of them. */
  lemma {:induction false} SlotsAreExact(ms: seq<Move>, k: int)
    ensures var blocks, calls := MovedAll(ms).blocks, InSlot(ms, k);
            && (k in blocks <==> calls != [])
            && (calls != [] ==> blocks[k].size == calls[0].bytes)
            && (calls != [] ==> blocks[k].count == |calls| % 0x1_0000_0000_0000_0000)
  {
    hide Moved, Low32;
    if ms != [] {
      var init, last := ms[..|ms| - 1], ms[|ms| - 1];
      SlotsAreExact(init, k);
      MovedFields(MovedAll(init), last.ns, last.bytes);
      WrapAdd(|InSlot(init, k)|, 1);
    }
  }

  /** The call falls into a slot that stores a size with the same number of moved bytes. */
  predicate SlotMatches(blocks: Blocks, bytes: S64) {
    Low32(bytes) in blocks ==> Pos(blocks[Low32(bytes)].size) == Pos(bytes)
  }

  lemma HistogramStep(s: ReadWrite, m: Move)
    requires HistogramAgrees(s)
    ensures HistogramAgrees(Moved(s, m.ns, m.bytes)) <==> SlotMatches(s.blocks, m.bytes)
  {
    hide Moved, Bumped, Weights, Low32, Wrap;
    WeightStep(s.blocks, m.bytes);
    MovedFields(s, m.ns, m.bytes);
    var total, size := Total(Weights(s.blocks)), Pos(StoredSize(s.blocks, m.bytes));
    WrapAdd(total, Pos(m.bytes));
    WrapCancel(total, size, Pos(m.bytes));
  }

  ghost predicate AgreesThroughout(ms: seq<Move>) {
    HistogramAgrees(MovedAll(ms)) && (ms != [] ==> AgreesThroughout(ms[..|ms| - 1]))
  }

  ghost predicate MatchesThroughout(ms: seq<Move>) {
    ms != [] ==>
      && SlotMatches(MovedAll(ms[..|ms| - 1]).blocks, ms[|ms| - 1].bytes)
      && MatchesThroughout(ms[..|ms| - 1])
  }

  /** The histogram accounts for all bytes throughout a sequence of calls exactly when no
      call lands in a slot whose stored size differs from its own in the bytes moved. */
  lemma {:induction false} HistogramAgreesExactly(ms: seq<Move>)
    ensures AgreesThroughout(ms) <==> MatchesThroughout(ms)
  {
    if ms == [] {
      assert Weights(map[]) == map[];
    } else {
      var init, last := ms[..|ms| - 1], ms[|ms| - 1];
      HistogramAgreesExactly(init);
      if AgreesThroughout(init) {
        HistogramStep(MovedAll(init), last);
      }
      hide HistogramAgrees, SlotMatches, Moved;
    }
  }

  /** Sizes that fit in an int, as all the kernel transfers in one call do, are safe. */
  lemma {:induction false} FittingSizesAgree(ms: seq<Move>)
    requires forall m :: m in ms ==> FitsInt(m.bytes)
    ensures HistogramAgrees(MovedAll(ms))
    ensures forall k :: k in MovedAll(ms).blocks ==> MovedAll(ms).blocks[k].size == k
  {
    if ms == [] {
      assert Weights(map[]) == map[];
    } else {
      var init, last := ms[..|ms| - 1], ms[|ms| - 1];
      assert last in ms;
      FittingSizesAgree(init);
      Low32Idempotent(last.bytes);
      HistogramStep(MovedAll(init), last);
    }
  }

  /** Two sizes that differ by 2^32 share a slot, and the larger one is lost. */
  lemma AliasedSizesDisagree()
    ensures var ms := [Move(1, 1), Move(1, 0x1_0000_0001)];
            !HistogramAgrees(MovedAll(ms))
  {
    var ms := [Move(1, 1), Move(1, 0x1_0000_0001)];
    FittingSizesAgree(ms[..1]);
    assert ms[..1] == [Move(1, 1)] && ms[..1][..0] == [];
    assert MovedAll(ms[..1]) == Moved(INIT_READ_WRITE, 1, 1);
    HistogramStep(MovedAll(ms[..1]), ms[1]);
  }
}
