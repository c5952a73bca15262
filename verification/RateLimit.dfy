/** The token bucket (src/RateLimit.cpp:13-39): a counter that is refilled when enough ticks
    of a 32-bit clock have passed, and an upper bound on what it lets through. */
module RateLimits {
  const CLOCK_RANGE := 0x1_0000_0000
  const INT_RANGE := 0x8000_0000

  type Clock = t: nat | t < CLOCK_RANGE

  datatype Bucket = Bucket(lastUpdate: Clock, counter: int)

  /** The settings; the sums that the limiter forms have to fit into an int. */
  datatype Limits = Limits(timeBase: nat, rate: nat, peak: nat) {
    predicate Fit() {
      timeBase < CLOCK_RANGE && rate + peak < INT_RANGE
    }
  }

  /** One call: the clock is read when the call starts and again when it refills. */
  datatype Call = Call(at: nat, stamp: nat, size: nat)

  function Reading(ticks: nat): Clock {
    ticks % CLOCK_RANGE
  }

  /** Subtraction of unsigned 32-bit numbers. */
  function Elapsed(now: Clock, since: Clock): Clock {
    (now - since) % CLOCK_RANGE
  }

  function Min(a: int, b: int): int {
    if a < b then a else b
  }

  predicate Refills(b: Bucket, limits: Limits, now: Clock) {
    Elapsed(now, b.lastUpdate) > limits.timeBase
  }

  function Refilled(b: Bucket, limits: Limits, now: Clock, stamp: Clock): Bucket {
    if Refills(b, limits, now) then Bucket(stamp, Min(limits.peak, b.counter + limits.rate)) else b
  }

  predicate Dropped(b: Bucket, limits: Limits, now: Clock, stamp: Clock) {
    Refilled(b, limits, now, stamp).counter <= 0
  }

  function Next(b: Bucket, limits: Limits, now: Clock, stamp: Clock, size: nat): Bucket {
    var b' := Refilled(b, limits, now, stamp);
    if b'.counter <= 0 then b' else b'.(counter := b'.counter - size)
  }

  // ---------- the same in machine words ----------

  type Word = w: nat | w < CLOCK_RANGE

  /** The int with the same 32 bits. */
  function AsInt(x: int): (r: int)
    ensures -INT_RANGE <= r < INT_RANGE
    ensures -INT_RANGE <= x < INT_RANGE ==> r == x
  {
    var w := x % CLOCK_RANGE;
    if w >= INT_RANGE then w - CLOCK_RANGE else w
  }

  /** The addition of ints does not overflow, for which C++ has no meaning. */
  predicate Defined(b: Bucket, timeBase: nat, rate: Word, now: Clock) {
    Elapsed(now, b.lastUpdate) > timeBase ==> -INT_RANGE <= b.counter + AsInt(rate) < INT_RANGE
  }

  function WordRefilled(b: Bucket, timeBase: nat, rate: Word, peak: Word, now: Clock, stamp: Clock): Bucket {
    if Elapsed(now, b.lastUpdate) > timeBase
    then Bucket(stamp, Min(AsInt(peak), b.counter + AsInt(rate))) else b
  }

  /** Subtracting an unsigned number from an int is done in 32 bits. */
  function WordNext(b: Bucket, timeBase: nat, rate: Word, peak: Word, now: Clock, stamp: Clock, size: Word): Bucket {
    var b' := WordRefilled(b, timeBase, rate, peak, now, stamp);
    if b'.counter <= 0 then b' else b'.(counter := AsInt(b'.counter - size))
  }

  /** The largest size that can be taken from a counter of 1 without wrapping around. */
  const LARGEST_SIZE := INT_RANGE + 1

  /** As long as the settings fit and no size is larger than that, words are numbers. */
  lemma WordsAreNumbers(b: Bucket, limits: Limits, now: Clock, stamp: Clock, size: nat)
    requires limits.Fit() && size <= LARGEST_SIZE && -INT_RANGE <= b.counter <= limits.peak
    ensures Defined(b, limits.timeBase, limits.rate, now)
    ensures WordRefilled(b, limits.timeBase, limits.rate, limits.peak, now, stamp) == Refilled(b, limits, now, stamp)
    ensures WordNext(b, limits.timeBase, limits.rate, limits.peak, now, stamp, size)
         == Next(b, limits, now, stamp, size)
    ensures -INT_RANGE <= Next(b, limits, now, stamp, size).counter <= limits.peak
  {
    hide AsInt, Elapsed;
  }

  // ---------- the limiter ----------

  class DynRateLimit {
    var lastUpdate: Clock
    var counter: int
    const timeBase: nat

    /** The clock has a resolution of 20 milliseconds. */
    constructor (timeBaseMs: nat)
      ensures timeBase == timeBaseMs / 20 && State() == Bucket(0, 0)
    {
      timeBase := timeBaseMs / 20;
      lastUpdate, counter := 0, 0;
    }

    ghost function State(): Bucket
      reads this
    {
      Bucket(lastUpdate, counter)
    }

    method Limit(rate: Word, peak: Word, size: Word, now: Clock, stamp: Clock) returns (limited: bool)
      requires -INT_RANGE <= counter < INT_RANGE && Defined(State(), timeBase, rate, now)
      modifies this
      ensures limited <==> WordRefilled(old(State()), timeBase, rate, peak, now, stamp).counter <= 0
      ensures State() == WordNext(old(State()), timeBase, rate, peak, now, stamp, size)
      ensures -INT_RANGE <= counter < INT_RANGE
    {
      if Elapsed(now, lastUpdate) > timeBase {
        UpdateLimit(AsInt(rate), AsInt(peak), stamp);
      }
      if counter <= 0 {
        return true;
      }
      counter := AsInt(counter - size);
      return false;
    }

    method UpdateLimit(rate: int, peak: int, stamp: Clock)
      requires -INT_RANGE <= counter + rate < INT_RANGE
      modifies this
      ensures State() == Bucket(stamp, Min(peak, old(counter) + rate))
    {
      counter := Min(peak, counter + rate);
      lastUpdate := stamp;
    }
  }

  // ---------- runs ----------

  /** Calls come in the order of time, each refilling at most when it is made. */
  predicate Timely(calls: seq<Call>) {
    && (forall i :: 0 <= i < |calls| ==> calls[i].at <= calls[i].stamp)
    && (forall i :: 0 < i < |calls| ==> calls[i - 1].stamp <= calls[i].at)
  }

  predicate SizesUpTo(calls: seq<Call>, s: nat) {
    forall i :: 0 <= i < |calls| ==> calls[i].size <= s
  }

  function After(b: Bucket, limits: Limits, calls: seq<Call>): Bucket {
    if calls == [] then b
    else
      var c := calls[|calls| - 1];
      Next(After(b, limits, calls[..|calls| - 1]), limits, Reading(c.at), Reading(c.stamp), c.size)
  }

  /** The total size that was let through. */
  function Admitted(b: Bucket, limits: Limits, calls: seq<Call>): nat {
    if calls == [] then 0
    else
      var c, before := calls[|calls| - 1], After(b, limits, calls[..|calls| - 1]);
      Admitted(b, limits, calls[..|calls| - 1])
      + if Dropped(before, limits, Reading(c.at), Reading(c.stamp)) then 0 else c.size
  }

  /** How often the bucket was refilled. */
  function Refillings(b: Bucket, limits: Limits, calls: seq<Call>): nat {
    if calls == [] then 0
    else
      var c, before := calls[|calls| - 1], After(b, limits, calls[..|calls| - 1]);
      Refillings(b, limits, calls[..|calls| - 1]) + if Refills(before, limits, Reading(c.at)) then 1 else 0
  }

  /** The ticks from the first call to the end of the last. */
  function Span(calls: seq<Call>): nat
    requires Timely(calls)
  {
    if calls == [] then 0 else OrderIs(calls); calls[|calls| - 1].stamp - calls[0].at
  }

  lemma {:induction false} OrderIs(calls: seq<Call>)
    requires Timely(calls) && calls != []
    ensures calls[0].at <= calls[|calls| - 1].at
  {
    if |calls| > 1 {
      OrderIs(calls[..|calls| - 1]);
    }
  }

  /** A clock that has wrapped around shows less time than has passed, never more. */
  lemma ElapsedAtMost(now: nat, since: nat)
    requires since <= now
    ensures Elapsed(Reading(now), Reading(since)) <= now - since
    ensures now - since < CLOCK_RANGE ==> Elapsed(Reading(now), Reading(since)) == now - since
  {
    SubtractModulo(now, since);
  }

  lemma SubtractModulo(a: nat, b: nat)
    requires b <= a
    ensures (a % CLOCK_RANGE - b % CLOCK_RANGE) % CLOCK_RANGE == (a - b) % CLOCK_RANGE
  {
    var k := a / CLOCK_RANGE - b / CLOCK_RANGE;
    assert a - b == (a % CLOCK_RANGE - b % CLOCK_RANGE) + k * CLOCK_RANGE;
    ModuloShift(a % CLOCK_RANGE - b % CLOCK_RANGE, k);
  }

  lemma ModuloShift(x: int, k: int)
    ensures (x + k * CLOCK_RANGE) % CLOCK_RANGE == x % CLOCK_RANGE
  {}

  /** The last refilling of a run was stamped at tick `s`, and since the first one more ticks
      than the time base have passed for each. */
  predicate LastStamp(b: Bucket, limits: Limits, calls: seq<Call>, s: nat)
    requires calls != []
  {
    && calls[0].at <= s <= calls[|calls| - 1].stamp
    && After(b, limits, calls).lastUpdate == Reading(s)
    && (Refillings(b, limits, calls) - 1) * (limits.timeBase + 1) <= s - calls[0].at
  }

  lemma {:induction false} RefillingsApart(b: Bucket, limits: Limits, calls: seq<Call>)
    requires calls != [] && Timely(calls) && Refillings(b, limits, calls) > 0
    ensures exists s: nat :: LastStamp(b, limits, calls, s)
  {
    var n := |calls| - 1;
    var c, earlier := calls[n], calls[..n];
    OrderIs(calls);
    if n == 0 || Refillings(b, limits, earlier) == 0 {
      assert n == 0 ==> earlier == [];
      assert LastStamp(b, limits, calls, c.stamp);
    } else {
      RefillingsApart(b, limits, earlier);
      var s: nat :| LastStamp(b, limits, earlier, s);
      ElapsedAtMost(c.at, s);
      StampMoves(b, limits, calls, s);
    }
  }

  lemma StampMoves(b: Bucket, limits: Limits, calls: seq<Call>, s: nat)
    requires |calls| > 1 && Timely(calls)
    requires LastStamp(b, limits, calls[..|calls| - 1], s)
    requires Elapsed(Reading(calls[|calls| - 1].at), Reading(s)) <= calls[|calls| - 1].at - s
    ensures exists s: nat :: LastStamp(b, limits, calls, s)
  {
    hide Reading, Elapsed;
    var n := |calls| - 1;
    var c, before := calls[n], After(b, limits, calls[..n]);
    var count: int := Refillings(b, limits, calls[..n]);
    OneMoreTime(count - 1, limits.timeBase + 1);
    if Refills(before, limits, Reading(c.at)) {
      assert c.at - s >= limits.timeBase + 1;
      assert LastStamp(b, limits, calls, c.stamp);
    } else {
      assert LastStamp(b, limits, calls, s);
    }
  }

  lemma {:induction false} RefillingsBound(b: Bucket, limits: Limits, calls: seq<Call>)
    requires Timely(calls)
    ensures Refillings(b, limits, calls) <= Span(calls) / (limits.timeBase + 1) + 1
  {
    if Refillings(b, limits, calls) > 0 {
      RefillingsApart(b, limits, calls);
      var s: nat :| LastStamp(b, limits, calls, s);
      QuotientAtLeast(Refillings(b, limits, calls) - 1, limits.timeBase + 1, Span(calls));
    }
  }

  lemma QuotientAtLeast(k: nat, d: nat, x: nat)
    requires d > 0 && k * d <= x
    ensures k <= x / d
  {
    var q := x / d;
    assert x < (q + 1) * d;
    if q + 1 <= k {
      MoreTimes(q + 1, k, d);
    }
  }

  /** What was let through was in the bucket or was filled in, but for the last call that
      may overdraw it. */
  lemma {:induction false} Balance(b: Bucket, limits: Limits, calls: seq<Call>, s: nat)
    requires b.counter <= limits.peak && SizesUpTo(calls, s)
    ensures var end := After(b, limits, calls);
      && end.counter <= limits.peak
      && Admitted(b, limits, calls) + end.counter <= b.counter + Refillings(b, limits, calls) * limits.rate
      && (Admitted(b, limits, calls) > 0 ==> end.counter >= 1 - s)
  {
    hide Next, Refills, Reading, Dropped;
    if calls != [] {
      var n := |calls| - 1;
      Balance(b, limits, calls[..n], s);
      var count, c := Refillings(b, limits, calls[..n]), calls[n];
      OneCall(After(b, limits, calls[..n]), limits, Reading(c.at), Reading(c.stamp), c.size);
      OneMoreTime(count, limits.rate);
    }
  }

  lemma OneCall(b: Bucket, limits: Limits, now: Clock, stamp: Clock, size: nat)
    requires b.counter <= limits.peak
    ensures var end := Next(b, limits, now, stamp, size);
      && end.counter <= limits.peak
      && end.counter + (if Dropped(b, limits, now, stamp) then 0 else size)
         <= b.counter + (if Refills(b, limits, now) then limits.rate else 0)
      && (if Dropped(b, limits, now, stamp) then end.counter >= b.counter else end.counter >= 1 - size)
  {
    hide Refills;
  }

  lemma OneMoreTime(k: int, x: int)
    ensures (k + 1) * x == k * x + x
  {}

  /** The bound on what is let through, whatever the clock does in the meantime. */
  lemma {:induction false} AdmittedBound(b: Bucket, limits: Limits, calls: seq<Call>, s: nat)
    requires b.counter <= limits.peak && s >= 1
    requires Timely(calls) && SizesUpTo(calls, s)
    ensures Admitted(b, limits, calls)
         <= limits.peak + limits.rate * (Span(calls) / (limits.timeBase + 1) + 1) + s - 1
  {
    hide *;
    Balance(b, limits, calls, s);
    RefillingsBound(b, limits, calls);
    var most := Span(calls) / (limits.timeBase + 1) + 1;
    MoreTimes(Refillings(b, limits, calls), most, limits.rate);
    MoreTimes(0, most, limits.rate);
  }

  /** The bucket and what was let through, computed in words. */
  function WordAfter(b: Bucket, limits: Limits, calls: seq<Call>): Bucket
    requires limits.Fit() && SizesUpTo(calls, CLOCK_RANGE - 1)
  {
    if calls == [] then b
    else
      var c, before := calls[|calls| - 1], WordAfter(b, limits, calls[..|calls| - 1]);
      WordNext(before, limits.timeBase, limits.rate, limits.peak, Reading(c.at), Reading(c.stamp), c.size)
  }

  function WordAdmitted(b: Bucket, limits: Limits, calls: seq<Call>): nat
    requires limits.Fit() && SizesUpTo(calls, CLOCK_RANGE - 1)
  {
    if calls == [] then 0
    else
      var c, before := calls[|calls| - 1], WordAfter(b, limits, calls[..|calls| - 1]);
      var refilled := WordRefilled(before, limits.timeBase, limits.rate, limits.peak, Reading(c.at), Reading(c.stamp));
      WordAdmitted(b, limits, calls[..|calls| - 1]) + if refilled.counter <= 0 then 0 else c.size
  }

  /** Over a whole run nothing overflows, and words and numbers agree. */
  lemma {:induction false} RunInWords(b: Bucket, limits: Limits, calls: seq<Call>)
    requires limits.Fit() && -INT_RANGE <= b.counter <= limits.peak
    requires SizesUpTo(calls, LARGEST_SIZE) && SizesUpTo(calls, CLOCK_RANGE - 1)
    ensures WordAfter(b, limits, calls) == After(b, limits, calls)
    ensures WordAdmitted(b, limits, calls) == Admitted(b, limits, calls)
    ensures -INT_RANGE <= After(b, limits, calls).counter <= limits.peak
    ensures forall i :: 0 <= i < |calls| ==>
              Defined(After(b, limits, calls[..i]), limits.timeBase, limits.rate, Reading(calls[i].at))
  {
    hide WordNext, Next, WordRefilled, Refilled, Defined, Reading;
    if calls != [] {
      var n := |calls| - 1;
      RunInWords(b, limits, calls[..n]);
      assert forall i :: 0 <= i < n ==> calls[..n][..i] == calls[..i];
      WordsAreNumbers(After(b, limits, calls[..n]), limits, Reading(calls[n].at), Reading(calls[n].stamp), calls[n].size);
    }
  }

  function Bound(limits: Limits, calls: seq<Call>, s: nat): int
    requires Timely(calls)
  {
    limits.peak + limits.rate * (Span(calls) / (limits.timeBase + 1) + 1) + s - 1
  }

  /** The limiter keeps to the bound, from whatever state and with whatever calls of sizes up to s. */
  ghost predicate KeepsBound(limits: Limits, s: Word)
    requires limits.Fit()
  {
    forall b: Bucket, calls: seq<Call> ::
      -INT_RANGE <= b.counter <= limits.peak && Timely(calls) && SizesUpTo(calls, s)
      ==> WordsWithin(b, limits, calls, s)
  }

  predicate WordsWithin(b: Bucket, limits: Limits, calls: seq<Call>, s: Word)
    requires limits.Fit() && Timely(calls) && SizesUpTo(calls, s)
  {
    SizesWithin(calls, s, CLOCK_RANGE - 1);
    WordAdmitted(b, limits, calls) <= Bound(limits, calls, s)
  }

  lemma SizesWithin(calls: seq<Call>, s: nat, most: nat)
    requires SizesUpTo(calls, s) && s <= most
    ensures SizesUpTo(calls, most)
  {}

  /** What the limiter itself lets through is bounded if and only if no call is larger than 2^31 + 1,
      or the peak lets nothing through at all. */
  lemma {:induction false} LimiterBound(limits: Limits, s: Word)
    requires limits.Fit() && s >= 1
    ensures KeepsBound(limits, s) <==> s <= LARGEST_SIZE || limits.peak == 0
  {
    hide WordsWithin;
    if s <= LARGEST_SIZE || limits.peak == 0 {
      forall b: Bucket, calls: seq<Call> |
        -INT_RANGE <= b.counter <= limits.peak && Timely(calls) && SizesUpTo(calls, s)
        ensures WordsWithin(b, limits, calls, s)
      {
        WithinBound(b, limits, calls, s);
      }
    } else {
      OversizeBreaksBound(limits, s);
    }
  }

  lemma {:induction false} WithinBound(b: Bucket, limits: Limits, calls: seq<Call>, s: Word)
    requires limits.Fit() && s >= 1 && (s <= LARGEST_SIZE || limits.peak == 0)
    requires -INT_RANGE <= b.counter <= limits.peak && Timely(calls) && SizesUpTo(calls, s)
    ensures WordsWithin(b, limits, calls, s)
  {
    hide WordAdmitted, Span, Timely, SizesUpTo;
    SizesWithin(calls, s, CLOCK_RANGE - 1);
    if s <= LARGEST_SIZE {
      SizesWithin(calls, s, LARGEST_SIZE);
      RunInWords(b, limits, calls);
      AdmittedBound(b, limits, calls, s);
    } else {
      NothingPasses(b, limits, calls);
      MoreTimes(0, Span(calls) / (limits.timeBase + 1) + 1, limits.rate);
    }
  }

  lemma {:induction false} NothingPasses(b: Bucket, limits: Limits, calls: seq<Call>)
    requires limits.Fit() && limits.peak == 0 && b.counter <= 0 && SizesUpTo(calls, CLOCK_RANGE - 1)
    ensures WordAdmitted(b, limits, calls) == 0 && WordAfter(b, limits, calls).counter <= 0
  {
    hide Elapsed, Reading;
    if calls != [] {
      NothingPasses(b, limits, calls[..|calls| - 1]);
    }
  }

  lemma AddWordCall(b: Bucket, limits: Limits, calls: seq<Call>, c: Call)
    requires limits.Fit() && SizesUpTo(calls, CLOCK_RANGE - 1) && c.size < CLOCK_RANGE
    ensures WordAfter(b, limits, []) == b && WordAdmitted(b, limits, []) == 0
    ensures SizesUpTo(calls + [c], CLOCK_RANGE - 1)
    ensures var before := WordAfter(b, limits, calls);
            var now, stamp := Reading(c.at), Reading(c.stamp);
      && WordAfter(b, limits, calls + [c])
         == WordNext(before, limits.timeBase, limits.rate, limits.peak, now, stamp, c.size)
      && WordAdmitted(b, limits, calls + [c]) == WordAdmitted(b, limits, calls)
           + if WordRefilled(before, limits.timeBase, limits.rate, limits.peak, now, stamp).counter <= 0
             then 0 else c.size
  {
    hide WordNext, WordRefilled, Reading;
    assert (calls + [c])[..|calls|] == calls;
  }

  /** Two calls of such a size at once: the first one wraps the counter around, both pass, and
      neither meets an addition that C++ does not define. */
  lemma OversizeBreaksBound(limits: Limits, s: Word)
    requires limits.Fit() && limits.peak >= 1 && s > LARGEST_SIZE
    ensures var b, calls := Bucket(0, 1), [Call(0, 0, s), Call(0, 0, s)];
      && Timely(calls) && SizesUpTo(calls, s)
      && WordAdmitted(b, limits, calls) == 2 * s && Bound(limits, calls, s) < 2 * s && !WordsWithin(b, limits, calls, s)
      && Defined(b, limits.timeBase, limits.rate, 0)
      && Defined(WordAfter(b, limits, calls[..1]), limits.timeBase, limits.rate, 0)
  {
    hide WordAfter, WordAdmitted, WordNext, WordRefilled, AsInt, Defined;
    OversizeAdmits(limits, s);
    BoundAtOnce(limits, [Call(0, 0, s), Call(0, 0, s)], s);
  }

  lemma OversizeAdmits(limits: Limits, s: Word)
    requires limits.Fit() && s > LARGEST_SIZE
    ensures var b, calls := Bucket(0, 1), [Call(0, 0, s), Call(0, 0, s)];
      && SizesUpTo(calls, CLOCK_RANGE - 1) && WordAdmitted(b, limits, calls) == 2 * s
      && Defined(b, limits.timeBase, limits.rate, 0)
      && SizesUpTo(calls[..1], CLOCK_RANGE - 1)
      && Defined(WordAfter(b, limits, calls[..1]), limits.timeBase, limits.rate, 0)
  {
    hide WordAfter, WordAdmitted, WordNext, WordRefilled, AsInt, Defined;
    var b, c := Bucket(0, 1), Call(0, 0, s);
    AddWordCall(b, limits, [], c);
    AddWordCall(b, limits, [c], c);
    assert [] + [c] == [c] && [c] + [c] == [c, c] && [c, c][..1] == [c];
    OversizeCall(limits, 1, s);
    OversizeCall(limits, 1 - s + CLOCK_RANGE, s);
  }

  /** A call at the very tick of the last refilling takes what it gets from the counter. */
  lemma OversizeCall(limits: Limits, counter: int, s: Word)
    requires limits.Fit() && counter > 0
    ensures var b := Bucket(0, counter);
      && Reading(0) == 0 && Defined(b, limits.timeBase, limits.rate, 0)
      && WordRefilled(b, limits.timeBase, limits.rate, limits.peak, 0, 0) == b
      && WordNext(b, limits.timeBase, limits.rate, limits.peak, 0, 0, s) == Bucket(0, AsInt(counter - s))
    ensures s > LARGEST_SIZE ==> AsInt(1 - s) == 1 - s + CLOCK_RANGE > 0
  {
    assert Elapsed(0, 0) == 0;
  }

  lemma BoundAtOnce(limits: Limits, calls: seq<Call>, s: nat)
    requires limits.Fit() && Timely(calls) && Span(calls) == 0
    ensures Bound(limits, calls, s) == limits.peak + limits.rate + s - 1
  {
    assert 0 / (limits.timeBase + 1) == 0;
  }

  lemma MoreTimes(j: nat, k: nat, x: nat)
    requires j <= k
    ensures j * x <= x * k
  {}

  /** The bound is reached for every size: a bucket of 1 that is filled by s lets 2 s through
      in two ticks. */
  lemma BoundIsReached(s: nat)
    requires s >= 1
    ensures var limits, calls := Limits(1, s, 1), [Call(1, 1, s), Call(2, 2, s)];
      && Timely(calls) && SizesUpTo(calls, s)
      && Admitted(Bucket(0, 1), limits, calls)
         == limits.peak + limits.rate * (Span(calls) / (limits.timeBase + 1) + 1) + s - 1
  {
    hide After, Admitted;
    var limits, b, first, second := Limits(1, s, 1), Bucket(0, 1), Call(1, 1, s), Call(2, 2, s);
    Untouched(b, limits);
    AddCall(b, limits, [], first);
    assert [] + [first] == [first];
    AddCall(b, limits, [first], second);
    assert [first] + [second] == [first, second];
    assert After(b, limits, [first]) == Bucket(0, 1 - s);
    assert s * (1 / 2 + 1) == s;
  }

  lemma Untouched(b: Bucket, limits: Limits)
    ensures After(b, limits, []) == b && Admitted(b, limits, []) == 0
  {}

  lemma AddCall(b: Bucket, limits: Limits, calls: seq<Call>, c: Call)
    ensures var before := After(b, limits, calls);
      && After(b, limits, calls + [c]) == Next(before, limits, Reading(c.at), Reading(c.stamp), c.size)
      && Admitted(b, limits, calls + [c]) == Admitted(b, limits, calls)
           + if Dropped(before, limits, Reading(c.at), Reading(c.stamp)) then 0 else c.size
  {
    assert (calls + [c])[..|calls|] == calls;
  }

  // ---------- what is dropped ----------

  /** In whatever state, a call is dropped if and only if the bucket is empty and is not refilled,
      the clock being read over its turns, or the refilling leaves it empty. */
  lemma {:induction false} DroppedExactly(b: Bucket, limits: Limits, last: nat, at: nat, stamp: nat)
    requires b.counter <= limits.peak && b.lastUpdate == Reading(last) && last <= at
    ensures Dropped(b, limits, Reading(at), Reading(stamp))
       <==> && b.counter <= 0
            && ((at - last) % CLOCK_RANGE <= limits.timeBase || limits.peak == 0 || b.counter + limits.rate <= 0)
  {
    SubtractModulo(at, last);
  }

  /** A bucket that has been overdrawn by at most one call of size s. */
  predicate Drawn(b: Bucket, limits: Limits, s: nat) {
    1 - s <= b.counter <= limits.peak
  }

  lemma {:induction false} StaysDrawn(b: Bucket, limits: Limits, calls: seq<Call>, s: nat)
    requires Drawn(b, limits, s) && SizesUpTo(calls, s)
    ensures Drawn(After(b, limits, calls), limits, s)
  {
    if calls != [] {
      StaysDrawn(b, limits, calls[..|calls| - 1], s);
    }
  }

  /** If no call is larger than the rate, a call after any run is dropped if and only if the bucket
      is empty and the clock shows no more than the time base since the last refilling. */
  lemma {:induction false} DroppedAfterRun(b: Bucket, limits: Limits, calls: seq<Call>, s: nat,
                                           last: nat, at: nat, stamp: nat)
    requires Drawn(b, limits, s) && SizesUpTo(calls, s) && s <= limits.rate && limits.peak > 0
    requires After(b, limits, calls).lastUpdate == Reading(last) && last <= at
    ensures Dropped(After(b, limits, calls), limits, Reading(at), Reading(stamp))
       <==> After(b, limits, calls).counter <= 0 && (at - last) % CLOCK_RANGE <= limits.timeBase
  {
    StaysDrawn(b, limits, calls, s);
    DroppedExactly(After(b, limits, calls), limits, last, at, stamp);
  }

  /** So a call that comes more than a time base and less than a turn of the clock after the last
      refilling is let through. */
  lemma {:induction false} LateCallPasses(b: Bucket, limits: Limits, calls: seq<Call>, s: nat,
                                          last: nat, at: nat, stamp: nat)
    requires Drawn(b, limits, s) && SizesUpTo(calls, s) && s <= limits.rate && limits.peak > 0
    requires After(b, limits, calls).lastUpdate == Reading(last)
    requires last + limits.timeBase < at < last + CLOCK_RANGE
    ensures !Dropped(After(b, limits, calls), limits, Reading(at), Reading(stamp))
  {
    DroppedAfterRun(b, limits, calls, s, last, at, stamp);
  }

  /** A call a whole turn of the clock later is not refilled for, and finds an empty bucket empty. */
  lemma TurnOfTheClock(b: Bucket, limits: Limits, last: nat)
    requires b == Bucket(Reading(last), 0)
    ensures Dropped(b, limits, Reading(last + CLOCK_RANGE), Reading(last + CLOCK_RANGE))
  {
    DroppedExactly(b, limits, last, last + CLOCK_RANGE, last + CLOCK_RANGE);
  }
}
