/** Numbering of RTP payloads against a remembered mapping (src/sdp_filter.cpp,
    src/SBCCallLeg.cpp).  The code walks a cursor through the dynamic range; the
    specification says "the least free number", and the properties are proved of that. */
module PayloadIds {
  import opened Sdp

  // ---------- the remembered mapping ----------

  /** Key of a payload: one integer for the stream index and the payload index. */
  function MapIndex(stream: nat, payload: nat): nat {
    stream * 128 + payload
  }

  function Lookup(mapping: map<int, int>, key: int): int {
    if key in mapping then mapping[key] else -1
  }

  /** What the mapping remembers for the n payloads of a stream. */
  function Remembered(mapping: map<int, int>, stream: nat, n: nat): (mem: seq<int>)
    ensures |mem| == n
  {
    seq(n, i requires 0 <= i < n => Lookup(mapping, MapIndex(stream, i)))
  }

  /** The mapping after the numbers `ids` of a stream have been recorded. */
  function Recorded(mapping: map<int, int>, stream: nat, ids: seq<int>): map<int, int> {
    if ids == [] then mapping
    else
      var last := |ids| - 1;
      Recorded(mapping, stream, ids[..last])[MapIndex(stream, last) := ids[last]]
  }

  lemma {:induction false} RecordedAt(mapping: map<int, int>, stream: nat, ids: seq<int>, key: int)
    ensures Lookup(Recorded(mapping, stream, ids), key)
         == if MapIndex(stream, 0) <= key < MapIndex(stream, |ids|)
            then ids[key - MapIndex(stream, 0)]
            else Lookup(mapping, key)
  {
    if ids != [] {
      RecordedAt(mapping, stream, ids[..|ids| - 1], key);
    }
  }

  class PayloadIdMapping {
    var mapping: map<int, int>

    constructor ()
      ensures mapping == map[]
    {
      mapping := map[];
    }

    method Map(stream: nat, payload: nat, id: int)
      modifies this
      ensures mapping == old(mapping)[MapIndex(stream, payload) := id]
    {
      mapping := mapping[MapIndex(stream, payload) := id];
    }

    method Get(stream: nat, payload: nat) returns (id: int)
      ensures id == Lookup(mapping, MapIndex(stream, payload))
    {
      var key := MapIndex(stream, payload);
      id := if key in mapping then mapping[key] else -1;
    }

    method Reset()
      modifies this
      ensures mapping == map[]
    {
      mapping := map[];
    }
  }

  // ---------- specification: the least free number ----------

  function From(s: set<int>, low: int): set<int> {
    set x | x in s && low <= x
  }

  /** The least number from `low` upwards that is not taken. */
  function LeastFree(taken: set<int>, low: int): (id: int)
    ensures low <= id && id !in taken
    ensures forall j :: low <= j < id ==> j in taken
    decreases |From(taken, low)|
  {
    if low in taken then
      assert From(taken, low + 1) == From(taken, low) - {low};
      LeastFree(taken, low + 1)
    else low
  }

  function Elements(s: seq<int>): set<int> {
    set x | x in s
  }

  /** A mask has one bit for each number that RTP allows; other numbers leave no mark. */
  const MASK_SIZE := 128

  function Marked(s: seq<int>): set<int> {
    set x | x in s && 0 <= x < MASK_SIZE
  }

  /** The explicit numbers of the stream that lie in the dynamic range. */
  function Dynamic(orig: seq<int>): set<int> {
    set x | x in orig && DYNAMIC_PAYLOAD_TYPE_START <= x < MASK_SIZE
  }

  function Mark(mask: set<int>, id: int): set<int> {
    if 0 <= id < MASK_SIZE then mask + {id} else mask
  }

  lemma MarkOne(s: seq<int>, id: int)
    ensures Marked(s + [id]) == Mark(Marked(s), id)
  {}

  /** The number a payload asks for: its own, else the remembered one. */
  function Wanted(orig: seq<int>, mem: seq<int>, k: nat): int
    requires k < |orig| == |mem|
  {
    if orig[k] < 0 then mem[k] else orig[k]
  }

  /** The numbers of the first k payloads: what is asked for when that is not marked,
      else the least number that no earlier payload has marked and no payload asks for. */
  function Numbered(orig: seq<int>, mem: seq<int>, k: nat): (ids: seq<int>)
    requires k <= |orig| == |mem|
    ensures |ids| == k
  {
    if k == 0 then []
    else
      var done := Numbered(orig, mem, k - 1);
      var want := Wanted(orig, mem, k - 1);
      done + [if want < 0 || want in Marked(done)
              then LeastFree(Marked(done) + Dynamic(orig), DYNAMIC_PAYLOAD_TYPE_START)
              else want]
  }

  function Renumbered(orig: seq<int>, mem: seq<int>): (ids: seq<int>)
    requires |orig| == |mem|
    ensures |ids| == |orig|
  {
    Numbered(orig, mem, |orig|)
  }

  ghost predicate Distinct(s: seq<int>) {
    forall i, j :: 0 <= i < j < |s| ==> s[i] != s[j]
  }

  /** Earlier numbers are never revised. */
  lemma {:induction false} NumberedPrefix(orig: seq<int>, mem: seq<int>, k: nat, n: nat)
    requires k <= n <= |orig| == |mem|
    ensures Numbered(orig, mem, n)[..k] == Numbered(orig, mem, k)
  {
    if k < n {
      NumberedPrefix(orig, mem, k, n - 1);
      assert Numbered(orig, mem, n)[..k] == Numbered(orig, mem, n - 1)[..k];
    }
  }

  /** One step of the numbering, seen from the final result. */
  lemma NumberedAt(orig: seq<int>, mem: seq<int>, k: nat)
    requires k < |orig| == |mem|
    ensures var ids := Renumbered(orig, mem);
            var want := Wanted(orig, mem, k);
            ids[k] == if want < 0 || want in Marked(ids[..k])
                      then LeastFree(Marked(ids[..k]) + Dynamic(orig), DYNAMIC_PAYLOAD_TYPE_START)
                      else want
  {
    NumberedPrefix(orig, mem, k, |orig|);
    NumberedPrefix(orig, mem, k + 1, |orig|);
    assert Renumbered(orig, mem)[k] == Renumbered(orig, mem)[..k + 1][k];
  }

  // ---------- properties of one stream ----------

  /** Every number is assigned, and one that a mask can hold is assigned once. */
  lemma MarkedOnce(orig: seq<int>, mem: seq<int>)
    requires |orig| == |mem|
    ensures forall i, j :: 0 <= i < j < |orig| && Renumbered(orig, mem)[i] == Renumbered(orig, mem)[j] ==>
              Renumbered(orig, mem)[i] >= MASK_SIZE
    ensures forall k :: 0 <= k < |orig| ==> 0 <= Renumbered(orig, mem)[k]
  {
    var ids := Renumbered(orig, mem);
    forall k | 0 <= k < |orig|
      ensures 0 <= ids[k]
    {
      NumberedAt(orig, mem, k);
    }
    forall i, j | 0 <= i < j < |ids| && ids[i] == ids[j]
      ensures ids[i] >= MASK_SIZE
    {
      NumberedAt(orig, mem, j);
      assert ids[i] in ids[..j];
      assert ids[i] < MASK_SIZE ==> ids[i] in Marked(ids[..j]);
    }
  }

  /** Handed out before payload k, or asked for explicitly by some payload. */
  predicate InUse(orig: seq<int>, mem: seq<int>, k: nat, v: int)
    requires k <= |orig| == |mem|
  {
    v in Renumbered(orig, mem)[..k] || v in orig
  }

  /** The number of a payload, told by what was asked for and what earlier payloads got.  The explicit number
      counts, or else the remembered one.  It is given unless it was handed out; instead of it, or of none, the
      least number of the dynamic range that is not in use. */
  lemma NumberGiven(orig: seq<int>, mem: seq<int>, k: nat)
    requires k < |orig| == |mem|
    ensures var id, want := Renumbered(orig, mem)[k], if orig[k] >= 0 then orig[k] else mem[k];
      if want >= 128 || (want >= 0 && want !in Renumbered(orig, mem)[..k]) then id == want
      else && 96 <= id <= 128 && (id < 128 ==> !InUse(orig, mem, k, id))
           && forall v :: 96 <= v < id ==> InUse(orig, mem, k, v)
  {
    hide Renumbered;
    NumberedAt(orig, mem, k);
    var taken := Marked(Renumbered(orig, mem)[..k]) + Dynamic(orig);
    var free := LeastFree(taken, 96);
    assert 128 !in taken;
    assert forall v :: v in taken ==> InUse(orig, mem, k, v);
    assert forall v :: 96 <= v < 128 && InUse(orig, mem, k, v) ==> v in taken;
    assert forall v :: 96 <= v < free ==> v in taken;
  }

  /** An explicit number is handed out before payload k exactly when an earlier payload asks for it:
      it is never given to a payload that has to take what is free. */
  lemma TakenWhenWanted(orig: seq<int>, mem: seq<int>, v: int, k: nat)
    requires k <= |orig| == |mem| && v in orig && 0 <= v < MASK_SIZE
    ensures v in Renumbered(orig, mem)[..k] <==> exists j :: 0 <= j < k && Wanted(orig, mem, j) == v
  {
    hide Renumbered, LeastFree;
    var ids := Renumbered(orig, mem);
    if v in ids[..k] {
      var j :| 0 <= j < k && ids[j] == v;
      NumberedAt(orig, mem, j);
      assert v >= DYNAMIC_PAYLOAD_TYPE_START ==> v in Marked(ids[..j]) + Dynamic(orig);
      assert Wanted(orig, mem, j) == v;
    }
    if j :| 0 <= j < k && Wanted(orig, mem, j) == v {
      NumberedAt(orig, mem, j);
      assert ids[j] == v || v in ids[..j];
      assert ids[j] in ids[..k] && ids[..j] <= ids[..k];
    }
  }

  /** An explicit number survives exactly when no earlier payload asks for it, or no mask holds it. */
  lemma {:induction false} ExplicitKept(orig: seq<int>, mem: seq<int>, k: nat)
    requires k < |orig| == |mem| && 0 <= orig[k]
    ensures Renumbered(orig, mem)[k] == orig[k]
       <==> orig[k] >= MASK_SIZE || forall j :: 0 <= j < k ==> Wanted(orig, mem, j) != orig[k]
  {
    hide Renumbered;
    NumberedAt(orig, mem, k);
    if orig[k] < MASK_SIZE {
      TakenWhenWanted(orig, mem, orig[k], k);
    }
  }

  /** Every explicit number of the dynamic range is used by some payload in the end. */
  lemma DynamicIsUsed(orig: seq<int>, mem: seq<int>)
    requires |orig| == |mem|
    ensures Dynamic(orig) <= Elements(Renumbered(orig, mem))
  {
    var ids := Renumbered(orig, mem);
    forall x | x in Dynamic(orig)
      ensures x in Elements(ids)
    {
      var j :| 0 <= j < |orig| && orig[j] == x;
      NumberedAt(orig, mem, j);
      assert x in ids[..j] || x == ids[j];
    }
  }

  /** The numbers from `low` up to but not including `high`. */
  function Interval(low: int, high: int): (s: set<int>)
    requires low <= high
    ensures forall x :: x in s <==> low <= x < high
    ensures |s| == high - low
    decreases high - low
  {
    if low == high then {} else Interval(low, high - 1) + {high - 1}
  }

  lemma {:induction false} ElementsSize(s: seq<int>)
    ensures |Elements(s)| <= |s|
  {
    if s != [] {
      var init := s[..|s| - 1];
      ElementsSize(init);
      assert Elements(s) == Elements(init) + {s[|s| - 1]};
    }
  }

  /** A number that was not asked for lies in the first n numbers of the dynamic range,
      n being the number of payloads: at most 127 for up to 32 payloads. */
  lemma AllocatedBound(orig: seq<int>, mem: seq<int>, k: nat)
    requires k < |orig| == |mem|
    requires Renumbered(orig, mem)[k] != Wanted(orig, mem, k)
    ensures DYNAMIC_PAYLOAD_TYPE_START <= Renumbered(orig, mem)[k]
                                       < DYNAMIC_PAYLOAD_TYPE_START + |orig|
    ensures |orig| <= 32 ==> Renumbered(orig, mem)[k] <= 127
  {
    var ids := Renumbered(orig, mem);
    NumberedAt(orig, mem, k);
    DynamicIsUsed(orig, mem);
    var low, id := DYNAMIC_PAYLOAD_TYPE_START, ids[k];
    forall x | x in Interval(low, id + 1)
      ensures x in Elements(ids)
    {
      if x < id {
        assert x in Marked(ids[..k]) + Dynamic(orig);
        assert x in ids[..k] ==> x in ids;
      }
    }
    assert Interval(low, id + 1) <= Elements(ids);
    ElementsSize(ids);
    SubsetSize(Interval(low, id + 1), Elements(ids));
  }

  lemma {:induction false} SubsetSize(a: set<int>, b: set<int>)
    requires a <= b
    ensures |a| <= |b|
  {
    assert b == a + (b - a);
  }

  // ---------- when there are enough numbers ----------

  /** The numbers below the dynamic range that are asked for. */
  function StaticWants(orig: seq<int>, mem: seq<int>): set<int>
    requires |orig| == |mem|
  {
    set k | 0 <= k < |orig| && 0 <= Wanted(orig, mem, k) < DYNAMIC_PAYLOAD_TYPE_START :: Wanted(orig, mem, k)
  }

  /** How many of the first k payloads ask for a number that no mask holds. */
  function HighWants(orig: seq<int>, mem: seq<int>, k: nat): (n: nat)
    requires k <= |orig| == |mem|
  {
    if k == 0 then 0 else HighWants(orig, mem, k - 1) + if Wanted(orig, mem, k - 1) >= MASK_SIZE then 1 else 0
  }

  /** How many of the first k payloads got the number behind the last bit of the mask without
      asking for it. */
  function Overflows(orig: seq<int>, mem: seq<int>, k: nat): (n: nat)
    requires k <= |orig| == |mem|
  {
    if k == 0 then 0 else Overflows(orig, mem, k - 1) + if Overflow(orig, mem, k - 1) then 1 else 0
  }

  predicate Overflow(orig: seq<int>, mem: seq<int>, k: nat)
    requires k < |orig| == |mem|
  {
    Wanted(orig, mem, k) < MASK_SIZE && Renumbered(orig, mem)[k] == MASK_SIZE
  }

  /** The payloads that have to be numbered from the dynamic range, one more if the number
      behind it is asked for. */
  ghost function Demand(orig: seq<int>, mem: seq<int>): int
    requires |orig| == |mem|
  {
    |orig| - HighWants(orig, mem, |orig|) - |StaticWants(orig, mem)|
  }

  /** What a caller can tell beforehand: no number above the mask is asked for twice, and the 32
      dynamic numbers and the one behind them are enough. */
  ghost predicate EnoughNumbers(orig: seq<int>, mem: seq<int>)
    requires |orig| == |mem|
  {
    && (forall i, j :: 0 <= i < j < |orig| && Wanted(orig, mem, i) == Wanted(orig, mem, j) ==>
          Wanted(orig, mem, i) < MASK_SIZE)
    && Demand(orig, mem) <= if Asked(orig, mem, MASK_SIZE) then 32 else 33
  }

  ghost predicate Asked(orig: seq<int>, mem: seq<int>, id: int)
    requires |orig| == |mem|
  {
    exists k :: 0 <= k < |orig| && Wanted(orig, mem, k) == id
  }

  /** What a payload gets: a marked number, the high number it asks for, or the one behind the mask. */
  lemma NumberIs(orig: seq<int>, mem: seq<int>, k: nat)
    requires k < |orig| == |mem|
    ensures var id, want := Renumbered(orig, mem)[k], Wanted(orig, mem, k);
            && 0 <= id
            && (want >= MASK_SIZE <==> id >= MASK_SIZE && !Overflow(orig, mem, k))
            && (want >= MASK_SIZE ==> id == want)
            && (id != want ==> DYNAMIC_PAYLOAD_TYPE_START <= id <= MASK_SIZE)
  {
    NumberedAt(orig, mem, k);
    var ids := Renumbered(orig, mem);
    assert MASK_SIZE !in Marked(ids[..k]) + Dynamic(orig);
  }

  lemma NoMarks(ids: seq<int>)
    ensures Marked(ids[..0]) == {}
  {}

  lemma NewMark(s: seq<int>, id: int)
    requires 0 <= id && (id < MASK_SIZE ==> id !in s)
    ensures |Marked(s + [id])| == |Marked(s)| + if id < MASK_SIZE then 1 else 0
  {
    MarkOne(s, id);
  }

  /** The payloads that got a marked number, those that asked for a high one and those that
      overflowed are all payloads there are. */
  lemma {:induction false} Partition(orig: seq<int>, mem: seq<int>, k: nat)
    requires k <= |orig| == |mem|
    ensures k == |Marked(Renumbered(orig, mem)[..k])| + HighWants(orig, mem, k) + Overflows(orig, mem, k)
  {
    hide Renumbered, Marked;
    var ids := Renumbered(orig, mem);
    if k == 0 {
      NoMarks(ids);
    } else {
      Partition(orig, mem, k - 1);
      NumberIs(orig, mem, k - 1);
      MarkedOnce(orig, mem);
      assert ids[..k] == ids[..k - 1] + [ids[k - 1]];
      assert ids[k - 1] < MASK_SIZE ==> ids[k - 1] !in ids[..k - 1];
      NewMark(ids[..k - 1], ids[k - 1]);
    }
  }

  /** The static numbers in use are the ones that are asked for. */
  lemma StaticKept(orig: seq<int>, mem: seq<int>)
    requires |orig| == |mem|
    ensures StaticWants(orig, mem)
         == set x | x in Marked(Renumbered(orig, mem)) && x < DYNAMIC_PAYLOAD_TYPE_START
  {
    hide Renumbered;
    var ids := Renumbered(orig, mem);
    forall x | x in StaticWants(orig, mem)
      ensures x in Marked(ids)
    {
      var k :| 0 <= k < |orig| && Wanted(orig, mem, k) == x;
      NumberedAt(orig, mem, k);
      assert ids[k] == x || x in ids[..k];
    }
    forall x | x in Marked(ids) && x < DYNAMIC_PAYLOAD_TYPE_START
      ensures x in StaticWants(orig, mem)
    {
      var k :| 0 <= k < |ids| && ids[k] == x;
      NumberIs(orig, mem, k);
    }
  }

  /** A payload overflows only when the whole dynamic range is in use in the end. */
  lemma OverflowFillsRange(orig: seq<int>, mem: seq<int>, k: nat)
    requires k < |orig| == |mem| && Overflow(orig, mem, k)
    ensures Interval(DYNAMIC_PAYLOAD_TYPE_START, MASK_SIZE) <= Marked(Renumbered(orig, mem))
  {
    hide Renumbered, LeastFree;
    var ids := Renumbered(orig, mem);
    NumberedAt(orig, mem, k);
    DynamicIsUsed(orig, mem);
    var taken := Marked(ids[..k]) + Dynamic(orig);
    forall x | x in Interval(DYNAMIC_PAYLOAD_TYPE_START, MASK_SIZE)
      ensures x in Marked(ids)
    {
      assert x in taken;
      assert x in ids[..k] || x in Elements(ids);
      assert x in ids;
    }
  }

  lemma {:induction false} SomeOverflow(orig: seq<int>, mem: seq<int>, k: nat) returns (i: nat)
    requires k <= |orig| == |mem| && Overflows(orig, mem, k) > 0
    ensures i < k && Overflow(orig, mem, i) && Overflows(orig, mem, i) == Overflows(orig, mem, k) - 1
  {
    if Overflow(orig, mem, k - 1) {
      i := k - 1;
    } else {
      i := SomeOverflow(orig, mem, k - 1);
    }
  }

  lemma {:induction false} OverflowCounted(orig: seq<int>, mem: seq<int>, i: nat, k: nat)
    requires i < k <= |orig| == |mem| && Overflow(orig, mem, i)
    ensures Overflows(orig, mem, k) >= Overflows(orig, mem, i) + 1
    decreases k - i
  {
    if i < k - 1 {
      OverflowCounted(orig, mem, i, k - 1);
    }
  }

  /** How many payloads overflow: those for which the 32 dynamic numbers are not enough. */
  lemma {:induction false} OverflowsAre(orig: seq<int>, mem: seq<int>)
    requires |orig| == |mem|
    ensures var demand := Demand(orig, mem);
            Overflows(orig, mem, |orig|) == if demand > 32 then demand - 32 else 0
  {
    hide Renumbered, Overflow, StaticWants, Marked, From;
    var n, ids := |orig|, Renumbered(orig, mem);
    Partition(orig, mem, n);
    assert ids[..n] == ids;
    StaticKept(orig, mem);
    MarkedBelow(ids);
    DynamicMarks(Marked(ids));
    if Overflows(orig, mem, n) > 0 {
      var i := SomeOverflow(orig, mem, n);
      OverflowFillsRange(orig, mem, i);
    }
  }

  lemma MarkedBelow(ids: seq<int>)
    ensures forall x :: x in Marked(ids) ==> x < MASK_SIZE
  {}

  /** Up to 32 of the marks are dynamic, all 32 if the range is in use. */
  lemma DynamicMarks(used: set<int>)
    requires forall x :: x in used ==> x < MASK_SIZE
    ensures var high := From(used, DYNAMIC_PAYLOAD_TYPE_START);
            && |used| == |set x | x in used && x < DYNAMIC_PAYLOAD_TYPE_START| + |high| && |high| <= 32
            && (Interval(DYNAMIC_PAYLOAD_TYPE_START, MASK_SIZE) <= used ==> |high| == 32)
  {
    hide Interval;
    var low := set x | x in used && x < DYNAMIC_PAYLOAD_TYPE_START;
    var high := From(used, DYNAMIC_PAYLOAD_TYPE_START);
    var range := Interval(DYNAMIC_PAYLOAD_TYPE_START, MASK_SIZE);
    DisjointSize(used, low, high);
    SubsetSize(high, range);
    if range <= used {
      SubsetSize(range, high);
    }
  }

  lemma DisjointSize(all: set<int>, a: set<int>, b: set<int>)
    requires all == a + b && a !! b
    ensures |all| == |a| + |b|
  {}

  /** The payloads of a stream have distinct numbers if and only if there are enough numbers. */
  lemma {:induction false} AllDistinct(orig: seq<int>, mem: seq<int>)
    requires |orig| == |mem|
    ensures Distinct(Renumbered(orig, mem)) <==> EnoughNumbers(orig, mem)
  {
    hide Renumbered, Demand;
    OverflowsAre(orig, mem);
    if EnoughNumbers(orig, mem) {
      EnoughIsDistinct(orig, mem);
    }
    if !EnoughNumbers(orig, mem) {
      TooFewRepeat(orig, mem);
    }
  }

  lemma EnoughIsDistinct(orig: seq<int>, mem: seq<int>)
    requires |orig| == |mem| && EnoughNumbers(orig, mem)
    ensures Distinct(Renumbered(orig, mem))
  {
    hide Renumbered, Demand;
    var n, ids := |orig|, Renumbered(orig, mem);
    OverflowsAre(orig, mem);
    MarkedOnce(orig, mem);
    forall i, j | 0 <= i < j < n
      ensures ids[i] != ids[j]
    {
      NumberIs(orig, mem, i);
      NumberIs(orig, mem, j);
      if Overflow(orig, mem, i) && Overflow(orig, mem, j) {
        OverflowCounted(orig, mem, i, j);
        OverflowCounted(orig, mem, j, n);
      } else if Overflow(orig, mem, i) {
        OverflowCounted(orig, mem, i, n);
      } else if Overflow(orig, mem, j) {
        OverflowCounted(orig, mem, j, n);
      }
    }
  }

  lemma TooFewRepeat(orig: seq<int>, mem: seq<int>)
    requires |orig| == |mem| && !EnoughNumbers(orig, mem)
    ensures !Distinct(Renumbered(orig, mem))
  {
    hide Renumbered, Demand;
    var n, ids := |orig|, Renumbered(orig, mem);
    OverflowsAre(orig, mem);
    if i, j :| 0 <= i < j < n && Wanted(orig, mem, i) == Wanted(orig, mem, j) >= MASK_SIZE {
      NumberIs(orig, mem, i);
      NumberIs(orig, mem, j);
      assert ids[i] == ids[j];
    } else {
      var j := SomeOverflow(orig, mem, n);
      if Asked(orig, mem, MASK_SIZE) {
        var i :| 0 <= i < n && Wanted(orig, mem, i) == MASK_SIZE;
        NumberIs(orig, mem, i);
        assert ids[i] == ids[j] && i != j;
      } else {
        var i := SomeOverflow(orig, mem, j);
        assert ids[i] == ids[j];
      }
    }
  }

  /** Every number is one that RTP allows if and only if no other is asked for and the 32
      dynamic numbers are enough. */
  lemma AllValid(orig: seq<int>, mem: seq<int>)
    requires |orig| == |mem|
    ensures (forall k :: 0 <= k < |orig| ==> 0 <= Renumbered(orig, mem)[k] < MASK_SIZE)
       <==> (forall k :: 0 <= k < |orig| ==> Wanted(orig, mem, k) < MASK_SIZE) && Demand(orig, mem) <= 32
  {
    hide Renumbered, Demand;
    var n, ids := |orig|, Renumbered(orig, mem);
    OverflowsAre(orig, mem);
    forall k | 0 <= k < n
      ensures 0 <= ids[k] && (ids[k] >= MASK_SIZE <==> Wanted(orig, mem, k) >= MASK_SIZE || Overflow(orig, mem, k))
      ensures Overflow(orig, mem, k) ==> Overflows(orig, mem, n) > 0
    {
      NumberIs(orig, mem, k);
      if Overflow(orig, mem, k) {
        OverflowCounted(orig, mem, k, n);
      }
    }
    if Overflows(orig, mem, n) > 0 {
      var i := SomeOverflow(orig, mem, n);
    }
  }

  /** A caller with up to 32 payloads and no number above the mask need not count. */
  lemma ThirtyTwoAreEnough(orig: seq<int>, mem: seq<int>)
    requires |orig| == |mem| <= 32
    requires forall k :: 0 <= k < |orig| ==> orig[k] < MASK_SIZE && mem[k] < MASK_SIZE
    ensures Distinct(Renumbered(orig, mem))
    ensures forall k :: 0 <= k < |orig| ==> 0 <= Renumbered(orig, mem)[k] < MASK_SIZE
  {
    hide Renumbered;
    AllDistinct(orig, mem);
    AllValid(orig, mem);
  }

  /** The numbering with marks that have no limit. */
  function Unlimited(orig: seq<int>, mem: seq<int>, k: nat): (ids: seq<int>)
    requires k <= |orig| == |mem|
    ensures |ids| == k
  {
    if k == 0 then []
    else
      var done := Unlimited(orig, mem, k - 1);
      var want := Wanted(orig, mem, k - 1);
      var taken := Elements(done) + set x | x in orig && DYNAMIC_PAYLOAD_TYPE_START <= x;
      done + [if want < 0 || want in done then LeastFree(taken, DYNAMIC_PAYLOAD_TYPE_START) else want]
  }

  /** As long as every number is one that RTP allows, the limit of the masks does not show. */
  lemma {:induction false} MaskIsWideEnough(orig: seq<int>, mem: seq<int>, k: nat)
    requires k <= |orig| == |mem|
    requires forall i :: 0 <= i < |orig| ==> Wanted(orig, mem, i) < MASK_SIZE
    requires Demand(orig, mem) <= 32
    ensures Unlimited(orig, mem, k) == Numbered(orig, mem, k)
  {
    hide LeastFree, Demand;
    if k > 0 {
      MaskIsWideEnough(orig, mem, k - 1);
      AllValid(orig, mem);
      NumberedPrefix(orig, mem, k - 1, |orig|);
      var done := Numbered(orig, mem, k - 1);
      assert forall i :: 0 <= i < k - 1 ==> done[i] == Renumbered(orig, mem)[i];
      assert Elements(done) == Marked(done);
      var all := set x | x in orig && DYNAMIC_PAYLOAD_TYPE_START <= x;
      forall x | x in all
        ensures x in Dynamic(orig)
      {
        var i :| 0 <= i < |orig| && orig[i] == x;
        assert Wanted(orig, mem, i) == x;
      }
      assert all == Dynamic(orig);
    }
  }

  /** Numbers that no mask holds are not told apart: an explicit 200 is given out twice. */
  lemma RepeatedBeyondMask()
    ensures Renumbered([200, 200], [-1, -1]) == [200, 200]
  {
    var orig, mem := [200, 200], [-1, -1];
    assert Numbered(orig, mem, 0) == [];
    assert Numbered(orig, mem, 1) == [200];
    assert Numbered(orig, mem, 2) == [200, 200];
  }

  /** Of 34 payloads without numbers two get the same one. */
  lemma RepeatedWhenFull()
    ensures var orig := seq(34, i => -1); !Distinct(Renumbered(orig, orig))
  {
    hide Renumbered;
    var orig := seq(34, i => -1);
    assert StaticWants(orig, orig) == {};
    NothingHigh(orig, orig, 34);
    AllDistinct(orig, orig);
  }

  lemma {:induction false} NothingHigh(orig: seq<int>, mem: seq<int>, k: nat)
    requires k <= |orig| == |mem|
    requires forall i :: 0 <= i < |orig| ==> Wanted(orig, mem, i) < MASK_SIZE
    ensures HighWants(orig, mem, k) == 0
  {
    if k > 0 {
      NothingHigh(orig, mem, k - 1);
    }
  }

  // ---------- numbering again ----------

  /** Numbering the same offer again with what the first run remembered changes nothing. */
  lemma {:induction false} StableStream(orig: seq<int>, mem: seq<int>, k: nat)
    requires k <= |orig| == |mem|
    ensures Numbered(orig, Renumbered(orig, mem), k) == Numbered(orig, mem, k)
  {
    if k > 0 {
      StableStream(orig, mem, k - 1);
      var ids := Renumbered(orig, mem);
      NumberedPrefix(orig, mem, k - 1, |orig|);
      NumberedAt(orig, mem, k - 1);
      MarkedOnce(orig, mem);
      assert ids[k - 1] !in Marked(ids[..k - 1]);
    }
  }

  /** Numbering a numbered stream changes nothing, whatever the mapping says. */
  lemma {:induction false} IdempotentStream(orig: seq<int>, mem: seq<int>, mem': seq<int>, k: nat)
    requires k <= |orig| == |mem| == |mem'|
    ensures Numbered(Renumbered(orig, mem), mem', k) == Renumbered(orig, mem)[..k]
  {
    if k > 0 {
      IdempotentStream(orig, mem, mem', k - 1);
      MarkedOnce(orig, mem);
      var ids := Renumbered(orig, mem);
      assert ids[k - 1] !in Marked(ids[..k - 1]);
      assert ids[..k] == ids[..k - 1] + [ids[k - 1]];
    }
  }

  // ---------- whole descriptions ----------

  function Types(payloads: seq<SdpPayload>): (types: seq<int>)
    ensures |types| == |payloads|
    ensures forall i :: 0 <= i < |payloads| ==> types[i] == payloads[i].payloadType
  {
    seq(|payloads|, i requires 0 <= i < |payloads| => payloads[i].payloadType)
  }

  function WithTypes(payloads: seq<SdpPayload>, types: seq<int>): (r: seq<SdpPayload>)
    requires |types| == |payloads|
    ensures |r| == |payloads|
    ensures forall i :: 0 <= i < |r| ==> r[i] == payloads[i].(payloadType := types[i])
  {
    seq(|payloads|, i requires 0 <= i < |payloads| => payloads[i].(payloadType := types[i]))
  }

  /** The numbers given to audio stream number `stream`. */
  function StreamIds(m: SdpMedia, stream: nat, mapping: map<int, int>): (ids: seq<int>)
    ensures |ids| == |m.payloads|
  {
    Renumbered(Types(m.payloads), Remembered(mapping, stream, |m.payloads|))
  }

  /** The streams after renumbering, and the mapping that is left behind. */
  function Fixed(media: seq<SdpMedia>, mapping: map<int, int>): (r: (seq<SdpMedia>, map<int, int>))
    ensures |r.0| == |media|
  {
    if media == [] then ([], mapping)
    else
      var init, m := media[..|media| - 1], media[|media| - 1];
      var before := Fixed(init, mapping);
      if !m.kind.Audio? then (before.0 + [m], before.1)
      else
        var stream := AudioCount(init);
        var ids := StreamIds(m, stream, before.1);
        (before.0 + [m.(payloads := WithTypes(m.payloads, ids))], Recorded(before.1, stream, ids))
  }

  /** The cursor's walk to the next number that nothing uses or asks for. */
  method NextFree(used: set<int>, pseudoDyn: set<int>, cursor: int) returns (id: int)
    requires DYNAMIC_PAYLOAD_TYPE_START <= cursor
    requires forall j :: DYNAMIC_PAYLOAD_TYPE_START <= j < cursor ==> j in used || j in pseudoDyn
    ensures id == LeastFree(used + pseudoDyn, DYNAMIC_PAYLOAD_TYPE_START)
    ensures cursor <= id && forall j :: cursor <= j < id ==> j in used || j in pseudoDyn
  {
    id := cursor;
    while id in used || id in pseudoDyn
      invariant cursor <= id
      invariant forall j :: cursor <= j < id ==> j in used || j in pseudoDyn
      decreases |From(used + pseudoDyn, id)|
    {
      assert From(used + pseudoDyn, id + 1) == From(used + pseudoDyn, id) - {id};
      id := id + 1;
    }
    ghost var least := LeastFree(used + pseudoDyn, DYNAMIC_PAYLOAD_TYPE_START);
    assert least < id ==> least in used + pseudoDyn;
    assert id < least ==> id in used + pseudoDyn;
  }

  method DynamicTypes(payloads: seq<SdpPayload>) returns (pseudoDyn: set<int>)
    ensures pseudoDyn == Dynamic(Types(payloads))
  {
    ghost var orig := Types(payloads);
    pseudoDyn := {};
    for i := 0 to |payloads|
      invariant pseudoDyn == Dynamic(orig[..i])
    {
      assert orig[..i + 1] == orig[..i] + [orig[i]];
      if DYNAMIC_PAYLOAD_TYPE_START <= payloads[i].payloadType {
        pseudoDyn := Mark(pseudoDyn, payloads[i].payloadType);
      }
    }
    assert orig[..|payloads|] == orig;
  }

  /** One audio stream: mark the explicit dynamic numbers, then number the payloads
      in order with a cursor that never moves back. */
  method FixStream(payloads: seq<SdpPayload>, stream: nat, mapping: PayloadIdMapping)
    returns (fixed: seq<SdpPayload>)
    modifies mapping
    ensures var ids := Renumbered(Types(payloads),
                                  Remembered(old(mapping.mapping), stream, |payloads|));
            && fixed == WithTypes(payloads, ids)
            && mapping.mapping == Recorded(old(mapping.mapping), stream, ids)
  {
    hide LeastFree, Recorded, Numbered, Marked;
    ghost var orig := Types(payloads);
    ghost var mem := Remembered(mapping.mapping, stream, |payloads|);
    ghost var done := [];
    StartNumbering(orig, mem, mapping.mapping, stream);
    var id := DYNAMIC_PAYLOAD_TYPE_START;
    var used: set<int> := {};
    var pseudoDyn := DynamicTypes(payloads);
    fixed := payloads;
    for idx := 0 to |payloads|
      invariant done == Numbered(orig, mem, idx) && used == Marked(done)
      invariant mapping.mapping == Recorded(old(mapping.mapping), stream, done)
      invariant |fixed| == |payloads|
      invariant forall i :: 0 <= i < idx ==> fixed[i] == payloads[i].(payloadType := done[i])
      invariant forall i :: idx <= i < |payloads| ==> fixed[i] == payloads[i]
      invariant DYNAMIC_PAYLOAD_TYPE_START <= id
      invariant forall j :: DYNAMIC_PAYLOAD_TYPE_START <= j < id ==> j in used || j in pseudoDyn
    {
      var pid := fixed[idx].payloadType;
      if pid < 0 {
        RecordedAt(old(mapping.mapping), stream, done, MapIndex(stream, idx));
        pid := mapping.Get(stream, idx);
      }
      assert pid == Wanted(orig, mem, idx);
      NumberedStep(orig, mem, idx);
      if pid < 0 || pid in used {
        id := NextFree(used, pseudoDyn, id);
        pid := id;
      }
      fixed := fixed[idx := fixed[idx].(payloadType := pid)];
      mapping.Map(stream, idx, pid);
      RecordedStep(old(mapping.mapping), stream, done, pid);
      MarkOne(done, pid);
      used := Mark(used, pid);
      done := done + [pid];
    }
    assert fixed == WithTypes(payloads, done);
  }

  lemma StartNumbering(orig: seq<int>, mem: seq<int>, mapping: map<int, int>, stream: nat)
    requires |orig| == |mem|
    ensures Numbered(orig, mem, 0) == [] && Marked([]) == {} && Recorded(mapping, stream, []) == mapping
  {}

  lemma NumberedStep(orig: seq<int>, mem: seq<int>, k: nat)
    requires k < |orig| == |mem|
    ensures var done := Numbered(orig, mem, k);
            var want := Wanted(orig, mem, k);
            var free := LeastFree(Marked(done) + Dynamic(orig), DYNAMIC_PAYLOAD_TYPE_START);
            Numbered(orig, mem, k + 1) == done + [if want < 0 || want in Marked(done) then free else want]
  {}

  lemma RecordedStep(mapping: map<int, int>, stream: nat, ids: seq<int>, id: int)
    ensures Recorded(mapping, stream, ids + [id])
         == Recorded(mapping, stream, ids)[MapIndex(stream, |ids|) := id]
  {
    assert (ids + [id])[..|ids|] == ids;
  }

  method FixDynamicPayloads(sdp: AmSdp, mapping: PayloadIdMapping)
    modifies sdp`media, mapping
    ensures (sdp.media, mapping.mapping) == Fixed(old(sdp.media), old(mapping.mapping))
  {
    hide Renumbered, WithTypes, Types, Recorded, Remembered;
    var streamIdx := 0;
    ghost var media0, map0 := sdp.media, mapping.mapping;
    for m := 0 to |sdp.media|
      invariant |sdp.media| == |media0|
      invariant forall i :: m <= i < |media0| ==> sdp.media[i] == media0[i]
      invariant streamIdx == AudioCount(media0[..m])
      invariant (sdp.media[..m], mapping.mapping) == Fixed(media0[..m], map0)
    {
      assert media0[..m + 1][..m] == media0[..m];
      if sdp.media[m].kind.Audio? {
        var fixed := FixStream(sdp.media[m].payloads, streamIdx, mapping);
        sdp.media := sdp.media[m := sdp.media[m].(payloads := fixed)];
        streamIdx := streamIdx + 1;
      }
      assert sdp.media[..m + 1] == sdp.media[..m] + [sdp.media[m]];
    }
    assert media0[..|media0|] == media0;
    assert sdp.media[..|media0|] == sdp.media;
  }

  // ---------- properties of whole descriptions ----------

  /** Fewer payloads than the mapping key leaves room for. */
  ghost predicate Indexable(media: seq<SdpMedia>) {
    forall m :: 0 <= m < |media| ==> |media[m].payloads| <= 128
  }

  /** What a stream's renumbering recorded is still there after the later streams. */
  lemma {:induction false} RecordKept(media: seq<SdpMedia>, mapping: map<int, int>, m: nat)
    requires m < |media| && media[m].kind.Audio? && Indexable(media)
    ensures var stream := AudioCount(media[..m]);
            var before := Fixed(media[..m], mapping).1;
            var n := |media[m].payloads|;
            && Remembered(before, stream, n) == Remembered(mapping, stream, n)
            && Fixed(media, mapping).0[m]
               == media[m].(payloads := WithTypes(media[m].payloads, StreamIds(media[m], stream, mapping)))
            && Remembered(Fixed(media, mapping).1, stream, n) == StreamIds(media[m], stream, mapping)
  {
    hide Renumbered, WithTypes, Types;
    var init, last := media[..|media| - 1], media[|media| - 1];
    var stream, n := AudioCount(media[..m]), |media[m].payloads|;
    EarlierStreams(media[..m], mapping, stream);
    var ids := StreamIds(media[m], stream, mapping);
    if m == |media| - 1 {
      var before := Fixed(init, mapping).1;
      forall i | 0 <= i < n
        ensures Remembered(Recorded(before, stream, ids), stream, n)[i] == ids[i]
      {
        RecordedAt(before, stream, ids, MapIndex(stream, i));
      }
    } else {
      assert init[..m] == media[..m] && init[m] == media[m];
      RecordKept(init, mapping, m);
      if last.kind.Audio? {
        var next := AudioCount(init);
        AudioCountMonotone(init, m);
        var before := Fixed(init, mapping).1;
        var lastIds := StreamIds(last, next, before);
        forall i | 0 <= i < n
          ensures Remembered(Recorded(before, next, lastIds), stream, n)[i] == ids[i]
        {
          RecordedAt(before, next, lastIds, MapIndex(stream, i));
        }
      }
    }
  }

  lemma {:induction false} AudioCountMonotone(media: seq<SdpMedia>, m: nat)
    requires m < |media| && media[m].kind.Audio?
    ensures AudioCount(media[..m]) < AudioCount(media)
  {
    var init := media[..|media| - 1];
    if m < |init| {
      assert init[..m] == media[..m];
      AudioCountMonotone(init, m);
    }
  }

  /** Earlier streams leave the keys of later streams alone. */
  lemma {:induction false} EarlierStreams(media: seq<SdpMedia>, mapping: map<int, int>, stream: nat)
    requires AudioCount(media) <= stream && Indexable(media)
    ensures forall n: nat :: Remembered(Fixed(media, mapping).1, stream, n)
                          == Remembered(mapping, stream, n)
  {
    if media != [] {
      var init, m := media[..|media| - 1], media[|media| - 1];
      EarlierStreams(init, mapping, stream);
      if m.kind.Audio? {
        var s := AudioCount(init);
        var before := Fixed(init, mapping).1;
        var ids := StreamIds(m, s, before);
        forall n: nat
          ensures Remembered(Recorded(before, s, ids), stream, n) == Remembered(mapping, stream, n)
        {
          forall i | 0 <= i < n
            ensures Lookup(Recorded(before, s, ids), MapIndex(stream, i))
                 == Remembered(mapping, stream, n)[i]
          {
            RecordedAt(before, s, ids, MapIndex(stream, i));
            assert Remembered(before, stream, n)[i] == Remembered(mapping, stream, n)[i];
          }
        }
      }
    }
  }

  lemma {:induction false} NonAudioKept(media: seq<SdpMedia>, mapping: map<int, int>, m: nat)
    requires m < |media| && !media[m].kind.Audio?
    ensures Fixed(media, mapping).0[m] == media[m]
  {
    var init := media[..|media| - 1];
    if m < |init| {
      NonAudioKept(init, mapping, m);
    }
  }

  /** Section 8.3.2 of RFC 3264: an offer that is renumbered again with the mapping
      its first renumbering left behind gets the numbers it had. */
  lemma RenumberingStable(media: seq<SdpMedia>, mapping: map<int, int>)
    requires Indexable(media)
    ensures Fixed(media, Fixed(media, mapping).1).0 == Fixed(media, mapping).0
  {
    var first := Fixed(media, mapping);
    forall m | 0 <= m < |media|
      ensures Fixed(media, first.1).0[m] == first.0[m]
    {
      if media[m].kind.Audio? {
        var stream := AudioCount(media[..m]);
        RecordKept(media, mapping, m);
        RecordKept(media, first.1, m);
        var orig := Types(media[m].payloads);
        StableStream(orig, Remembered(mapping, stream, |orig|), |orig|);
      } else {
        NonAudioKept(media, mapping, m);
        NonAudioKept(media, first.1, m);
      }
    }
  }

  lemma FixedStep(media: seq<SdpMedia>, m: SdpMedia, mapping: map<int, int>)
    ensures var before := Fixed(media, mapping);
            var ids := StreamIds(m, AudioCount(media), before.1);
            && AudioCount(media + [m]) == AudioCount(media) + (if m.kind.Audio? then 1 else 0)
            && Fixed(media + [m], mapping).0
               == before.0 + [if m.kind.Audio? then m.(payloads := WithTypes(m.payloads, ids)) else m]
  {
    assert (media + [m])[..|media|] == media;
  }

  lemma IdempotentMedia(m: SdpMedia, ids: seq<int>, stream: nat, mapping: map<int, int>,
                        other: map<int, int>)
    requires ids == StreamIds(m, stream, mapping)
    ensures var again := m.(payloads := WithTypes(m.payloads, ids));
            again.(payloads := WithTypes(again.payloads, StreamIds(again, stream, other))) == again
  {
    var orig, n := Types(m.payloads), |m.payloads|;
    var again := m.(payloads := WithTypes(m.payloads, ids));
    assert Types(again.payloads) == ids;
    IdempotentStream(orig, Remembered(mapping, stream, n), Remembered(other, stream, n), n);
    assert ids[..n] == ids;
    assert WithTypes(again.payloads, ids) == again.payloads;
  }

  /** A renumbered description is a fixed point, under any mapping. */
  lemma {:induction false} RenumberingIdempotent(media: seq<SdpMedia>, mapping: map<int, int>, other: map<int, int>)
    ensures Fixed(Fixed(media, mapping).0, other).0 == Fixed(media, mapping).0
    ensures AudioCount(Fixed(media, mapping).0) == AudioCount(media)
  {
    if media != [] {
      var init, m := media[..|media| - 1], media[|media| - 1];
      assert media == init + [m];
      var before := Fixed(init, mapping);
      var stream := AudioCount(init);
      RenumberingIdempotent(init, mapping, other);
      FixedStep(init, m, mapping);
      if m.kind.Audio? {
        var ids := StreamIds(m, stream, before.1);
        var again := m.(payloads := WithTypes(m.payloads, ids));
        FixedStep(before.0, again, other);
        IdempotentMedia(m, ids, stream, before.1, Fixed(before.0, other).1);
      } else {
        FixedStep(before.0, m, other);
      }
    }
  }

  /** After renumbering, the payloads of an audio stream have distinct numbers if and only if
      there are enough for them; a number that RTP allows is never given out twice. */
  lemma {:induction false} StreamsDistinct(media: seq<SdpMedia>, mapping: map<int, int>, m: nat)
    requires m < |media| && media[m].kind.Audio? && Indexable(media)
    ensures var orig := Types(media[m].payloads);
            var mem := Remembered(mapping, AudioCount(media[..m]), |orig|);
            var ids := Types(Fixed(media, mapping).0[m].payloads);
            && (Distinct(ids) <==> EnoughNumbers(orig, mem))
            && forall i, j :: 0 <= i < j < |ids| && ids[i] == ids[j] ==> ids[i] >= MASK_SIZE
  {
    hide Renumbered, EnoughNumbers, Fixed;
    var orig := Types(media[m].payloads);
    var mem := Remembered(mapping, AudioCount(media[..m]), |orig|);
    RecordKept(media, mapping, m);
    assert Types(Fixed(media, mapping).0[m].payloads) == Renumbered(orig, mem);
    AllDistinct(orig, mem);
    MarkedOnce(orig, mem);
  }
}
