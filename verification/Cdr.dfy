/** The reasons and times of a call detail record (src/cdr/Cdr.cpp): which of the updates
    that arrive during a call is the one that gets written. */
module Cdrs {
  import opened Options

  datatype Initiator = ByDB | ByTS | ByDST | ByORG | Undefined

  datatype Reason = Reason(text: string, code: int)

  /** Times are microseconds; 0 is a time that is not set. */
  datatype UpdateAction = Start | BLegInvite | Connect | BlegConnect | End

  datatype Data = Data(
    attemptNum: int, writed: bool, isLast: bool,
    initiator: Initiator, initiatorWrited: bool, internalReason: Reason,
    blegReason: Reason, blegReasonWrited: bool,
    rewritedReason: Reason, alegReasonWrited: bool,
    startTime: nat, blegInviteTime: nat, connectTime: nat, blegConnectTime: nat, endTime: nat)

  const NO_REASON := Reason("", 0)
  const EMPTY := Data(1, false, false, Undefined, false, Reason("Unhandled sequence", 0),
                      NO_REASON, false, NO_REASON, false, 0, 0, 0, 0, 0)

  /** The record of the next attempt begins when the call began. */
  function Derived(d: Data): Data {
    EMPTY.(attemptNum := d.attemptNum + 1, startTime := d.startTime, endTime := d.startTime)
  }

  // ---------- one update ----------

  datatype Update =
    | Act(action: UpdateAction, now: nat)
    | Internal(initiator: Initiator, reason: Reason, now: nat)
    | ALeg(reason: Reason)
    | BLeg(reason: Reason)
    | Write(last: bool)

  function Acted(d: Data, action: UpdateAction, now: nat): Data {
    match action
    case Start => d.(startTime := now, endTime := now)
    case BLegInvite => if d.blegInviteTime == 0 then d.(blegInviteTime := now) else d
    case Connect => if d.startTime == d.endTime then d.(connectTime := now) else d
    case BlegConnect => d.(blegConnectTime := now)
    case End => if d.startTime == d.endTime then d.(endTime := now) else d
  }

  function Blamed(d: Data, initiator: Initiator, reason: Reason, now: nat): Data {
    var ended := Acted(d, End, now);
    var named := if d.initiatorWrited then ended
                 else ended.(initiator := initiator, internalReason := reason, initiatorWrited := true);
    if d.alegReasonWrited then named else named.(rewritedReason := reason)
  }

  function Next(d: Data, u: Update): Data {
    if d.writed then d
    else
      match u
      case Act(action, now) => Acted(d, action, now)
      case Internal(initiator, reason, now) => Blamed(d, initiator, reason, now)
      case ALeg(reason) => d.(rewritedReason := reason, alegReasonWrited := true)
      case BLeg(reason) => if d.blegReasonWrited then d else d.(blegReason := reason, blegReasonWrited := true)
      case Write(last) => d.(writed := true, isLast := last)
  }

  function Run(d: Data, updates: seq<Update>): Data {
    if updates == [] then d else Next(Run(d, updates[..|updates| - 1]), updates[|updates| - 1])
  }

  // ---------- the record ----------

  class Cdr {
    var attemptNum: int
    var writed: bool
    var isLast: bool
    var initiator: Initiator
    var initiatorWrited: bool
    var internalReason: Reason
    var blegReason: Reason
    var blegReasonWrited: bool
    var rewritedReason: Reason
    var alegReasonWrited: bool
    var startTime: nat
    var blegInviteTime: nat
    var connectTime: nat
    var blegConnectTime: nat
    var endTime: nat

    function Value(): Data
      reads this
    {
      Data(attemptNum, writed, isLast, initiator, initiatorWrited, internalReason, blegReason, blegReasonWrited,
           rewritedReason, alegReasonWrited, startTime, blegInviteTime, connectTime, blegConnectTime, endTime)
    }

    constructor ()
      ensures Value() == EMPTY
    {
      attemptNum, writed, isLast := 1, false, false;
      initiator, initiatorWrited, internalReason := Undefined, false, Reason("Unhandled sequence", 0);
      blegReason, blegReasonWrited := NO_REASON, false;
      rewritedReason, alegReasonWrited := NO_REASON, false;
      startTime, blegInviteTime, connectTime, blegConnectTime, endTime := 0, 0, 0, 0, 0;
    }

    constructor Derive(cdr: Cdr)
      ensures Value() == Derived(cdr.Value())
    {
      attemptNum, writed, isLast := cdr.attemptNum + 1, false, false;
      initiator, initiatorWrited, internalReason := Undefined, false, Reason("Unhandled sequence", 0);
      blegReason, blegReasonWrited := NO_REASON, false;
      rewritedReason, alegReasonWrited := NO_REASON, false;
      startTime, blegInviteTime, connectTime, blegConnectTime := cdr.startTime, 0, 0, 0;
      endTime := cdr.startTime;
    }

    method SetStartTime(t: nat)
      modifies this
      ensures Value() == old(Value()).(startTime := t, endTime := t)
    {
      startTime := t;
      endTime := t;
    }

    method UpdateWithAction(action: UpdateAction, now: nat)
      modifies this
      ensures Value() == Next(old(Value()), Act(action, now))
    {
      if writed { return; }
      match action
      case Start =>
        startTime := now;
        endTime := startTime;
      case BLegInvite =>
        if blegInviteTime == 0 { blegInviteTime := now; }
      case Connect =>
        if startTime == endTime { connectTime := now; }
      case BlegConnect =>
        blegConnectTime := now;
      case End =>
        if startTime == endTime { endTime := now; }
    }

    method UpdateBlegReason(reason: Reason)
      modifies this
      ensures Value() == Next(old(Value()), BLeg(reason))
    {
      if writed || blegReasonWrited { return; }
      blegReason := reason;
      blegReasonWrited := true;
    }

    method UpdateAlegReason(reason: Reason)
      modifies this
      ensures Value() == Next(old(Value()), ALeg(reason))
    {
      if writed { return; }
      rewritedReason := reason;
      alegReasonWrited := true;
    }

    method UpdateInternalReason(who: Initiator, reason: Reason, now: nat)
      modifies this
      ensures Value() == Next(old(Value()), Internal(who, reason, now))
    {
      if writed { return; }
      UpdateWithAction(End, now);
      if !initiatorWrited {
        initiator := who;
        internalReason := reason;
        initiatorWrited := true;
      }
      if !alegReasonWrited {
        rewritedReason := reason;
      }
    }
  }

  // ---------- which update counts ----------

  predicate IsWrite(u: Update) { u.Write? }

  predicate IsInternal(u: Update) { u.Internal? }

  predicate IsALeg(u: Update) { u.ALeg? }

  predicate IsBLeg(u: Update) { u.BLeg? }

  predicate IsStart(u: Update) { u.Act? && u.action.Start? }

  /** An internal reason stamps the end of the call as well. */
  predicate Stamps(u: Update) { u.Internal? || (u.Act? && u.action.End?) }

  /** A stamp ends a call once the clock has moved since the call began. */
  function Ending(start: nat): Update -> bool {
    u => Stamps(u) && u.now != start
  }

  predicate IsConnect(u: Update) { u.Act? && u.action.Connect? }

  predicate IsBlegConnect(u: Update) { u.Act? && u.action.BlegConnect? }

  predicate IsBLegInvite(u: Update) { u.Act? && u.action.BLegInvite? && u.now > 0 }

  function First(us: seq<Update>, p: Update -> bool): (r: Option<Update>)
    ensures r.Some? ==> p(r.value)
  {
    if us == [] then None else if p(us[0]) then Some(us[0]) else First(us[1..], p)
  }

  function Last(us: seq<Update>, p: Update -> bool): (r: Option<Update>)
    ensures r.Some? ==> p(r.value)
  {
    if us == [] then None
    else if p(us[|us| - 1]) then Some(us[|us| - 1])
    else Last(us[..|us| - 1], p)
  }

  /** What comes before the first one of a kind. */
  function Before(us: seq<Update>, p: Update -> bool): seq<Update> {
    if us == [] || p(us[0]) then [] else [us[0]] + Before(us[1..], p)
  }

  lemma {:induction false} FirstMore(us: seq<Update>, u: Update, p: Update -> bool)
    ensures First(us + [u], p) == if First(us, p).Some? then First(us, p) else if p(u) then Some(u) else None
    ensures Before(us + [u], p)
         == if First(us, p).Some? then Before(us, p) else if p(u) then us else us + [u]
    ensures First(us, p).None? ==> Before(us, p) == us
  {
    if us != [] {
      FirstMore(us[1..], u, p);
      assert (us + [u])[1..] == us[1..] + [u];
      assert us == [us[0]] + us[1..];
    } else {
      assert us + [u] == [u];
      assert First([u][1..], p) == None;
    }
  }

  lemma LastMore(us: seq<Update>, u: Update, p: Update -> bool)
    ensures Last(us + [u], p) == if p(u) then Some(u) else Last(us, p)
  {
    assert (us + [u])[..|us|] == us;
  }

  /** A record that has begun and has not been updated. */
  predicate Fresh(d: Data) {
    && !d.writed && !d.initiatorWrited && !d.alegReasonWrited && !d.blegReasonWrited
    && d.startTime == d.endTime && d.blegInviteTime == 0
  }

  /** The updates behind the last one that lets the call begin. */
  function SinceStart(us: seq<Update>): (r: seq<Update>)
    ensures |r| <= |us|
  {
    if us == [] || IsStart(us[|us| - 1]) then [] else SinceStart(us[..|us| - 1]) + [us[|us| - 1]]
  }

  function StartTime(start: nat, us: seq<Update>): nat {
    if us == [] then start
    else if IsStart(us[|us| - 1]) then us[|us| - 1].now
    else StartTime(start, us[..|us| - 1])
  }

  /** The last connect before the end of the call; if there is none, what there was before the
      call began again. */
  function ConnectTime(d: Data, us: seq<Update>): nat
    decreases |us|
  {
    var call := SinceStart(us);
    var connect := Last(Before(call, Ending(StartTime(d.startTime, us))), IsConnect);
    if connect.Some? then connect.value.now
    else if |call| == |us| then d.connectTime
    else ConnectTime(d, us[..|us| - |call| - 1])
  }

  lemma SinceMore(d: Data, us: seq<Update>, u: Update)
    ensures SinceStart(us + [u]) == if IsStart(u) then [] else SinceStart(us) + [u]
    ensures StartTime(d.startTime, us + [u]) == if IsStart(u) then u.now else StartTime(d.startTime, us)
  {
    assert (us + [u])[..|us|] == us;
  }

  lemma ConnectMore(d: Data, us: seq<Update>, u: Update)
    ensures var ended := First(SinceStart(us), Ending(StartTime(d.startTime, us))).Some?;
            ConnectTime(d, us + [u]) == if IsConnect(u) && !ended then u.now else ConnectTime(d, us)
  {
    hide First, Last, Before, SinceStart, StartTime;
    var call, ending := SinceStart(us), Ending(StartTime(d.startTime, us));
    SinceMore(d, us, u);
    if IsStart(u) {
      NothingBefore(Ending(u.now));
      assert (us + [u])[..|us|] == us;
    } else {
      FirstMore(call, u, ending);
      LastMore(call, u, IsConnect);
      assert |call| < |us| ==> (us + [u])[..|us| - |call| - 1] == us[..|us| - |call| - 1];
    }
  }

  lemma NothingBefore(p: Update -> bool)
    ensures Before([], p) == [] && Last([], IsConnect) == None && First([], p) == None
  {}

  /** The updates that reach the record: those before it is written. */
  function Reaching(us: seq<Update>): seq<Update> {
    Before(us, IsWrite)
  }

  /** The record that a series of updates leaves, told without running them. */
  function Summary(d: Data, us: seq<Update>): Data {
    var heard := Reaching(us);
    var start := StartTime(d.startTime, heard);
    var internal, end := First(heard, IsInternal), First(SinceStart(heard), Ending(start));
    var aleg, lastInternal := Last(heard, IsALeg), Last(heard, IsInternal);
    var bleg, write := First(heard, IsBLeg), First(us, IsWrite);
    var invite, blegConnect := First(heard, IsBLegInvite), Last(heard, IsBlegConnect);
    Data(
      d.attemptNum,
      write.Some?,
      if write.Some? then write.value.last else d.isLast,
      if internal.Some? then internal.value.initiator else d.initiator,
      internal.Some?,
      if internal.Some? then internal.value.reason else d.internalReason,
      if bleg.Some? then bleg.value.reason else d.blegReason,
      bleg.Some?,
      if aleg.Some? then aleg.value.reason
      else if lastInternal.Some? then lastInternal.value.reason
      else d.rewritedReason,
      aleg.Some?,
      start,
      if invite.Some? then invite.value.now else 0,
      ConnectTime(d, heard),
      if blegConnect.Some? then blegConnect.value.now else d.blegConnectTime,
      if end.Some? then end.value.now else start)
  }

  /** The internal reason is the first one, the reason of the B leg is the first one, the reason
      for the A leg is its own last one or else the last internal one; the last connect before
      the first end counts; and nothing counts once the record is written. */
  lemma {:induction false} RunIsSummary(d: Data, us: seq<Update>)
    requires Fresh(d)
    ensures Run(d, us) == Summary(d, us)
  {
    hide Summary, Next;
    if us == [] {
      EmptySummary(d);
    } else {
      var n := |us| - 1;
      RunIsSummary(d, us[..n]);
      assert us == us[..n] + [us[n]];
      SummaryStep(d, us[..n], us[n]);
    }
  }

  lemma EmptySummary(d: Data)
    requires Fresh(d)
    ensures Summary(d, []) == d
  {
    assert SinceStart([]) == [];
  }

  lemma SummaryStep(d: Data, us: seq<Update>, u: Update)
    requires Fresh(d)
    ensures Next(Summary(d, us), u) == Summary(d, us + [u])
  {
    hide First, Last, Before, SinceStart, StartTime, ConnectTime;
    FirstMore(us, u, IsWrite);
    if First(us, IsWrite).None? && !u.Write? {
      match u
      case Act(_, _) => SummaryAct(d, us, u);
      case Internal(_, _, _) => SummaryInternal(d, us, u);
      case ALeg(_) => SummaryLeg(d, us, u);
      case BLeg(_) => SummaryLeg(d, us, u);
    }
  }

  /** An update of one kind leaves what the updates of other kinds have told. */
  lemma SummaryAct(d: Data, us: seq<Update>, u: Update)
    requires Fresh(d) && First(us, IsWrite).None? && u.Act?
    ensures Next(Summary(d, us), u) == Summary(d, us + [u])
  {
    hide First, Last, Before, SinceStart, StartTime, ConnectTime;
    FirstMore(us, u, IsWrite);
    FirstMore(us, u, IsInternal);
    FirstMore(us, u, IsBLeg);
    FirstMore(us, u, IsBLegInvite);
    LastMore(us, u, IsALeg);
    LastMore(us, u, IsInternal);
    LastMore(us, u, IsBlegConnect);
    SinceMore(d, us, u);
    ConnectMore(d, us, u);
    FirstMore(SinceStart(us), u, Ending(StartTime(d.startTime, us)));
    if IsStart(u) {
      NothingBefore(Ending(u.now));
    }
  }

  lemma SummaryInternal(d: Data, us: seq<Update>, u: Update)
    requires Fresh(d) && First(us, IsWrite).None? && u.Internal?
    ensures Next(Summary(d, us), u) == Summary(d, us + [u])
  {
    hide First, Last, Before, SinceStart, StartTime, ConnectTime;
    FirstMore(us, u, IsWrite);
    FirstMore(us, u, IsInternal);
    FirstMore(us, u, IsBLeg);
    FirstMore(us, u, IsBLegInvite);
    LastMore(us, u, IsALeg);
    LastMore(us, u, IsInternal);
    LastMore(us, u, IsBlegConnect);
    SinceMore(d, us, u);
    ConnectMore(d, us, u);
    FirstMore(SinceStart(us), u, Ending(StartTime(d.startTime, us)));
  }

  lemma SummaryLeg(d: Data, us: seq<Update>, u: Update)
    requires Fresh(d) && First(us, IsWrite).None? && (u.ALeg? || u.BLeg?)
    ensures Next(Summary(d, us), u) == Summary(d, us + [u])
  {
    hide First, Last, Before, SinceStart, StartTime, ConnectTime;
    FirstMore(us, u, IsWrite);
    FirstMore(us, u, IsInternal);
    FirstMore(us, u, IsBLeg);
    FirstMore(us, u, IsBLegInvite);
    LastMore(us, u, IsALeg);
    LastMore(us, u, IsInternal);
    LastMore(us, u, IsBlegConnect);
    SinceMore(d, us, u);
    ConnectMore(d, us, u);
    FirstMore(SinceStart(us), u, Ending(StartTime(d.startTime, us)));
  }

  /** No update of any kind changes a record that has been written. */
  lemma {:induction false} WrittenStays(d: Data, us: seq<Update>)
    requires d.writed
    ensures Run(d, us) == d
  {
    if us != [] {
      WrittenStays(d, us[..|us| - 1]);
    }
  }

  lemma {:induction false} FirstExists(us: seq<Update>, p: Update -> bool)
    ensures First(us, p).Some? <==> exists u :: u in us && p(u)
  {
    if us != [] {
      FirstExists(us[1..], p);
      assert us == [us[0]] + us[1..];
    }
  }

  /** After any run a connect is ignored if and only if the record is written, or since the call
      began some end was stamped at another instant than its beginning. */
  lemma {:induction false} ConnectAfterEnd(d: Data, us: seq<Update>, connect: nat)
    requires Fresh(d) && connect != Run(d, us).connectTime
    ensures Run(d, us + [Act(Connect, connect)]).connectTime == Run(d, us).connectTime
       <==> || (exists u :: u in us && IsWrite(u))
            || exists u :: u in SinceStart(us) && Ending(StartTime(d.startTime, us))(u)
  {
    hide First, Last, Before, SinceStart, StartTime, ConnectTime;
    assert (us + [Act(Connect, connect)])[..|us|] == us;
    RunIsSummary(d, us);
    FirstExists(us, IsWrite);
    FirstExists(SinceStart(us), Ending(StartTime(d.startTime, us)));
    FirstMore(us, Act(Connect, connect), IsWrite);
  }

  lemma RunMore(d: Data, us: seq<Update>, u: Update)
    ensures Run(d, us + [u]) == Next(Run(d, us), u)
    ensures Run(d, []) == d
  {
    assert (us + [u])[..|us|] == us;
  }

  /** A connect is recorded behind an end that was stamped at the very beginning. */
  lemma ConnectBehindEnd()
    ensures var us := [Act(Start, 5), Act(End, 5), Act(Connect, 6)]; Run(EMPTY, us).connectTime == 6
  {
    hide Run;
    var start, end, connect := Act(Start, 5), Act(End, 5), Act(Connect, 6);
    RunMore(EMPTY, [], start);
    RunMore(EMPTY, [start], end);
    RunMore(EMPTY, [start, end], connect);
    assert [] + [start] == [start] && [start] + [end] == [start, end];
    assert [start, end] + [connect] == [start, end, connect];
  }
}
