/** Who owns the context of a call (src/SBCCallLeg.cpp:207-237, 834-918, 1998-2030, 2271-2275,
    3053-3054): the legs of a call count their references to it, and the last one frees it. */
module ContextCounts {
  /** What the counter and the memory of a context look like. */
  datatype Context = Context(references: nat, freed: nat, closed: nat)

  function Joined(c: Context): Context {
    c.(references := c.references + 1)
  }

  /** A leg is destroyed: the last one sends the final record and frees the context. */
  function Released(c: Context): Context {
    var left := if c.references > 0 then c.references - 1 else 0;
    if left == 0 then Context(0, c.freed + 1, c.closed + 1) else c.(references := left)
  }

  const UINT_MAX := 0xFFFF_FFFF

  /** A leg that has been referred away forgets the context and never frees it; the counter is
      unsigned and would wrap around. */
  function Forgotten(c: Context): Context {
    c.(references := if c.references > 0 then c.references - 1 else UINT_MAX)
  }

  function Abandoned(c: Context, record: bool): Context {
    c.(freed := c.freed + 1, closed := if record then c.closed + 1 else c.closed)
  }
}

/** What holds of the counter over every run. */
module ContextRefs {
  import opened Options
  import opened ContextCounts

  // ---------- all legs of a call ----------

  type LegId = nat

  const CALLER: LegId := 0

  datatype Phase = Idle | Requesting | Routing | Stopped

  /** `holders` are the legs whose pointer is counted, `joining` is a callee that has copied the
      pointer and waits for the lock, with its caller inside the constructor. */
  datatype Call = Call(phase: Phase, context: Context, holders: set<LegId>, joining: Option<LegId>, made: set<LegId>)

  datatype Event =
    | Request
    | Abandon(record: bool)
    | Route
    | Copy(leg: LegId)
    | Count
    | Refer(leg: LegId)
    | Destroy(leg: LegId)

  const NEW_CALL := Call(Idle, Context(0, 0, 0), {}, None, {CALLER})

  /** What the threads of the legs can do next. A leg is destroyed once, and the caller's thread
      is not free while it makes a callee. */
  predicate Possible(s: Call, e: Event) {
    match e
    case Request => s.phase == Idle && CALLER in s.made
    case Abandon(_) => s.phase == Requesting && CALLER in s.holders
    case Route => s.phase == Requesting && CALLER in s.holders
    case Copy(leg) => s.phase == Routing && CALLER in s.holders && s.joining.None? && leg !in s.made && leg != CALLER
    case Count => s.joining.Some?
    case Refer(leg) => leg != CALLER && leg in s.holders
    case Destroy(leg) =>
      leg in s.made && Some(leg) != s.joining && (leg == CALLER ==> s.joining.None?)
  }

  /** The event reads or writes the memory of the context. */
  predicate Touches(s: Call, e: Event) {
    match e
    case Request => false
    case Destroy(leg) => leg in s.holders
    case _ => true
  }

  function After(s: Call, e: Event): Call
    requires Possible(s, e)
  {
    match e
    case Request => s.(phase := Requesting, context := Joined(s.context), holders := {CALLER})
    case Abandon(record) => s.(phase := Stopped, context := Abandoned(s.context, record), holders := {})
    case Route => s.(phase := Routing)
    case Copy(leg) => s.(joining := Some(leg))
    case Count =>
      var leg := s.joining.value;
      s.(context := Joined(s.context), holders := s.holders + {leg}, joining := None, made := s.made + {leg})
    case Refer(leg) => s.(context := Forgotten(s.context), holders := s.holders - {leg})
    case Destroy(leg) =>
      var left := s.(made := s.made - {leg}, phase := if leg == CALLER && !s.phase.Idle? then Stopped else s.phase);
      if leg in s.holders then left.(context := Released(s.context), holders := s.holders - {leg}) else left
  }

  /** The counter counts the legs that hold the context, and it is freed at most once and only
      when none does. */
  predicate Sound(s: Call) {
    && s.holders <= s.made
    && (s.phase.Idle? ==> s.context == Context(0, 0, 0) && s.holders == {})
    && (s.phase.Requesting? ==> s.holders <= {CALLER})
    && s.context.freed <= 1
    && (s.context.freed == 0 ==> s.context.references == |s.holders| && s.context.closed == 0)
    && (s.context.freed == 1 ==> s.holders == {} && s.context.closed <= 1)
    && (s.joining.Some? ==> CALLER in s.holders && s.joining.value !in s.made && s.joining.value != CALLER)
    && (s.phase.Idle? || s.phase.Requesting? ==> s.joining.None?)
  }

  lemma SizeWithout(holders: set<LegId>, leg: LegId)
    requires leg in holders
    ensures |holders - {leg}| == |holders| - 1
    ensures |holders - {leg}| == 0 <==> holders == {leg}
  {
    if |holders - {leg}| == 0 {
      assert holders - {leg} == {};
    }
  }

  lemma StaysSound(s: Call, e: Event)
    requires Sound(s) && Possible(s, e)
    ensures Sound(After(s, e))
  {
    if (e.Refer? || e.Destroy?) && e.leg in s.holders {
      SizeWithout(s.holders, e.leg);
    }
  }

  /** No leg reaches for a context that has been freed, and none is freed that is held. */
  lemma AliveWhenTouched(s: Call, e: Event)
    requires Sound(s) && Possible(s, e)
    ensures Touches(s, e) ==> s.context.freed == 0
    ensures After(s, e).context.freed > s.context.freed
       <==> (e.Abandon? || e.Destroy?) && s.holders == {if e.Destroy? then e.leg else CALLER}
  {
    if (e.Refer? || e.Destroy?) && e.leg in s.holders {
      SizeWithout(s.holders, e.leg);
    }
  }

  // ---------- runs ----------

  predicate IsRun(calls: seq<Call>, events: seq<Event>) {
    && |calls| == |events| + 1 && calls[0] == NEW_CALL
    && forall i :: 0 <= i < |events| ==> Possible(calls[i], events[i]) && calls[i + 1] == After(calls[i], events[i])
  }

  /** Whenever a callee was referred away, another leg still held the context. */
  predicate NeverOrphaned(calls: seq<Call>, events: seq<Event>)
    requires |calls| == |events| + 1
  {
    forall i :: 0 <= i < |events| && events[i].Refer? ==> calls[i].holders != {events[i].leg}
  }

  /** In every run the counter is right; and when the profiles have been asked for and no leg
      holds the context any more, it has been freed if and only if it was never orphaned. */
  lemma {:induction false} FreedByTheLast(calls: seq<Call>, events: seq<Event>)
    requires IsRun(calls, events)
    ensures var s := calls[|events|];
      && Sound(s)
      && (s.phase.Idle? ==> NeverOrphaned(calls, events))
      && (!s.phase.Idle? ==> (NeverOrphaned(calls, events) <==> s.context.freed == 1 || s.holders != {}))
  {
    if events != [] {
      var n := |events| - 1;
      FreedByTheLast(calls[..n + 1], events[..n]);
      StaysSound(calls[n], events[n]);
      OneMoreEvent(calls, events);
      LastHolder(calls[n], events[n]);
    }
  }

  /** A callee that is referred away after its caller has gone takes the last reference with it. */
  lemma ContextCanLeak()
    ensures exists calls: seq<Call>, events: seq<Event> :: IsRun(calls, events) && !NeverOrphaned(calls, events)
                                    && calls[|events|].holders == {} && calls[|events|].context.freed == 0
  {
    var s1 := After(NEW_CALL, Request);
    var s2 := After(s1, Route);
    var s3 := After(s2, Copy(1));
    var s4 := After(s3, Count);
    var s5 := After(s4, Destroy(CALLER));
    assert s4.context.references == 2 && s5.holders == {1};
    var s6 := After(s5, Refer(1));
    var calls, events := [NEW_CALL, s1, s2, s3, s4, s5, s6], [Request, Route, Copy(1), Count, Destroy(CALLER), Refer(1)];
    assert IsRun(calls, events) && events[5].Refer? && calls[5].holders == {events[5].leg};
    assert calls[|events|].holders == {} && calls[|events|].context.freed == 0;
  }

  lemma OneMoreEvent(calls: seq<Call>, events: seq<Event>)
    requires IsRun(calls, events) && events != []
    ensures var n := |events| - 1;
      NeverOrphaned(calls, events)
      <==> NeverOrphaned(calls[..n + 1], events[..n]) && (events[n].Refer? ==> calls[n].holders != {events[n].leg})
  {
    var n := |events| - 1;
    if NeverOrphaned(calls, events) {
      forall i | 0 <= i < n && events[..n][i].Refer? ensures calls[..n + 1][i].holders != {events[..n][i].leg} {
        assert events[i].Refer?;
      }
    }
    if NeverOrphaned(calls[..n + 1], events[..n]) {
      forall i | 0 <= i < n && events[i].Refer? ensures calls[i].holders != {events[i].leg} {
        assert events[..n][i].Refer?;
      }
    }
  }

  /** The step that takes the last holder away frees the context unless it is a referral. */
  lemma LastHolder(s: Call, e: Event)
    requires Sound(s) && Possible(s, e)
    ensures var s' := After(s, e);
      && (e.Request? ==> s'.holders != {} && s'.context.freed == 0)
      && (!e.Request? && s.holders == {} ==> s'.holders == {} && s'.context.freed == s.context.freed)
      && (s.holders != {} && s'.holders == {} ==>
            (s'.context.freed == 1 <==> !e.Refer?) && (e.Refer? ==> s.holders == {e.leg}))
      && (s.holders != {} && s'.holders != {} ==>
            s'.context.freed == s.context.freed == 0 && (e.Refer? ==> s.holders != {e.leg}))
  {
    if (e.Refer? || e.Destroy?) && e.leg in s.holders {
      SizeWithout(s.holders, e.leg);
    }
  }
}
