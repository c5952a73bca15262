/** The caller's leg of a forked call (src/CallLeg.cpp): what each operation does to the
    candidate legs, and what holds over every run. */
module ForkSpec {
  import opened Options

  /** Local tag of a leg; "" stands for no leg. */
  type Tag = string

  datatype CallStatus = Disconnected | NoReply | Ringing | Connected | Disconnecting

  /** A reply posted by another leg: whether it answers an INVITE, and the initial one. */
  datatype Reply = Reply(
    code: int, invite: bool, establishing: bool, from: Tag, sender: Tag, toTag: string)

  /** Outcome of relaying: sent, no such request any more (not an error), or failed. */
  datatype RelayResult = Sent | NoRequest | Failed

  /** What leaves the leg: a reply relayed to its own side, or one handed to the base session. */
  datatype Output = Relayed(reply: Reply) | HandedOn(reply: Reply)

  /** `terminated` counts terminate events per leg, `lateRefusals` are handed to the hook for a
      connected call; `stopped` says that the leg ended itself.  `ownTag` is the to-tag under which
      the caller knows the leg.
      The last four fields are history: legs ever added, legs that refused, and which leg's
      2xx was accepted and how much had been output by then. */
  datatype Leg = Leg(
    aLeg: bool, allow1xxWithoutToTag: bool, ownTag: Tag,
    status: CallStatus, otherLegs: set<Tag>, otherId: Tag, relayOnly: bool,
    terminated: multiset<Tag>, output: seq<Output>, lateRefusals: seq<Reply>, stopped: bool,
    added: set<Tag>, refused: set<Tag>, winner: Option<Tag>, wonAt: nat)

  // ---------- what each operation does ----------

  function Add(s: Leg, tag: Tag): Leg {
    s.(otherLegs := s.otherLegs + {tag}, added := s.added + {tag},
       status := if s.status.Disconnected? then NoReply else s.status)
  }

  function RemoveOther(s: Leg, tag: Tag): Leg {
    s.(otherId := if s.otherId == tag then "" else s.otherId,
       otherLegs := s.otherLegs - {tag})
  }

  /** Ends the current peer, and while not connected all candidates: each exactly once. */
  function TerminateOther(s: Leg): Leg {
    var peer := {s.otherId} - {""};
    s.(terminated := s.terminated + multiset(if s.status.Connected? then peer else s.otherLegs + peer),
       otherLegs := if s.status.Connected? then s.otherLegs - {s.otherId} else {},
       otherId := "", status := Disconnected)
  }

  /** Ends all candidates and the peer, each exactly once, and the leg itself. */
  function Stop(s: Leg): Leg {
    s.(terminated := s.terminated + multiset(s.otherLegs + ({s.otherId} - {""})),
       otherLegs := {}, otherId := "", status := Disconnected, stopped := true)
  }

  predicate CanChoose(s: Leg, tag: Tag) {
    s.otherId == tag || tag in s.otherLegs
  }

  function Choose(s: Leg, tag: Tag): Leg {
    if s.otherId == tag then s else s.(otherId := tag, relayOnly := true)
  }

  function Relay(s: Leg, r: Reply, forward: bool, result: RelayResult): Leg {
    if forward && result.Sent? then s.(output := s.output + [Relayed(r)]) else s
  }

  /** A reply without a to-tag goes on with that of the leg itself. */
  function WithTag(s: Leg, r: Reply): Reply {
    if r.toTag == "" then r.(toTag := s.ownTag) else r
  }

  /** A provisional reply: the first one picks the peer, later ones count only from it. */
  function Initial1xx(s: Leg, r: Reply, forward: bool, result: RelayResult): Leg {
    if r.code == 100 || (r.toTag == "" && !s.allow1xxWithoutToTag) then s
    else if s.status.NoReply? && !CanChoose(s, r.from) then s
    else if !s.status.NoReply? && s.otherId != r.from then s
    else
      var chosen := if s.status.NoReply? then Choose(s, r.from).(status := Ringing) else s;
      if forward && result.Failed? then Stop(chosen) else Relay(chosen, WithTag(s, r), forward, result)
  }

  /** The leg becomes the peer and all other candidates are ended. */
  function Won(s: Leg, tag: Tag): Leg {
    Choose(s, tag).(
      terminated := s.terminated + multiset(s.otherLegs - {tag}), otherLegs := {},
      winner := Some(tag), wonAt := |s.output|)
  }

  /** A positive reply: the first leg that gives one wins. */
  function Initial2xx(s: Leg, r: Reply, forward: bool, result: RelayResult): Leg {
    if !CanChoose(s, r.from) then s
    else if forward && result.Failed? then Stop(Won(s, r.from))
    else Relay(Won(s, r.from), r, forward, result).(status := Connected)
  }

  function Fork(s: Leg, forked: Option<Tag>): Leg {
    if forked.Some? then Add(s, forked.value) else s
  }

  /** The refusing leg drops out, and a new candidate may come in. */
  function AfterRefusal(s: Leg, r: Reply, forked: Option<Tag>): Leg {
    var dropped := RemoveOther(s, r.from).(refused := s.refused + s.otherLegs * {r.from});
    Fork(if s.status.Ringing? && s.otherId != r.from then dropped else dropped.(status := NoReply), forked)
  }

  /** A negative reply: while someone else is ringing only its leg drops out; otherwise
      it is relayed, and the call ended, exactly when no candidate is left. */
  function InitialErr(s: Leg, r: Reply, forward: bool, result: RelayResult, forked: Option<Tag>): Leg {
    var after := AfterRefusal(s, r, forked);
    if s.status.Ringing? && s.otherId != r.from then after
    else
      var next := after.(relayOnly := false);
      if next.otherLegs != {} then next else Stop(Relay(next, r, forward, result))
  }

  predicate IsInitial(s: Leg, r: Reply, forward: bool) {
    r.invite && (s.status.NoReply? || s.status.Ringing?) && (r.establishing || !forward)
  }

  function OnReply(s: Leg, r: Reply, forward: bool, result: RelayResult, forked: Option<Tag>): Leg {
    if IsInitial(s, r, forward) then
      if r.code < 200 then Initial1xx(s, r, forward, result)
      else if r.code < 300 then Initial2xx(s, r, forward, result)
      else InitialErr(s, r, forward, result, forked)
    else if s.status.Connected? && r.code >= 200 && r.invite && r.from != s.otherId then
      if r.code >= 300 then s.(lateRefusals := s.lateRefusals + [r])
      else if r.from in s.otherLegs then Choose(s, r.from)
      else s
    else if s.otherId != r.sender && s.otherId != r.from then s
    else s.(output := s.output + [HandedOn(r)])
  }

  function Cancel(s: Leg): Leg {
    if s.aLeg && (s.status.Ringing? || s.status.NoReply? || s.status.Disconnected?) then Stop(s) else s
  }

  // ---------- runs ----------

  datatype Event =
    | AddCallee(tag: Tag)
    | Replied(reply: Reply, forward: bool, result: RelayResult, forked: Option<Tag>)
    | Cancelled
    | StopCall
    | TerminateOtherLeg

  function Next(s: Leg, e: Event): Leg {
    match e
    case AddCallee(tag) => Add(s, tag)
    case Replied(r, forward, result, forked) => OnReply(s, r, forward, result, forked)
    case Cancelled => Cancel(s)
    case StopCall => Stop(s)
    case TerminateOtherLeg => TerminateOther(s)
  }

  predicate Fresh(s: Leg, tag: Tag) {
    tag != "" && tag !in s.added
  }

  /** What the environment keeps to: new legs have new tags, replies name real legs, and no
      callee is connected once the call was answered or the leg ended (no transfer). */
  predicate Allowed(s: Leg, e: Event) {
    match e
    case AddCallee(tag) => Fresh(s, tag) && !s.stopped && s.winner.None?
    case Replied(r, _, _, forked) =>
      r.from != "" && r.sender != "" && (forked.Some? ==> Fresh(s, forked.value))
    case _ => true
  }

  function Start(allow1xxWithoutToTag: bool, ownTag: Tag): Leg {
    Leg(true, allow1xxWithoutToTag, ownTag, Disconnected, {}, "", false,
        multiset{}, [], [], false, {}, {}, None, 0)
  }

  function Run(s: Leg, events: seq<Event>): Leg {
    if events == [] then s else Next(Run(s, events[..|events| - 1]), events[|events| - 1])
  }

  ghost predicate AllowedRun(s: Leg, events: seq<Event>) {
    forall i :: 0 <= i < |events| ==> Allowed(Run(s, events[..i]), events[i])
  }

  // ---------- the invariant ----------

  function Indicator(b: bool): nat {
    if b then 1 else 0
  }

  /** In how many of the four final or waiting roles a leg is, terminate events counted. */
  function Roles(s: Leg, tag: Tag): nat {
    Indicator(tag in s.otherLegs) + Indicator(tag in s.refused) + s.terminated[tag]
    + Indicator(s.status.Connected? && tag == s.otherId)
  }

  /** Every leg ever added is still a candidate, or refused, or was sent exactly one
      terminate event, or is the connected peer: exactly one of these. */
  ghost predicate Accounted(s: Leg) {
    && "" !in s.added
    && s.otherLegs <= s.added && s.refused <= s.added
    && (forall tag :: tag in s.terminated ==> tag in s.added)
    && forall tag :: tag in s.added ==> Roles(s, tag) == 1
  }

  ghost predicate Shape(s: Leg) {
    match s.status
    case Disconnected => s.otherId == "" && s.otherLegs == {}
    case NoReply => s.otherId == "" && s.otherLegs != {}
    case Ringing => s.otherId in s.otherLegs && s.relayOnly
    case Connected => s.otherLegs == {} && s.otherId in s.added && s.relayOnly
    case Disconnecting => false
  }

  predicate IsFinal(o: Output) {
    o.Relayed? && o.reply.code >= 200
  }

  function Finals(output: seq<Output>): nat {
    if output == [] then 0
    else Finals(output[..|output| - 1]) + Indicator(IsFinal(output[|output| - 1]))
  }

  /** At most one final reply went out; while legs are being tried none did.  Once a leg
      has won, whatever went out since concerns that leg. */
  ghost predicate Answered(s: Leg) {
    && Finals(s.output) <= 1
    && (s.status.NoReply? || s.status.Ringing? ==>
          Finals(s.output) == 0 && s.winner.None? && !s.stopped)
    && (s.winner.None? && !s.stopped ==> Finals(s.output) == 0)
    && (s.status.Connected? ==> s.winner == Some(s.otherId))
    && (s.winner.Some? ==>
          && s.wonAt <= |s.output|
          && forall i :: s.wonAt <= i < |s.output| ==> Concerns(s.output[i], s.winner.value))
  }

  predicate Concerns(o: Output, tag: Tag) {
    o.reply.from == tag || (o.HandedOn? && o.reply.sender == tag)
  }

  ghost predicate Inv(s: Leg) {
    s.aLeg && Accounted(s) && Shape(s) && Answered(s)
  }

  lemma FinalsStep(output: seq<Output>, o: Output)
    ensures Finals(output + [o]) == Finals(output) + Indicator(IsFinal(o))
  {
    assert (output + [o])[..|output|] == output;
  }

  lemma StopKeeps(s: Leg)
    requires s.aLeg && Accounted(s)
    requires s.otherId != "" ==> s.otherId in s.otherLegs || (s.status.Connected? && s.otherId in s.added)
    requires s.status.Connected? ==> s.otherId !in s.otherLegs
    ensures Accounted(Stop(s)) && Shape(Stop(s))
  {
    var t := Stop(s);
    forall tag | tag in s.added
      ensures Roles(t, tag) == 1
    {
      assert Roles(s, tag) == 1;
    }
  }

  lemma TerminateOtherKeeps(s: Leg)
    requires Inv(s)
    ensures Inv(TerminateOther(s))
  {
    var t := TerminateOther(s);
    forall tag | tag in s.added
      ensures Roles(t, tag) == 1
    {
      assert Roles(s, tag) == 1;
    }
  }

  lemma AddKeeps(s: Leg, tag: Tag)
    requires Inv(s) && Fresh(s, tag) && !s.stopped && s.winner.None?
    ensures Inv(Add(s, tag))
  {
    var t := Add(s, tag);
    forall x | x in t.added
      ensures Roles(t, x) == 1
    {
      assert x != tag ==> Roles(s, x) == 1;
    }
  }

  lemma Initial1xxKeeps(s: Leg, r: Reply, forward: bool, result: RelayResult)
    requires Inv(s) && r.from != "" && (s.status.NoReply? || s.status.Ringing?) && r.code < 200
    ensures Inv(Initial1xx(s, r, forward, result))
  {
    hide Inv, Stop, Relay;
    var chosen := if s.status.NoReply? then Choose(s, r.from).(status := Ringing) else s;
    if CanChoose(s, r.from) && (s.status.NoReply? || s.otherId == r.from) {
      ChosenKeeps(s, r.from);
      StopInv(chosen);
      ProvisionalKeeps(chosen, WithTag(s, r), forward, result);
    }
  }

  lemma ChosenKeeps(s: Leg, tag: Tag)
    requires Inv(s) && tag != "" && CanChoose(s, tag)
    requires s.status.NoReply? || (s.status.Ringing? && s.otherId == tag)
    ensures var chosen := if s.status.NoReply? then Choose(s, tag).(status := Ringing) else s;
            Inv(chosen) && chosen.status.Ringing?
  {
    var chosen := if s.status.NoReply? then Choose(s, tag).(status := Ringing) else s;
    forall x | x in s.added
      ensures Roles(chosen, x) == 1
    {
      assert Roles(s, x) == 1;
    }
  }

  lemma ProvisionalKeeps(s: Leg, r: Reply, forward: bool, result: RelayResult)
    requires Inv(s) && s.status.Ringing? && r.code < 200
    ensures Inv(Relay(s, r, forward, result))
  {
    hide Accounted, Finals;
    FinalsStep(s.output, Relayed(r));
    AccountedFrame(s, Relay(s, r, forward, result));
  }

  /** All legs but this one, chosen and no candidate any more, are accounted for. */
  ghost predicate AccountedBut(s: Leg, tag: Tag) {
    && !s.status.Connected? && s.otherLegs == {} && s.otherId == tag
    && tag != "" && tag in s.added && "" !in s.added && s.refused <= s.added
    && (forall x :: x in s.terminated ==> x in s.added)
    && (forall x :: x in s.added ==> Roles(s, x) == Indicator(x != tag))
  }

  lemma WonRoles(s: Leg, tag: Tag)
    requires Accounted(s) && Shape(s) && (s.status.NoReply? || s.status.Ringing?)
    requires CanChoose(s, tag) && tag != ""
    ensures AccountedBut(Won(s, tag), tag) && Won(s, tag).relayOnly
  {
    forall x | x in s.added
      ensures Roles(Won(s, tag), x) == Indicator(x != tag)
    {
      assert Roles(s, x) == 1;
    }
  }

  lemma ConnectedAccounted(s: Leg, tag: Tag, output: seq<Output>)
    requires AccountedBut(s, tag)
    ensures Accounted(s.(output := output, status := Connected))
  {
    forall x | x in s.added
      ensures Roles(s.(output := output, status := Connected), x) == 1
    {
      assert Roles(s, x) == Indicator(x != tag);
    }
  }

  lemma StoppedAccounted(s: Leg, tag: Tag)
    requires AccountedBut(s, tag)
    ensures Accounted(Stop(s)) && Shape(Stop(s))
  {
    assert s.otherLegs + ({s.otherId} - {""}) == {tag};
    forall x | x in s.added
      ensures Roles(Stop(s), x) == 1
    {
      assert Roles(s, x) == Indicator(x != tag);
    }
  }

  lemma Initial2xxAccounted(s: Leg, r: Reply, forward: bool, result: RelayResult)
    requires Inv(s) && r.from != "" && (s.status.NoReply? || s.status.Ringing?) && 200 <= r.code < 300
    ensures Accounted(Initial2xx(s, r, forward, result)) && Shape(Initial2xx(s, r, forward, result))
  {
    hide Accounted, Answered, Won, Stop;
    if CanChoose(s, r.from) {
      WonRoles(s, r.from);
      StoppedAccounted(Won(s, r.from), r.from);
      ConnectedAccounted(Won(s, r.from), r.from, Relay(Won(s, r.from), r, forward, result).output);
    }
  }

  lemma Initial2xxAnswered(s: Leg, r: Reply, forward: bool, result: RelayResult)
    requires Inv(s) && r.from != "" && (s.status.NoReply? || s.status.Ringing?) && 200 <= r.code < 300
    ensures Initial2xx(s, r, forward, result).aLeg && Answered(Initial2xx(s, r, forward, result))
  {
    hide Accounted, Finals;
    FinalsStep(s.output, Relayed(r));
  }

  lemma RefusalKeeps(s: Leg, r: Reply, forked: Option<Tag>)
    requires Inv(s) && r.from != "" && (s.status.NoReply? || s.status.Ringing?)
    requires forked.Some? ==> Fresh(s, forked.value)
    ensures Accounted(AfterRefusal(s, r, forked))
    ensures AfterRefusal(s, r, forked).status.Ringing? ==> Shape(AfterRefusal(s, r, forked))
    ensures AfterRefusal(s, r, forked).status.NoReply? ==> AfterRefusal(s, r, forked).otherId == ""
  {
    var t := AfterRefusal(s, r, forked);
    forall tag | tag in t.added
      ensures Roles(t, tag) == 1
    {
      assert tag in s.added ==> Roles(s, tag) == 1;
    }
  }

  lemma AccountedFrame(s: Leg, t: Leg)
    requires Accounted(s)
    requires s == t.(output := s.output, relayOnly := s.relayOnly)
    ensures Accounted(t)
  {
    forall tag | tag in t.added
      ensures Roles(t, tag) == 1
    {
      assert Roles(s, tag) == 1;
    }
  }

  lemma InitialErrAccounted(s: Leg, r: Reply, forward: bool, result: RelayResult, forked: Option<Tag>)
    requires Inv(s) && r.from != "" && (s.status.NoReply? || s.status.Ringing?) && r.code >= 300
    requires forked.Some? ==> Fresh(s, forked.value)
    ensures Accounted(InitialErr(s, r, forward, result, forked))
    ensures Shape(InitialErr(s, r, forward, result, forked))
  {
    var after := AfterRefusal(s, r, forked);
    RefusalKeeps(s, r, forked);
    if after.status.NoReply? {
      var next := after.(relayOnly := false);
      AccountedFrame(after, next);
      if next.otherLegs == {} {
        var relayed := Relay(next, r, forward, result);
        AccountedFrame(next, relayed);
        StopKeeps(relayed);
      }
    }
  }

  lemma InitialErrAnswered(s: Leg, r: Reply, forward: bool, result: RelayResult, forked: Option<Tag>)
    requires Inv(s) && r.from != "" && (s.status.NoReply? || s.status.Ringing?) && r.code >= 300
    ensures InitialErr(s, r, forward, result, forked).aLeg
    ensures Answered(InitialErr(s, r, forward, result, forked))
  {
    hide Accounted, Finals;
    FinalsStep(s.output, Relayed(r));
  }

  lemma StopInv(s: Leg)
    requires Inv(s)
    ensures Inv(Stop(s))
  {
    StopKeeps(s);
  }

  lemma ReplyKeeps(s: Leg, r: Reply, forward: bool, result: RelayResult, forked: Option<Tag>)
    requires Inv(s) && r.from != "" && r.sender != ""
    requires forked.Some? ==> Fresh(s, forked.value)
    ensures Inv(OnReply(s, r, forward, result, forked))
  {
    hide Initial1xx, Initial2xx, InitialErr, Accounted, Answered;
    if IsInitial(s, r, forward) {
      if r.code < 200 {
        Initial1xxKeeps(s, r, forward, result);
      } else if r.code < 300 {
        Initial2xxAccounted(s, r, forward, result);
        Initial2xxAnswered(s, r, forward, result);
      } else {
        InitialErrAccounted(s, r, forward, result, forked);
        InitialErrAnswered(s, r, forward, result, forked);
      }
    } else {
      LateRefusalKeeps(s, r);
      if s.otherId == r.sender || s.otherId == r.from {
        HandedOnKeeps(s, r);
      }
    }
  }

  lemma LateRefusalKeeps(s: Leg, r: Reply)
    requires Inv(s)
    ensures Inv(s.(lateRefusals := s.lateRefusals + [r]))
  {
    var t := s.(lateRefusals := s.lateRefusals + [r]);
    forall tag | tag in s.added
      ensures Roles(t, tag) == 1
    {
      assert Roles(s, tag) == 1;
    }
  }

  /** Every allowed step keeps the invariant. */
  lemma StepKeeps(s: Leg, e: Event)
    requires Inv(s) && Allowed(s, e)
    ensures Inv(Next(s, e))
  {
    hide Inv, Add, OnReply, Stop, TerminateOther;
    match e
    case AddCallee(tag) => AddKeeps(s, tag);
    case Replied(r, forward, result, forked) => ReplyKeeps(s, r, forward, result, forked);
    case Cancelled => StopInv(s);
    case StopCall => StopInv(s);
    case TerminateOtherLeg => TerminateOtherKeeps(s);
  }

  lemma HandedOnKeeps(s: Leg, r: Reply)
    requires Inv(s) && r.from != "" && r.sender != ""
    requires s.otherId == r.sender || s.otherId == r.from
    ensures Inv(s.(output := s.output + [HandedOn(r)]))
  {
    FinalsStep(s.output, HandedOn(r));
    var t := s.(output := s.output + [HandedOn(r)]);
    forall tag | tag in s.added
      ensures Roles(t, tag) == 1
    {
      assert Roles(s, tag) == 1;
    }
  }

  /** Safety over every run: legs are accounted for, the shape of the state follows the
      status, and replies go out as they should. */
  lemma {:induction false} RunKeeps(allow: bool, ownTag: Tag, events: seq<Event>)
    requires AllowedRun(Start(allow, ownTag), events)
    ensures Inv(Run(Start(allow, ownTag), events))
  {
    if events != [] {
      var init := events[..|events| - 1];
      forall i | 0 <= i < |init|
        ensures Allowed(Run(Start(allow, ownTag), init[..i]), init[i])
      {
        assert init[..i] == events[..i];
      }
      RunKeeps(allow, ownTag, init);
      StepKeeps(Run(Start(allow, ownTag), init), events[|events| - 1]);
    }
  }

  /** A reply as it goes out: a provisional one always has a to-tag, that of the leg if there was none. */
  function Passed(s: Leg, r: Reply): Reply {
    if r.code < 200 && r.toTag == "" then r.(toTag := s.ownTag) else r
  }

  /** What a reply that a step relays tells: a provisional one comes from the peer; a
      positive one comes from the leg that wins; a negative one leaves no candidate,
      neither an old one nor a new one, and ends no leg. */
  lemma RelayedWhen(s: Leg, e: Event)
    requires Inv(s) && Allowed(s, e)
    requires |Next(s, e).output| > |s.output| && Next(s, e).output[|s.output|].Relayed?
    ensures e.Replied? && Next(s, e).output == s.output + [Relayed(Passed(s, e.reply))]
    ensures e.reply.code < 200 ==>
              && Next(s, e).otherId == e.reply.from && Next(s, e).status.Ringing?
              && (s.status.Ringing? ==> s.otherId == e.reply.from)
    ensures 200 <= e.reply.code < 300 ==> Next(s, e).winner == Some(e.reply.from)
    ensures e.reply.code >= 300 ==>
              && s.otherLegs <= {e.reply.from} && e.forked.None?
              && Next(s, e).stopped && Next(s, e).terminated == s.terminated
  {
    hide Initial1xx, Initial2xx, InitialErr, Inv;
    var r := e.reply;
    if r.code < 200 {
      ProvisionalRelayedWhen(s, r, e.forward, e.result);
    } else if r.code < 300 {
      PositiveRelayedWhen(s, r, e.forward, e.result);
    } else {
      RefusalRelayedWhen(s, r, e.forward, e.result, e.forked);
    }
  }

  lemma ProvisionalRelayedWhen(s: Leg, r: Reply, forward: bool, result: RelayResult)
    requires Inv(s) && IsInitial(s, r, forward)
    requires |Initial1xx(s, r, forward, result).output| > |s.output|
    ensures var t := Initial1xx(s, r, forward, result);
            && t.otherId == r.from && t.status.Ringing? && t.output == s.output + [Relayed(WithTag(s, r))]
            && (s.status.Ringing? ==> s.otherId == r.from)
  {
    hide Accounted, Answered;
  }

  lemma PositiveRelayedWhen(s: Leg, r: Reply, forward: bool, result: RelayResult)
    requires Inv(s) && IsInitial(s, r, forward)
    requires |Initial2xx(s, r, forward, result).output| > |s.output|
    ensures var t := Initial2xx(s, r, forward, result);
            t.winner == Some(r.from) && t.output == s.output + [Relayed(r)]
  {
    hide Accounted, Answered;
  }

  lemma RefusalRelayedWhen(s: Leg, r: Reply, forward: bool, result: RelayResult, forked: Option<Tag>)
    requires Inv(s) && IsInitial(s, r, forward)
    requires |InitialErr(s, r, forward, result, forked).output| > |s.output|
    ensures s.otherLegs <= {r.from} && forked.None?
    ensures var t := InitialErr(s, r, forward, result, forked);
            t.stopped && t.terminated == s.terminated && t.output == s.output + [Relayed(r)]
  {
    var after := AfterRefusal(s, r, forked);
    assert after.otherLegs == {};
    assert s.otherLegs - {r.from} <= after.otherLegs;
  }

  // ---------- which replies go out, and what they leave ----------

  /** Every candidate but `kept` is sent one terminate event more, nobody else is. */
  ghost predicate EndsAllBut(s: Leg, t: Leg, kept: Tag) {
    forall tag: Tag :: t.terminated[tag] == s.terminated[tag] + (if tag in s.otherLegs && tag != kept then 1 else 0)
  }

  /** The leg ended itself and all legs that were being tried. */
  ghost predicate EndsCall(s: Leg, t: Leg) {
    t.stopped && t.status.Disconnected? && t.otherId == "" && t.otherLegs == {} && EndsAllBut(s, t, "")
  }

  /** A provisional reply that counts: from a candidate while nobody rings, then from the peer only. */
  predicate Provisional(s: Leg, r: Reply) {
    && r.code < 200 && r.code != 100 && (r.toTag != "" || s.allow1xxWithoutToTag)
    && if s.status.NoReply? then r.from in s.otherLegs else r.from == s.otherId
  }

  /** A positive reply of any leg that is being tried. */
  predicate Positive(s: Leg, r: Reply) {
    200 <= r.code < 300 && r.from in s.otherLegs
  }

  predicate OtherRings(s: Leg, r: Reply) {
    s.status.Ringing? && r.from != s.otherId
  }

  /** A refusal after which there is nobody left to try. */
  predicate LastRefusal(s: Leg, r: Reply, forked: Option<Tag>) {
    r.code >= 300 && !OtherRings(s, r) && s.otherLegs <= {r.from} && forked.None?
  }

  /** A reply to the initial INVITE, while legs are being tried. */
  predicate Trying(s: Leg, e: Event) {
    e.Replied? && e.reply.invite && s.status in {NoReply, Ringing} && (e.forward ==> e.reply.establishing)
  }

  /** A reply goes out if and only if it counts, is to be forwarded and can be sent. */
  lemma RelayedExactly(s: Leg, e: Event)
    requires Inv(s) && Allowed(s, e) && Trying(s, e)
    ensures var r := e.reply;
      Next(s, e).output == s.output
                           + if e.forward && e.result.Sent?
                                && (Provisional(s, r) || Positive(s, r) || LastRefusal(s, r, e.forked))
                             then [Relayed(Passed(s, r))] else []
  {
    hide Accounted, Answered;
    var r := e.reply;
    assert s.output + [] == s.output;
    if r.code >= 300 {
      hide Stop;
      StopSends(Relay(AfterRefusal(s, r, e.forked).(relayOnly := false), r, e.forward, e.result));
      LeftAfterRefusal(s, r, e.forked);
    }
  }

  lemma StopSends(s: Leg)
    ensures Stop(s).output == s.output
  {}

  lemma LeftAfterRefusal(s: Leg, r: Reply, forked: Option<Tag>)
    ensures AfterRefusal(s, r, forked).otherLegs == {} <==> s.otherLegs <= {r.from} && forked.None?
    ensures AfterRefusal(s, r, forked).output == s.output
  {
    var after := AfterRefusal(s, r, forked);
    assert forked.Some? ==> forked.value in after.otherLegs;
    assert forked.None? ==> after.otherLegs == s.otherLegs - {r.from};
    if s.otherLegs - {r.from} == {} {
      assert forall tag :: tag in s.otherLegs ==> tag !in s.otherLegs - {r.from};
    }
  }

  /** What a provisional or positive reply leaves: the sender is the peer, and after a positive one all
      others have been ended; a reply that cannot be relayed ends the call; one that does not count
      changes nothing. */
  lemma AcceptedLeaves(s: Leg, e: Event)
    requires Inv(s) && Allowed(s, e) && Trying(s, e) && e.reply.code < 300
    ensures var r, t, failed := e.reply, Next(s, e), e.forward && e.result.Failed?;
      && (Provisional(s, r) && !failed ==>
            t.status.Ringing? && t.otherId == r.from && t.otherLegs == s.otherLegs && EndsNobody(s, t))
      && (Positive(s, r) && !failed ==>
            t.status.Connected? && t.otherId == r.from && t.otherLegs == {} && EndsAllBut(s, t, r.from)
            && !t.stopped && t.winner == Some(r.from))
      && ((Provisional(s, r) || Positive(s, r)) && failed ==> EndsCall(s, t))
      && (!Provisional(s, r) && !Positive(s, r) ==> t == s)
  {
    hide Accounted, Answered, Stop, Won, EndsCall, Relay;
    var r := e.reply;
    TryingShape(s, r.from);
    RelayEnds(s, r, e.forward, e.result);
    RelayEnds(Won(s, r.from), r, e.forward, e.result);
    if r.from in s.otherLegs {
      WonEnds(s, r.from);
      var chosen := if s.status.NoReply? then Choose(s, r.from).(status := Ringing) else s;
      RelayEnds(chosen, WithTag(s, r), e.forward, e.result);
      StopEnds(s, chosen);
    }
  }

  lemma TryingShape(s: Leg, tag: Tag)
    requires Inv(s) && (s.status.NoReply? || s.status.Ringing?) && tag != ""
    ensures "" !in s.otherLegs && !s.stopped && (s.status.NoReply? ==> s.otherId == "")
    ensures s.status.Ringing? ==> s.otherId in s.otherLegs
    ensures CanChoose(s, tag) <==> tag in s.otherLegs
  {}

  lemma RelayEnds(s: Leg, r: Reply, forward: bool, result: RelayResult)
    ensures Relay(s, r, forward, result) == s.(output := Relay(s, r, forward, result).output)
  {}

  lemma StopEnds(s: Leg, chosen: Leg)
    requires "" !in s.otherLegs && chosen.otherLegs == s.otherLegs && chosen.terminated == s.terminated
    requires chosen.otherId in s.otherLegs
    ensures EndsCall(s, Stop(chosen))
  {
    assert chosen.otherLegs + ({chosen.otherId} - {""}) == s.otherLegs;
  }

  lemma WonEnds(s: Leg, tag: Tag)
    requires "" !in s.otherLegs && tag in s.otherLegs
    ensures EndsAllBut(s, Won(s, tag), tag) && EndsCall(s, Stop(Won(s, tag)))
    ensures Won(s, tag) == s.(otherId := tag, relayOnly := Won(s, tag).relayOnly, otherLegs := {},
                              terminated := Won(s, tag).terminated, winner := Some(tag), wonAt := |s.output|)
  {
    assert Won(s, tag).otherLegs + ({tag} - {""}) == {tag};
  }

  ghost predicate EndsNobody(s: Leg, t: Leg) {
    t.terminated == s.terminated && t.stopped == s.stopped
  }

  /** What a refusal leaves: its leg is gone without being ended, a new candidate may be there, and
      nobody rings unless it was another leg; without a candidate the call ends. */
  lemma RefusalLeaves(s: Leg, e: Event)
    requires Inv(s) && Allowed(s, e) && Trying(s, e) && e.reply.code >= 300
    ensures var r, t := e.reply, Next(s, e);
      && t.otherLegs == s.otherLegs - {r.from} + (if e.forked.Some? then {e.forked.value} else {})
      && t.terminated == s.terminated
      && (t.stopped <==> LastRefusal(s, r, e.forked))
      && t.status == (if OtherRings(s, r) then Ringing else if t.stopped then Disconnected else NoReply)
      && t.otherId == (if OtherRings(s, r) then s.otherId else "")
      && t.relayOnly == (OtherRings(s, r) && s.relayOnly)
  {
    hide Accounted, Answered, AfterRefusal, Stop, Relay, Inv;
    var r, after := e.reply, AfterRefusal(s, e.reply, e.forked);
    TryingShape(s, r.from);
    LeftAfterRefusal(s, r, e.forked);
    RefusalDrops(s, r, e.forked);
    var next := after.(relayOnly := false);
    RelayEnds(next, r, e.forward, e.result);
    if next.otherLegs == {} {
      StopEndsNobody(Relay(next, r, e.forward, e.result));
    }
  }

  lemma RefusalDrops(s: Leg, r: Reply, forked: Option<Tag>)
    requires s.status.NoReply? || s.status.Ringing?
    requires s.status.NoReply? ==> s.otherId == ""
    ensures var after := AfterRefusal(s, r, forked);
      && after.otherLegs == s.otherLegs - {r.from} + (if forked.Some? then {forked.value} else {})
      && after.terminated == s.terminated && after.stopped == s.stopped
      && after.status == (if OtherRings(s, r) then Ringing else NoReply)
      && after.otherId == (if OtherRings(s, r) then s.otherId else "")
      && after.relayOnly == s.relayOnly
  {}

  lemma StopEndsNobody(s: Leg)
    requires s.otherLegs == {} && s.otherId == ""
    ensures var t := Stop(s);
            t.terminated == s.terminated && t.stopped && t.status.Disconnected? && t.otherId == "" && t.otherLegs == {}
            && t.relayOnly == s.relayOnly
  {
    assert s.otherLegs + ({s.otherId} - {""}) == {};
  }

  /** The leg that is connected to one that answered, or the ones that are being tried. */
  function Open(s: Leg): set<Tag> {
    if s.status.Connected? then {s.otherId} else s.otherLegs
  }

  /** A caller who gives up before the answer ends the call, later nothing; to stop the call or to end its
      other side ends whoever is there.  Each is sent one terminate event. */
  lemma CancelEnds(s: Leg, e: Event)
    requires Inv(s) && (e.Cancelled? || e.StopCall? || e.TerminateOtherLeg?)
    ensures e.Cancelled? && s.status.Connected? ==> Next(s, e) == s
    ensures var t := Next(s, e);
      !(e.Cancelled? && s.status.Connected?) ==>
        && t.status.Disconnected? && t.otherId == "" && t.otherLegs == {}
        && (t.stopped <==> s.stopped || !e.TerminateOtherLeg?)
        && t.terminated == s.terminated + multiset(Open(s)) && t.output == s.output
  {
    hide Accounted, Answered;
    var peer := {s.otherId} - {""};
    assert s.status.NoReply? || s.status.Disconnected? ==> s.otherLegs + peer == s.otherLegs;
    assert s.status.Ringing? ==> s.otherLegs + peer == s.otherLegs;
    if s.status.Connected? {
      ConnectedPeer(s);
    }
  }

  lemma ConnectedPeer(s: Leg)
    requires Inv(s) && s.status.Connected?
    ensures {s.otherId} - {""} == {s.otherId} && s.otherLegs == {}
  {}

  /** A reply when no leg is being tried, or to another request: the base session gets it exactly if it is from
      the peer or through it and does not come from elsewhere to the INVITE of a connected call. */
  lemma LaterReply(s: Leg, e: Event)
    requires Inv(s) && Allowed(s, e) && e.Replied? && !Trying(s, e)
    ensures var r := e.reply;
      var late := s.status.Connected? && r.invite && r.code >= 200 && r.from != s.otherId;
      && Next(s, e).output == s.output + (if !late && s.otherId in {r.from, r.sender} then [HandedOn(r)] else [])
      && Next(s, e).lateRefusals == s.lateRefusals + (if late && r.code >= 300 then [r] else [])
      && Next(s, e) == s.(output := Next(s, e).output, lateRefusals := Next(s, e).lateRefusals)
  {
    hide Accounted, Answered;
    assert s.output + [] == s.output && s.lateRefusals + [] == s.lateRefusals;
  }

  lemma WinnerStep(s: Leg, e: Event)
    requires Inv(s) && s.winner.Some? && Allowed(s, e)
    ensures Next(s, e).winner == s.winner && Next(s, e).wonAt == s.wonAt
    ensures Next(s, e).output == s.output
         || exists r :: Next(s, e).output == s.output + [HandedOn(r)] && Concerns(HandedOn(r), s.winner.value)
  {
    if Next(s, e).output != s.output {
      assert Next(s, e).output == s.output + [HandedOn(e.reply)];
      assert Concerns(HandedOn(e.reply), s.winner.value);
    }
  }

  /** Once a leg has won it stays the winner, and no other leg's reply goes out. */
  lemma {:induction false} WinnerIsFinal(s: Leg, events: seq<Event>)
    requires Inv(s) && s.winner.Some? && AllowedRun(s, events)
    ensures Inv(Run(s, events))
    ensures Run(s, events).winner == s.winner && Run(s, events).wonAt == s.wonAt
    ensures s.output <= Run(s, events).output
    ensures forall i :: |s.output| <= i < |Run(s, events).output| ==>
              Concerns(Run(s, events).output[i], s.winner.value)
              && Run(s, events).output[i].HandedOn?
  {
    if events != [] {
      var init := events[..|events| - 1];
      forall i | 0 <= i < |init|
        ensures Allowed(Run(s, init[..i]), init[i])
      {
        assert init[..i] == events[..i];
      }
      WinnerIsFinal(s, init);
      StepKeeps(Run(s, init), events[|events| - 1]);
      WinnerStep(Run(s, init), events[|events| - 1]);
    }
  }
}

/** The leg as the code keeps it, updated in place. */
module CallLegs {
  import opened Options
  import opened ForkSpec

  class CallLeg {
    const aLeg: bool
    const allow1xxWithoutToTag: bool
    const ownTag: Tag
    var callStatus: CallStatus
    var otherLegs: set<Tag>
    var otherId: Tag
    var sipRelayOnly: bool
    /** Terminate events posted to other legs, and what was sent or handed on. */
    var terminateEvents: multiset<Tag>
    var output: seq<Output>
    var lateRefusals: seq<Reply>
    var stopped: bool

    ghost var added: set<Tag>
    ghost var refused: set<Tag>
    ghost var winner: Option<Tag>
    ghost var wonAt: nat

    ghost function View(): Leg
      reads this
    {
      Leg(aLeg, allow1xxWithoutToTag, ownTag, callStatus, otherLegs, otherId, sipRelayOnly,
          terminateEvents, output, lateRefusals, stopped, added, refused, winner, wonAt)
    }

    constructor (allow1xxWithoutToTag: bool, ownTag: Tag)
      ensures View() == Start(allow1xxWithoutToTag, ownTag)
    {
      this.aLeg := true;
      this.allow1xxWithoutToTag := allow1xxWithoutToTag;
      this.ownTag := ownTag;
      callStatus, otherLegs, otherId, sipRelayOnly := Disconnected, {}, "", false;
      terminateEvents, output, lateRefusals, stopped := multiset{}, [], [], false;
      added, refused, winner, wonAt := {}, {}, None, 0;
    }

    method AddNewCallee(tag: Tag)
      modifies this
      ensures View() == Add(old(View()), tag)
    {
      otherLegs := otherLegs + {tag};
      added := added + {tag};
      if callStatus == Disconnected {
        callStatus := NoReply;
      }
    }

    method TerminateNotConnectedLegs()
      modifies this`otherLegs, this`terminateEvents
      ensures otherLegs == old(otherLegs) * {otherId}
      ensures terminateEvents == old(terminateEvents) + multiset(old(otherLegs) - {otherId})
    {
      var pending := otherLegs;
      ghost var ended: set<Tag> := {};
      while pending != {}
        invariant Ending(old(otherLegs), otherId, pending, ended) && otherLegs == old(otherLegs) - ended
        invariant terminateEvents == old(terminateEvents) + multiset(ended)
        decreases pending
      {
        var leg :| leg in pending;
        EndingStep(old(otherLegs), otherId, pending, ended, leg);
        pending := pending - {leg};
        if leg == otherId {
          continue;
        }
        terminateEvents := terminateEvents + multiset{leg};
        otherLegs := otherLegs - {leg};
        ended := ended + {leg};
      }
    }

    /** What the base session does: one event to the peer if there is one, then it is cleared. */
    method BaseTerminateOtherLeg()
      modifies this`otherLegs, this`otherId, this`terminateEvents
      ensures otherId == "" && otherLegs == old(otherLegs) - {old(otherId)}
      ensures terminateEvents == old(terminateEvents) + multiset({old(otherId)} - {""})
    {
      if otherId != "" {
        terminateEvents := terminateEvents + multiset{otherId};
        assert {otherId} - {""} == {otherId};
      }
      ClearOther();
    }

    method RemoveOtherLeg(tag: Tag)
      modifies this`otherLegs, this`otherId
      ensures View() == RemoveOther(old(View()), tag)
    {
      if otherId == tag {
        otherId := "";
      }
      otherLegs := otherLegs - {tag};
    }

    method ClearOther()
      modifies this`otherLegs, this`otherId
      ensures View() == RemoveOther(old(View()), old(otherId))
    {
      RemoveOtherLeg(otherId);
      otherId := "";
    }

    method TerminateOtherLeg()
      requires "" !in otherLegs
      modifies this`otherLegs, this`otherId, this`terminateEvents, this`callStatus
      ensures View() == TerminateOther(old(View()))
    {
      ghost var t, legs, peer := terminateEvents, otherLegs, otherId;
      if callStatus != Connected {
        TerminateNotConnectedLegs();
        assert otherLegs - {peer} == {};
        EachOnce(t, legs, peer);
      }
      BaseTerminateOtherLeg();
      otherLegs := otherLegs - {otherId};
      if callStatus != Disconnected {
        callStatus := Disconnected;
      }
      ghost var want := TerminateOther(old(View()));
      assert otherLegs == want.otherLegs;
      assert terminateEvents == want.terminated;
    }

    method StopCall()
      requires "" !in otherLegs
      modifies this`otherLegs, this`otherId, this`terminateEvents, this`callStatus, this`stopped
      ensures View() == Stop(old(View()))
    {
      hide TerminateOther, Stop;
      ghost var start := View();
      if callStatus != Disconnected {
        callStatus := Disconnected;
      }
      TerminateNotConnectedLegs();
      ghost var left := View();
      TerminateOtherLeg();
      stopped := true;
      StopInParts(start, left);
    }

    method SetOther(tag: Tag) returns (ok: bool)
      modifies this
      ensures ok == CanChoose(old(View()), tag)
      ensures View() == if ok then Choose(old(View()), tag) else old(View())
    {
      if otherId == tag {
        return true;
      }
      if tag !in otherLegs {
        return false;
      }
      otherId := tag;
      sipRelayOnly := true;
      return true;
    }

    method RelaySipReply(r: Reply, result: RelayResult) returns (ok: bool)
      modifies this
      ensures ok == !result.Failed?
      ensures View() == Relay(old(View()), r, true, result)
    {
      if result == Sent {
        output := output + [Relayed(r)];
      }
      return result != Failed;
    }

    method B2bInitial1xx(r: Reply, forward: bool, result: RelayResult)
      requires "" !in otherLegs
      modifies this
      ensures View() == Initial1xx(old(View()), r, forward, result)
    {
      if r.code == 100 {
        return;
      }
      if r.toTag == "" && !allow1xxWithoutToTag {
        return;
      }
      var tagged := r;
      if r.toTag == "" {
        tagged := r.(toTag := ownTag);
      }
      if callStatus == NoReply {
        var ok := SetOther(r.from);
        if ok {
          callStatus := Ringing;
          if forward {
            var relayed := RelaySipReply(tagged, result);
            if !relayed {
              StopCall();
            }
          }
        }
      } else if otherId == r.from && forward {
        var relayed := RelaySipReply(tagged, result);
        if !relayed {
          StopCall();
        }
      }
    }

    /** The chosen leg has won: all others are ended and the list is dropped. */
    method DropOthers()
      modifies this`otherLegs, this`terminateEvents, this`winner, this`wonAt
      ensures otherLegs == {} && winner == Some(otherId) && wonAt == |output|
      ensures terminateEvents == old(terminateEvents) + multiset(old(otherLegs) - {otherId})
    {
      TerminateNotConnectedLegs();
      otherLegs := {};
      winner, wonAt := Some(otherId), |output|;
    }

    method Connect(tag: Tag) returns (ok: bool)
      modifies this
      ensures ok == CanChoose(old(View()), tag)
      ensures View() == if ok then Won(old(View()), tag) else old(View())
    {
      ok := SetOther(tag);
      if ok {
        DropOthers();
      }
    }

    method B2bInitial2xx(r: Reply, forward: bool, result: RelayResult)
      requires "" !in otherLegs
      modifies this
      ensures View() == Initial2xx(old(View()), r, forward, result)
    {
      var ok := Connect(r.from);
      if !ok {
        return;
      }
      if forward {
        var relayed := RelaySipReply(r, result);
        if !relayed {
          StopCall();
          return;
        }
      }
      callStatus := Connected;
    }

    /** The hook that may bring in another callee. */
    method OnBLegRefused(forked: Option<Tag>)
      modifies this
      ensures View() == Fork(old(View()), forked)
    {
      if forked.Some? {
        AddNewCallee(forked.value);
      }
    }

    /** The refusing leg drops out; unless another leg is ringing nobody is any more. */
    method DropRefused(r: Reply, forked: Option<Tag>)
      modifies this
      ensures View() == AfterRefusal(old(View()), r, forked)
    {
      refused := refused + otherLegs * {r.from};
      var otherRings := callStatus == Ringing && otherId != r.from;
      RemoveOtherLeg(r.from);
      if !otherRings {
        callStatus := NoReply;
      }
      OnBLegRefused(forked);
    }

    method B2bInitialErr(r: Reply, forward: bool, result: RelayResult, forked: Option<Tag>)
      requires "" !in otherLegs && forked != Some("")
      modifies this
      ensures View() == InitialErr(old(View()), r, forward, result, forked)
    {
      hide AfterRefusal, Stop;
      RefusalNamesLegs(View(), r, forked);
      if callStatus == Ringing && otherId != r.from {
        DropRefused(r, forked);
        return;
      }
      DropRefused(r, forked);
      sipRelayOnly := false;
      if otherLegs != {} {
        return;
      }
      EndRefused(r, forward, result);
    }

    /** No candidate is left: the caller gets the last refusal and the call ends. */
    method EndRefused(r: Reply, forward: bool, result: RelayResult)
      requires "" !in otherLegs
      modifies this
      ensures View() == Stop(Relay(old(View()), r, forward, result))
    {
      hide Stop;
      if forward {
        var _ := RelaySipReply(r, result);
      }
      StopIgnoresStatus(View());
      callStatus := Disconnected;
      StopCall();
    }

    method OnInitialReply(r: Reply, forward: bool, result: RelayResult, forked: Option<Tag>)
      requires "" !in otherLegs && forked != Some("")
      requires IsInitial(View(), r, forward)
      modifies this
      ensures View() == OnReply(old(View()), r, forward, result, forked)
    {
      if r.code < 200 {
        B2bInitial1xx(r, forward, result);
      } else if r.code < 300 {
        B2bInitial2xx(r, forward, result);
      } else {
        B2bInitialErr(r, forward, result, forked);
      }
    }

    method OnB2BReply(r: Reply, forward: bool, result: RelayResult, forked: Option<Tag>)
      requires "" !in otherLegs && forked != Some("")
      modifies this
      ensures View() == OnReply(old(View()), r, forward, result, forked)
    {
      var initialReply := r.invite && (callStatus == NoReply || callStatus == Ringing)
                          && ((r.establishing && forward) || !forward);
      if initialReply {
        OnInitialReply(r, forward, result, forked);
        return;
      }
      if callStatus == Connected && r.code >= 200 && r.invite && r.from != otherId {
        if r.code < 300 {
          var _ := SetOther(r.from);
        } else {
          lateRefusals := lateRefusals + [r];
        }
        return;
      }
      if otherId != r.sender && otherId != r.from {
        return;
      }
      output := output + [HandedOn(r)];
    }

    method OnCancel()
      requires "" !in otherLegs
      modifies this
      ensures View() == Cancel(old(View()))
    {
      if callStatus == Ringing || callStatus == NoReply || callStatus == Disconnected {
        if aLeg {
          callStatus := Disconnected;
          StopCall();
        }
      }
    }

    /** One event of a run: the invariant of the specification holds of the leg itself. */
    method Handle(e: Event)
      requires Inv(View()) && Allowed(View(), e)
      modifies this
      ensures View() == Next(old(View()), e) && Inv(View())
    {
      StepKeeps(View(), e);
      match e
      case AddCallee(tag) => AddNewCallee(tag);
      case Replied(r, forward, result, forked) => OnB2BReply(r, forward, result, forked);
      case Cancelled => OnCancel();
      case StopCall => StopCall();
      case TerminateOtherLeg => TerminateOtherLeg();
    }
  }

  /** All candidates but the peer are ended, except for those that are still pending. */
  predicate Ending(legs: set<Tag>, peer: Tag, pending: set<Tag>, ended: set<Tag>) {
    pending <= legs && ended == legs - pending - {peer}
  }

  lemma EndingStep(legs: set<Tag>, peer: Tag, pending: set<Tag>, ended: set<Tag>, leg: Tag)
    requires Ending(legs, peer, pending, ended) && leg in pending
    ensures leg == peer ==> Ending(legs, peer, pending - {leg}, ended)
    ensures leg != peer ==> Ending(legs, peer, pending - {leg}, ended + {leg})
    ensures leg != peer ==> legs - (ended + {leg}) == legs - ended - {leg}
    ensures leg != peer ==> multiset(ended + {leg}) == multiset(ended) + multiset{leg}
  {}

  lemma RefusalNamesLegs(s: Leg, r: Reply, forked: Option<Tag>)
    requires "" !in s.otherLegs && forked != Some("")
    ensures "" !in AfterRefusal(s, r, forked).otherLegs
  {}

  lemma StopIgnoresStatus(s: Leg)
    ensures Stop(s.(status := Disconnected)) == Stop(s)
  {}

  /** Ending the candidates first and the peer after them ends each of them once. */
  lemma StopInParts(s: Leg, left: Leg)
    requires "" !in s.otherLegs
    requires left == s.(status := Disconnected, otherLegs := s.otherLegs * {s.otherId},
                        terminated := s.terminated + multiset(s.otherLegs - {s.otherId}))
    ensures TerminateOther(left).(stopped := true) == Stop(s)
  {
    var legs, peer := s.otherLegs, s.otherId;
    EachOnce(s.terminated, legs, peer);
    assert legs * {peer} + ({peer} - {""}) == {peer} - {""};
    assert TerminateOther(left).terminated == Stop(s).terminated;
  }

  lemma EachOnce(t: multiset<Tag>, legs: set<Tag>, peer: Tag)
    requires "" !in legs
    ensures t + multiset(legs - {peer}) + multiset({peer} - {""})
         == t + multiset(legs + ({peer} - {""}))
  {
    if peer == "" {
      assert legs - {peer} == legs;
      assert {peer} - {""} == {};
      assert legs + {} == legs;
      assert t + multiset(legs) + multiset{} == t + multiset(legs);
    } else {
      assert {peer} - {""} == {peer};
      assert legs + {peer} == (legs - {peer}) + {peer};
      assert multiset((legs - {peer}) + {peer}) == multiset(legs - {peer}) + multiset{peer};
      assert multiset({peer}) == multiset{peer};
    }
  }
}
