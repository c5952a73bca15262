/** Arranging the payloads of an offer by a list of codecs, and reducing them to a single
    codec (src/sdp_filter.cpp:353-426, 480-498). */
module SdpArrange {
  import opened Ascii
  import opened Options
  import opened Sdp
  import opened SdpAnswer

  // ---------- one stream ----------

  /** A payload of the offer under the name and parameters that the list gives it. */
  function Renamed(p: SdpPayload, entry: SdpPayload): SdpPayload {
    p.(format := "", parameters := entry.parameters, encodingName := entry.encodingName,
       payloadType := if p.payloadType >= DYNAMIC_PAYLOAD_TYPE_START && entry.payloadType != -1
                      then entry.payloadType else p.payloadType)
  }

  /** What one entry of the list contributes. */
  function Contribution(payloads: seq<SdpPayload>, entry: SdpPayload, transport: Transport, add: bool)
    : (r: seq<SdpPayload>)
    ensures |r| <= 1 && (add ==> |r| == 1)
  {
    match FirstMatch(payloads, entry, transport)
    case Some(p) => [if add then Renamed(p, entry) else p]
    case None => if add then [entry] else []
  }

  function Arranged(list: seq<SdpPayload>, payloads: seq<SdpPayload>, transport: Transport, add: bool)
    : (r: seq<SdpPayload>)
    ensures add ==> |r| == |list|
  {
    if list == [] then []
    else
      Arranged(list[..|list| - 1], payloads, transport, add)
      + Contribution(payloads, list[|list| - 1], transport, add)
  }

  /** Nothing is left of the stream's payloads, or nothing but a telephone-event. */
  predicate Dropped(list: seq<SdpPayload>, m: SdpMedia, add: bool) {
    var r := Arranged(list, m.payloads, m.transport, add);
    (r == [] && m.payloads != []) || (|r| == 1 && IsTelephoneEvent(r[0]))
  }

  /** A dropped stream is closed with its first payload, so it has to have one. */
  predicate Closable(list: seq<SdpPayload>, m: SdpMedia, add: bool) {
    m.kind.Audio? && Dropped(list, m, add) ==> m.payloads != []
  }

  function ArrangedStream(list: seq<SdpPayload>, m: SdpMedia, add: bool): SdpMedia
    requires Closable(list, m, add)
  {
    var r := Arranged(list, m.payloads, m.transport, add);
    if !m.kind.Audio? then m
    else if Dropped(list, m, add) then m.(payloads := r + [m.payloads[0]], port := 0)
    else m.(payloads := r)
  }

  // ---------- the loops ----------

  method ArrangePayloads(list: seq<SdpPayload>, payloads: seq<SdpPayload>, transport: Transport, add: bool)
    returns (r: seq<SdpPayload>)
    ensures r == Arranged(list, payloads, transport, add)
  {
    hide Arranged, Renamed, FirstMatch;
    r := [];
    ArrangedMore(list, 0, payloads, transport, add);
    for i := 0 to |list|
      invariant r == Arranged(list[..i], payloads, transport, add)
    {
      ArrangedMore(list, i, payloads, transport, add);
      var found := FindPayload(payloads, list[i], transport);
      if found.Some? {
        r := r + [if add then Renamed(found.value, list[i]) else found.value];
      } else if add {
        r := r + [list[i]];
      }
    }
    assert list[..|list|] == list;
  }

  lemma ArrangedMore(list: seq<SdpPayload>, i: nat, payloads: seq<SdpPayload>, transport: Transport, add: bool)
    requires i <= |list|
    ensures Arranged([], payloads, transport, add) == [] && list[..0] == []
    ensures i < |list| ==>
              Arranged(list[..i + 1], payloads, transport, add)
              == Arranged(list[..i], payloads, transport, add) + Contribution(payloads, list[i], transport, add)
  {
    hide Contribution;
    if i < |list| {
      assert list[..i + 1][..i] == list[..i];
    }
  }

  method ArrangeStream(list: seq<SdpPayload>, m: SdpMedia, add: bool) returns (arranged: SdpMedia, dropped: bool)
    requires m.kind.Audio? && Closable(list, m, add)
    ensures arranged == ArrangedStream(list, m, add) && dropped == Dropped(list, m, add)
  {
    hide Arranged, IsTelephoneEvent;
    var newPl := ArrangePayloads(list, m.payloads, m.transport, add);
    dropped := (|newPl| == 0 && |m.payloads| != 0) || (|newPl| == 1 && IsTelephoneEvent(newPl[0]));
    arranged := m;
    if dropped {
      newPl := newPl + [m.payloads[0]];
      arranged := arranged.(port := 0);
    }
    arranged := arranged.(payloads := newPl);
  }

  /** The offer is refused exactly when it has audio streams and all of them were dropped. */
  method FilterArrangeSdp(sdp: AmSdp, list: seq<SdpPayload>, add: bool) returns (notMatched: bool)
    requires forall m :: m in sdp.media ==> Closable(list, m, add)
    modifies sdp`media
    ensures |sdp.media| == |old(sdp.media)|
    ensures forall i :: 0 <= i < |sdp.media| ==> sdp.media[i] == ArrangedStream(list, old(sdp.media)[i], add)
    ensures notMatched <==>
              && (exists m :: m in old(sdp.media) && m.kind.Audio?)
              && (forall m :: m in old(sdp.media) && m.kind.Audio? ==> Dropped(list, m, add))
  {
    hide Dropped, ArrangedStream, Closable;
    var filteredOut, left := false, false;
    ghost var was := sdp.media;
    for i := 0 to |sdp.media|
      invariant |sdp.media| == |was|
      invariant forall k :: 0 <= k < i ==> Closable(list, was[k], add) && sdp.media[k] == ArrangedStream(list, was[k], add)
      invariant forall k :: i <= k < |was| ==> sdp.media[k] == was[k]
      invariant filteredOut <==> AudioDropped(list, was[..i], add)
      invariant left <==> AudioLeft(list, was[..i], add)
    {
      var media := sdp.media[i];
      assert media in was && was[..i + 1] == was[..i] + [media];
      OneMoreStream(list, was[..i], media, add);
      OtherStream(list, media, add);
      if !media.kind.Audio? {
        continue;
      }
      var dropped;
      media, dropped := ArrangeStream(list, media, add);
      if dropped {
        filteredOut := true;
      } else {
        left := true;
      }
      sdp.media := sdp.media[i := media];
    }
    assert was[..|was|] == was;
    return !left && filteredOut;
  }

  predicate AudioDropped(list: seq<SdpPayload>, media: seq<SdpMedia>, add: bool) {
    exists m :: m in media && m.kind.Audio? && Dropped(list, m, add)
  }

  predicate AudioLeft(list: seq<SdpPayload>, media: seq<SdpMedia>, add: bool) {
    exists m :: m in media && m.kind.Audio? && !Dropped(list, m, add)
  }

  lemma OneMoreStream(list: seq<SdpPayload>, media: seq<SdpMedia>, m: SdpMedia, add: bool)
    ensures AudioDropped(list, media + [m], add)
       <==> AudioDropped(list, media, add) || (m.kind.Audio? && Dropped(list, m, add))
    ensures AudioLeft(list, media + [m], add)
       <==> AudioLeft(list, media, add) || (m.kind.Audio? && !Dropped(list, m, add))
  {
    hide Dropped;
    assert m in media + [m];
  }

  lemma OtherStream(list: seq<SdpPayload>, m: SdpMedia, add: bool)
    ensures !m.kind.Audio? ==> Closable(list, m, add) && ArrangedStream(list, m, add) == m
  {
    hide Dropped;
  }

  method ReduceCodecsToSingle(sdp: AmSdp)
    modifies sdp`media
    ensures sdp.media == Reduced(old(sdp.media))
  {
    ghost var was := sdp.media;
    for i := 0 to |sdp.media|
      invariant |sdp.media| == |was|
      invariant forall k :: 0 <= k < i ==> sdp.media[k] == ReducedStream(was[k])
      invariant forall k :: i <= k < |was| ==> sdp.media[k] == was[k]
    {
      var m := sdp.media[i];
      if !m.kind.Audio? {
        continue;
      }
      var newPl := ReducePayloads(m.payloads);
      sdp.media := sdp.media[i := m.(payloads := newPl)];
    }
  }

  method ReducePayloads(payloads: seq<SdpPayload>) returns (newPl: seq<SdpPayload>)
    ensures newPl == AddAll(payloads, true)
  {
    newPl := [];
    for i := 0 to |payloads|
      invariant newPl == AddAll(payloads[..i], true)
    {
      assert payloads[..i + 1][..i] == payloads[..i];
      newPl := AddCodec(newPl, payloads[i], true);
    }
    assert payloads[..|payloads|] == payloads;
  }

  function ReducedStream(m: SdpMedia): SdpMedia {
    if m.kind.Audio? then m.(payloads := AddAll(m.payloads, true)) else m
  }

  function Reduced(media: seq<SdpMedia>): (r: seq<SdpMedia>)
    ensures |r| == |media|
  {
    seq(|media|, i requires 0 <= i < |media| => ReducedStream(media[i]))
  }

  // ---------- what arranging selects ----------

  /** Without adding, the payloads that stay are the ones that the entries of the list select. */
  lemma {:induction false} ArrangedIsSelection(list: seq<SdpPayload>, payloads: seq<SdpPayload>, transport: Transport,
                                               p: SdpPayload)
    ensures p in Arranged(list, payloads, transport, false)
       <==> exists i :: 0 <= i < |list| && FirstMatch(payloads, list[i], transport) == Some(p)
    ensures p in Arranged(list, payloads, transport, false) ==> p in payloads
  {
    hide Contribution;
    if list != [] {
      var n := |list| - 1;
      ArrangedIsSelection(list[..n], payloads, transport, p);
      Selects(payloads, list[n], transport, p);
      assert forall i :: 0 <= i < n ==> list[..n][i] == list[i];
    }
  }

  lemma Selects(payloads: seq<SdpPayload>, entry: SdpPayload, transport: Transport, p: SdpPayload)
    ensures p in Contribution(payloads, entry, transport, false) <==> FirstMatch(payloads, entry, transport) == Some(p)
    ensures p in Contribution(payloads, entry, transport, false) ==> p in payloads
  {}

  /** The order is the order of the list. */
  lemma {:induction false} ArrangedInListOrder(front: seq<SdpPayload>, back: seq<SdpPayload>,
                                               payloads: seq<SdpPayload>, transport: Transport, add: bool)
    ensures Arranged(front + back, payloads, transport, add)
         == Arranged(front, payloads, transport, add) + Arranged(back, payloads, transport, add)
  {
    hide Contribution, Arranged;
    ArrangedMore(front, 0, payloads, transport, add);
    if back == [] {
      assert front + back == front;
    } else {
      var n, all := |back| - 1, front + back;
      ArrangedInListOrder(front, back[..n], payloads, transport, add);
      ArrangedMore(back, n, payloads, transport, add);
      ArrangedMore(all, |front| + n, payloads, transport, add);
      assert all[..|front| + n] == front + back[..n] && all[..|all|] == all && back[..|back|] == back;
    }
  }

  /** With adding, every entry of the list is there under its own name and parameters, and one
      that the offer has keeps the offer's clock rate and its number, unless that is dynamic and
      the list has one. */
  lemma {:induction false} AddedAt(list: seq<SdpPayload>, payloads: seq<SdpPayload>, transport: Transport, k: nat)
    requires k < |list|
    ensures var r := Arranged(list, payloads, transport, true)[k];
      && r.encodingName == list[k].encodingName && r.parameters == list[k].parameters
      && match FirstMatch(payloads, list[k], transport)
         case None => r == list[k]
         case Some(p) =>
           && r.clockRate == p.clockRate && r.encodingParam == p.encodingParam
           && r.payloadType == if p.payloadType < DYNAMIC_PAYLOAD_TYPE_START || list[k].payloadType == -1
                               then p.payloadType else list[k].payloadType
  {
    var n := |list| - 1;
    var before := Arranged(list[..n], payloads, transport, true);
    assert Arranged(list, payloads, transport, true)[..n] == before;
    if k < n {
      AddedAt(list[..n], payloads, transport, k);
    }
  }

  /** A stream keeps at least one payload if it had any, other streams are left alone, and a
      stream is closed exactly when it was dropped. */
  lemma StreamsStayFilled(list: seq<SdpPayload>, m: SdpMedia, add: bool)
    requires Closable(list, m, add)
    ensures var r := ArrangedStream(list, m, add);
      && r.kind == m.kind && r.transport == m.transport && r.conn == m.conn
      && (!m.kind.Audio? ==> r == m)
      && (m.payloads != [] ==> r.payloads != [])
      && (m.kind.Audio? && m.port != 0 ==> (r.port == 0 <==> Dropped(list, m, add)))
  {}

  /** A dropped stream has a payload to be closed with, unless codecs are added to a stream
      without payloads and all that is added is one telephone-event. */
  lemma ClosableExactly(list: seq<SdpPayload>, m: SdpMedia, add: bool)
    requires m.kind.Audio?
    ensures Closable(list, m, add)
       <==> !(add && m.payloads == [] && |list| == 1 && IsTelephoneEvent(list[0]))
  {
    if m.payloads == [] && add && |list| == 1 {
      assert list[..0] == [];
      assert Arranged(list, [], m.transport, true) == Contribution([], list[0], m.transport, true) == [list[0]];
    }
    if m.payloads == [] && !add {
      NothingFromNothing(list, m.transport);
    }
  }

  const EVENT := SdpPayload(101, "TELEPHONE-EVENT", 8000, -1, "", "")
  const CODEC := SdpPayload(0, "PCMU", 8000, -1, "", "")

  /** A stream without payloads that is given one telephone-event cannot be closed. */
  lemma NothingToClose()
    ensures !Closable([EVENT], SdpMedia(Audio, RtpAvp, 0, [], NO_CONNECTION), true)
  {
    EventAndCodec();
    ClosableExactly([EVENT], SdpMedia(Audio, RtpAvp, 0, [], NO_CONNECTION), true);
  }

  lemma EventAndCodec()
    ensures IsTelephoneEvent(EVENT) && !IsTelephoneEvent(CODEC)
  {
    assert ToUpper(EVENT.encodingName) == "TELEPHONE-EVENT";
    assert |ToUpper(CODEC.encodingName)| == 4;
  }

  lemma {:induction false} NothingFromNothing(list: seq<SdpPayload>, transport: Transport)
    ensures Arranged(list, [], transport, false) == []
  {
    if list != [] {
      NothingFromNothing(list[..|list| - 1], transport);
    }
  }

  // ---------- the arranged stream, place by place ----------

  /** Where entry k of the list puts its payload: with adding every entry puts one. */
  ghost function PlaceOf(list: seq<SdpPayload>, payloads: seq<SdpPayload>, transport: Transport, add: bool, k: nat): nat
    requires k <= |list|
  {
    if add then k else CountServed(payloads, list, transport, k, true)
  }

  /** An offered payload, as it is or under the name and with the parameters of an entry: it keeps its number
      unless that is dynamic and the entry has one. */
  predicate TakenOver(r: SdpPayload, offered: SdpPayload, entry: SdpPayload, add: bool) {
    if !add then r == offered
    else r == SdpPayload(if offered.payloadType >= 96 && entry.payloadType != -1 then entry.payloadType
                         else offered.payloadType,
                         entry.encodingName, offered.clockRate, offered.encodingParam, "", entry.parameters)
  }

  /** Each entry, in the order of the list, puts the first offered payload that serves it; with adding, itself if
      there is none.  Nothing else is there. */
  ghost predicate InListOrder(c: seq<SdpPayload>, list: seq<SdpPayload>, payloads: seq<SdpPayload>,
                              transport: Transport, add: bool)
  {
    && |c| == PlaceOf(list, payloads, transport, add, |list|)
    && forall k: nat :: k < |list| ==> EntryPut(c, list, payloads, transport, add, k)
  }

  ghost predicate EntryPut(c: seq<SdpPayload>, list: seq<SdpPayload>, payloads: seq<SdpPayload>,
                           transport: Transport, add: bool, k: nat)
    requires k < |list|
  {
    var at := PlaceOf(list, payloads, transport, add, k);
    && (Served(payloads, list[k], transport) ==>
          at < |c| && forall j: nat :: ServesFirst(payloads, j, list[k], transport) ==>
                                         TakenOver(c[at], payloads[j], list[k], add))
    && (add && !Served(payloads, list[k], transport) ==> at < |c| && c[at] == list[k])
  }

  /** The arranged stream: closed, and with the first offered payload behind it, exactly if nothing that was
      offered is left, or nothing but one telephone-event. */
  ghost predicate StreamFor(r: SdpMedia, m: SdpMedia, list: seq<SdpPayload>, add: bool) {
    exists c ::
      && InListOrder(c, list, m.payloads, m.transport, add)
      && var closed := (c == [] && m.payloads != []) || (|c| == 1 && IsTelephoneEvent(c[0]));
         && (closed ==> m.payloads != [])
         && r == if closed then m.(payloads := c + [m.payloads[0]], port := 0) else m.(payloads := c)
  }

  lemma ArrangedStreamIs(list: seq<SdpPayload>, m: SdpMedia, add: bool)
    requires Closable(list, m, add)
    ensures if m.kind.Audio? then StreamFor(ArrangedStream(list, m, add), m, list, add)
            else ArrangedStream(list, m, add) == m
  {
    hide InListOrder, Arranged, IsTelephoneEvent;
    ArrangedInPlace(list, m.payloads, m.transport, add);
  }

  lemma {:induction false} ArrangedInPlace(list: seq<SdpPayload>, payloads: seq<SdpPayload>, transport: Transport, add: bool)
    ensures InListOrder(Arranged(list, payloads, transport, add), list, payloads, transport, add)
  {
    hide EntryPut, Arranged, PlaceOf;
    PlaceMore(list, payloads, transport, add);
    ArrangedMore(list, 0, payloads, transport, add);
    if list != [] {
      var n := |list| - 1;
      var init, c, e := list[..n], Arranged(list[..n], payloads, transport, add), Contribution(payloads, list[n], transport, add);
      ArrangedInPlace(init, payloads, transport, add);
      ArrangedMore(list, n, payloads, transport, add);
      assert list[..n + 1] == list;
      Contributes(payloads, list[n], transport, add);
      forall k: nat | k < n
        ensures EntryPut(c + e, list, payloads, transport, add, k)
      {
        EntryStays(c, e, list, payloads, transport, add, k);
      }
      LastEntry(c, list, payloads, transport, add);
    }
  }

  lemma {:induction false} PrefixCounts(list: seq<SdpPayload>, payloads: seq<SdpPayload>, transport: Transport, n: nat, k: nat)
    requires k <= n <= |list|
    ensures CountServed(payloads, list[..n], transport, k, true) == CountServed(payloads, list, transport, k, true)
  {
    if k > 0 {
      PrefixCounts(list, payloads, transport, n, k - 1);
    }
  }

  lemma PlaceMore(list: seq<SdpPayload>, payloads: seq<SdpPayload>, transport: Transport, add: bool)
    ensures PlaceOf(list, payloads, transport, add, 0) == 0
    ensures list != [] ==>
              var n := |list| - 1;
              && PlaceOf(list[..n], payloads, transport, add, n) == PlaceOf(list, payloads, transport, add, n)
              && PlaceOf(list, payloads, transport, add, n + 1)
                 == PlaceOf(list, payloads, transport, add, n)
                    + if add || Served(payloads, list[n], transport) then 1 else 0
  {
    hide Served;
    if list != [] {
      PrefixCounts(list, payloads, transport, |list| - 1, |list| - 1);
    }
  }

  lemma Contributes(payloads: seq<SdpPayload>, entry: SdpPayload, transport: Transport, add: bool)
    ensures var e := Contribution(payloads, entry, transport, add);
      && |e| == (if add || Served(payloads, entry, transport) then 1 else 0)
      && (forall j: nat :: ServesFirst(payloads, j, entry, transport) ==> |e| == 1 && TakenOver(e[0], payloads[j], entry, add))
      && (add && !Served(payloads, entry, transport) ==> |e| == 1 && e[0] == entry)
  {
    hide Served, ServesFirst, FirstMatch;
    FirstServes(payloads, entry, transport);
    forall j: nat | ServesFirst(payloads, j, entry, transport)
      ensures Served(payloads, entry, transport) && j < |payloads|
    {
      ServesInside(payloads, j, entry, transport);
    }
  }

  lemma EntryStays(c: seq<SdpPayload>, e: seq<SdpPayload>, list: seq<SdpPayload>, payloads: seq<SdpPayload>,
                   transport: Transport, add: bool, k: nat)
    requires k < |list| - 1 && EntryPut(c, list[..|list| - 1], payloads, transport, add, k)
    ensures EntryPut(c + e, list, payloads, transport, add, k)
  {
    hide Served, ServesFirst, CountServed, TakenOver;
    PrefixCounts(list, payloads, transport, |list| - 1, k);
    assert list[..|list| - 1][k] == list[k];
  }

  lemma LastEntry(c: seq<SdpPayload>, list: seq<SdpPayload>, payloads: seq<SdpPayload>, transport: Transport, add: bool)
    requires list != [] && |c| == PlaceOf(list, payloads, transport, add, |list| - 1)
    ensures EntryPut(c + Contribution(payloads, list[|list| - 1], transport, add), list, payloads, transport, add, |list| - 1)
  {
    hide Served, ServesFirst, PlaceOf, TakenOver, Contribution;
    var last := list[|list| - 1];
    Contributes(payloads, last, transport, add);
    forall j: nat | ServesFirst(payloads, j, last, transport)
      ensures j < |payloads|
    {
      ServesInside(payloads, j, last, transport);
    }
  }

  // ---------- a single codec ----------

  /** What is left has at most one codec, and it has one if and only if one of the first two
      payloads is a codec: a codec behind two telephone-events is lost. */
  lemma SingleCodecLeft(payloads: seq<SdpPayload>)
    ensures AtMostOneCodec(AddAll(payloads, true))
    ensures forall p :: p in AddAll(payloads, true) ==> p in payloads
    ensures forall p :: p in payloads && IsTelephoneEvent(p) ==> p in AddAll(payloads, true)
    ensures HasCodec(AddAll(payloads, true)) <==> HasCodec(FirstTwo(payloads))
  {
    hide IsTelephoneEvent, AddAll, HasCodec, AtMostOneCodec, Survives, Survivors;
    var n := |payloads|;
    assert payloads[..n] == payloads;
    SingleCodecSelects(payloads, n);
    SurvivorsSingle(payloads, n);
    SurvivorsAre(payloads, n);
    SurvivingCodec(payloads);
    forall p | p in payloads && IsTelephoneEvent(p) ensures p in AddAll(payloads, true) {
      EventSurvives(payloads, p);
    }
  }

  /** A codec behind two telephone-events is lost. */
  lemma CodecIsLost()
    ensures !HasCodec(AddAll([EVENT, EVENT, CODEC], true))
  {
    hide IsTelephoneEvent, AddAll;
    EventAndCodec();
    SingleCodecLeft([EVENT, EVENT, CODEC]);
  }

  predicate HasCodec(payloads: seq<SdpPayload>) {
    exists k :: 0 <= k < |payloads| && !IsTelephoneEvent(payloads[k])
  }

  lemma EventSurvives(payloads: seq<SdpPayload>, p: SdpPayload)
    requires p in payloads && IsTelephoneEvent(p)
    ensures p in Survivors(payloads, |payloads|)
  {
    hide IsTelephoneEvent;
    var k :| 0 <= k < |payloads| && payloads[k] == p;
    SurvivorsAre(payloads, |payloads|);
    assert Survives(payloads, k);
  }

  function FirstTwo(payloads: seq<SdpPayload>): seq<SdpPayload> {
    payloads[..if |payloads| < 2 then |payloads| else 2]
  }

  lemma SurvivingCodec(payloads: seq<SdpPayload>)
    ensures HasCodec(Survivors(payloads, |payloads|)) <==> HasCodec(FirstTwo(payloads))
  {
    hide IsTelephoneEvent, Survivors, Survives, FirstTwo;
    var left := Survivors(payloads, |payloads|);
    if HasCodec(left) {
      var i :| 0 <= i < |left| && !IsTelephoneEvent(left[i]);
      CodecComesEarly(payloads, i);
    }
    if HasCodec(FirstTwo(payloads)) {
      EarlyCodecSurvives(payloads);
    }
  }

  lemma CodecComesEarly(payloads: seq<SdpPayload>, i: nat)
    requires i < |Survivors(payloads, |payloads|)| && !IsTelephoneEvent(Survivors(payloads, |payloads|)[i])
    ensures HasCodec(FirstTwo(payloads))
  {
    hide IsTelephoneEvent, Survivors;
    var k := SurvivorFrom(payloads, |payloads|, i);
    assert FirstTwo(payloads)[k] == payloads[k];
  }

  lemma EarlyCodecSurvives(payloads: seq<SdpPayload>)
    requires HasCodec(FirstTwo(payloads))
    ensures HasCodec(Survivors(payloads, |payloads|))
  {
    hide IsTelephoneEvent, Survivors;
    var k := if IsTelephoneEvent(payloads[0]) then 1 else 0;
    assert !IsTelephoneEvent(FirstTwo(payloads)[k]) && Survives(payloads, k);
    SurvivorsAre(payloads, |payloads|);
    assert payloads[k] in Survivors(payloads, |payloads|);
  }

  lemma {:induction false} SurvivorsAre(candidates: seq<SdpPayload>, n: nat)
    requires n <= |candidates|
    ensures forall p :: p in Survivors(candidates, n) ==> p in candidates
    ensures forall k :: 0 <= k < n && Survives(candidates, k) ==> candidates[k] in Survivors(candidates, n)
  {
    hide Survives;
    if n > 0 {
      SurvivorsAre(candidates, n - 1);
    }
  }

  lemma {:induction false} SurvivorFrom(candidates: seq<SdpPayload>, n: nat, i: nat) returns (k: nat)
    requires n <= |candidates| && i < |Survivors(candidates, n)|
    ensures k < n && candidates[k] == Survivors(candidates, n)[i] && Survives(candidates, k)
  {
    if i < |Survivors(candidates, n - 1)| {
      k := SurvivorFrom(candidates, n - 1, i);
    } else {
      k := n - 1;
    }
  }
}
