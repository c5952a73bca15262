/** Aligning an answer with what was negotiated (src/sdp_filter.cpp). */
module SdpAnswer {
  import opened Options
  import opened Sdp
  import opened Ascii

  datatype AnswerError = EmptyAnswer | StreamsCount | StreamsTypes

  // ---------- matching payloads ----------

  predicate StaticPayload(p: SdpPayload, transport: Transport) {
    !transport.OtherTransport? && 0 <= p.payloadType < DYNAMIC_PAYLOAD_TYPE_START
  }

  /** Whether the list entry p serves the wanted payload.  Names need not agree when a
      static number does; an entry without a clock rate or parameter matches any. */
  predicate Matches(p: SdpPayload, wanted: SdpPayload, transport: Transport) {
    && (|| ToLower(p.encodingName) == ToLower(wanted.encodingName)
        || (StaticPayload(wanted, transport) && p.payloadType == wanted.payloadType))
    && (p.clockRate > 0 ==> p.clockRate == wanted.clockRate)
    && (p.encodingParam >= 0 && wanted.encodingParam >= 0 ==>
          p.encodingParam == wanted.encodingParam)
  }

  /** The first entry that matches. */
  function FirstMatch(payloads: seq<SdpPayload>, wanted: SdpPayload, transport: Transport)
    : (r: Option<SdpPayload>)
    ensures r.None? <==> forall i :: 0 <= i < |payloads| ==> !Matches(payloads[i], wanted, transport)
    ensures r.Some? ==> r.value in payloads && Matches(r.value, wanted, transport)
  {
    if payloads == [] then None
    else if Matches(payloads[0], wanted, transport) then Some(payloads[0])
    else FirstMatch(payloads[1..], wanted, transport)
  }

  method FindPayload(payloads: seq<SdpPayload>, payload: SdpPayload, transport: Transport)
    returns (found: Option<SdpPayload>)
    ensures found == FirstMatch(payloads, payload, transport)
  {
    var pname := ToLower(payload.encodingName);
    var isStatic := StaticPayload(payload, transport);
    for i := 0 to |payloads|
      invariant FirstMatch(payloads, payload, transport)
             == FirstMatch(payloads[i..], payload, transport)
    {
      var p := payloads[i];
      assert payloads[i..][0] == p && payloads[i..][1..] == payloads[i + 1..];
      if isStatic {
        if payload.payloadType != p.payloadType && ToLower(p.encodingName) != pname {
          continue;
        }
      } else if ToLower(p.encodingName) != pname {
        continue;
      }
      if p.clockRate > 0 && p.clockRate != payload.clockRate {
        continue;
      }
      if p.encodingParam >= 0 && payload.encodingParam >= 0 && p.encodingParam != payload.encodingParam {
        continue;
      }
      return Some(p);
    }
    return None;
  }

  // ---------- choosing payloads ----------

  predicate IsTelephoneEvent(p: SdpPayload) {
    ToUpper(p.encodingName) == "TELEPHONE-EVENT"
  }

  function AddCodec(pl: seq<SdpPayload>, p: SdpPayload, single: bool): seq<SdpPayload> {
    if !single || pl == [] || (|pl| == 1 && IsTelephoneEvent(pl[0])) || IsTelephoneEvent(p)
    then pl + [p] else pl
  }

  /** Adding the candidates one after the other. */
  function AddAll(candidates: seq<SdpPayload>, single: bool): seq<SdpPayload> {
    if candidates == [] then []
    else AddCodec(AddAll(candidates[..|candidates| - 1], single), candidates[|candidates| - 1], single)
  }

  /** Which candidate survives single-codec mode: every telephone-event, and a codec only
      if it is the first one and at most one telephone-event stands before it. */
  predicate Survives(candidates: seq<SdpPayload>, k: nat)
    requires k < |candidates|
  {
    || IsTelephoneEvent(candidates[k])
    || (k <= 1 && forall j :: 0 <= j < k ==> IsTelephoneEvent(candidates[j]))
  }

  function Survivors(candidates: seq<SdpPayload>, n: nat): seq<SdpPayload>
    requires n <= |candidates|
  {
    if n == 0 then []
    else Survivors(candidates, n - 1) + (if Survives(candidates, n - 1) then [candidates[n - 1]] else [])
  }

  /** The incremental test computes the survivors. */
  lemma {:induction false} SingleCodecSelects(candidates: seq<SdpPayload>, n: nat)
    requires n <= |candidates|
    ensures AddAll(candidates[..n], true) == Survivors(candidates, n)
    ensures n == 1 ==> Survivors(candidates, n) == [candidates[0]]
    ensures n >= 1 ==> |Survivors(candidates, n)| >= 1
    ensures n >= 2 && |Survivors(candidates, n)| < 2 ==>
              && |Survivors(candidates, n)| == 1 && !IsTelephoneEvent(candidates[0])
              && Survivors(candidates, n)[0] == candidates[0]
  {
    hide IsTelephoneEvent, AddAll;
    if n == 0 {
      AddAllEmpty();
    } else {
      SingleCodecSelects(candidates, n - 1);
      assert candidates[..n] == candidates[..n - 1] + [candidates[n - 1]];
      AddAllStep(candidates[..n - 1], candidates[n - 1], true);
    }
  }

  lemma AddAllEmpty()
    ensures AddAll([], true) == []
  {}

  ghost predicate AtMostOneCodec(pl: seq<SdpPayload>) {
    forall i, j :: 0 <= i < j < |pl| ==> IsTelephoneEvent(pl[i]) || IsTelephoneEvent(pl[j])
  }

  /** Of the survivors at most one is not a telephone-event. */
  lemma {:induction false} SurvivorsSingle(candidates: seq<SdpPayload>, n: nat)
    requires n <= |candidates|
    ensures AtMostOneCodec(Survivors(candidates, n))
    ensures (forall j :: 0 <= j < n ==> IsTelephoneEvent(candidates[j])) ==>
              forall i :: 0 <= i < |Survivors(candidates, n)| ==>
                            IsTelephoneEvent(Survivors(candidates, n)[i])
  {
    if n > 0 {
      SurvivorsSingle(candidates, n - 1);
    }
  }

  lemma {:induction false} AddAllFrom(candidates: seq<SdpPayload>, single: bool)
    ensures forall p :: p in AddAll(candidates, single) ==> p in candidates
    ensures !single ==> AddAll(candidates, single) == candidates
  {
    if candidates != [] {
      AddAllFrom(candidates[..|candidates| - 1], single);
    }
  }

  /** In answer order: the negotiated payload each answered one selects. */
  function Selected(negotiated: seq<SdpPayload>, answered: seq<SdpPayload>, transport: Transport)
    : (r: seq<SdpPayload>)
    ensures forall p :: p in r ==> p in negotiated
  {
    if answered == [] then []
    else
      var last := |answered| - 1;
      var m := FirstMatch(negotiated, answered[last], transport);
      Selected(negotiated, answered[..last], transport) + (if m.Some? then [m.value] else [])
  }

  /** The negotiated payloads for which the answer has no match. */
  function Unanswered(negotiated: seq<SdpPayload>, answered: seq<SdpPayload>, transport: Transport)
    : (r: seq<SdpPayload>)
    ensures forall p :: p in r <==> p in negotiated && FirstMatch(answered, p, transport).None?
  {
    if negotiated == [] then []
    else
      var last := negotiated[|negotiated| - 1];
      Unanswered(negotiated[..|negotiated| - 1], answered, transport)
      + (if FirstMatch(answered, last, transport).None? then [last] else [])
  }

  function Candidates(
    negotiated: seq<SdpPayload>, answered: seq<SdpPayload>, transport: Transport, avoidTranscoding: bool)
    : (r: seq<SdpPayload>)
    ensures forall p :: p in r ==> p in negotiated
  {
    if !avoidTranscoding then negotiated
    else Selected(negotiated, answered, transport) + Unanswered(negotiated, answered, transport)
  }

  lemma AddAllStep(candidates: seq<SdpPayload>, p: SdpPayload, single: bool)
    ensures AddAll(candidates + [p], single) == AddCodec(AddAll(candidates, single), p, single)
  {
    assert (candidates + [p])[..|candidates|] == candidates;
  }

  /** The payloads of the answer that select a negotiated one, in answer order. */
  method ArrangeAnswered(
    negotiated: seq<SdpPayload>, answered: seq<SdpPayload>, transport: Transport, single: bool)
    returns (pl: seq<SdpPayload>)
    ensures pl == AddAll(Selected(negotiated, answered, transport), single)
  {
    pl := [];
    for i := 0 to |answered|
      invariant pl == AddAll(Selected(negotiated, answered[..i], transport), single)
    {
      ghost var before := Selected(negotiated, answered[..i], transport);
      SelectedStep(negotiated, answered[..i], answered[i], transport);
      assert answered[..i] + [answered[i]] == answered[..i + 1];
      var found := FindPayload(negotiated, answered[i], transport);
      if found.Some? {
        AddAllStep(before, found.value, single);
        pl := AddCodec(pl, found.value, single);
      }
    }
    assert answered[..|answered|] == answered;
  }

  lemma SelectedStep(negotiated: seq<SdpPayload>, answered: seq<SdpPayload>, p: SdpPayload, transport: Transport)
    ensures var m := FirstMatch(negotiated, p, transport);
            Selected(negotiated, answered + [p], transport)
            == if m.Some? then Selected(negotiated, answered, transport) + [m.value]
               else Selected(negotiated, answered, transport)
  {
    assert (answered + [p])[..|answered|] == answered;
  }

  lemma UnansweredStep(
    selected: seq<SdpPayload>, negotiated: seq<SdpPayload>, p: SdpPayload, answered: seq<SdpPayload>,
    transport: Transport, single: bool)
    ensures var pl := AddAll(selected + Unanswered(negotiated, answered, transport), single);
            AddAll(selected + Unanswered(negotiated + [p], answered, transport), single)
            == if FirstMatch(answered, p, transport).None? then AddCodec(pl, p, single) else pl
  {
    assert (negotiated + [p])[..|negotiated|] == negotiated;
    var before := Unanswered(negotiated, answered, transport);
    if FirstMatch(answered, p, transport).None? {
      assert selected + (before + [p]) == (selected + before) + [p];
      AddAllStep(selected + before, p, single);
    } else {
      assert before + [] == before;
    }
  }

  lemma NothingUnanswered(selected: seq<SdpPayload>, answered: seq<SdpPayload>, transport: Transport)
    ensures selected + Unanswered([], answered, transport) == selected
  {}

  /** The negotiated payloads the answer does not mention, behind those it does. */
  method ArrangeUnanswered(
    negotiated: seq<SdpPayload>, answered: seq<SdpPayload>, transport: Transport, single: bool,
    ghost selected: seq<SdpPayload>, arranged: seq<SdpPayload>)
    returns (pl: seq<SdpPayload>)
    requires arranged == AddAll(selected, single)
    ensures pl == AddAll(selected + Unanswered(negotiated, answered, transport), single)
  {
    hide AddAll, Unanswered, FirstMatch;
    pl := arranged;
    NothingUnanswered(selected, answered, transport);
    for i := 0 to |negotiated|
      invariant pl == AddAll(selected + Unanswered(negotiated[..i], answered, transport), single)
    {
      UnansweredStep(selected, negotiated[..i], negotiated[i], answered, transport, single);
      assert negotiated[..i] + [negotiated[i]] == negotiated[..i + 1];
      var found := FindPayload(answered, negotiated[i], transport);
      if found.None? {
        pl := AddCodec(pl, negotiated[i], single);
      }
    }
    assert negotiated[..|negotiated|] == negotiated;
  }

  method NewPayloads(
    negotiated: seq<SdpPayload>, answered: seq<SdpPayload>, transport: Transport,
    avoidTranscoding: bool, single: bool)
    returns (pl: seq<SdpPayload>)
    ensures pl == AddAll(Candidates(negotiated, answered, transport, avoidTranscoding), single)
  {
    if avoidTranscoding {
      pl := ArrangeAnswered(negotiated, answered, transport, single);
      pl := ArrangeUnanswered(negotiated, answered, transport, single,
                              Selected(negotiated, answered, transport), pl);
      return;
    }
    pl := [];
    for i := 0 to |negotiated|
      invariant pl == AddAll(negotiated[..i], single)
    {
      AddAllStep(negotiated[..i], negotiated[i], single);
      assert negotiated[..i] + [negotiated[i]] == negotiated[..i + 1];
      pl := AddCodec(pl, negotiated[i], single);
    }
    assert negotiated[..|negotiated|] == negotiated;
  }

  // ---------- aligning streams ----------

  /** Stream i of the negotiation was cut from the offer, so the answer lacks it. */
  predicate Cut(negotiated: seq<SdpMedia>, filtered: bool, i: nat)
    requires i < |negotiated|
  {
    filtered && !negotiated[i].kind.Audio?
  }

  /** Where the answer holds its counterpart of stream i. */
  function Position(negotiated: seq<SdpMedia>, filtered: bool, i: nat): (p: nat)
    requires i <= |negotiated|
    ensures p <= i
  {
    if filtered then AudioCount(negotiated[..i]) else i
  }

  ghost predicate CountsAgree(negotiated: seq<SdpMedia>, media: seq<SdpMedia>, filtered: bool) {
    |media| == |negotiated| || (filtered && |media| == AudioCount(negotiated))
  }

  lemma {:induction false} AudioCountSplit(media: seq<SdpMedia>, i: nat)
    requires i < |media|
    ensures AudioCount(media[..i + 1]) == AudioCount(media[..i]) + (if media[i].kind.Audio? then 1 else 0)
    ensures AudioCount(media[..i + 1]) <= AudioCount(media)
    decreases |media|
  {
    assert media[..i + 1][..i] == media[..i];
    if i + 1 < |media| {
      var init := media[..|media| - 1];
      AudioCountSplit(init, i);
      assert init[..i + 1] == media[..i + 1];
    } else {
      assert media[..i + 1] == media;
    }
  }

  /** Every stream that was not cut has a counterpart: the answer never runs out. */
  lemma PositionInside(negotiated: seq<SdpMedia>, media: seq<SdpMedia>, filtered: bool, i: nat)
    requires i < |negotiated| && CountsAgree(negotiated, media, filtered)
    ensures !Cut(negotiated, filtered, i) ==>
              && Position(negotiated, filtered, i) < |media|
              && Position(negotiated, filtered, i + 1) == Position(negotiated, filtered, i) + 1
    ensures Cut(negotiated, filtered, i) ==>
              Position(negotiated, filtered, i + 1) == Position(negotiated, filtered, i)
  {
    AudioCountSplit(negotiated, i);
  }

  /** Stream i of the result, from the negotiated stream and its counterpart. */
  function Merged(other: SdpMedia, m: SdpMedia, avoidTranscoding: bool, single: bool): SdpMedia {
    if !m.kind.Audio? then m
    else m.(transport := other.transport,
            payloads := AddAll(Candidates(other.payloads, m.payloads, other.transport, avoidTranscoding), single))
  }

  ghost predicate KindsAgree(negotiated: seq<SdpMedia>, media: seq<SdpMedia>, filtered: bool, i: nat)
    requires i < |negotiated|
  {
    var p := Position(negotiated, filtered, i);
    Cut(negotiated, filtered, i) || (p < |media| && media[p].kind == negotiated[i].kind)
  }

  /** The verdict on an answer, before anything is rewritten. */
  ghost function Verdict(negotiated: seq<SdpMedia>, media: seq<SdpMedia>, filtered: bool)
    : Option<AnswerError>
  {
    if negotiated == [] then None
    else if media == [] then Some(EmptyAnswer)
    else if !CountsAgree(negotiated, media, filtered) then Some(StreamsCount)
    else if exists i: nat :: i < |negotiated| && !KindsAgree(negotiated, media, filtered, i)
    then Some(StreamsTypes)
    else None
  }

  /** A well-aligned answer: negotiated streams that were cut are put back, and each
      other stream is its counterpart, with payloads chosen from the negotiated ones. */
  ghost predicate Aligned(
    negotiated: seq<SdpMedia>, media: seq<SdpMedia>, result: seq<SdpMedia>, n: nat,
    filtered: bool, avoidTranscoding: bool, single: bool)
    requires n <= |negotiated|
  {
    && |result| == n
    && forall i: nat :: i < n ==>
         && KindsAgree(negotiated, media, filtered, i)
         && result[i] == if Cut(negotiated, filtered, i) then negotiated[i]
                         else Merged(negotiated[i], media[Position(negotiated, filtered, i)],
                                     avoidTranscoding, single)
  }

  method CheckStreamCounts(negotiated: seq<SdpMedia>, media: seq<SdpMedia>, filtered: bool)
    returns (ok: bool)
    ensures ok == CountsAgree(negotiated, media, filtered)
  {
    if |negotiated| == |media| {
      return true;
    }
    if !filtered {
      return false;
    }
    var audioStreams := 0;
    for i := 0 to |negotiated|
      invariant audioStreams == AudioCount(negotiated[..i])
    {
      AudioCountSplit(negotiated, i);
      if negotiated[i].kind.Audio? {
        audioStreams := audioStreams + 1;
      }
    }
    assert negotiated[..|negotiated|] == negotiated;
    return |media| == audioStreams;
  }

  /** One stream of the answer against its negotiated counterpart. */
  method MergeStream(other: SdpMedia, m: SdpMedia, avoidTranscoding: bool, single: bool)
    returns (merged: SdpMedia)
    ensures merged == Merged(other, m, avoidTranscoding, single)
  {
    merged := m;
    if !m.kind.Audio? {
      return;
    }
    if m.transport != other.transport {
      merged := merged.(transport := other.transport);
    }
    var pl := NewPayloads(other.payloads, m.payloads, merged.transport, avoidTranscoding, single);
    merged := merged.(payloads := pl);
  }

  method FilterSdpAnswerMedia(
    negotiated: seq<SdpMedia>, sdp: AmSdp,
    noAudioStreamsFiltered: bool, avoidTranscoding: bool, single: bool)
    returns (error: Option<AnswerError>)
    modifies sdp`media
    ensures error == Verdict(negotiated, old(sdp.media), noAudioStreamsFiltered)
    ensures error.None? ==>
              if negotiated == [] then sdp.media == old(sdp.media)
              else Aligned(negotiated, old(sdp.media), sdp.media, |negotiated|,
                           noAudioStreamsFiltered, avoidTranscoding, single)
    ensures error in {Some(EmptyAnswer), Some(StreamsCount)} ==> sdp.media == old(sdp.media)
    ensures error == Some(StreamsTypes) ==>
              exists n: nat :: n < |negotiated|
                               && FirstDisagreement(negotiated, old(sdp.media), noAudioStreamsFiltered, n)
                               && Rewritten(negotiated, old(sdp.media), sdp.media, n,
                                            noAudioStreamsFiltered, avoidTranscoding, single)
  {
    hide Merged, KindsAgree, Verdict, Aligned, Position, CountsAgree, Rewritten;
    VerdictOf(negotiated, sdp.media, noAudioStreamsFiltered);
    if |negotiated| == 0 {
      return None;
    }
    if |sdp.media| == 0 {
      return Some(EmptyAnswer);
    }
    var countsOk := CheckStreamCounts(negotiated, sdp.media, noAudioStreamsFiltered);
    if !countsOk {
      return Some(StreamsCount);
    }

    ghost var media0 := sdp.media;
    var filteredMedia: seq<SdpMedia> := [];
    var o, m := 0, 0;
    AlignedStart(negotiated, media0, noAudioStreamsFiltered, avoidTranscoding, single);
    RewrittenStart(negotiated, media0, noAudioStreamsFiltered, avoidTranscoding, single);
    while o < |negotiated|
      invariant 0 <= o <= |negotiated|
      invariant m == Position(negotiated, noAudioStreamsFiltered, o)
      invariant |sdp.media| == |media0|
      invariant forall i :: m <= i < |media0| ==> sdp.media[i] == media0[i]
      invariant Rewritten(negotiated, media0, sdp.media, o, noAudioStreamsFiltered, avoidTranscoding, single)
      invariant Aligned(negotiated, media0, filteredMedia, o,
                        noAudioStreamsFiltered, avoidTranscoding, single)
    {
      PositionInside(negotiated, media0, noAudioStreamsFiltered, o);
      AlignedStep(negotiated, media0, filteredMedia, o, noAudioStreamsFiltered, avoidTranscoding, single);
      RewrittenStep(negotiated, media0, sdp.media, o, noAudioStreamsFiltered, avoidTranscoding, single);
      if noAudioStreamsFiltered && !negotiated[o].kind.Audio? {
        filteredMedia := filteredMedia + [negotiated[o]];
        o := o + 1;
        continue;
      }
      if m == |sdp.media| {
        assert false;
      }
      if sdp.media[m].kind != negotiated[o].kind {
        AlignedPrefix(negotiated, media0, filteredMedia, o, noAudioStreamsFiltered, avoidTranscoding, single);
        return Some(StreamsTypes);
      }
      var merged := MergeStream(negotiated[o], sdp.media[m], avoidTranscoding, single);
      sdp.media := sdp.media[m := merged];
      filteredMedia := filteredMedia + [merged];
      o, m := o + 1, m + 1;
    }
    AlignedKinds(negotiated, media0, filteredMedia, noAudioStreamsFiltered, avoidTranscoding, single);
    sdp.media := filteredMedia;
    return None;
  }

  lemma VerdictOf(negotiated: seq<SdpMedia>, media: seq<SdpMedia>, filtered: bool)
    ensures negotiated == [] ==> Verdict(negotiated, media, filtered) == None
    ensures negotiated != [] && media == [] ==> Verdict(negotiated, media, filtered) == Some(EmptyAnswer)
    ensures negotiated != [] && media != [] && !CountsAgree(negotiated, media, filtered) ==>
              Verdict(negotiated, media, filtered) == Some(StreamsCount)
    ensures forall i: nat ::
              (i < |negotiated| && media != [] && CountsAgree(negotiated, media, filtered)
               && !KindsAgree(negotiated, media, filtered, i))
              ==> Verdict(negotiated, media, filtered) == Some(StreamsTypes)
    ensures (CountsAgree(negotiated, media, filtered) && media != []
             && (forall i: nat :: i < |negotiated| ==> KindsAgree(negotiated, media, filtered, i)))
            ==> Verdict(negotiated, media, filtered) == None
  {}

  /** What is accepted, and what is wrong with any other answer: it has no streams, too many or too few, or one
      that is not of the type of its negotiated counterpart. */
  lemma VerdictExactly(negotiated: seq<SdpMedia>, media: seq<SdpMedia>, filtered: bool)
    requires negotiated != []
    ensures var v, audio := Verdict(negotiated, media, filtered), AudioCount(negotiated);
      var counted := |media| == |negotiated| || (filtered && |media| == audio);
      && (v == Some(EmptyAnswer) <==> media == [])
      && (v == Some(StreamsCount) <==> media != [] && !counted)
      && (v == None <==> media != [] && counted
                         && forall i: nat :: i < |negotiated| ==> SameKind(negotiated, media, filtered, i))
  {
    assert forall i: nat :: i < |negotiated| ==>
             (SameKind(negotiated, media, filtered, i) <==> KindsAgree(negotiated, media, filtered, i));
  }

  /** A stream that was not cut from the offer has its counterpart at its own place, or if some were cut, at its
      place among the audio streams. */
  predicate SameKind(negotiated: seq<SdpMedia>, media: seq<SdpMedia>, filtered: bool, i: nat)
    requires i < |negotiated|
  {
    !filtered || negotiated[i].kind.Audio? ==>
      var p := if filtered then AudioCount(negotiated[..i]) else i;
      p < |media| && media[p].kind == negotiated[i].kind
  }

  lemma AlignedStart(negotiated: seq<SdpMedia>, media: seq<SdpMedia>,
                     filtered: bool, avoidTranscoding: bool, single: bool)
    ensures Aligned(negotiated, media, [], 0, filtered, avoidTranscoding, single)
    ensures Position(negotiated, filtered, 0) == 0
  {
    assert negotiated[..0] == [];
  }

  lemma AlignedKinds(negotiated: seq<SdpMedia>, media: seq<SdpMedia>, result: seq<SdpMedia>,
                     filtered: bool, avoidTranscoding: bool, single: bool)
    requires Aligned(negotiated, media, result, |negotiated|, filtered, avoidTranscoding, single)
    ensures forall i: nat :: i < |negotiated| ==> KindsAgree(negotiated, media, filtered, i)
  {}

  /** What the next stream must be. */
  lemma AlignedStep(negotiated: seq<SdpMedia>, media: seq<SdpMedia>, result: seq<SdpMedia>, n: nat,
                    filtered: bool, avoidTranscoding: bool, single: bool)
    requires n < |negotiated| && CountsAgree(negotiated, media, filtered)
    requires Aligned(negotiated, media, result, n, filtered, avoidTranscoding, single)
    ensures Cut(negotiated, filtered, n) ==>
              Aligned(negotiated, media, result + [negotiated[n]], n + 1, filtered, avoidTranscoding, single)
    ensures !Cut(negotiated, filtered, n) ==>
              var p := Position(negotiated, filtered, n);
              && p < |media|
              && (media[p].kind != negotiated[n].kind ==> !KindsAgree(negotiated, media, filtered, n))
              && (media[p].kind == negotiated[n].kind ==>
                    Aligned(negotiated, media,
                            result + [Merged(negotiated[n], media[p], avoidTranscoding, single)],
                            n + 1, filtered, avoidTranscoding, single))
  {
    hide Merged, Position, CountsAgree;
    PositionInside(negotiated, media, filtered, n);
  }

  /** The streams before n have been merged into the answer, the ones behind are as they were. */
  ghost predicate Rewritten(
    negotiated: seq<SdpMedia>, before: seq<SdpMedia>, after: seq<SdpMedia>, n: nat,
    filtered: bool, avoidTranscoding: bool, single: bool)
    requires n <= |negotiated|
  {
    && |after| == |before|
    && (forall j: nat :: j < n && !Cut(negotiated, filtered, j) ==>
          var p := Position(negotiated, filtered, j);
          p < |before| && p < Position(negotiated, filtered, n)
          && after[p] == Merged(negotiated[j], before[p], avoidTranscoding, single))
    && forall p :: Position(negotiated, filtered, n) <= p < |before| ==> after[p] == before[p]
  }

  /** The stream whose kind is the first to differ. */
  ghost predicate FirstDisagreement(negotiated: seq<SdpMedia>, media: seq<SdpMedia>, filtered: bool, n: nat)
    requires n < |negotiated|
  {
    && (forall j: nat :: j < n ==> KindsAgree(negotiated, media, filtered, j))
    && !KindsAgree(negotiated, media, filtered, n)
  }

  lemma RewrittenStart(negotiated: seq<SdpMedia>, media: seq<SdpMedia>,
                       filtered: bool, avoidTranscoding: bool, single: bool)
    ensures Rewritten(negotiated, media, media, 0, filtered, avoidTranscoding, single)
  {}

  lemma RewrittenStep(negotiated: seq<SdpMedia>, before: seq<SdpMedia>, after: seq<SdpMedia>, n: nat,
                      filtered: bool, avoidTranscoding: bool, single: bool)
    requires n < |negotiated| && CountsAgree(negotiated, before, filtered)
    requires Rewritten(negotiated, before, after, n, filtered, avoidTranscoding, single)
    ensures Cut(negotiated, filtered, n) ==>
              Rewritten(negotiated, before, after, n + 1, filtered, avoidTranscoding, single)
    ensures !Cut(negotiated, filtered, n) ==>
              var p := Position(negotiated, filtered, n);
              && p < |before| && after[p] == before[p]
              && Rewritten(negotiated, before, after[p := Merged(negotiated[n], before[p], avoidTranscoding, single)],
                           n + 1, filtered, avoidTranscoding, single)
  {
    hide Merged, Position, CountsAgree;
    PositionInside(negotiated, before, filtered, n);
  }

  lemma AlignedPrefix(negotiated: seq<SdpMedia>, media: seq<SdpMedia>, result: seq<SdpMedia>, n: nat,
                      filtered: bool, avoidTranscoding: bool, single: bool)
    requires n < |negotiated| && Aligned(negotiated, media, result, n, filtered, avoidTranscoding, single)
    ensures forall j: nat :: j < n ==> KindsAgree(negotiated, media, filtered, j)
  {}

  /** Section 6 of RFC 3264: an accepted answer has one stream per negotiated stream, of
      the same type; audio payloads come from the negotiated ones, and single-codec mode
      leaves at most one besides telephone-events. */
  lemma AnswerMirrorsNegotiation(
    negotiated: seq<SdpMedia>, media: seq<SdpMedia>, result: seq<SdpMedia>,
    filtered: bool, avoidTranscoding: bool, single: bool)
    requires Aligned(negotiated, media, result, |negotiated|, filtered, avoidTranscoding, single)
    ensures |result| == |negotiated|
    ensures forall i :: 0 <= i < |result| ==> result[i].kind == negotiated[i].kind
    ensures forall i, p :: 0 <= i < |result| && result[i].kind.Audio? && p in result[i].payloads ==>
              p in negotiated[i].payloads
    ensures single ==> forall i :: 0 <= i < |result| && result[i].kind.Audio? ==>
              AtMostOneCodec(result[i].payloads)
    ensures !single && !avoidTranscoding ==> forall i :: 0 <= i < |result| && result[i].kind.Audio? ==>
              result[i].payloads == negotiated[i].payloads
  {
    hide Merged, AtMostOneCodec, Position;
    forall i: nat | i < |result|
      ensures result[i].kind == negotiated[i].kind
      ensures result[i].kind.Audio? ==>
                && (forall p :: p in result[i].payloads ==> p in negotiated[i].payloads)
                && (single ==> AtMostOneCodec(result[i].payloads))
                && (!single && !avoidTranscoding ==> result[i].payloads == negotiated[i].payloads)
    {
      MergedFromNegotiated(negotiated[i], if Cut(negotiated, filtered, i) then negotiated[i]
                                          else media[Position(negotiated, filtered, i)], avoidTranscoding, single);
    }
  }

  lemma MergedFromNegotiated(other: SdpMedia, m: SdpMedia, avoidTranscoding: bool, single: bool)
    ensures var merged := Merged(other, m, avoidTranscoding, single);
      && merged.kind == m.kind
      && (m.kind.Audio? ==>
            && (forall p :: p in merged.payloads ==> p in other.payloads)
            && (single ==> AtMostOneCodec(merged.payloads))
            && (!single && !avoidTranscoding ==> merged.payloads == other.payloads))
  {
    hide AddAll, AtMostOneCodec, IsTelephoneEvent;
    var c := Candidates(other.payloads, m.payloads, other.transport, avoidTranscoding);
    AddAllFrom(c, single);
    if single {
      SingleCodecSelects(c, |c|);
      SurvivorsSingle(c, |c|);
      assert c[..|c|] == c;
    }
  }

  // ---------- the arranged payloads, place by place ----------

  /** Some entry of the list serves the payload. */
  ghost predicate Served(payloads: seq<SdpPayload>, wanted: SdpPayload, transport: Transport) {
    exists j :: 0 <= j < |payloads| && Matches(payloads[j], wanted, transport)
  }

  /** Entry j is the first one that serves the payload. */
  ghost predicate ServesFirst(payloads: seq<SdpPayload>, j: nat, wanted: SdpPayload, transport: Transport) {
    && j < |payloads| && Matches(payloads[j], wanted, transport)
    && forall i :: 0 <= i < j ==> !Matches(payloads[i], wanted, transport)
  }

  /** How many of the first n payloads are served, or are not. */
  ghost function CountServed(payloads: seq<SdpPayload>, wanted: seq<SdpPayload>, transport: Transport,
                             n: nat, served: bool): nat
    requires n <= |wanted|
  {
    if n == 0 then 0
    else CountServed(payloads, wanted, transport, n - 1, served)
         + if Served(payloads, wanted[n - 1], transport) == served then 1 else 0
  }

  lemma CountStep(payloads: seq<SdpPayload>, wanted: seq<SdpPayload>, transport: Transport, n: nat, served: bool)
    requires n <= |wanted|
    ensures CountServed(payloads, wanted, transport, n, served)
         == if n == 0 then 0
            else CountServed(payloads, wanted, transport, n - 1, served)
                 + if Served(payloads, wanted[n - 1], transport) == served then 1 else 0
  {}

  /** The payload stands in the list at this place. */
  predicate StandsAt(payloads: seq<SdpPayload>, at: nat, p: SdpPayload) {
    at < |payloads| && payloads[at] == p
  }

  /** Every answered payload that is served puts the first entry serving it at its turn; the negotiated
      payloads that no answered one serves stand behind them in their order, and nothing else does. */
  ghost predicate InAnswerOrder(
    c: seq<SdpPayload>, negotiated: seq<SdpPayload>, answered: seq<SdpPayload>, transport: Transport)
  {
    var front := CountServed(negotiated, answered, transport, |answered|, true);
    && |c| == front + CountServed(answered, negotiated, transport, |negotiated|, false)
    && (forall k: nat, j: nat :: k < |answered| && ServesFirst(negotiated, j, answered[k], transport) ==>
          StandsAt(c, CountServed(negotiated, answered, transport, k, true), negotiated[j]))
    && (forall k: nat :: k < |negotiated| && !Served(answered, negotiated[k], transport) ==>
          StandsAt(c, front + CountServed(answered, negotiated, transport, k, false), negotiated[k]))
  }

  lemma ServesInside(payloads: seq<SdpPayload>, j: nat, wanted: SdpPayload, transport: Transport)
    requires ServesFirst(payloads, j, wanted, transport)
    ensures j < |payloads| && Served(payloads, wanted, transport)
  {}

  lemma FirstServes(payloads: seq<SdpPayload>, wanted: SdpPayload, transport: Transport)
    ensures FirstMatch(payloads, wanted, transport).Some? <==> Served(payloads, wanted, transport)
    ensures forall j: nat :: ServesFirst(payloads, j, wanted, transport) ==>
              FirstMatch(payloads, wanted, transport) == Some(payloads[j])
  {
    forall j: nat | ServesFirst(payloads, j, wanted, transport)
      ensures FirstMatch(payloads, wanted, transport) == Some(payloads[j])
    {
      FirstMatchAt(payloads, j, wanted, transport);
    }
  }

  lemma {:induction false} FirstMatchAt(payloads: seq<SdpPayload>, j: nat, wanted: SdpPayload, transport: Transport)
    requires ServesFirst(payloads, j, wanted, transport)
    ensures FirstMatch(payloads, wanted, transport) == Some(payloads[j])
  {
    if j > 0 {
      assert !Matches(payloads[0], wanted, transport);
      FirstMatchAt(payloads[1..], j - 1, wanted, transport);
    }
  }

  lemma Appended(c: seq<SdpPayload>, more: seq<SdpPayload>)
    ensures forall at: nat, p :: StandsAt(c, at, p) ==> StandsAt(c + more, at, p)
    ensures more != [] ==> StandsAt(c + more, |c|, more[0])
  {}

  lemma {:induction false} SelectedAt(negotiated: seq<SdpPayload>, answered: seq<SdpPayload>, transport: Transport, n: nat)
    requires n <= |answered|
    ensures |Selected(negotiated, answered[..n], transport)| == CountServed(negotiated, answered, transport, n, true)
    ensures forall k: nat, j: nat :: k < n && ServesFirst(negotiated, j, answered[k], transport) ==>
              StandsAt(Selected(negotiated, answered[..n], transport),
                       CountServed(negotiated, answered, transport, k, true), negotiated[j])
  {
    hide ServesFirst, Served, Selected, StandsAt, FirstMatch, CountServed;
    CountStep(negotiated, answered, transport, n, true);
    if n > 0 {
      SelectedAt(negotiated, answered, transport, n - 1);
      SelectedMore(negotiated, answered, transport, n);
      var m := FirstMatch(negotiated, answered[n - 1], transport);
      FirstServes(negotiated, answered[n - 1], transport);
      Appended(Selected(negotiated, answered[..n - 1], transport), if m.Some? then [m.value] else []);
      forall k: nat, j: nat | k < n && ServesFirst(negotiated, j, answered[k], transport)
        ensures j < |negotiated|
        ensures StandsAt(Selected(negotiated, answered[..n], transport),
                         CountServed(negotiated, answered, transport, k, true), negotiated[j])
      {
        ServesInside(negotiated, j, answered[k], transport);
      }
    } else {
      SelectedMore(negotiated, answered, transport, 0);
    }
  }

  lemma SelectedMore(negotiated: seq<SdpPayload>, answered: seq<SdpPayload>, transport: Transport, n: nat)
    requires n <= |answered|
    ensures n == 0 ==> Selected(negotiated, answered[..n], transport) == []
    ensures n > 0 ==>
      var m := FirstMatch(negotiated, answered[n - 1], transport);
      Selected(negotiated, answered[..n], transport)
      == Selected(negotiated, answered[..n - 1], transport) + if m.Some? then [m.value] else []
  {
    hide FirstMatch;
    if n > 0 {
      assert answered[..n][..n - 1] == answered[..n - 1];
    }
  }

  lemma {:induction false} UnansweredAt(negotiated: seq<SdpPayload>, answered: seq<SdpPayload>, transport: Transport, n: nat)
    requires n <= |negotiated|
    ensures |Unanswered(negotiated[..n], answered, transport)| == CountServed(answered, negotiated, transport, n, false)
    ensures forall k: nat :: k < n && !Served(answered, negotiated[k], transport) ==>
              StandsAt(Unanswered(negotiated[..n], answered, transport),
                       CountServed(answered, negotiated, transport, k, false), negotiated[k])
  {
    hide Served, Unanswered, StandsAt, FirstMatch, CountServed;
    CountStep(answered, negotiated, transport, n, false);
    UnansweredMore(negotiated, answered, transport, n);
    if n > 0 {
      var p := negotiated[n - 1];
      UnansweredAt(negotiated, answered, transport, n - 1);
      FirstServes(answered, p, transport);
      Appended(Unanswered(negotiated[..n - 1], answered, transport),
               if FirstMatch(answered, p, transport).None? then [p] else []);
      forall k: nat | k < n && !Served(answered, negotiated[k], transport)
        ensures StandsAt(Unanswered(negotiated[..n], answered, transport),
                         CountServed(answered, negotiated, transport, k, false), negotiated[k])
      {}
    }
  }

  lemma UnansweredMore(negotiated: seq<SdpPayload>, answered: seq<SdpPayload>, transport: Transport, n: nat)
    requires n <= |negotiated|
    ensures n == 0 ==> Unanswered(negotiated[..n], answered, transport) == []
    ensures n > 0 ==>
      Unanswered(negotiated[..n], answered, transport)
      == Unanswered(negotiated[..n - 1], answered, transport)
         + if FirstMatch(answered, negotiated[n - 1], transport).None? then [negotiated[n - 1]] else []
  {
    hide FirstMatch;
    if n > 0 {
      assert negotiated[..n][..n - 1] == negotiated[..n - 1];
    }
  }

  lemma CandidatesInOrder(negotiated: seq<SdpPayload>, answered: seq<SdpPayload>, transport: Transport)
    ensures InAnswerOrder(Candidates(negotiated, answered, transport, true), negotiated, answered, transport)
  {
    hide Served, ServesFirst, CountServed, Selected, Unanswered;
    SelectedAt(negotiated, answered, transport, |answered|);
    UnansweredAt(negotiated, answered, transport, |negotiated|);
    assert answered[..|answered|] == answered && negotiated[..|negotiated|] == negotiated;
  }

  /** The telephone-events of a list, in order. */
  function Events(payloads: seq<SdpPayload>): seq<SdpPayload> {
    if payloads == [] then []
    else
      var last := payloads[|payloads| - 1];
      Events(payloads[..|payloads| - 1]) + if IsTelephoneEvent(last) then [last] else []
  }

  /** The payloads up to the codec that is kept: the first one is, or else the second one. */
  function Head(payloads: seq<SdpPayload>): (n: nat)
    ensures n <= |payloads|
  {
    if |payloads| <= 1 || !IsTelephoneEvent(payloads[0]) then (if payloads == [] then 0 else 1) else 2
  }

  /** In single-codec mode the head of the list is kept, and behind it the telephone-events. */
  lemma {:induction false} SingleCodecIs(c: seq<SdpPayload>)
    ensures AddAll(c, true) == c[..Head(c)] + Events(c[Head(c)..])
  {
    SingleCodecUpTo(c, |c|);
    assert c[..|c|] == c && c[Head(c)..|c|] == c[Head(c)..];
  }

  lemma {:induction false} SingleCodecUpTo(c: seq<SdpPayload>, n: nat)
    requires Head(c) <= n <= |c|
    ensures AddAll(c[..n], true) == c[..Head(c)] + Events(c[Head(c)..n])
  {
    hide AddAll, Events, Head;
    if n == Head(c) {
      HeadIsKept(c);
    } else {
      var p := c[n - 1];
      SingleCodecUpTo(c, n - 1);
      AddAllStep(c[..n - 1], p, true);
      assert c[..n] == c[..n - 1] + [p];
      EventsStep(c, n);
      BehindHead(c, Events(c[Head(c)..n - 1]), p);
    }
  }

  lemma HeadIsKept(c: seq<SdpPayload>)
    ensures AddAll(c[..Head(c)], true) == c[..Head(c)] + Events(c[Head(c)..Head(c)])
  {
    hide IsTelephoneEvent;
    if c != [] {
      AddAllStep([], c[0], true);
      assert c[..1] == [] + [c[0]];
    }
    if Head(c) == 2 {
      AddAllStep(c[..1], c[1], true);
      assert c[..2] == c[..1] + [c[1]];
    }
  }

  lemma EventsStep(c: seq<SdpPayload>, n: nat)
    requires Head(c) < n <= |c|
    ensures Events(c[Head(c)..n]) == Events(c[Head(c)..n - 1]) + if IsTelephoneEvent(c[n - 1]) then [c[n - 1]] else []
  {
    hide Head;
    assert c[Head(c)..n][..n - 1 - Head(c)] == c[Head(c)..n - 1];
  }

  /** Behind the head only telephone-events are added. */
  lemma BehindHead(c: seq<SdpPayload>, events: seq<SdpPayload>, p: SdpPayload)
    requires Head(c) < |c|
    ensures AddCodec(c[..Head(c)] + events, p, true)
         == c[..Head(c)] + (events + if IsTelephoneEvent(p) then [p] else [])
  {
    hide IsTelephoneEvent;
    var pl := c[..Head(c)] + events;
    assert pl[0] == c[0];
    assert pl + [p] == c[..Head(c)] + (events + [p]) && events + [] == events;
  }

  /** The payloads of an answered audio stream. */
  ghost predicate AnswerPayloads(
    result: seq<SdpPayload>, negotiated: seq<SdpPayload>, answered: seq<SdpPayload>, transport: Transport,
    avoidTranscoding: bool, single: bool)
  {
    exists c ::
      && (if avoidTranscoding then InAnswerOrder(c, negotiated, answered, transport) else c == negotiated)
      && result == if single then c[..Head(c)] + Events(c[Head(c)..]) else c
  }

  lemma AddAllIs(negotiated: seq<SdpPayload>, answered: seq<SdpPayload>, transport: Transport,
                 avoidTranscoding: bool, single: bool)
    ensures AnswerPayloads(AddAll(Candidates(negotiated, answered, transport, avoidTranscoding), single),
                           negotiated, answered, transport, avoidTranscoding, single)
  {
    hide InAnswerOrder, AddAll, Events, Head;
    var c := Candidates(negotiated, answered, transport, avoidTranscoding);
    CandidatesInOrder(negotiated, answered, transport);
    AddAllFrom(c, single);
    SingleCodecIs(c);
  }

  /** Every stream of an accepted answer: one that was cut from the offer is as negotiated; another one is the
      answered one, and if it is audio, with the negotiated transport and the arranged payloads. */
  lemma AnswerArranged(
    negotiated: seq<SdpMedia>, media: seq<SdpMedia>, result: seq<SdpMedia>,
    filtered: bool, avoidTranscoding: bool, single: bool, i: nat)
    requires Aligned(negotiated, media, result, |negotiated|, filtered, avoidTranscoding, single)
    requires i < |negotiated|
    ensures |result| == |negotiated|
    ensures filtered && !negotiated[i].kind.Audio? ==> result[i] == negotiated[i]
    ensures !filtered || negotiated[i].kind.Audio? ==>
              var k := if filtered then AudioCount(negotiated[..i]) else i;
              && k < |media| && media[k].kind == negotiated[i].kind
              && if !negotiated[i].kind.Audio? then result[i] == media[k]
                 else && result[i] == media[k].(transport := negotiated[i].transport, payloads := result[i].payloads)
                      && AnswerPayloads(result[i].payloads, negotiated[i].payloads, media[k].payloads,
                                        negotiated[i].transport, avoidTranscoding, single)
  {
    hide Candidates, AnswerPayloads, AddAll;
    var k := Position(negotiated, filtered, i);
    if !Cut(negotiated, filtered, i) {
      AddAllIs(negotiated[i].payloads, media[k].payloads, negotiated[i].transport, avoidTranscoding, single);
    }
  }

  // ---------- what serves what ----------

  /** The same letter, in either case. */
  predicate SameLetter(a: char, b: char) {
    a == b || ('A' <= a <= 'Z' && b as int == a as int + 32) || ('A' <= b <= 'Z' && a as int == b as int + 32)
  }

  ghost predicate SameName(a: string, b: string) {
    |a| == |b| && forall i :: 0 <= i < |a| ==> SameLetter(a[i], b[i])
  }

  /** Names are compared without regard to case. */
  lemma NamesCompared(a: string, b: string)
    ensures ToLower(a) == ToLower(b) <==> SameName(a, b)
    ensures ToUpper(a) == ToUpper(b) <==> SameName(a, b)
  {
    if ToLower(a) == ToLower(b) || ToUpper(a) == ToUpper(b) {
      forall i | 0 <= i < |a|
        ensures SameLetter(a[i], b[i])
      {
        assert ToLower(a)[i] == LowerChar(a[i]) && ToUpper(a)[i] == UpperChar(a[i]);
        assert ToLower(b)[i] == LowerChar(b[i]) && ToUpper(b)[i] == UpperChar(b[i]);
      }
    }
  }

  /** When an entry serves a payload: by name in any case, or over RTP by the static number alone; a stated
      clock rate has to be the wanted one, and parameters count only if both state one. */
  lemma Serves(p: SdpPayload, wanted: SdpPayload, transport: Transport)
    ensures Matches(p, p, transport)
    ensures p.clockRate > 0 && p.clockRate != wanted.clockRate ==> !Matches(p, wanted, transport)
    ensures p.encodingParam >= 0 && wanted.encodingParam >= 0 && p.encodingParam != wanted.encodingParam ==>
              !Matches(p, wanted, transport)
    ensures var fits := (p.clockRate <= 0 || p.clockRate == wanted.clockRate)
                        && (p.encodingParam < 0 || wanted.encodingParam < 0 || p.encodingParam == wanted.encodingParam);
      && (fits && SameName(p.encodingName, wanted.encodingName) ==> Matches(p, wanted, transport))
      && (fits && !transport.OtherTransport? && 0 <= p.payloadType == wanted.payloadType < 96 ==>
            Matches(p, wanted, transport))
      && (!SameName(p.encodingName, wanted.encodingName) && (p.payloadType >= 96 || transport.OtherTransport?) ==>
            !Matches(p, wanted, transport))
  {
    NamesCompared(p.encodingName, wanted.encodingName);
  }

  /** Two codecs were negotiated and the second one alone was answered: it comes first, and in single-codec mode
      it is the codec that is left. */
  lemma AnsweredComesFirst(p: SdpPayload, q: SdpPayload, transport: Transport)
    requires !Matches(p, q, transport) && !Matches(q, p, transport)
    requires !IsTelephoneEvent(p) && !IsTelephoneEvent(q)
    ensures AddAll(Candidates([p, q], [q], transport, true), false) == [q, p]
    ensures AddAll(Candidates([p, q], [q], transport, true), true) == [q]
  {
    hide IsTelephoneEvent, FirstMatch, Selected, Unanswered, AddAll;
    var negotiated := [p, q];
    TwoCodecs(p, q, transport);
    SelectedMore(negotiated, [q], transport, 0);
    SelectedMore(negotiated, [q], transport, 1);
    UnansweredMore(negotiated, [q], transport, 0);
    UnansweredMore(negotiated, [q], transport, 1);
    UnansweredMore(negotiated, [q], transport, 2);
    assert negotiated[..2] == negotiated && [q][..1] == [q] && [q][0] == q;
    assert Selected(negotiated, [q], transport) == [q];
    assert Unanswered(negotiated, [q], transport) == [p];
    assert Candidates(negotiated, [q], transport, true) == [q, p];
    AddAllFrom([q, p], false);
    SingleCodecIs([q, p]);
    assert [q, p][..1] == [q] && [q, p][1..] == [p] && [p][..0] == [];
  }

  lemma TwoCodecs(p: SdpPayload, q: SdpPayload, transport: Transport)
    requires !Matches(p, q, transport) && !Matches(q, p, transport)
    ensures FirstMatch([p, q], q, transport) == Some(q)
    ensures FirstMatch([q], p, transport).None? && FirstMatch([q], q, transport).Some?
  {
    hide Matches;
    Serves(q, q, transport);
    assert [p, q][1..] == [q];
  }
}
