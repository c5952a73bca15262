# Verified model of the Yeti SBC

Yeti is a session border controller: it takes SIP calls from one side, decides where they may
go, calls out on the other side and keeps the two sides in step. This project models its
self-contained state machines, editors and codecs in Dafny and proves what each of them is for.
`dafny verify dfyconfig.toml` checks all of it.

Code that changes things step by step is modelled by classes, methods and loops over the same
fields, each proved equal to a specification function; the results about all inputs, all runs
and all interleavings are lemmas about those functions.

| file | what it models |
|---|---|
| `Sdp.dfy`, `Common.dfy` | session descriptions, options, case folding |
| `PayloadIds.dfy` | numbering RTP payloads against a remembered mapping |
| `SdpArrange.dfy` | arranging the payloads of an offer by a codec list; single codec |
| `SdpAnswer.dfy` | aligning an answer with what was negotiated |
| `ConnLocation.dfy` | moving connection lines between session and streams |
| `CallLeg.dfy` | a caller with many candidate legs: who is peer, who is ended, what is relayed |
| `HttpSequencer.dfy` | ordering call hooks against asynchronous HTTP replies |
| `HeaderFilter.dfy` | erasing headers from a block in place |
| `ArgCodec.dfy` | call variables in a SIP user name and back |
| `UrlCodec.dfy` | percent-encoding in buffers of fixed size |
| `RateLimit.dfy` | a token bucket over a wrapping clock |
| `Registration.dfy` | sending only the differences to the registrar |
| `Cdr.dfy` | which of many updates a call detail record keeps |
| `Hunting.dfy` | hunting through routing profiles, with one record per attempt |
| `ContextRefs.dfy` | who owns the context that the legs of a call share; the legs are in `Hunting.dfy` |

What comes from outside is a parameter: replies of other legs, of the HTTP client and of the
resource control, clock readings, the translation table of disconnect codes, the rows of a
database answer. Parts of the SIP stack are not part of the repository, and the model
assumes of them: `AmB2BSession` posts one terminate event to the other leg if there is one and
then clears it through the virtual call; an `AmArg` string is a C string, cut at the first NUL,
and a struct lists its fields in the order of their keys; `char2hex` writes two digits, the
high nibble first, and `reverse_hex2int` reads them back; a `PayloadMask` holds the numbers 0 to
127 and neither keeps nor finds any other; a header line ends with LF or CR LF.

## Results that differ from what one would expect

- Payloads can share a number: when a number above 127 is asked for twice, or when the dynamic
  range runs out (`PayloadIds.AllDistinct`, `RepeatedBeyondMask`, `RepeatedWhenFull`).
- `SESSION_ONLY` can take the connection away from a stream: `ConnLocation.KeepsExactlyWhen`
  says exactly when, `SessionOnlyCanLose` shows it.
- Reducing to a single codec can leave none: a codec behind two telephone-events is lost
  (`SdpArrange.SingleCodecLeft`, `CodecIsLost`).
- Arranging can ask for the first payload of a stream that has none (`SdpArrange.ClosableExactly`,
  `NothingToClose`).
- Attempt numbers stop being consecutive exactly when a skipped profile had to be recorded and
  the search then begins a new attempt or finds no profile (`HuntRuns.NextKeepsNumbers`,
  `NumberedExactly`, `NumbersCanRepeat`).
- A registered profile with several contacts is copied, but every copy keeps the first contact
  (`HuntRuns.CopiesKeepFirstContact`).
- A context leaks exactly when the last leg that holds it is referred away
  (`ContextRefs.FreedByTheLast`, `ContextCanLeak`).
- A connect behind an end is recorded when the clock has not moved since the start
  (`Cdrs.ConnectAfterEnd`, `ConnectBehindEnd`).
- The bound of the token bucket needs no limit on the length of the run: a clock that has wrapped
  around shows less time than has passed, never more (`RateLimits.ElapsedAtMost`).
- The limiter keeps to that bound exactly up to sizes of 2^31 + 1: a larger one wraps the counter
  around (`RateLimits.LimiterBound`, `OversizeBreaksBound`).
- A late call can be dropped, when the clock has just completed a turn
  (`RateLimits.DroppedAfterRun`, `TurnOfTheClock`).
- A decoded URL can hold a NUL, and not from %00 only (`UrlCodec.NulExactlyWhenEscaped`,
  `NulEscapes`).

## Model

| member | source | states |
|---|---|---|
| `PayloadIds.FixDynamicPayloads` | src/sdp_filter.cpp:160-195 | rewriting the description in place leaves exactly the streams and the remembered mapping of the first-fit specification `Fixed`, for any description and any mapping, with masks that hold the numbers 0 to 127 |
| `PayloadIds.FixStream` | src/sdp_filter.cpp:164-192 | one stream, numbered with a cursor that never moves back, gets the same numbers as searching the least free number afresh for every payload |
| `PayloadIds.NextFree` | src/sdp_filter.cpp:182-187 | the cursor stops, at the least number of the dynamic range that is not marked, which is at most 128 |
| `PayloadIds.DynamicTypes` | src/sdp_filter.cpp:168-173 | the numbers that are reserved are the explicit ones from 96 to 127, all of them and no others |
| `PayloadIds.RecordedAt` | src/SBCCallLeg.cpp:139-150 | what a lookup finds after the numbers of a stream were stored, for every key |
| `PayloadIds.PayloadIdMapping.Map` | src/SBCCallLeg.cpp:141-144 | storing changes the one key of this stream and payload |
| `PayloadIds.PayloadIdMapping.Get` | src/SBCCallLeg.cpp:146-151 | the stored number, or -1 |
| `PayloadIds.AllDistinct` | src/sdp_filter.cpp:160-195 | the payloads of a stream get distinct numbers if and only if no number above 127 is asked for twice and the numbers 96 to 128 are enough for the payloads that ask for no static number of their own |
| `PayloadIds.MarkedOnce` | src/sdp_filter.cpp:160-195 | every payload is numbered, and a number that a mask holds is given to one payload only, whatever was remembered |
| `PayloadIds.OverflowsAre` | src/sdp_filter.cpp:182-187 | how many payloads get 128, the number behind the mask: those for which the 32 dynamic numbers are not enough |
| `PayloadIds.AllValid` | src/sdp_filter.cpp:160-195 | every number is one that RTP allows if and only if no other is asked for and the 32 dynamic numbers are enough |
| `PayloadIds.ThirtyTwoAreEnough` | src/sdp_filter.cpp:160-195 | up to 32 payloads with explicit and remembered numbers up to 127 get distinct numbers up to 127 |
| `PayloadIds.MaskIsWideEnough` | src/sdp_filter.cpp:160-195 | as long as every number is one that RTP allows, masks without a limit would give the same numbers |
| `PayloadIds.RepeatedBeyondMask` | src/sdp_filter.cpp:182-190 | an explicit 200 is given out twice |
| `PayloadIds.RepeatedWhenFull` | src/sdp_filter.cpp:182-190 | of 34 payloads without numbers two get the same one |
| `PayloadIds.StreamsDistinct` | src/sdp_filter.cpp:160-195 | the same for every audio stream of a whole description, told from the original types and the mapping at the start; a number up to 127 is never given out twice |
| `PayloadIds.ExplicitKept` | src/sdp_filter.cpp:178-190 | an explicit number survives if and only if no earlier payload of the stream asks for it, by its own number or by the remembered one, or no mask holds it |
| `PayloadIds.TakenWhenWanted` | src/sdp_filter.cpp:168-188 | a number that some payload states explicitly is never handed out to a payload that takes what is free |
| `PayloadIds.NumberGiven` | src/sdp_filter.cpp:178-190 | the number of every payload, told by the explicit or remembered one and what earlier payloads got: that one unless it was handed out, else the least from 96 on that was neither handed out nor is stated explicitly |
| `PayloadIds.DynamicIsUsed` | src/sdp_filter.cpp:168-190 | every explicit number from 96 to 127 ends up in use, which is what the bound on fresh numbers rests on |
| `PayloadIds.AllocatedBound` | src/sdp_filter.cpp:182-187 | a number that was not asked for is among the first n of the dynamic range for n payloads, so at most 127 for up to 32 |
| `PayloadIds.RecordKept` | src/SBCCallLeg.cpp:136-144 | what one stream stored survives the numbering of all later streams, because the key is injective below 128 payloads |
| `PayloadIds.EarlierStreams` | src/SBCCallLeg.cpp:136-144 | the streams before one leave the keys of that stream alone |
| `PayloadIds.NonAudioKept` | src/sdp_filter.cpp:163-166 | a stream that is not audio stays as it is |
| `PayloadIds.RenumberingStable` | src/sdp_filter.cpp:160-195 | section 8.3.2 of RFC 3264: renumbering the same original description with the mapping that the first run left gives the same numbers |
| `PayloadIds.RenumberingIdempotent` | src/sdp_filter.cpp:160-195 | a renumbered description is a fixed point under any mapping |
| `SdpArrange.FilterArrangeSdp` | src/sdp_filter.cpp:353-426 | every stream becomes what the codec list makes of it, in place; the offer is refused if and only if it has audio streams and all of them were dropped |
| `SdpArrange.ArrangedIsSelection` | src/sdp_filter.cpp:377-401 | without adding codecs a payload stays if and only if it is the first match of some entry of the list |
| `SdpArrange.ArrangedInListOrder` | src/sdp_filter.cpp:377-401 | the payloads stand in the order of the list |
| `SdpArrange.AddedAt` | src/sdp_filter.cpp:381-400 | with adding, entry k of the list stands at position k under its own name and parameters; when the offer has it, with the clock rate of the offer and with the number of the list if both are dynamic, else that of the offer |
| `SdpArrange.ArrangedStreamIs` | src/sdp_filter.cpp:365-420 | the whole arranged stream, place by place: each entry of the list, in order, puts the first offered payload that it matches, or with adding itself; the stream is closed, with the first offered payload behind, exactly if nothing is left of what was offered or nothing but one telephone-event |
| `SdpArrange.StreamsStayFilled` | src/sdp_filter.cpp:404-414 | no stream loses its last payload, other media are untouched, and an open stream is closed if and only if it was dropped |
| `SdpArrange.ClosableExactly` | src/sdp_filter.cpp:404-408 | the first payload that closes a dropped stream exists, except exactly when a lone telephone-event is added to a stream without payloads |
| `SdpArrange.NothingToClose` | src/sdp_filter.cpp:404-408 | such a stream |
| `SdpArrange.ReduceCodecsToSingle` | src/sdp_filter.cpp:480-498 | every audio stream is reduced as specified, in place, and nothing else changes |
| `SdpArrange.SingleCodecLeft` | src/sdp_filter.cpp:468-498 | at most one codec is left and no telephone-event is lost; a codec is left if and only if one of the first two payloads is one |
| `SdpArrange.CodecIsLost` | src/sdp_filter.cpp:468-498 | a codec behind two telephone-events is not there afterwards |
| `SdpAnswer.FindPayload` | src/sdp_filter.cpp:98-153 | the search returns the first list entry that matches, by name or by static number, and nothing exactly when none does |
| `SdpAnswer.SingleCodecSelects` | src/sdp_filter.cpp:468-478 | adding codec by codec keeps exactly the candidates that an independent position test lets survive |
| `SdpAnswer.SurvivorsSingle` | src/sdp_filter.cpp:468-478 | at most one of the survivors is not a telephone-event |
| `SdpAnswer.SingleCodecIs` | src/sdp_filter.cpp:468-478 | what single-codec mode leaves of a list: its first payload, and the second one if the first is a telephone-event, and behind these all telephone-events in order |
| `SdpAnswer.NamesCompared` | src/sdp_filter.cpp:98-135 | codec names are compared letter by letter without regard to case |
| `SdpAnswer.Serves` | src/sdp_filter.cpp:98-153 | when an entry matches: by name in any case, or over RTP by the static number alone; a stated clock rate has to agree, parameters if both are stated |
| `SdpAnswer.ArrangeAnswered` | src/sdp_filter.cpp:793-803 | in answer order, the negotiated payloads that the answered ones select |
| `SdpAnswer.ArrangeUnanswered` | src/sdp_filter.cpp:804-812 | behind them the negotiated payloads that the answer does not mention, and only those |
| `SdpAnswer.CheckStreamCounts` | src/sdp_filter.cpp:712-733 | the counts are accepted if and only if they are equal, or only audio was offered and the answer has as many streams as the negotiation has audio streams |
| `SdpAnswer.PositionInside` | src/sdp_filter.cpp:735-754 | with accepted counts the second cursor never runs out, so that the branch for an unexpected reply cannot be reached |
| `SdpAnswer.FilterSdpAnswerMedia` | src/sdp_filter.cpp:690-830 | the error is the verdict on the input, in every case; without one the result is aligned with the negotiated media, position by position; after one the answer is untouched, or rewritten up to the first stream of another kind and untouched from there |
| `SdpAnswer.VerdictExactly` | src/sdp_filter.cpp:700-766 | the verdict from the inputs: an answer is accepted if and only if it has streams, as many as negotiated or as many as there are audio streams when only these were offered, and each is of the type of its counterpart; which error any other answer gets |
| `SdpAnswer.AnswerMirrorsNegotiation` | src/sdp_filter.cpp:690-830 | section 6 of RFC 3264: one stream per negotiated stream, of the same kind; every audio payload is a negotiated one; at most one codec in single-codec mode |
| `SdpAnswer.CandidatesInOrder` | src/sdp_filter.cpp:793-812 | without transcoding, every answered payload that a negotiated one matches puts the first such one at its turn; the negotiated payloads that no answered one matches stand behind in their order, and nothing else does |
| `SdpAnswer.AnswerArranged` | src/sdp_filter.cpp:690-830 | every stream of an accepted answer, from the inputs: one cut from the offer is as negotiated, another is the answered one, and if it is audio with the negotiated transport and with exactly the payloads of that order, reduced to its first codec in single-codec mode |
| `SdpAnswer.AnsweredComesFirst` | src/sdp_filter.cpp:793-812 | of two negotiated codecs the one that alone was answered comes first, and in single-codec mode it is the one that is left |
| `ConnLocation.AllMediaConnEqual` | src/sdp_filter.cpp:197-217 | whether the connection lines of all streams agree, and the line they share |
| `ConnLocation.AssertSessionConn` | src/sdp_filter.cpp:219-249 | the session line afterwards: its own, or the one that all streams share |
| `ConnLocation.AssertMediaConn` | src/sdp_filter.cpp:267-285 | every stream without a line gets the line of the session, and the return value tells whether any did |
| `ConnLocation.RemoveMediaConn` | src/sdp_filter.cpp:287-297 | the stream lines are gone and the streams are otherwise the same |
| `ConnLocation.NormalizeConnLocation` | src/sdp_filter.cpp:299-320 | for BOTH and MEDIA_ONLY always, and for SESSION_ONLY when nothing disagrees, every stream that had a connection keeps it (section 5.7 of RFC 4566) |
| `ConnLocation.KeepsExactlyWhen` | src/sdp_filter.cpp:299-320 | connections are kept if and only if the location is not SESSION_ONLY, or the session line was absent or no stream line differed from it |
| `ConnLocation.SessionOnlyCanLose` | src/sdp_filter.cpp:299-320 | a concrete description whose stream loses its connection under SESSION_ONLY |
| `ConnLocation.LinesAreWhereAsked` | src/sdp_filter.cpp:299-320 | the lines end up where the location says |
| `ConnLocation.SessionLine` | src/sdp_filter.cpp:299-320 | the session line afterwards, from the old lines: BOTH and SESSION_ONLY keep one that was there, and one that was not is the line that all streams with a line share, or stays absent; MEDIA_ONLY leaves none; any other location changes nothing |
| `ConnLocation.StreamLines` | src/sdp_filter.cpp:299-320 | every stream line afterwards, from the old lines: BOTH and MEDIA_ONLY fill missing ones with the session line or the shared one, SESSION_ONLY clears all of them when the session has a line and none otherwise |
| `ConnLocation.NormalizeTwice` | src/sdp_filter.cpp:299-320 | normalizing again changes nothing |
| `ForkSpec.StepKeeps` | src/CallLeg.cpp:133-472 | every allowed event, from any state in which the invariant holds, keeps it: each leg ever added is in exactly one role, the status fits the peer and the candidates, at most one final reply has gone out |
| `ForkSpec.RunKeeps` | src/CallLeg.cpp:133-472 | the invariant holds after every allowed run of added callees, replies in any order, cancels and stops |
| `ForkSpec.RelayedWhen` | src/CallLeg.cpp:302-410 | a relayed provisional reply comes from the peer, a relayed positive one from the leg that wins, and a relayed error leaves no candidate and ends no leg |
| `ForkSpec.RelayedExactly` | src/CallLeg.cpp:302-410 | a reply to the initial INVITE goes out if and only if it is forwarded, can be sent and counts: a provisional one with a to-tag (or the option) from a candidate while nobody rings and else from the peer, a positive one from any leg being tried, a refusal that leaves nobody to try |
| `ForkSpec.AcceptedLeaves` | src/CallLeg.cpp:302-372 | what a reply that counts leaves: the peer and the status, and after a positive one every other candidate ended once; if it cannot be sent the call ends with every candidate; a reply that does not count changes nothing |
| `ForkSpec.RefusalLeaves` | src/CallLeg.cpp:381-410 | what a refusal leaves: its leg is gone without being ended, the call rings on exactly if another leg rings, and it ends exactly if nobody is left to try |
| `ForkSpec.CancelEnds` | src/CallLeg.cpp:921-933 | a cancel before the answer, a stop and the end of the other side send one terminate event to every leg that is being tried or connected; a cancel of a connected call does nothing |
| `ForkSpec.LaterReply` | src/CallLeg.cpp:439-472 | any other reply goes to the base session exactly if it comes from or through the peer, and of a connected call never from another leg to its INVITE; late refusals go to their hook |
| `ForkSpec.WinnerIsFinal` | src/CallLeg.cpp:345-472 | after a 2xx has won, over every further run the winner stays and no reply of another leg is relayed or handed on |
| `CallLegs.CallLeg.AddNewCallee` | src/CallLeg.cpp:1010-1069 | the candidate is added and a disconnected leg starts to wait |
| `CallLegs.CallLeg.TerminateNotConnectedLegs` | src/CallLeg.cpp:151-165 | every candidate but the peer is sent one terminate event and leaves the list, in whatever order the list is walked |
| `CallLegs.CallLeg.TerminateOtherLeg` | src/CallLeg.cpp:133-149 | every candidate and the peer are sent one terminate event each |
| `CallLegs.CallLeg.RemoveOtherLeg` | src/CallLeg.cpp:167-176 | the leg leaves the candidates and is no longer the peer |
| `CallLegs.CallLeg.ClearOther` | src/CallLeg.cpp:1226-1230 | the peer leaves the candidates and is forgotten |
| `CallLegs.CallLeg.StopCall` | src/CallLeg.cpp:1232-1238 | all legs are ended once each and the leg ends itself |
| `CallLegs.CallLeg.SetOther` | src/CallLeg.cpp:265-300 | only a candidate or the present peer can be chosen, and a failed choice changes nothing |
| `CallLegs.CallLeg.B2bInitial1xx` | src/CallLeg.cpp:302-343 | the whole state after a provisional reply, including the dropped ones, the failed relay and the to-tag that is put in for a missing one |
| `CallLegs.CallLeg.B2bInitial2xx` | src/CallLeg.cpp:345-372 | the whole state after a positive reply: the winner, the ended candidates, the relay |
| `CallLegs.CallLeg.B2bInitialErr` | src/CallLeg.cpp:381-410 | the whole state after a refusal: the leg that drops out, the new candidate, the last refusal relayed |
| `CallLegs.CallLeg.OnB2BReply` | src/CallLeg.cpp:413-472 | the whole state after any reply, with the filter for late and foreign ones and the hook for late refusals |
| `CallLegs.CallLeg.OnCancel` | src/CallLeg.cpp:921-933 | a caller who cancels before the answer ends the call, any other cancel changes nothing |
| `HttpHooks.HttpSequencer.ProcessHook` | src/HttpSequencer.cpp:62-122 | the states of all sessions and the posts after a hook, for every stage and for a refused request |
| `HttpHooks.HttpSequencer.ProcessHttpReply` | src/HttpSequencer.cpp:124-181 | the same after a reply |
| `HttpHooks.HttpSequencer.Cleanup` | src/HttpSequencer.cpp:183-203 | the same after the leg was destroyed |
| `HookQueue.SessionRefines` | src/HttpSequencer.cpp:62-203 | one event on the four stages and two slots of a session is one step of a queue with one request in flight |
| `HookQueue.SequencerIsQueue` | src/HttpSequencer.cpp:62-203 | for every interleaving of hooks, replies, failed posts and cleanups of any number of sessions, the posts for a tag are exactly those of its own queue |
| `HookQueue.OneInFlight` | src/HttpSequencer.cpp:62-203 | in every run in which replies come to posts that await one, the awaited posts of a tag outnumber its replies by one while its session is in a queued stage, and else not at all |
| `HookQueue.PostedAfterReplies` | src/HttpSequencer.cpp:62-203 | whatever is posted for a tag is posted when every earlier awaited post of it has had its reply |
| `HookQueue.PostsInCallOrder` | src/HttpSequencer.cpp:62-203 | what is posted for a tag is a start, then at most one connect, then at most one disconnect |
| `HookQueue.SessionGone` | src/HttpSequencer.cpp:165-203 | after the last hook of a call or a cleanup, once the replies to a tag are as many as its awaited posts, there is no session for it |
| `HookQueue.NothingLost` | src/HttpSequencer.cpp:62-203 | when no post fails, every hook that came before the leg was destroyed is posted or waiting, once, in order and with its own data; so is every later one as long as the session is there |
| `HeaderLines.SkipHeader` | src/HeaderFilter.cpp:90-191 | the state machine over characters finds the same name, value and end as a description by first occurrences, and fails exactly where that has no header |
| `HeaderLines.HeaderShift` | src/HeaderFilter.cpp:90-191 | a header in the middle of a block reads like the same text on its own |
| `HeaderLines.HeaderSame` | src/HeaderFilter.cpp:90-191 | a header that ends with a line feed reads the same whatever follows it |
| `HeaderLines.HeaderIs` | src/HeaderFilter.cpp:112-191 | a line with a name, blanks and a colon is the header that ends behind LF, behind CR LF or with the text, and malformed if something else follows the CR |
| `HeaderLines.ValueIs` | src/HeaderFilter.cpp:135-188 | its value begins at the first character that is not a blank and ends with the line |
| `HeaderLines.NoColon` | src/HeaderFilter.cpp:160-174 | a blank behind the name that does not lead to a colon makes a header malformed |
| `HeaderLines.NoSeparator` | src/HeaderFilter.cpp:117-133 | a line without a colon or blank is a header with the empty name |
| `HeaderFilters.FilterPass` | src/HeaderFilter.cpp:199-233 | erasing while scanning leaves the join of the headers that pass, and stops at the first malformed header |
| `HeaderFilters.InplaceHeaderFilter` | src/HeaderFilter.cpp:193-236 | a list of filters leaves the headers that pass all active ones; on a malformed block only the first active filter has been applied |
| `HeaderFilters.FilterLaw` | src/HeaderFilter.cpp:193-326 | a well-formed block comes out with exactly the headers, in order, whose lower-case name is listed by every whitelist and by no blacklist; listed by a pattern means to be equal to it, to end like it or to begin like it, and an empty name is listed by no pattern |
| `HeaderFilters.PatternFits` | src/HeaderFilter.cpp:239-272 | when a pattern matches, character by character |
| `HeaderFilters.NameIs` | src/HeaderFilter.cpp:217-218 | the name that is looked up: what stands before the blanks and the colon, in lower case |
| `HeaderFilters.MalformedLaw` | src/HeaderFilter.cpp:199-233 | a malformed block comes out with an error, with the first whitelist or blacklist alone applied to the headers before the malformed one and the rest untouched |
| `HeaderFilters.NothingToFilter` | src/HeaderFilter.cpp:193-236 | without a whitelist or blacklist a block stays as it is, malformed or not |
| `HeaderFilters.JoinSplit` | src/HeaderFilter.cpp:193-236 | joining the split block gives the block back |
| `HeaderFilters.SplitJoin` | src/HeaderFilter.cpp:193-236 | splitting joined headers finds them again, so that erased blocks are read as intended |
| `HeaderFilters.SplitFiltered` | src/HeaderFilter.cpp:281-326 | a filtered block splits into exactly the headers that were kept |
| `HeaderFilters.OrderIrrelevant` | src/HeaderFilter.cpp:193-326 | two lists with the same filters, in any order and with repetitions, give the same block |
| `HeaderFilters.SecondPassIsNoOp` | src/HeaderFilter.cpp:193-326 | filtering again changes nothing |
| `HeaderFilters.MalformedStays` | src/HeaderFilter.cpp:199-233 | once a malformed header was met the remaining filters do not matter |
| `ArgStrings.Arg2String` | src/arg_conversion.cpp:11-48 | every nesting of strings, arrays and structs is printed as specified, and any other kind of value inside makes it throw |
| `ArgStrings.Cursor.ReadLen` | src/arg_conversion.cpp:50-67 | reads a length prefix if and only if digits and a separator stand there, and moves behind it; otherwise it stays |
| `ArgStrings.Cursor.ReadString` | src/arg_conversion.cpp:69-80 | reads a prefixed string if it is complete, and never moves beyond the end |
| `ArgStrings.Cursor.String2Arg` | src/arg_conversion.cpp:82-119 | ends on every text, stays inside it, and returns what the grammar reads there or fails |
| `ArgStrings.ArgRead` | src/arg_conversion.cpp:11-119 | whatever follows its encoding, a value is read back from it and nothing behind it is consumed |
| `ArgStrings.PrefixFree` | src/arg_conversion.cpp:11-48 | an encoding is a prefix of another if and only if the values are the same |
| `ArgStrings.ReadIsPrintable` | src/arg_conversion.cpp:82-119 | whatever is read, from any text, is a well-formed value that could have been printed, with the fields of structs in order and duplicates replaced |
| `ArgStrings.LengthRead` | src/arg_conversion.cpp:50-67 | a printed number and its separator are read back as that number |
| `ArgStrings.Format` | src/arg_conversion.cpp:11-48 | the printed texts themselves: label, length, separator and content of strings, arrays and structs |
| `ArgStrings.NoLeadingZero` | src/arg_conversion.cpp:20 | a printed length has no leading zero |
| `ArgValues.PutKeepsOrder` | src/arg_conversion.cpp:108-112 | assigning to a field keeps the fields sorted, replaces that key and leaves the others |
| `UserNames.Arg2Username` | src/arg_conversion.cpp:124-150 | the user name is the escaped encoding |
| `UserNames.Username2Arg` | src/arg_conversion.cpp:152-179 | replacing escapes in place and reading the result gives what the name stands for, or fails if an escape is cut off, is not hexadecimal, or the text cannot be read |
| `UserNames.UnescapedEscaped` | src/arg_conversion.cpp:124-167 | unescaping undoes escaping for every byte string |
| `UserNames.EscapedBytes` | src/arg_conversion.cpp:127-143 | a user name holds only allowed bytes and the escape character |
| `UserNames.EscapeFormat` | src/arg_conversion.cpp:127-143 | which bytes stand for themselves, and the two digits of every other one |
| `UserNames.UserNameRoundTrip` | src/arg_conversion.cpp:124-179 | every nested string, array and struct value comes back from its user name |
| `UserNames.NamedExactlyWhenEncodable` | src/arg_conversion.cpp:124-179 | some user name stands for a value if and only if the value can be encoded |
| `UrlCodec.UrlEncode` | src/ParamReplacer.cpp:612-635 | the writer stays inside its buffer of 3n+1 bytes and leaves the encoded text, terminated |
| `UrlCodec.UrlDecode` | src/ParamReplacer.cpp:639-658 | the reader and the writer stay inside their n+1 bytes; the buffer read as a C string is the decoded text if and only if no escape of the input stands for NUL |
| `UrlCodec.NulExactlyWhenEscaped` | src/ParamReplacer.cpp:639-658 | a text without NUL is decoded to one with a NUL if and only if one of its escapes stands for it |
| `UrlCodec.NulEscapes` | src/ParamReplacer.cpp:598-601 | such escapes: %00, and %g0 since digits are not checked |
| `UrlCodec.DecodeEncode` | src/ParamReplacer.cpp:612-658 | decoding undoes encoding for every byte string |
| `UrlCodec.EncodeDecode` | src/ParamReplacer.cpp:612-658 | encoding undoes decoding if and only if the text is canonical |
| `UrlCodec.EncodedIsCanonical` | src/ParamReplacer.cpp:612-635 | every encoded text is canonical: reserved bytes are escaped with their own two digits, and nothing else is |
| `UrlCodec.EncodedBytes` | src/ParamReplacer.cpp:612-635 | an encoded text has no NUL and only unreserved bytes, + and % |
| `UrlCodec.EncodedByte` | src/ParamReplacer.cpp:604-632 | letters, digits and four signs stand for themselves, a space is +, and any other byte % and its two lower-case digits, high one first |
| `UrlCodec.DecodedByte` | src/ParamReplacer.cpp:598-655 | two digits in either case stand for their byte, + for a space, other bytes for themselves, and a % without two bytes behind it is dropped |
| `RateLimits.DynRateLimit.Limit` | src/RateLimit.cpp:13-33 | the decision and the new counter and stamp in 32-bit words, for all settings and sizes for which C++ defines the refilling |
| `RateLimits.DynRateLimit.UpdateLimit` | src/RateLimit.cpp:35-39 | the counter is refilled by the rate and capped at the peak |
| `RateLimits.AdmittedBound` | src/RateLimit.cpp:13-39 | from any state with a counter up to the peak, calls of sizes up to S over T ticks pass at most peak + rate * (T / (time base + 1) + 1) + S - 1; a wrapping 32-bit clock and any T are covered |
| `RateLimits.RunInWords` | src/RateLimit.cpp:13-39 | with settings in the range of an int and sizes up to 2^31 + 1, nothing overflows over any run, and words and numbers agree |
| `RateLimits.LimiterBound` | src/RateLimit.cpp:13-39 | the limiter, computing in words, keeps to the bound from every state and over every run of calls of sizes up to S, if and only if S is at most 2^31 + 1 or the peak is 0 |
| `RateLimits.OversizeBreaksBound` | src/RateLimit.cpp:29 | for every larger size, two calls that pass together and are more than the bound |
| `RateLimits.BoundIsReached` | src/RateLimit.cpp:13-39 | runs that reach this bound, for every size |
| `RateLimits.RefillingsBound` | src/RateLimit.cpp:18-22 | how often the bucket can be refilled in a span of time |
| `RateLimits.Balance` | src/RateLimit.cpp:24-39 | what has passed and what is left is at most what was there and what was refilled |
| `RateLimits.DroppedExactly` | src/RateLimit.cpp:13-39 | in whatever state, a call is dropped if and only if the bucket is empty and the clock, read over its turns, shows no more than the time base, or the refilling leaves it empty |
| `RateLimits.DroppedAfterRun` | src/RateLimit.cpp:13-39 | after any run of calls not larger than the rate, a call is dropped if and only if the bucket is empty and the clock shows no more than the time base |
| `RateLimits.LateCallPasses` | src/RateLimit.cpp:13-39 | so a call later than the time base and within a turn of the clock is never dropped |
| `RateLimits.TurnOfTheClock` | src/RateLimit.cpp:18-22 | a call exactly one turn of the clock later finds an empty bucket still empty |
| `RegistrationLoader.Registration.LoadRegistrations` | src/Registration.cpp:40-93 | after a load the registrar holds exactly the rows of the answer, and the requests were the needed ones, id by id; without a client nothing happens; an answer that is no array counts as empty |
| `RegistrationLoader.Registration.ReadRegistration` | src/Registration.cpp:100-143 | the entry of the id becomes the record of this row, also over what an earlier row with the same id left |
| `RegistrationLoader.Registration.IsRegUpdated` | src/Registration.cpp:145-153 | true if and only if the records differ |
| `RegistrationLoader.Registration.SendRemovedAndUpdated` | src/Registration.cpp:66-82 | for every old id what it needs and for no other id anything, in whatever order the map is walked |
| `RegistrationLoader.Registration.SendNew` | src/Registration.cpp:84-90 | with the new ids added the requests are complete and minimal |
| `RegistrarOps.DifferencesEqualReload` | src/Registration.cpp:65-92 | any list of requests that is minimal id by id turns the old registrations into the new ones |
| `RegistrarOps.EveryRequestFits` | src/Registration.cpp:65-92 | nothing is created that is there and nothing removed that is not, at every point of the list |
| `RegistrarOps.OnlyDifferences` | src/Registration.cpp:65-92 | how often each request is sent: a removal once for what is gone or different, a creation once for what is new or different, and nothing else, so nothing for a registration that is the same |
| `RegistrarOps.LoadsInStep` | src/Registration.cpp:40-93 | after any sequence of loads the registrar holds the last answer |
| `RegistrationRecords.LastRowCounts` | src/Registration.cpp:49-54 | of several rows with one id the last one counts |
| `RegistrationRecords.RereadIsFresh` | src/Registration.cpp:100-143 | reading a row over an older record leaves no trace of that |
| `RegistrationRecords.TextFields` | src/Registration.cpp:105-119 | the column that each text field of a record tells, empty when the row lacks it |
| `RegistrationRecords.NumberFields` | src/Registration.cpp:121-140 | the column that each number of a record tells, and the value that counts when the row lacks it |
| `Cdrs.RunIsSummary` | src/cdr/Cdr.cpp:304-334 | after any updates, in any order and at any times, the record is the one told without running them: the first internal reason, the first B-leg reason, the last explicit A-leg reason or else the last internal one, the last connect before the first end since the call began, and nothing after the write |
| `Cdrs.WrittenStays` | src/cdr/Cdr.cpp:304-441 | no update changes a written record |
| `Cdrs.ConnectAfterEnd` | src/cdr/Cdr.cpp:312-331 | after any run, one more connect is ignored if and only if the record is written or an end was stamped at another instant than the beginning of the call |
| `Cdrs.ConnectBehindEnd` | src/cdr/Cdr.cpp:312-331 | a run in which a connect behind an end is recorded |
| `Cdrs.Cdr.UpdateWithAction` | src/cdr/Cdr.cpp:304-334 | the whole record after an action |
| `Cdrs.Cdr.UpdateInternalReason` | src/cdr/Cdr.cpp:421-441 | the whole record after an internal reason |
| `Cdrs.Cdr.UpdateAlegReason` | src/cdr/Cdr.cpp:409-419 | the whole record after an A-leg reason |
| `Cdrs.Cdr.UpdateBlegReason` | src/cdr/Cdr.cpp:395-407 | the whole record after a B-leg reason |
| `Cdrs.Cdr.Derive` | src/cdr/Cdr.cpp:105-131 | the record of the next attempt: the next number, the start of the call, and no reasons |
| `CallContexts.SqlRouter.WriteCdr` | src/SqlRouter.cpp:626-662 | a record that was not written is sealed, sent and let go of; any other is kept and not sent |
| `CallContexts.CallCtx.GetFirstProfile` | src/CallCtx.cpp:41-51 | the first profile and its record, or nothing for an empty list |
| `CallContexts.CallCtx.GetNextProfile` | src/CallCtx.cpp:56-119 | the cursor, the records sent and the record in hand after a search, in all its branches; the record object is kept unless a new attempt begins |
| `CallContexts.CallCtx.RecordSkipped` | src/CallCtx.cpp:63-91 | which records are sent for the skipped profiles, with which numbers |
| `HuntRuns.NextKeepsNumbers` | src/CallCtx.cpp:56-119 | after a search the attempt numbers are consecutive if and only if they were before, and the translation table has none of the skipped profiles recorded, or a profile was found in an early state or by resource failover |
| `HuntRuns.SearchLeaves` | src/CallCtx.cpp:56-119 | where a search ends and everything it leaves, told by the list, the table and the record in hand: the profile reached, one record with the internal reason for every skipped profile that is to be recorded, the record of the attempt before, the number of the next one |
| `HuntRuns.NumberedExactly` | src/CallCtx.cpp:56-119 | over every run, the records sent are numbered from 1 on if and only if every search of it was in that order, told by profiles, table and replies: a number that is lost is never regained |
| `HuntRuns.NumbersCanRepeat` | src/CallCtx.cpp:56-119 | two records with the number 1 |
| `HuntRuns.NumberedInOrder` | src/CallCtx.cpp:56-119 | so they are in every run that hunts among profiles without skip codes |
| `HuntRuns.LastIsLast` | src/SqlRouter.cpp:626-662 | in every run, a record marked as the last one is the last one sent |
| `HuntRuns.HuntFromTheStart` | src/SBCCallLeg.cpp:858-900 | both for every run of a call that begins on its first profile: the last record is the last one, and the numbers are consecutive exactly when every search is in order |
| `HuntRuns.ChosenEnds` | src/SBCCallLeg.cpp:523-640 | after a refusal the call moves forward to a profile that does not refuse, to which the resource control agreed after it had passed over the ones tried before, or which needs no resources; without skip codes exactly the record of the failed attempt is sent |
| `HuntRuns.ChosenFails` | src/SBCCallLeg.cpp:523-640 | a choice without a result had no profile to move to, or ended on one whose resources were denied, and the record tells the reply to the caller for that denial |
| `HuntRuns.ProcessedEnds` | src/SBCCallLeg.cpp:361-427 | the first request goes out on the profile for which the resource control granted the attempt, after it had said to try the next one for every profile before; no record is sent on the way without skip codes |
| `HuntRuns.ProcessedFails` | src/SBCCallLeg.cpp:361-448 | a first request without a result ended on a denial, told with its translated reasons on the profile it came for, or behind the last profile, told as 503 no more profiles, or on a refusing profile, told with the code of the denial before it |
| `HuntRuns.RefusedTells` | src/SBCCallLeg.cpp:429-448 | the record of a refused call tells the internal reason and the reply that the caller gets |
| `HuntRuns.PassedKeeps` | src/SBCCallLeg.cpp:1284-1330 | leaving unregistered profiles at the front behind keeps the numbers consecutive, or not, as they were, whatever is skipped |
| `HuntRuns.PassedEnds` | src/SBCCallLeg.cpp:1284-1330 | it ends the call with the last record, or stops on the first profile that is not skipped, which does not refuse; one record is sent for each profile passed |
| `HuntRuns.PassedExactly` | src/SBCCallLeg.cpp:1286-1330 | the call goes on if and only if skipped profiles lead, without a refusing one among those reached, to one that is not skipped, and it goes on with that one |
| `HuntRuns.PassedTells` | src/SBCCallLeg.cpp:1293-1327 | the record of a profile that is passed tells the reasons of its skip code if the table says so, and a new record follows it |
| `CallContexts.SBCCallLeg.ProcessResources` | src/SBCCallLeg.cpp:341-448 | the loop ends and does what the specification of the first request says |
| `CallContexts.SBCCallLeg.ChooseNextProfile` | src/SBCCallLeg.cpp:523-640 | the loop ends and does what the specification of a later choice says |
| `CallContexts.SBCCallLeg.PassSkipped` | src/SBCCallLeg.cpp:1284-1330 | the loop ends and does what the specification of skipping says |
| `CallContexts.SBCCallLeg.ExpandProfiles` | src/SBCCallLeg.cpp:1205-1272 | inserting into the list while walking it is a flat map over the original list |
| `HuntRuns.ExpandedAt` | src/SBCCallLeg.cpp:1205-1272 | profiles keep their order, and a registered one becomes as many consecutive profiles as it has contacts |
| `HuntRuns.ExpandedAs` | src/SBCCallLeg.cpp:1217-1271 | what stands at every place of the expanded list: a profile that refuses or asks for no registration unchanged, one whose registration is missing with the skip code 131 and otherwise unchanged, copies with the contact and path of the first registration and all their codes kept |
| `HuntRuns.CalledIsRegistered` | src/SBCCallLeg.cpp:1205-1330 | when the call goes on after the expansion, its current profile neither refuses nor is skipped, and if it asks for a registration that is there |
| `HuntRuns.CopiesKeepFirstContact` | src/SBCCallLeg.cpp:1249-1266 | the copies carry their own contacts if and only if all contacts lead where the first one does, because the fields of a copy are rewritten after it was inserted |
| `ContextRefs.FreedByTheLast` | src/SBCCallLeg.cpp:1998-2030 | in every run the counter equals the number of legs that hold the context, which is freed at most once; when none holds it any more it has been freed if and only if no leg that was referred away was the last holder |
| `ContextRefs.ContextCanLeak` | src/SBCCallLeg.cpp:2271-2275 | a run that leaves a context that nobody holds and nobody has freed |
| `ContextRefs.AliveWhenTouched` | src/SBCCallLeg.cpp:1998-2030 | no leg touches a freed context, and it is freed exactly when its only holder is destroyed or gives the call up |
| `ContextRefs.StaysSound` | src/SBCCallLeg.cpp:1998-2030 | every possible event keeps the counter right |
| `CallContexts.SBCCallLeg.OnBeforeDestroy` | src/SBCCallLeg.cpp:1998-2030 | a leg without a context does nothing; another one gives up its reference, and the last one sends the final record and frees the context |
| `CallContexts.SBCCallLeg.Callee` | src/SBCCallLeg.cpp:197-208 | a callee takes the pointer of its caller before it is counted |
| `CallContexts.SBCCallLeg.CountReference` | src/SBCCallLeg.cpp:236-238 | the reference is counted under the lock |
| `CallContexts.SBCCallLeg.RequestProfiles` | src/SBCCallLeg.cpp:3052-3055 | a new context with one reference |
| `CallContexts.SBCCallLeg.OnProfilesReady` | src/SBCCallLeg.cpp:858-900 | the hunt begins on the first profile with a record of the start time, or the context is given up |
| `CallContexts.SBCCallLeg.AbandonCall` | src/SBCCallLeg.cpp:829-920 | a caller that gives up before any callee exists frees the context itself |
| `CallContexts.SBCCallLeg.OnRefer` | src/SBCCallLeg.cpp:2271-2275 | a callee that was referred away gives up its reference and never frees the context |

## Left out

- RenumberingStable: states stability for at most 128 payloads in a stream, the limit that the comment in src/SBCCallLeg.cpp:136-138 gives for its key.
- OnB2BReply: replies that are handed to the base session or to the hook `b2bConnectedErr` are recorded and not followed any further; the hook acts during a REFER transfer only.
- AddNewCallee: a callee is added only before the call is answered or ended; REFER transfer, which connects legs later, is not modelled.
- InplaceHeaderFilter: patterns are not empty; the code reads before the first character of an empty one.
- String2Arg: the value read into is empty at first, lengths do not overflow an int, and bytes behind the value are not an error, as in the code.
- Limit: a refilling whose addition overflows an int has no meaning in C++ and is excluded.
- GetNextProfile: one clock reading stands for all that are taken during one search; it only becomes the end time of a record.
- Chosen: the texts of resource errors, in which placeholders are replaced, are left as they are.
- AliveWhenTouched: the events of a call are steps under its lock; a callee that is being constructed keeps its caller's thread busy.
- OnProfilesReady: authorization challenges and a refusing first profile, which end in `AbandonCall`, are not told apart here.
- Hold and resume in src/CallLeg.cpp:691-777, re-INVITE queues and RTP relay modes.
- `onBLegRefused` is an answer of the environment: it adds at most one leg and throws nothing.
- `AmSipDialog`, media processing, recording, RADIUS, Redis, PostgreSQL, the HTTP client and event loops: input and output.
- Parsing of the Redis reply in src/SBCCallLeg.cpp:1130-1180; a registration has at least one contact.
- URIs are rewritten by a function that is given, since `AmUriParser` is not part of the repository.
- `CodesTranslator`, codec groups, the reading of profile columns, placeholders in `ParamReplacer`: lookups and text assembly that would only add easy members.
- `CertCache`, sensors, loggers, statistics, configuration and RPC.
- `processSdpOffer`, `filterSdpOffer` and `processSdpAnswer` as sequences of the editors modelled here.
- Columns that a call detail record copies from the profile or from SIP messages.
