/** Hunting through the routing profiles of a call (src/CallCtx.cpp, the loops around it in
    src/SBCCallLeg.cpp, SqlRouter::write_cdr): what each step does, told on values. */
module HuntSteps {
  import opened Options
  import opened Cdrs

  /** What the hunt needs of a profile; a code of 0 stands for none. */
  datatype Profile = Profile(
    skipCode: int, disconnectCode: int, overrideId: int,
    aorId: int, keepsUser: bool, ruri: string, route: string, needsResources: bool)

  /** What the translation table says about a disconnect code. */
  datatype Translation = Translation(write: bool, internal: Reason, response: Reason)

  /** The table, by code and override id. */
  type Codes = (int, int) -> Translation

  /** The answers of the resource control to the attempts, in turn. */
  datatype ResourceReply = Granted | TryNext(code: int) | Rejected(code: int) | Failed(code: int)

  type Replies = nat -> ResourceReply

  /** The profile list with its cursor, the record being filled and the records sent. */
  datatype Hunt = Hunt(profiles: seq<Profile>, current: nat, cdr: Option<Data>, posted: seq<Data>) {
    predicate Valid() {
      current <= |profiles| && (cdr.Some? ==> !cdr.value.writed)
    }

    predicate Ready() {
      Valid() && current < |profiles| && cdr.Some?
    }
  }

  /** The hunt begins on the first profile, with the record of the first attempt. */
  function Begun(profiles: seq<Profile>, start: nat): Hunt
    requires profiles != []
  {
    Hunt(profiles, 0, Some(EMPTY.(startTime := start, endTime := start)), [])
  }

  /** A step that found a profile, or none. */
  datatype Turn = Turn(hunt: Hunt, found: bool)

  function Written(d: Data, last: bool): Data {
    Next(d, Write(last))
  }

  function Translated(codes: Codes, p: Profile): Translation {
    codes(p.skipCode, p.overrideId)
  }

  // ---------- getNextProfile ----------

  /** The first profile from i on that is not to be skipped. */
  function Unskipped(profiles: seq<Profile>, i: nat): (j: nat)
    requires i <= |profiles|
    ensures i <= j <= |profiles|
    ensures forall k :: i <= k < j ==> profiles[k].skipCode != 0
    ensures j < |profiles| ==> profiles[j].skipCode == 0
    decreases |profiles| - i
  {
    if i == |profiles| || profiles[i].skipCode == 0 then i else Unskipped(profiles, i + 1)
  }

  function NextIndex(profiles: seq<Profile>, i: nat): (j: nat)
    requires i < |profiles|
    ensures i < j <= |profiles|
  {
    if profiles[i].skipCode != 0 then Unskipped(profiles, i + 1) else i + 1
  }

  function SkipCdr(codes: Codes, d: Data, p: Profile, num: int, now: nat): Data {
    Written(Next(Derived(d).(attemptNum := num), Internal(ByTS, Translated(codes, p).internal, now)), false)
  }

  /** The records about the profiles from i to j that are skipped. */
  function SkipCdrs(codes: Codes, d: Data, profiles: seq<Profile>, i: nat, j: nat, now: nat): (r: seq<Data>)
    requires i <= j <= |profiles|
    ensures |r| <= j - i
  {
    if i == j then []
    else
      var before := SkipCdrs(codes, d, profiles, i, j - 1, now);
      if Translated(codes, profiles[j - 1]).write
      then before + [SkipCdr(codes, d, profiles[j - 1], d.attemptNum + |before|, now)]
      else before
  }

  function Skips(h: Hunt, codes: Codes, now: nat): seq<Data>
    requires h.Ready()
  {
    if h.profiles[h.current].skipCode == 0 then []
    else SkipCdrs(codes, h.cdr.value, h.profiles, h.current, NextIndex(h.profiles, h.current), now)
  }

  /** A search from profile i on finds one, which may refuse only while the call is new. */
  predicate Moves(profiles: seq<Profile>, i: nat, early: bool)
    requires i < |profiles|
  {
    var j := NextIndex(profiles, i);
    j < |profiles| && (early || profiles[j].disconnectCode == 0)
  }

  predicate Advances(h: Hunt, early: bool)
    requires h.Ready()
  {
    Moves(h.profiles, h.current, early)
  }

  function AfterNext(h: Hunt, codes: Codes, early: bool, failover: bool, now: nat): (t: Turn)
    requires h.Ready()
    ensures t.hunt.Valid() && t.hunt.profiles == h.profiles
    ensures t.found <==> Advances(h, early)
    ensures if t.found then t.hunt.Ready() && t.hunt.current == NextIndex(h.profiles, h.current)
            else t.hunt.current == h.current
  {
    var d, skips := h.cdr.value, Skips(h, codes, now);
    var skipped := h.(posted := h.posted + skips);
    if !Advances(h, early) then Turn(skipped, false)
    else
      var moved := skipped.(current := NextIndex(h.profiles, h.current));
      if early || failover then
        Turn(moved.(cdr := Some(d.(attemptNum := d.attemptNum + |skips|))), true)
      else
        Turn(moved.(cdr := Some(Derived(d).(attemptNum := d.attemptNum + |skips| + 1)),
                    posted := moved.posted + [Written(d, false)]), true)
  }

  // ---------- the loops around it ----------

  function Noted(h: Hunt, u: Update): (r: Hunt)
    ensures r.profiles == h.profiles && r.current == h.current && r.posted == h.posted
    ensures r.cdr.Some? == h.cdr.Some? && (h.Valid() && !u.Write? ==> r.Valid())
  {
    if h.cdr.None? then h else h.(cdr := Some(Next(h.cdr.value, u)))
  }

  function Override(h: Hunt): int {
    if h.current < |h.profiles| then h.profiles[h.current].overrideId else 0
  }

  /** The code goes into the record, then the exception that carries its reply. */
  function Refused(h: Hunt, codes: Codes, code: int, now: nat): (r: Hunt)
    ensures r.profiles == h.profiles && r.current == h.current && r.posted == h.posted
    ensures r.cdr.Some? == h.cdr.Some? && (h.Valid() ==> r.Valid())
  {
    var t := codes(code, Override(h));
    Noted(Noted(h, Internal(ByTS, t.internal, now)), Internal(ByTS, t.response, now))
  }

  const NO_MORE_PROFILES := Reason("no more profiles", 503)

  /** The first request: resources are asked for profile by profile. */
  function Processed(h: Hunt, codes: Codes, replies: Replies, attempt: nat, now: nat): (t: Turn)
    requires h.Ready()
    ensures t.hunt.Valid()
    decreases |h.profiles| - h.current
  {
    match replies(attempt)
    case Granted => Turn(h, true)
    case Rejected(code) => Turn(Refused(h, codes, code, now), false)
    case Failed(code) => Turn(Refused(h, codes, code, now), false)
    case TryNext(code) =>
      var t := AfterNext(h, codes, true, false, now);
      if !t.found then Turn(Noted(t.hunt, Internal(ByTS, NO_MORE_PROFILES, now)), false)
      else if t.hunt.profiles[t.hunt.current].disconnectCode != 0 then
        Turn(Refused(t.hunt, codes, code, now), false)
      else Processed(t.hunt, codes, replies, attempt + 1, now)
  }

  /** A profile in the middle of the call, after another one was refused. */
  function ChosenFrom(h: Hunt, codes: Codes, replies: Replies, attempt: nat, now: nat): (t: Turn)
    requires h.Ready()
    ensures t.hunt.Valid()
    decreases |h.profiles| - h.current
  {
    var reply := if h.profiles[h.current].needsResources then replies(attempt) else Granted;
    match reply
    case Granted => Turn(h, true)
    case Rejected(code) => Turn(Blame(h, codes, code, now), false)
    case Failed(code) => Turn(Blame(h, codes, code, now), false)
    case TryNext(code) =>
      var t := AfterNext(h, codes, false, true, now);
      if !t.found then Turn(Blame(t.hunt, codes, code, now), false)
      else ChosenFrom(t.hunt, codes, replies, attempt + 1, now)
  }

  function Blame(h: Hunt, codes: Codes, code: int, now: nat): Hunt {
    Noted(h, Internal(ByTS, codes(code, Override(h)).response, now))
  }

  function Chosen(h: Hunt, codes: Codes, replies: Replies, now: nat): (t: Turn)
    requires h.Ready()
    ensures t.hunt.Valid()
  {
    var t := AfterNext(h, codes, false, false, now);
    if t.found then ChosenFrom(t.hunt, codes, replies, 0, now) else t
  }

  /** The record is sent if there is one. */
  function Sent(h: Hunt, last: bool): Hunt {
    if h.cdr.None? then h else h.(cdr := None, posted := h.posted + [Written(h.cdr.value, last)])
  }

  /** After the registrations are known: profiles at the front that are not registered are left
      behind, each with its record. */
  function Passed(h: Hunt, codes: Codes, now: nat): (t: Turn)
    requires h.Valid() && h.current < |h.profiles|
    ensures t.hunt.Valid()
    decreases |h.profiles| - h.current
  {
    var next := h.current + 1;
    if h.profiles[h.current].skipCode == 0 then Turn(h, true)
    else if next == |h.profiles| || h.profiles[next].disconnectCode != 0 then
      Turn(Sent(Explained(h, codes, now), true), false)
    else Passed(PassedOne(h, codes, now), codes, now)
  }

  /** The reason for skipping the current profile goes into the record. */
  function Explained(h: Hunt, codes: Codes, now: nat): (r: Hunt)
    requires h.Valid() && h.current < |h.profiles|
    ensures r.Valid() && r.profiles == h.profiles && r.current == h.current && r.posted == h.posted
    ensures r.cdr.Some? == h.cdr.Some?
  {
    var t := Translated(codes, h.profiles[h.current]);
    if t.write then Noted(Noted(h, Internal(ByTS, t.internal, now)), ALeg(t.response)) else h
  }

  /** The cursor moves and the record, if there is one, is sent and followed by a new one. */
  function PassedOne(h: Hunt, codes: Codes, now: nat): (r: Hunt)
    requires h.Valid() && h.current + 1 < |h.profiles|
    ensures r.Valid() && r.profiles == h.profiles && r.current == h.current + 1
    ensures r.cdr.Some? == h.cdr.Some?
    ensures |r.posted| == |h.posted| + if h.cdr.Some? then 1 else 0
  {
    var noted := Explained(h, codes, now);
    var moved := Sent(noted, false).(current := h.current + 1);
    if noted.cdr.None? then moved else moved.(cdr := Some(Derived(noted.cdr.value)))
  }

  // ---------- expanding the registered profiles ----------

  const SC_NOT_REGISTERED := 131

  datatype Contact = Contact(contact: string, path: string)

  /** A registration has at least one contact. */
  type Aors = map<int, seq<Contact>>

  ghost predicate NoEmptyAor(aors: Aors) {
    forall id :: id in aors ==> aors[id] != []
  }

  /** How the user part of one URI is put into another, should both be well-formed. */
  type UserInto = (string, string) -> string

  function Resolved(p: Profile, c: Contact, userInto: UserInto): Profile {
    p.(ruri := if p.keepsUser then userInto(p.ruri, c.contact) else c.contact,
       route := if c.path == "" then p.route else c.path)
  }

  predicate NeedsAor(p: Profile) {
    p.disconnectCode == 0 && p.aorId != 0
  }

  function Copies(p: Profile, n: nat): (r: seq<Profile>)
    ensures |r| == n && forall i :: 0 <= i < n ==> r[i] == p
  {
    seq(n, i => p)
  }

  /** What one profile becomes: every copy has the fields of the first contact. */
  function ExpandedOne(p: Profile, aors: Aors, userInto: UserInto): seq<Profile> {
    if !NeedsAor(p) then [p]
    else if p.aorId !in aors then [p.(skipCode := SC_NOT_REGISTERED)]
    else if aors[p.aorId] == [] then []
    else Copies(Resolved(p, aors[p.aorId][0], userInto), |aors[p.aorId]|)
  }

  function Expanded(profiles: seq<Profile>, aors: Aors, userInto: UserInto): seq<Profile> {
    if profiles == [] then []
    else
      Expanded(profiles[..|profiles| - 1], aors, userInto)
      + ExpandedOne(profiles[|profiles| - 1], aors, userInto)
  }
}

/** What holds over whole hunts. */
module HuntRuns {
  import opened Options
  import opened Cdrs
  import opened HuntSteps

  /** Records are sent with the numbers 1, 2, 3 and so on, and the pending one is next. */
  predicate Numbered(h: Hunt) {
    && (forall i :: 0 <= i < |h.posted| ==> h.posted[i].attemptNum == i + 1)
    && (h.cdr.Some? ==> h.cdr.value.attemptNum == |h.posted| + 1)
  }

  /** Every record that was sent is complete; one that is marked as the last one is the last one. */
  predicate Sealed(h: Hunt) {
    && h.Valid()
    && (forall i :: 0 <= i < |h.posted| ==> h.posted[i].writed)
    && (forall i :: 0 <= i < |h.posted| && h.posted[i].isLast ==> i == |h.posted| - 1 && h.cdr.None?)
  }

  predicate NoSkipsAhead(h: Hunt) {
    forall i :: h.current <= i < |h.profiles| ==> h.profiles[i].skipCode == 0
  }

  // ---------- one search for the next profile ----------

  /** Complete records with consecutive numbers, none of them marked as the last one. */
  predicate InTurn(records: seq<Data>, num: int) {
    forall k :: 0 <= k < |records| ==>
      records[k].attemptNum == num + k && records[k].writed && !records[k].isLast
  }

  lemma {:induction false} SkipCdrsAre(codes: Codes, d: Data, profiles: seq<Profile>, i: nat, j: nat, now: nat)
    requires i <= j <= |profiles|
    ensures InTurn(SkipCdrs(codes, d, profiles, i, j, now), d.attemptNum)
    decreases j - i
  {
    hide SkipCdr;
    if i < j {
      SkipCdrsAre(codes, d, profiles, i, j - 1, now);
      var before := SkipCdrs(codes, d, profiles, i, j - 1, now);
      var num := d.attemptNum + |before|;
      SkipCdrIs(codes, d, profiles[j - 1], num, now);
    }
  }

  lemma SkipCdrIs(codes: Codes, d: Data, p: Profile, num: int, now: nat)
    ensures var r := SkipCdr(codes, d, p, num, now); r.attemptNum == num && r.writed && !r.isLast
  {}

  lemma SkipsAre(h: Hunt, codes: Codes, now: nat)
    requires h.Ready()
    ensures InTurn(Skips(h, codes, now), h.cdr.value.attemptNum)
  {
    hide SkipCdrs;
    SkipCdrsAre(codes, h.cdr.value, h.profiles, h.current, NextIndex(h.profiles, h.current), now);
  }

  lemma {:induction false} SkipCdrsEmpty(codes: Codes, d: Data, profiles: seq<Profile>, i: nat, j: nat, now: nat)
    requires i <= j <= |profiles|
    ensures SkipCdrs(codes, d, profiles, i, j, now) == []
       <==> forall k :: i <= k < j ==> !Translated(codes, profiles[k]).write
    decreases j - i
  {
    if i < j {
      SkipCdrsEmpty(codes, d, profiles, i, j - 1, now);
    }
  }

  /** No profile that a search from i on skips has to be recorded, by the translation table. */
  predicate SkipsUnrecorded(profiles: seq<Profile>, i: nat, codes: Codes)
    requires i < |profiles|
  {
    profiles[i].skipCode == 0
    || forall k :: i <= k < NextIndex(profiles, i) ==> !Translated(codes, profiles[k]).write
  }

  /** Or the search finds a profile and keeps the record in hand for it. */
  predicate SearchInOrder(profiles: seq<Profile>, i: nat, codes: Codes, early: bool, failover: bool)
    requires i < |profiles|
  {
    SkipsUnrecorded(profiles, i, codes) || (Moves(profiles, i, early) && (early || failover))
  }

  lemma SkipsEmpty(h: Hunt, codes: Codes, now: nat)
    requires h.Ready()
    ensures Skips(h, codes, now) == [] <==> SkipsUnrecorded(h.profiles, h.current, codes)
  {
    hide SkipCdrs, NextIndex;
    SkipCdrsEmpty(codes, h.cdr.value, h.profiles, h.current, NextIndex(h.profiles, h.current), now);
  }

  /** After a search the numbers are in order if and only if they were before, and no skipped profile
      had to be recorded or the record in hand is kept for the profile that was found. */
  lemma {:induction false} NextKeepsNumbers(h: Hunt, codes: Codes, early: bool, failover: bool, now: nat)
    requires h.Ready()
    ensures Numbered(AfterNext(h, codes, early, failover, now).hunt)
       <==> Numbered(h) && SearchInOrder(h.profiles, h.current, codes, early, failover)
  {
    hide Skips, Moves, SkipsUnrecorded, Numbered, AfterNext;
    SkipsEmpty(h, codes, now);
    if !Numbered(h) {
      LostStaysLost(h, codes, early, failover, now);
    } else if SearchInOrder(h.profiles, h.current, codes, early, failover) {
      SearchNumbers(h, codes, early, failover, now);
    } else {
      SearchLosesNumber(h, codes, early, failover, now);
    }
  }

  /** The records of a search: those there were, those about skipped profiles, and perhaps the one in hand. */
  lemma PostedBy(h: Hunt, codes: Codes, early: bool, failover: bool, now: nat)
    requires h.Ready()
    ensures var r, skips := AfterNext(h, codes, early, failover, now).hunt, Skips(h, codes, now);
            r.posted == h.posted + skips + if Advances(h, early) && !early && !failover
                                           then [Written(h.cdr.value, false)] else []
  {
    hide Skips, Advances, Written, Derived;
    assert h.posted + Skips(h, codes, now) + [] == h.posted + Skips(h, codes, now);
  }

  lemma SearchNumbers(h: Hunt, codes: Codes, early: bool, failover: bool, now: nat)
    requires h.Ready() && Numbered(h)
    requires Skips(h, codes, now) == [] || (Advances(h, early) && (early || failover))
    ensures Numbered(AfterNext(h, codes, early, failover, now).hunt)
  {
    hide Skips, Advances;
    SkipsAre(h, codes, now);
  }

  lemma SearchLosesNumber(h: Hunt, codes: Codes, early: bool, failover: bool, now: nat)
    requires h.Ready() && Numbered(h)
    requires Skips(h, codes, now) != [] && !(Advances(h, early) && (early || failover))
    ensures !Numbered(AfterNext(h, codes, early, failover, now).hunt)
  {
    hide Skips, Advances;
    var skips, r := Skips(h, codes, now), AfterNext(h, codes, early, failover, now).hunt;
    PostedBy(h, codes, early, failover, now);
    if Advances(h, early) {
      assert r.posted[|h.posted| + |skips|] == Written(h.cdr.value, false);
    }
  }

  lemma LostStaysLost(h: Hunt, codes: Codes, early: bool, failover: bool, now: nat)
    requires h.Ready() && !Numbered(h)
    ensures !Numbered(AfterNext(h, codes, early, failover, now).hunt)
  {
    hide Skips, Advances;
    var n, skips, r := |h.posted|, Skips(h, codes, now), AfterNext(h, codes, early, failover, now).hunt;
    PostedBy(h, codes, early, failover, now);
    SkipsAre(h, codes, now);
    if i :| 0 <= i < n && h.posted[i].attemptNum != i + 1 {
      assert r.posted[i] == h.posted[i];
    } else if skips != [] {
      assert r.posted[n] == skips[0];
    } else if Advances(h, early) && !early && !failover {
      assert r.posted[n] == Written(h.cdr.value, false);
    }
  }

  /** A recorded skip in front of an ordinary attempt: two records with the number 1. */
  lemma NumbersCanRepeat()
    ensures var codes := (code: int, override: int) => Translation(true, NO_REASON, NO_REASON);
            var profile := Profile(0, 0, 0, 0, false, "", "", false);
            var h := Hunt([profile.(skipCode := SC_NOT_REGISTERED), profile], 0, Some(EMPTY), []);
            var posted := AfterNext(h, codes, false, false, 0).hunt.posted;
            && h.Ready() && Numbered(h)
            && |posted| == 2 && posted[0].attemptNum == posted[1].attemptNum == 1
  {
    var codes := (code: int, override: int) => Translation(true, NO_REASON, NO_REASON);
    var profile := Profile(0, 0, 0, 0, false, "", "", false);
    var profiles := [profile.(skipCode := SC_NOT_REGISTERED), profile];
    assert NextIndex(profiles, 0) == 1;
    assert SkipCdrs(codes, EMPTY, profiles, 0, 0, 0) == [];
    assert SkipCdrs(codes, EMPTY, profiles, 0, 1, 0) == [SkipCdr(codes, EMPTY, profiles[0], 1, 0)];
  }

  lemma NextKeepsSealed(h: Hunt, codes: Codes, early: bool, failover: bool, now: nat)
    requires h.Ready() && Sealed(h)
    ensures Sealed(AfterNext(h, codes, early, failover, now).hunt)
  {
    hide Skips, Advances;
    SkipsAre(h, codes, now);
  }

  // ---------- where a search ends and what it records ----------

  /** The profile behind the current one, or if that is to be skipped, the first one behind it that is not;
      the end of the list if there is none. */
  predicate Following(profiles: seq<Profile>, i: nat, j: nat) {
    && i < j <= |profiles|
    && (profiles[i].skipCode == 0 ==> j == i + 1)
    && (profiles[i].skipCode != 0 ==>
          && (forall k :: i < k < j ==> profiles[k].skipCode != 0)
          && (j < |profiles| ==> profiles[j].skipCode == 0))
  }

  lemma NextFollows(profiles: seq<Profile>, i: nat, j: nat)
    requires i < |profiles|
    ensures Following(profiles, i, j) <==> j == NextIndex(profiles, i)
  {
    if Following(profiles, i, j) && profiles[i].skipCode != 0 {
      UnskippedIs(profiles, i + 1, j);
    }
  }

  lemma {:induction false} UnskippedIs(profiles: seq<Profile>, i: nat, j: nat)
    requires i <= j <= |profiles|
    requires (forall k :: i <= k < j ==> profiles[k].skipCode != 0) && (j < |profiles| ==> profiles[j].skipCode == 0)
    ensures Unskipped(profiles, i) == j
    decreases j - i
  {
    if i < j {
      UnskippedIs(profiles, i + 1, j);
    }
  }

  /** How many profiles from i to j are to be recorded when they are skipped. */
  function ToRecord(profiles: seq<Profile>, codes: Codes, i: nat, j: nat): (n: nat)
    requires i <= j <= |profiles|
    decreases j - i
  {
    if i == j then 0
    else ToRecord(profiles, codes, i, j - 1)
         + if codes(profiles[j - 1].skipCode, profiles[j - 1].overrideId).write then 1 else 0
  }

  /** The record about a skipped profile: a new one from the beginning of the call, which tells the internal
      reason of the skip code and is complete but not the last one. */
  predicate TellsSkip(r: Data, t: Translation, num: int, start: nat, now: nat) {
    r == EMPTY.(attemptNum := num, startTime := start, endTime := now, writed := true,
                initiator := ByTS, initiatorWrited := true, internalReason := t.internal, rewritedReason := t.internal)
  }

  lemma SkipCdrTells(codes: Codes, d: Data, p: Profile, num: int, now: nat)
    ensures TellsSkip(SkipCdr(codes, d, p, num, now), codes(p.skipCode, p.overrideId), num, d.startTime, now)
  {}

  /** One record for each skipped profile that is to be recorded, in order. */
  predicate TellSkips(records: seq<Data>, profiles: seq<Profile>, codes: Codes, i: nat, j: nat, num: int,
                      start: nat, now: nat)
    requires i <= j <= |profiles|
  {
    && |records| == ToRecord(profiles, codes, i, j)
    && forall k :: i <= k < j && codes(profiles[k].skipCode, profiles[k].overrideId).write ==>
         TellsAt(records, ToRecord(profiles, codes, i, k),
                 codes(profiles[k].skipCode, profiles[k].overrideId), num, start, now)
  }

  predicate TellsAt(records: seq<Data>, at: nat, t: Translation, num: int, start: nat, now: nat) {
    at < |records| && TellsSkip(records[at], t, num + at, start, now)
  }

  lemma {:induction false} SkipCdrsTell(codes: Codes, d: Data, profiles: seq<Profile>, i: nat, j: nat, now: nat)
    requires i <= j <= |profiles|
    ensures TellSkips(SkipCdrs(codes, d, profiles, i, j, now), profiles, codes, i, j, d.attemptNum, d.startTime, now)
    decreases j - i
  {
    hide SkipCdr, TellsSkip;
    if i < j {
      SkipCdrsTell(codes, d, profiles, i, j - 1, now);
      var before := SkipCdrs(codes, d, profiles, i, j - 1, now);
      SkipCdrTells(codes, d, profiles[j - 1], d.attemptNum + |before|, now);
    }
  }

  /** Where a search ends and what it leaves, told by the list, the table and the record in hand: the records
      about the profiles it passed over, then, if an ordinary attempt follows, the record of the attempt before;
      the one in hand has the number behind all of these. */
  lemma SearchLeaves(h: Hunt, codes: Codes, early: bool, failover: bool, now: nat, j: nat, skips: seq<Data>)
    requires h.Ready() && Following(h.profiles, h.current, j)
    requires if h.profiles[h.current].skipCode == 0 then skips == []
             else TellSkips(skips, h.profiles, codes, h.current, j, h.cdr.value.attemptNum, h.cdr.value.startTime, now)
    ensures var t, d := AfterNext(h, codes, early, failover, now), h.cdr.value;
      && (t.found <==> j < |h.profiles| && (early || h.profiles[j].disconnectCode == 0))
      && t.hunt.profiles == h.profiles
      && t.hunt.current == (if t.found then j else h.current)
      && t.hunt.posted == h.posted + skips
                          + (if t.found && !early && !failover then [d.(writed := true, isLast := false)] else [])
      && t.hunt.cdr == (if !t.found then Some(d)
                        else if early || failover then Some(d.(attemptNum := d.attemptNum + |skips|))
                        else Some(EMPTY.(attemptNum := d.attemptNum + |skips| + 1,
                                         startTime := d.startTime, endTime := d.startTime)))
  {
    hide SkipCdrs, TellSkips, NextIndex, Following;
    NextFollows(h.profiles, h.current, j);
    if h.profiles[h.current].skipCode != 0 {
      SkipCdrsTell(codes, h.cdr.value, h.profiles, h.current, j, now);
      SameSkips(skips, Skips(h, codes, now), h.profiles, codes, h.current, j, h.cdr.value, now);
    }
    assert h.posted + skips + [] == h.posted + skips;
  }

  /** The records are determined by what they tell. */
  lemma SameSkips(a: seq<Data>, b: seq<Data>, profiles: seq<Profile>, codes: Codes, i: nat, j: nat, d: Data, now: nat)
    requires i <= j <= |profiles|
    requires TellSkips(a, profiles, codes, i, j, d.attemptNum, d.startTime, now)
    requires TellSkips(b, profiles, codes, i, j, d.attemptNum, d.startTime, now)
    ensures a == b
  {
    forall n | 0 <= n < |a|
      ensures a[n] == b[n]
    {
      var k := Recorded(profiles, codes, i, j, n);
      assert TellsAt(a, n, codes(profiles[k].skipCode, profiles[k].overrideId), d.attemptNum, d.startTime, now);
      assert TellsAt(b, n, codes(profiles[k].skipCode, profiles[k].overrideId), d.attemptNum, d.startTime, now);
    }
  }

  /** The profile that record n is about. */
  function Recorded(profiles: seq<Profile>, codes: Codes, i: nat, j: nat, n: nat): (k: nat)
    requires i <= j <= |profiles| && n < ToRecord(profiles, codes, i, j)
    ensures i <= k < j && codes(profiles[k].skipCode, profiles[k].overrideId).write
    ensures ToRecord(profiles, codes, i, k) == n
    decreases j - i
  {
    if n < ToRecord(profiles, codes, i, j - 1) then Recorded(profiles, codes, i, j - 1, n) else j - 1
  }

  // ---------- the loops ----------

  lemma NotedKeeps(h: Hunt, u: Update)
    requires !u.Write?
    ensures Sealed(h) ==> Sealed(Noted(h, u))
    ensures Numbered(h) <==> Numbered(Noted(h, u))
  {}

  lemma RefusedKeeps(h: Hunt, codes: Codes, code: int, now: nat)
    ensures Sealed(h) ==> Sealed(Refused(h, codes, code, now))
    ensures Numbered(h) <==> Numbered(Refused(h, codes, code, now))
  {
    hide Noted, Sealed, Numbered;
    var t := codes(code, Override(h));
    NotedKeeps(h, Internal(ByTS, t.internal, now));
    NotedKeeps(Noted(h, Internal(ByTS, t.internal, now)), Internal(ByTS, t.response, now));
  }

  /** The record of a refused call tells the internal reason, and what the caller is answered. */
  lemma RefusedTells(h: Hunt, codes: Codes, code: int, now: nat)
    requires h.Valid() && h.cdr.Some? && !h.cdr.value.initiatorWrited && !h.cdr.value.alegReasonWrited
    ensures var d, t := Refused(h, codes, code, now).cdr.value, codes(code, Override(h));
      d.internalReason == t.internal && d.rewritedReason == t.response && d.initiator == ByTS
  {}

  lemma SearchWithoutSkips(h: Hunt, codes: Codes, now: nat)
    requires h.Ready() && NoSkipsAhead(h)
    ensures AfterNext(h, codes, true, false, now).hunt.posted == h.posted
  {}

  lemma SentKeeps(h: Hunt, last: bool)
    requires h.Valid()
    ensures Sealed(h) ==> Sealed(Sent(h, last))
    ensures Numbered(h) <==> Numbered(Sent(h, last))
  {
    var n, r := |h.posted|, Sent(h, last);
    assert forall i :: 0 <= i < n ==> r.posted[i] == h.posted[i];
    assert h.cdr.Some? ==> r.posted[n].attemptNum == h.cdr.value.attemptNum;
  }

  lemma SearchKeeps(h: Hunt, codes: Codes, early: bool, failover: bool, now: nat)
    requires h.Ready()
    ensures var r := AfterNext(h, codes, early, failover, now).hunt;
      && (Sealed(h) ==> Sealed(r))
      && (Numbered(r) <==> Numbered(h) && SearchInOrder(h.profiles, h.current, codes, early, failover))
  {
    hide Sealed, Numbered, AfterNext;
    if Sealed(h) {
      NextKeepsSealed(h, codes, early, failover, now);
    }
    NextKeepsNumbers(h, codes, early, failover, now);
  }

  /** The same for all searches for the profile of the first request. */
  predicate ProcessInOrder(profiles: seq<Profile>, i: nat, codes: Codes, replies: Replies, attempt: nat)
    requires i < |profiles|
    decreases |profiles| - i
  {
    replies(attempt).TryNext? ==>
      && SearchInOrder(profiles, i, codes, true, false)
      && (Moves(profiles, i, true) && profiles[NextIndex(profiles, i)].disconnectCode == 0 ==>
            ProcessInOrder(profiles, NextIndex(profiles, i), codes, replies, attempt + 1))
  }

  lemma {:induction false} ProcessedKeeps(h: Hunt, codes: Codes, replies: Replies, attempt: nat, now: nat)
    requires h.Ready()
    ensures var r := Processed(h, codes, replies, attempt, now).hunt;
      && (Sealed(h) ==> Sealed(r))
      && (Numbered(r) <==> Numbered(h) && ProcessInOrder(h.profiles, h.current, codes, replies, attempt))
    decreases |h.profiles| - h.current
  {
    hide Sealed, Numbered, Refused, Noted, AfterNext, SearchInOrder, Moves, NextIndex;
    match replies(attempt)
    case Granted =>
    case Rejected(code) => RefusedKeeps(h, codes, code, now);
    case Failed(code) => RefusedKeeps(h, codes, code, now);
    case TryNext(code) =>
      SearchKeeps(h, codes, true, false, now);
      var t := AfterNext(h, codes, true, false, now);
      NotedKeeps(t.hunt, Internal(ByTS, NO_MORE_PROFILES, now));
      RefusedKeeps(t.hunt, codes, code, now);
      if t.found {
        ProcessedKeeps(t.hunt, codes, replies, attempt + 1, now);
      }
  }

  /** The same for the searches after a refusal. */
  predicate ChoiceInOrder(profiles: seq<Profile>, i: nat, codes: Codes, replies: Replies, attempt: nat)
    requires i < |profiles|
    decreases |profiles| - i
  {
    profiles[i].needsResources && replies(attempt).TryNext? ==>
      && SearchInOrder(profiles, i, codes, false, true)
      && (Moves(profiles, i, false) ==> ChoiceInOrder(profiles, NextIndex(profiles, i), codes, replies, attempt + 1))
  }

  predicate ChooseInOrder(profiles: seq<Profile>, i: nat, codes: Codes, replies: Replies)
    requires i < |profiles|
  {
    && SearchInOrder(profiles, i, codes, false, false)
    && (Moves(profiles, i, false) ==> ChoiceInOrder(profiles, NextIndex(profiles, i), codes, replies, 0))
  }

  lemma {:induction false} ChosenFromKeeps(h: Hunt, codes: Codes, replies: Replies, attempt: nat, now: nat)
    requires h.Ready()
    ensures var r := ChosenFrom(h, codes, replies, attempt, now).hunt;
      && (Sealed(h) ==> Sealed(r))
      && (Numbered(r) <==> Numbered(h) && ChoiceInOrder(h.profiles, h.current, codes, replies, attempt))
    decreases |h.profiles| - h.current
  {
    hide Sealed, Numbered, Noted, AfterNext, SearchInOrder, Moves, NextIndex;
    if h.profiles[h.current].needsResources && !replies(attempt).Granted? {
      var code := replies(attempt).code;
      NotedKeeps(h, Internal(ByTS, codes(code, Override(h)).response, now));
      SearchKeeps(h, codes, false, true, now);
      var t := AfterNext(h, codes, false, true, now);
      NotedKeeps(t.hunt, Internal(ByTS, codes(code, Override(t.hunt)).response, now));
      if t.found {
        ChosenFromKeeps(t.hunt, codes, replies, attempt + 1, now);
      }
    }
  }

  lemma ChosenKeeps(h: Hunt, codes: Codes, replies: Replies, now: nat)
    requires h.Ready()
    ensures var r := Chosen(h, codes, replies, now).hunt;
      && (Sealed(h) ==> Sealed(r))
      && (Numbered(r) <==> Numbered(h) && ChooseInOrder(h.profiles, h.current, codes, replies))
  {
    hide Sealed, Numbered, AfterNext, ChosenFrom, SearchInOrder, Moves, NextIndex, ChoiceInOrder;
    SearchKeeps(h, codes, false, false, now);
    var t := AfterNext(h, codes, false, false, now);
    if t.found {
      ChosenFromKeeps(t.hunt, codes, replies, 0, now);
    }
  }

  /** Among profiles without skip codes every search is in order. */
  lemma {:induction false} NoSkipsInOrder(profiles: seq<Profile>, i: nat, codes: Codes, replies: Replies, attempt: nat)
    requires i < |profiles| && forall k :: i <= k < |profiles| ==> profiles[k].skipCode == 0
    ensures ProcessInOrder(profiles, i, codes, replies, attempt)
    ensures ChoiceInOrder(profiles, i, codes, replies, attempt)
    decreases |profiles| - i
  {
    var j := NextIndex(profiles, i);
    if j < |profiles| {
      NoSkipsInOrder(profiles, j, codes, replies, attempt + 1);
    }
  }

  lemma NoSkipsChooseInOrder(profiles: seq<Profile>, i: nat, codes: Codes, replies: Replies)
    requires i < |profiles| && forall k :: i <= k < |profiles| ==> profiles[k].skipCode == 0
    ensures ChooseInOrder(profiles, i, codes, replies)
  {
    var j := NextIndex(profiles, i);
    if j < |profiles| {
      NoSkipsInOrder(profiles, j, codes, replies, 0);
    }
  }

  /** Skipping unregistered profiles at the front keeps the numbers in order, or out of it, whatever
      is skipped. */
  lemma {:induction false} PassedKeeps(h: Hunt, codes: Codes, now: nat)
    requires h.Valid() && h.current < |h.profiles|
    ensures var r := Passed(h, codes, now).hunt;
      && (Sealed(h) ==> Sealed(r))
      && (Numbered(h) <==> Numbered(r))
    decreases |h.profiles| - h.current
  {
    hide Explained, PassedOne, Sealed, Numbered;
    var next := h.current + 1;
    if h.profiles[h.current].skipCode != 0 {
      ExplainedKeeps(h, codes, now);
      SentKeeps(Explained(h, codes, now), true);
      if next < |h.profiles| && h.profiles[next].disconnectCode == 0 {
        PassedOneKeeps(h, codes, now);
        PassedKeeps(PassedOne(h, codes, now), codes, now);
      }
    }
  }

  lemma ExplainedKeeps(h: Hunt, codes: Codes, now: nat)
    requires h.Valid() && h.current < |h.profiles|
    ensures Sealed(h) ==> Sealed(Explained(h, codes, now))
    ensures Numbered(h) <==> Numbered(Explained(h, codes, now))
  {
    hide Noted, Sealed, Numbered;
    var t := Translated(codes, h.profiles[h.current]);
    NotedKeeps(h, Internal(ByTS, t.internal, now));
    NotedKeeps(Noted(h, Internal(ByTS, t.internal, now)), ALeg(t.response));
  }

  lemma PassedOneKeeps(h: Hunt, codes: Codes, now: nat)
    requires h.Valid() && h.current + 1 < |h.profiles|
    ensures Sealed(h) ==> Sealed(PassedOne(h, codes, now))
    ensures Numbered(h) <==> Numbered(PassedOne(h, codes, now))
  {
    hide Explained;
    ExplainedKeeps(h, codes, now);
    SentKeeps(Explained(h, codes, now), false);
  }

  /** It ends by giving up or on a profile that is neither skipped nor refusing. */
  lemma {:induction false} PassedEnds(h: Hunt, codes: Codes, now: nat)
    requires h.Valid() && h.current < |h.profiles| && h.profiles[h.current].disconnectCode == 0
    ensures var t := Passed(h, codes, now);
      && t.hunt.profiles == h.profiles
      && (t.found ==> t.hunt.current < |h.profiles|
                      && t.hunt.profiles[t.hunt.current].skipCode == 0
                      && t.hunt.profiles[t.hunt.current].disconnectCode == 0
                      && t.hunt.cdr.Some? == h.cdr.Some?)
      && (t.found ==> forall i :: h.current <= i < t.hunt.current ==> h.profiles[i].skipCode != 0)
      && (!t.found ==> t.hunt.cdr.None?)
      && (!t.found && h.cdr.Some? ==> t.hunt.posted != [] && t.hunt.posted[|t.hunt.posted| - 1].isLast)
      && (t.found && h.cdr.Some? ==> |t.hunt.posted| == |h.posted| + t.hunt.current - h.current)
    decreases |h.profiles| - h.current
  {
    hide Explained, PassedOne;
    var next := h.current + 1;
    if h.profiles[h.current].skipCode != 0 && next < |h.profiles| && h.profiles[next].disconnectCode == 0 {
      PassedEnds(PassedOne(h, codes, now), codes, now);
    }
  }

  /** Skipped profiles stand in front of one that is not, and none of those it goes through refuses. */
  predicate LeadsTo(profiles: seq<Profile>, i: nat, j: nat) {
    && i <= j < |profiles| && profiles[j].skipCode == 0
    && (forall k :: i <= k < j ==> profiles[k].skipCode != 0)
    && (forall k :: i < k <= j ==> profiles[k].disconnectCode == 0)
  }

  /** The call goes on exactly if skipped profiles lead to one that can be used, and then with that one. */
  lemma {:induction false} PassedExactly(h: Hunt, codes: Codes, now: nat)
    requires h.Valid() && h.current < |h.profiles|
    ensures var t := Passed(h, codes, now);
      && (t.found ==> LeadsTo(h.profiles, h.current, t.hunt.current))
      && (!t.found ==> forall j: nat :: !LeadsTo(h.profiles, h.current, j))
    decreases |h.profiles| - h.current
  {
    hide Explained, PassedOne, LeadsTo, Sent;
    var next := h.current + 1;
    LeadsFrom(h.profiles, h.current);
    if h.profiles[h.current].skipCode != 0 && next < |h.profiles| && h.profiles[next].disconnectCode == 0 {
      PassedExactly(PassedOne(h, codes, now), codes, now);
    }
  }

  lemma LeadsFrom(profiles: seq<Profile>, i: nat)
    requires i < |profiles|
    ensures forall j: nat :: LeadsTo(profiles, i, j) <==>
              if profiles[i].skipCode == 0 then j == i
              else i + 1 < |profiles| && profiles[i + 1].disconnectCode == 0 && LeadsTo(profiles, i + 1, j)
  {}

  /** The profile that is reached by n searches. */
  function Hop(profiles: seq<Profile>, i: nat, n: nat): nat
    requires i <= |profiles|
    decreases n
  {
    if n == 0 || i == |profiles| then i else Hop(profiles, NextIndex(profiles, i), n - 1)
  }

  /** The resource control was asked for profile after profile from `start` on, said "try the
      next one" to all attempts before the one numbered k, and the hunt stands where that was made. */
  predicate StoppedAt(h: Hunt, start: nat, replies: Replies, attempt: nat, k: nat)
    requires start <= |h.profiles|
  {
    && attempt <= k && h.current == Hop(h.profiles, start, k - attempt)
    && forall j :: attempt <= j < k ==> replies(j).TryNext?
  }

  predicate GrantedAt(h: Hunt, start: nat, replies: Replies, attempt: nat, k: nat)
    requires start <= |h.profiles|
  {
    StoppedAt(h, start, replies, attempt, k) && replies(k) == Granted
  }

  lemma StoppedLater(h: Hunt, start: nat, replies: Replies, attempt: nat, k: nat)
    requires start < |h.profiles| && replies(attempt).TryNext?
    requires StoppedAt(h, NextIndex(h.profiles, start), replies, attempt + 1, k)
    ensures StoppedAt(h, start, replies, attempt, k)
  {}

  /** A request goes out on a profile that does not refuse, for which the resource control granted
      what it was asked for after having passed over all profiles that were tried before it. */
  lemma {:induction false} ProcessedEnds(h: Hunt, codes: Codes, replies: Replies, attempt: nat, now: nat)
    requires h.Ready() && h.profiles[h.current].disconnectCode == 0
    ensures var t := Processed(h, codes, replies, attempt, now);
      && t.hunt.profiles == h.profiles && t.hunt.cdr.Some? && h.current <= t.hunt.current < |h.profiles|
      && (t.found ==> h.profiles[t.hunt.current].disconnectCode == 0
                      && exists k :: GrantedAt(t.hunt, h.current, replies, attempt, k))
      && (NoSkipsAhead(h) ==> t.hunt.posted == h.posted)
    decreases |h.profiles| - h.current
  {
    hide Refused, Skips, Advances;
    match replies(attempt)
    case Granted => assert GrantedAt(h, h.current, replies, attempt, attempt);
    case Rejected(code) =>
    case Failed(code) =>
    case TryNext(code) =>
      var t := AfterNext(h, codes, true, false, now);
      if NoSkipsAhead(h) {
        SearchWithoutSkips(h, codes, now);
      }
      if t.found && t.hunt.profiles[t.hunt.current].disconnectCode == 0 {
        ProcessedEnds(t.hunt, codes, replies, attempt + 1, now);
        var r := Processed(t.hunt, codes, replies, attempt + 1, now);
        if r.found {
          var k :| GrantedAt(r.hunt, t.hunt.current, replies, attempt + 1, k);
          StoppedLater(r.hunt, h.current, replies, attempt, k);
          assert GrantedAt(r.hunt, h.current, replies, attempt, k);
        }
      }
  }

  lemma {:induction false} ChosenFromEnds(h: Hunt, codes: Codes, replies: Replies, attempt: nat, now: nat)
    requires h.Ready() && h.profiles[h.current].disconnectCode == 0
    ensures var t := ChosenFrom(h, codes, replies, attempt, now);
      && h.current <= t.hunt.current < |h.profiles| && t.hunt.profiles == h.profiles
      && h.profiles[t.hunt.current].disconnectCode == 0
      && (t.found ==> Settled(t.hunt, h.current, replies, attempt))
      && (NoSkipsAhead(h) ==> t.hunt.posted == h.posted)
    decreases |h.profiles| - h.current
  {
    hide Unskipped, SkipCdrs;
    assert SettledAt(h, h.current, replies, attempt, attempt)
      <== (h.profiles[h.current].needsResources ==> replies(attempt) == Granted);
    if h.profiles[h.current].needsResources {
      if replies(attempt).TryNext? {
        var t := AfterNext(h, codes, false, true, now);
        if t.found {
          ChosenFromEnds(t.hunt, codes, replies, attempt + 1, now);
          var r := ChosenFrom(t.hunt, codes, replies, attempt + 1, now);
          if r.found {
            SettledLater(r.hunt, h.current, replies, attempt);
          }
        }
      } else {
        assert replies(attempt).Granted? ==> replies(attempt) == Granted;
      }
    }
  }

  /** The hunt stands on a profile that needs no resources or was granted them. */
  ghost predicate Settled(h: Hunt, start: nat, replies: Replies, attempt: nat)
    requires start <= |h.profiles| && h.current < |h.profiles|
  {
    exists k: nat :: SettledAt(h, start, replies, attempt, k)
  }

  predicate SettledAt(h: Hunt, start: nat, replies: Replies, attempt: nat, k: nat)
    requires start <= |h.profiles| && h.current < |h.profiles|
  {
    StoppedAt(h, start, replies, attempt, k) && (h.profiles[h.current].needsResources ==> replies(k) == Granted)
  }

  lemma SettledLater(h: Hunt, start: nat, replies: Replies, attempt: nat)
    requires start < |h.profiles| && h.current < |h.profiles| && replies(attempt).TryNext?
    requires Settled(h, NextIndex(h.profiles, start), replies, attempt + 1)
    ensures Settled(h, start, replies, attempt)
  {
    var k: nat :| SettledAt(h, NextIndex(h.profiles, start), replies, attempt + 1, k);
    StoppedLater(h, start, replies, attempt, k);
    assert SettledAt(h, start, replies, attempt, k);
  }

  /** After a refusal the call moves to a later profile that does not refuse and that needs no
      resources or was granted them; the record of the failed attempt is the one that is sent. */
  lemma ChosenEnds(h: Hunt, codes: Codes, replies: Replies, now: nat)
    requires h.Ready()
    ensures var t := Chosen(h, codes, replies, now);
      && t.hunt.profiles == h.profiles
      && (t.found ==>
            && h.current < t.hunt.current < |h.profiles|
            && h.profiles[t.hunt.current].disconnectCode == 0
            && Settled(t.hunt, NextIndex(h.profiles, h.current), replies, 0))
      && (NoSkipsAhead(h) ==>
            t.hunt.posted == h.posted + if Advances(h, false) then [Written(h.cdr.value, false)] else [])
  {
    hide ChosenFrom, SkipCdrs, Written;
    var t := AfterNext(h, codes, false, false, now);
    if t.found {
      ChosenFromEnds(t.hunt, codes, replies, 0, now);
    }
  }

  // ---------- what the record tells when it ends without a profile ----------

  predicate Untold(h: Hunt) {
    h.cdr.Some? && !h.cdr.value.writed && !h.cdr.value.initiatorWrited && !h.cdr.value.alegReasonWrited
  }

  predicate Told(h: Hunt, internal: Reason, response: Reason) {
    && h.cdr.Some? && h.cdr.value.initiator == ByTS
    && h.cdr.value.internalReason == internal && h.cdr.value.rewritedReason == response
  }

  lemma SearchUntold(h: Hunt, codes: Codes, early: bool, failover: bool, now: nat)
    requires h.Ready() && (Untold(h) || (!early && !failover && Advances(h, early)))
    ensures Untold(AfterNext(h, codes, early, failover, now).hunt)
  {
    hide Skips, Advances;
  }

  /** The request for resources numbered k was not granted on profile i, and all before it were passed over. */
  predicate DeniedAt(profiles: seq<Profile>, start: nat, i: nat, replies: Replies, attempt: nat, k: nat)
    requires start <= |profiles|
  {
    && attempt <= k && i == Hop(profiles, start, k - attempt) && i < |profiles| && !replies(k).Granted?
    && forall j :: attempt <= j < k ==> replies(j).TryNext?
  }

  /** A refusal is told on the profile it came for.  After the order to try the next one, the record tells
      that there is none, or the refusing profile that comes next is told with the code of that order. */
  predicate FailedAt(h: Hunt, start: nat, codes: Codes, replies: Replies, attempt: nat, k: nat, i: nat)
    requires start <= |h.profiles| && h.current < |h.profiles|
  {
    && DeniedAt(h.profiles, start, i, replies, attempt, k)
    && var t := codes(replies(k).code, h.profiles[h.current].overrideId);
       if replies(k).TryNext? && NextIndex(h.profiles, i) == |h.profiles|
       then h.current == i && Told(h, Reason("no more profiles", 503), Reason("no more profiles", 503))
       else Told(h, t.internal, t.response)
            && if replies(k).TryNext?
               then h.current == NextIndex(h.profiles, i) && h.profiles[h.current].disconnectCode != 0
               else h.current == i
  }

  lemma FailedLater(h: Hunt, start: nat, codes: Codes, replies: Replies, attempt: nat, k: nat, i: nat)
    requires start < |h.profiles| && h.current < |h.profiles| && replies(attempt).TryNext?
    requires FailedAt(h, NextIndex(h.profiles, start), codes, replies, attempt + 1, k, i)
    ensures FailedAt(h, start, codes, replies, attempt, k, i)
  {
    hide NextIndex, Told;
  }

  lemma RefusedFails(h: Hunt, codes: Codes, code: int, now: nat)
    requires h.Valid() && Untold(h) && h.current < |h.profiles|
    ensures var t := codes(code, h.profiles[h.current].overrideId);
            Told(Refused(h, codes, code, now), t.internal, t.response)
  {
    RefusedTells(h, codes, code, now);
  }

  lemma NoMoreTells(h: Hunt, now: nat)
    requires Untold(h)
    ensures Told(Noted(h, Internal(ByTS, NO_MORE_PROFILES, now)), Reason("no more profiles", 503), Reason("no more profiles", 503))
  {}

  /** A first request that is refused: which reply of the resource control it ended with, and what is told. */
  lemma {:induction false} ProcessedFails(h: Hunt, codes: Codes, replies: Replies, attempt: nat, now: nat)
    requires h.Ready() && Untold(h)
    ensures var t := Processed(h, codes, replies, attempt, now);
      && t.hunt.profiles == h.profiles && t.hunt.current < |h.profiles|
      && (!t.found ==> exists k, i :: FailedAt(t.hunt, h.current, codes, replies, attempt, k, i))
    decreases |h.profiles| - h.current
  {
    hide Refused, Skips, NextIndex, Told, Untold, Noted;
    match replies(attempt)
    case Granted =>
    case Rejected(code) =>
      RefusedFails(h, codes, code, now);
      assert FailedAt(Refused(h, codes, code, now), h.current, codes, replies, attempt, attempt, h.current);
    case Failed(code) =>
      RefusedFails(h, codes, code, now);
      assert FailedAt(Refused(h, codes, code, now), h.current, codes, replies, attempt, attempt, h.current);
    case TryNext(code) =>
      hide AfterNext;
      SearchUntold(h, codes, true, false, now);
      var t := AfterNext(h, codes, true, false, now);
      var r := Processed(h, codes, replies, attempt, now);
      if !t.found {
        NoMoreTells(t.hunt, now);
        assert FailedAt(r.hunt, h.current, codes, replies, attempt, attempt, h.current);
      } else if t.hunt.profiles[t.hunt.current].disconnectCode != 0 {
        RefusedFails(t.hunt, codes, code, now);
        assert FailedAt(r.hunt, h.current, codes, replies, attempt, attempt, h.current);
      } else {
        ProcessedFails(t.hunt, codes, replies, attempt + 1, now);
        if !r.found {
          var k, i :| FailedAt(r.hunt, t.hunt.current, codes, replies, attempt + 1, k, i);
          FailedLater(r.hunt, h.current, codes, replies, attempt, k, i);
        }
      }
  }

  /** A choice ends without a profile on the one whose resources were denied; the record tells the answer to
      the caller for the last reply of the resource control. */
  predicate DroppedAt(h: Hunt, start: nat, codes: Codes, replies: Replies, attempt: nat, k: nat)
    requires start <= |h.profiles| && h.current < |h.profiles|
  {
    && DeniedAt(h.profiles, start, h.current, replies, attempt, k)
    && h.profiles[h.current].needsResources
    && (replies(k).TryNext? ==> !Moves(h.profiles, h.current, false))
    && var t := codes(replies(k).code, h.profiles[h.current].overrideId); Told(h, t.response, t.response)
  }

  lemma DroppedLater(h: Hunt, start: nat, codes: Codes, replies: Replies, attempt: nat, k: nat)
    requires start < |h.profiles| && h.current < |h.profiles| && replies(attempt).TryNext?
    requires DroppedAt(h, NextIndex(h.profiles, start), codes, replies, attempt + 1, k)
    ensures DroppedAt(h, start, codes, replies, attempt, k)
  {
    hide NextIndex, Told, Moves;
  }

  lemma BlameTells(h: Hunt, codes: Codes, code: int, now: nat)
    requires h.Valid() && Untold(h) && h.current < |h.profiles|
    ensures var t := codes(code, h.profiles[h.current].overrideId);
            Told(Blame(h, codes, code, now), t.response, t.response)
  {}

  lemma {:induction false} ChosenFromFails(h: Hunt, codes: Codes, replies: Replies, attempt: nat, now: nat)
    requires h.Ready() && Untold(h)
    ensures var t := ChosenFrom(h, codes, replies, attempt, now);
      && t.hunt.profiles == h.profiles && t.hunt.current < |h.profiles|
      && (!t.found ==> exists k :: DroppedAt(t.hunt, h.current, codes, replies, attempt, k))
    decreases |h.profiles| - h.current
  {
    hide NextIndex, Told, Untold, AfterNext;
    if h.profiles[h.current].needsResources && !replies(attempt).Granted? {
      var code, r := replies(attempt).code, ChosenFrom(h, codes, replies, attempt, now);
      SearchUntold(h, codes, false, true, now);
      var t := AfterNext(h, codes, false, true, now);
      if !replies(attempt).TryNext? {
        BlameTells(h, codes, code, now);
        assert DroppedAt(r.hunt, h.current, codes, replies, attempt, attempt);
      } else if !t.found {
        BlameTells(t.hunt, codes, code, now);
        assert DroppedAt(r.hunt, h.current, codes, replies, attempt, attempt);
      } else {
        ChosenFromFails(t.hunt, codes, replies, attempt + 1, now);
        if !r.found {
          var k :| DroppedAt(r.hunt, t.hunt.current, codes, replies, attempt + 1, k);
          DroppedLater(r.hunt, h.current, codes, replies, attempt, k);
        }
      }
    }
  }

  /** A choice without a result: there was no profile to move to, or the one it ended on was denied. */
  lemma ChosenFails(h: Hunt, codes: Codes, replies: Replies, now: nat)
    requires h.Ready()
    ensures var t := Chosen(h, codes, replies, now);
      && t.hunt.profiles == h.profiles && t.hunt.current < |h.profiles|
      && (!t.found && !Moves(h.profiles, h.current, false) ==>
            t.hunt.current == h.current && t.hunt.cdr == h.cdr)
      && (!t.found && Moves(h.profiles, h.current, false) ==>
            exists k :: DroppedAt(t.hunt, NextIndex(h.profiles, h.current), codes, replies, 0, k))
  {
    hide DroppedAt, ChosenFrom, Skips, Untold;
    var t := AfterNext(h, codes, false, false, now);
    if t.found {
      SearchUntold(h, codes, false, false, now);
      ChosenFromFails(t.hunt, codes, replies, 0, now);
    }
  }

  /** A skipped profile that is passed at the front: its record tells the reasons of the skip code, if it is to be
      recorded, and goes out; the next one is new. */
  lemma PassedTells(h: Hunt, codes: Codes, now: nat)
    requires h.Valid() && h.current < |h.profiles| && h.cdr.Some?
    ensures var p, d, e := h.profiles[h.current], h.cdr.value, Explained(h, codes, now).cdr.value;
      var t := codes(p.skipCode, p.overrideId);
      && (!t.write ==> e == d)
      && (t.write ==> e.rewritedReason == t.response && e.alegReasonWrited
                      && (!d.initiatorWrited ==> e.internalReason == t.internal && e.initiator == ByTS))
      && e.attemptNum == d.attemptNum && e.startTime == d.startTime
      && (h.current + 1 < |h.profiles| ==>
            && PassedOne(h, codes, now).posted == h.posted + [e.(writed := true, isLast := false)]
            && PassedOne(h, codes, now).cdr == Some(EMPTY.(attemptNum := d.attemptNum + 1, startTime := d.startTime,
                                                           endTime := d.startTime)))
  {}

  // ---------- runs ----------

  datatype World = World(codes: Codes, userInto: UserInto)

  datatype Step =
    | Update(update: Update)
    | Expand(aors: Aors, now: nat)
    | Process(replies: Replies, now: nat)
    | Choose(replies: Replies, now: nat)
    | Finish(last: bool)

  /** The registrations arrive while the first profile is current; a hunt needs a record. */
  ghost predicate Enabled(h: Hunt, s: Step) {
    match s
    case Update(u) => !u.Write?
    case Expand(aors, _) => h.Valid() && NoEmptyAor(aors) && h.current == 0 && h.profiles != []
    case Process(_, _) => h.Ready()
    case Choose(_, _) => h.Ready()
    case Finish(_) => h.Valid()
  }

  function StepAfter(w: World, h: Hunt, s: Step): (r: Hunt)
    requires Enabled(h, s)
    ensures h.Valid() ==> r.Valid()
  {
    match s
    case Update(u) => Noted(h, u)
    case Expand(aors, now) =>
      NeverEmptied(h.profiles, aors, w.userInto);
      Passed(h.(profiles := Expanded(h.profiles, aors, w.userInto)), w.codes, now).hunt
    case Process(replies, now) => Processed(h, w.codes, replies, 0, now).hunt
    case Choose(replies, now) => Chosen(h, w.codes, replies, now).hunt
    case Finish(last) => Sent(h, last)
  }

  lemma NeverEmptied(profiles: seq<Profile>, aors: Aors, userInto: UserInto)
    requires NoEmptyAor(aors) && profiles != []
    ensures Expanded(profiles, aors, userInto) != []
  {}

  ghost predicate IsRun(w: World, hunts: seq<Hunt>, steps: seq<Step>) {
    && |hunts| == |steps| + 1
    && forall i :: 0 <= i < |steps| ==>
         hunts[i].Valid() && Enabled(hunts[i], steps[i]) && hunts[i + 1] == StepAfter(w, hunts[i], steps[i])
  }

  /** Every search of the step is in order, told by the profiles, the table and the replies. */
  predicate StepInOrder(w: World, h: Hunt, s: Step)
    requires (s.Process? || s.Choose?) ==> h.current < |h.profiles|
  {
    match s
    case Process(replies, _) => ProcessInOrder(h.profiles, h.current, w.codes, replies, 0)
    case Choose(replies, _) => ChooseInOrder(h.profiles, h.current, w.codes, replies)
    case _ => true
  }

  lemma StepKeeps(w: World, h: Hunt, s: Step)
    requires h.Valid() && Enabled(h, s)
    ensures Sealed(h) ==> Sealed(StepAfter(w, h, s))
    ensures Numbered(StepAfter(w, h, s)) <==> Numbered(h) && StepInOrder(w, h, s)
  {
    hide Sealed, Numbered, Noted, Passed, Processed, Chosen, Sent, Expanded, ProcessInOrder, ChooseInOrder;
    match s
    case Update(u) => NotedKeeps(h, u);
    case Expand(aors, now) =>
      NeverEmptied(h.profiles, aors, w.userInto);
      NumberedWith(h, Expanded(h.profiles, aors, w.userInto));
      PassedKeeps(h.(profiles := Expanded(h.profiles, aors, w.userInto)), w.codes, now);
    case Process(replies, now) => ProcessedKeeps(h, w.codes, replies, 0, now);
    case Choose(replies, now) => ChosenKeeps(h, w.codes, replies, now);
    case Finish(last) => SentKeeps(h, last);
  }

  lemma NumberedWith(h: Hunt, profiles: seq<Profile>)
    requires h.Valid() && h.current <= |profiles|
    ensures Numbered(h.(profiles := profiles)) <==> Numbered(h)
    ensures Sealed(h) ==> Sealed(h.(profiles := profiles))
  {}

  /** In every run, a record that is sent as the last one is the last record that is sent. */
  lemma {:induction false} LastIsLast(w: World, hunts: seq<Hunt>, steps: seq<Step>)
    requires IsRun(w, hunts, steps) && Sealed(hunts[0])
    ensures Sealed(hunts[|steps|])
  {
    hide Enabled, StepAfter, Sealed;
    if steps != [] {
      var n := |steps| - 1;
      LastIsLast(w, hunts[..n + 1], steps[..n]);
      StepKeeps(w, hunts[n], steps[n]);
    }
  }

  /** After any run the records are numbered from 1 on, one number each, if and only if they were at
      its beginning and every search of it was in order: a number that is lost stays lost. */
  lemma {:induction false} NumberedExactly(w: World, hunts: seq<Hunt>, steps: seq<Step>)
    requires IsRun(w, hunts, steps)
    ensures Numbered(hunts[|steps|])
       <==> Numbered(hunts[0]) && forall i :: 0 <= i < |steps| ==> StepInOrder(w, hunts[i], steps[i])
  {
    hide StepAfter, Numbered, StepInOrder;
    if steps != [] {
      var n := |steps| - 1;
      NumberedExactly(w, hunts[..n + 1], steps[..n]);
      StepKeeps(w, hunts[n], steps[n]);
      assert forall i :: 0 <= i < n ==> StepInOrder(w, hunts[..n + 1][i], steps[..n][i]) == StepInOrder(w, hunts[i], steps[i]);
    }
  }

  /** So they are in every run that hunts among profiles without skip codes. */
  lemma {:induction false} NumberedInOrder(w: World, hunts: seq<Hunt>, steps: seq<Step>)
    requires IsRun(w, hunts, steps) && Numbered(hunts[0])
    requires forall i :: 0 <= i < |steps| && (steps[i].Process? || steps[i].Choose?) ==> NoSkipsAhead(hunts[i])
    ensures Numbered(hunts[|steps|])
  {
    hide StepAfter, Numbered, ProcessInOrder, ChooseInOrder;
    forall i | 0 <= i < |steps|
      ensures StepInOrder(w, hunts[i], steps[i])
    {
      match steps[i]
      case Process(replies, _) => NoSkipsInOrder(hunts[i].profiles, hunts[i].current, w.codes, replies, 0);
      case Choose(replies, _) => NoSkipsChooseInOrder(hunts[i].profiles, hunts[i].current, w.codes, replies);
      case _ =>
    }
    NumberedExactly(w, hunts, steps);
  }

  /** A call from its beginning: the last record is the last one in every run, and the records are
      numbered from 1 on exactly in the runs whose searches are in order. */
  lemma HuntFromTheStart(w: World, profiles: seq<Profile>, start: nat, hunts: seq<Hunt>, steps: seq<Step>)
    requires profiles != [] && IsRun(w, hunts, steps) && hunts[0] == Begun(profiles, start)
    ensures Sealed(hunts[|steps|])
    ensures Numbered(hunts[|steps|]) <==> forall i :: 0 <= i < |steps| ==> StepInOrder(w, hunts[i], steps[i])
  {
    hide StepAfter, Sealed, Numbered, StepInOrder;
    BegunInOrder(profiles, start);
    LastIsLast(w, hunts, steps);
    NumberedExactly(w, hunts, steps);
  }

  lemma BegunInOrder(profiles: seq<Profile>, start: nat)
    requires profiles != []
    ensures Sealed(Begun(profiles, start)) && Numbered(Begun(profiles, start))
  {}

  // ---------- the expanded list ----------

  lemma ExpandedSize(p: Profile, aors: Aors, userInto: UserInto)
    ensures |ExpandedOne(p, aors, userInto)| == if NeedsAor(p) && p.aorId in aors then |aors[p.aorId]| else 1
  {}

  /** The profiles keep their order, and what one of them becomes stays together: as many as it
      has contacts if it is registered, else one. */
  lemma {:induction false} ExpandedAt(profiles: seq<Profile>, aors: Aors, userInto: UserInto, i: nat, k: nat)
    requires i < |profiles| && k < |ExpandedOne(profiles[i], aors, userInto)|
    ensures |ExpandedOne(profiles[i], aors, userInto)|
         == if NeedsAor(profiles[i]) && profiles[i].aorId in aors then |aors[profiles[i].aorId]| else 1
    ensures var start := |Expanded(profiles[..i], aors, userInto)|;
      && start + k < |Expanded(profiles, aors, userInto)|
      && Expanded(profiles, aors, userInto)[start + k] == ExpandedOne(profiles[i], aors, userInto)[k]
  {
    hide ExpandedOne;
    ExpandedSize(profiles[i], aors, userInto);
    var n := |profiles| - 1;
    if i < n {
      ExpandedAt(profiles[..n], aors, userInto, i, k);
      assert profiles[..n][..i] == profiles[..i];
    }
  }

  /** A profile that is to be called through a registration that is not there. */
  predicate Missing(p: Profile, aors: Aors) {
    p.disconnectCode == 0 && p.aorId != 0 && p.aorId !in aors
  }

  /** One place for each contact of a registered profile, and one for any other. */
  function Places(p: Profile, aors: Aors): nat {
    if p.disconnectCode == 0 && p.aorId != 0 && p.aorId in aors then |aors[p.aorId]| else 1
  }

  function PlacesBefore(profiles: seq<Profile>, aors: Aors, n: nat): nat
    requires n <= |profiles|
  {
    if n == 0 then 0 else PlacesBefore(profiles, aors, n - 1) + Places(profiles[n - 1], aors)
  }

  lemma {:induction false} PlacesAre(profiles: seq<Profile>, aors: Aors, userInto: UserInto, n: nat)
    requires n <= |profiles|
    ensures |Expanded(profiles[..n], aors, userInto)| == PlacesBefore(profiles, aors, n)
  {
    hide ExpandedOne;
    if n > 0 {
      PlacesAre(profiles, aors, userInto, n - 1);
      ExpandedSize(profiles[n - 1], aors, userInto);
      assert profiles[..n][..n - 1] == profiles[..n - 1];
    }
  }

  /** What stands at the places of a profile: itself if it refuses or asks for no registration, itself with the
      code 131 if its registration is missing, else the profile with the first contact, codes and all. */
  lemma {:induction false} ExpandedAs(profiles: seq<Profile>, aors: Aors, userInto: UserInto, i: nat, k: nat)
    requires i < |profiles| && k < Places(profiles[i], aors)
    ensures |Expanded(profiles, aors, userInto)| == PlacesBefore(profiles, aors, |profiles|)
    ensures PlacesBefore(profiles, aors, i) + k < |Expanded(profiles, aors, userInto)|
    ensures var p, q := profiles[i], Expanded(profiles, aors, userInto)[PlacesBefore(profiles, aors, i) + k];
      && (p.disconnectCode != 0 || p.aorId == 0 ==> q == p)
      && (Missing(p, aors) ==> q == p.(skipCode := 131))
      && (p.disconnectCode == 0 && p.aorId != 0 && p.aorId in aors ==>
            var c := aors[p.aorId][0];
            q == p.(ruri := if p.keepsUser then userInto(p.ruri, c.contact) else c.contact,
                    route := if c.path != "" then c.path else p.route))
  {
    hide Expanded;
    PlacesAre(profiles, aors, userInto, i);
    PlacesAre(profiles, aors, userInto, |profiles|);
    assert profiles[..|profiles|] == profiles;
    ExpandedSize(profiles[i], aors, userInto);
    ExpandedAt(profiles, aors, userInto, i, k);
  }

  lemma {:induction false} MissingIsSkipped(profiles: seq<Profile>, aors: Aors, userInto: UserInto)
    ensures forall q :: q in Expanded(profiles, aors, userInto) && Missing(q, aors) ==> q.skipCode == 131
    ensures profiles != [] && NoEmptyAor(aors) ==>
              Expanded(profiles, aors, userInto) != []
              && Expanded(profiles, aors, userInto)[0].disconnectCode == profiles[0].disconnectCode
  {
    if profiles != [] {
      MissingIsSkipped(profiles[..|profiles| - 1], aors, userInto);
    }
  }

  /** When the call goes on after the registrations have arrived, its current profile is not skipped, does not
      refuse, and if it is to be called through a registration, that registration is there. */
  lemma CalledIsRegistered(h: Hunt, aors: Aors, userInto: UserInto, codes: Codes, now: nat)
    requires h.Valid() && NoEmptyAor(aors) && h.current == 0 && h.profiles != []
    requires h.profiles[0].disconnectCode == 0
    ensures var expanded := Expanded(h.profiles, aors, userInto);
      && expanded != []
      && var t := Passed(h.(profiles := expanded), codes, now);
         && t.hunt.profiles == expanded
         && (t.found ==>
               && t.hunt.current < |expanded|
               && expanded[t.hunt.current].skipCode == 0 && expanded[t.hunt.current].disconnectCode == 0
               && (expanded[t.hunt.current].aorId != 0 ==> expanded[t.hunt.current].aorId in aors))
  {
    hide Expanded, Passed;
    MissingIsSkipped(h.profiles, aors, userInto);
    var expanded := Expanded(h.profiles, aors, userInto);
    var t := Passed(h.(profiles := expanded), codes, now);
    PassedEnds(h.(profiles := expanded), codes, now);
    if t.found {
      assert expanded[t.hunt.current] in expanded;
    }
  }

  /** The copies that the contacts call for, each with its own. */
  function OwnContacts(p: Profile, contacts: seq<Contact>, userInto: UserInto): seq<Profile>
    requires contacts != []
  {
    var first := Resolved(p, contacts[0], userInto);
    seq(|contacts|, i requires 0 <= i < |contacts| =>
                      if i == 0 then first else Resolved(first, contacts[i], userInto))
  }

  /** The copies have their own contacts if and only if every contact leads where the first one
      does. */
  lemma CopiesKeepFirstContact(p: Profile, aors: Aors, userInto: UserInto)
    requires NeedsAor(p) && p.aorId in aors && aors[p.aorId] != []
    ensures var contacts := aors[p.aorId];
      var first := Resolved(p, contacts[0], userInto);
      ExpandedOne(p, aors, userInto) == OwnContacts(p, contacts, userInto)
      <==> forall i :: 0 < i < |contacts| ==>
             && (if p.keepsUser then userInto(first.ruri, contacts[i].contact) else contacts[i].contact) == first.ruri
             && (contacts[i].path == "" || contacts[i].path == first.route)
  {
    var contacts := aors[p.aorId];
    var first := Resolved(p, contacts[0], userInto);
    var own, got := OwnContacts(p, contacts, userInto), ExpandedOne(p, aors, userInto);
    forall i | 0 < i < |contacts|
      ensures own[i] == got[i] <==>
                && (if p.keepsUser then userInto(first.ruri, contacts[i].contact) else contacts[i].contact) == first.ruri
                && (contacts[i].path == "" || contacts[i].path == first.route)
    {
      assert own[i] == Resolved(first, contacts[i], userInto) && got[i] == first;
    }
    assert own[0] == first == got[0] && |own| == |got|;
    if forall i :: 0 < i < |contacts| ==> own[i] == got[i] {
      assert own == got;
    }
  }
}

/** The objects that hunt: the context that the legs of a call share, and the leg's loops. */
module CallContexts {
  import opened Options
  import opened Cdrs
  import opened ContextCounts
  import opened HuntSteps

  /** Sends records to the database. */
  class SqlRouter {
    var posted: seq<Data>

    constructor ()
      ensures posted == []
    {
      posted := [];
    }

    /** The caller's pointer to the record is emptied when the record is sent. */
    method WriteCdr(cdr: Cdr?, last: bool) returns (kept: Cdr?)
      modifies this, cdr
      ensures cdr == null ==> kept == null && posted == old(posted)
      ensures cdr != null && old(cdr.writed) ==>
                kept == cdr && posted == old(posted) && cdr.Value() == old(cdr.Value())
      ensures cdr != null && !old(cdr.writed) ==>
                kept == null && posted == old(posted) + [Written(old(cdr.Value()), last)]
    {
      if cdr == null { return cdr; }
      if cdr.writed { return cdr; }
      cdr.writed := true;
      cdr.isLast := last;
      posted := posted + [cdr.Value()];
      return null;
    }
  }

  class CallCtx {
    const router: SqlRouter
    const codes: Codes
    var references: nat
    var cdr: Cdr?
    var profiles: seq<Profile>
    var current: nat
    /** How often the memory was given back, and how often the last record was asked for. */
    var freed: nat
    var closed: nat

    constructor (router: SqlRouter, codes: Codes)
      ensures this.router == router && this.codes == codes
      ensures State() == Hunt([], 0, None, router.posted) && Count() == Context(0, 0, 0)
    {
      this.router, this.codes := router, codes;
      references, cdr, profiles, current, freed, closed := 0, null, [], 0, 0, 0;
    }

    function Count(): Context
      reads this
    {
      Context(references, freed, closed)
    }

    ghost function State(): Hunt
      reads this, router, cdr
    {
      Hunt(profiles, current, if cdr == null then None else Some(cdr.Value()), router.posted)
    }

    /** The first profile becomes the current one and gets a record. */
    method GetFirstProfile() returns (found: bool)
      modifies this`current, this`cdr
      ensures found <==> profiles != []
      ensures !found ==> cdr == old(cdr) && State() == old(State())
      ensures found ==> fresh(cdr) && State() == old(State()).(current := 0, cdr := Some(EMPTY))
    {
      if profiles == [] { return false; }
      current := 0;
      cdr := new Cdr();
      return true;
    }

    /** The record object stays the same unless the next profile is a new attempt. */
    method GetNextProfile(early: bool, failover: bool, now: nat) returns (found: bool)
      requires State().Ready()
      modifies this`current, this`cdr, router, cdr
      ensures var t := AfterNext(old(State()), codes, early, failover, now);
              found == t.found && State() == t.hunt
      ensures cdr == old(cdr) || fresh(cdr)
      ensures early || failover || !found ==> cdr == old(cdr)
    {
      hide SkipCdr, SkipCdrs, Next, Acted, Blamed, Derived, Unskipped;
      ghost var h := State();
      var nextProfile := current;
      var attempts := cdr.attemptNum;
      if profiles[nextProfile].skipCode != 0 {
        nextProfile, attempts := RecordSkipped(now);
        if nextProfile == |profiles| { return false; }
      } else {
        nextProfile := nextProfile + 1;
        if nextProfile == |profiles| { return false; }
      }
      if !early {
        if profiles[nextProfile].disconnectCode != 0 { return false; }
        if !failover {
          BeginAttempt();
          attempts := attempts + 1;
        }
      }
      cdr.attemptNum := attempts;
      current := nextProfile;
      return true;
    }

    /** The record in hand is sent and followed by one that begins where it began. */
    method BeginAttempt()
      requires State().Valid() && cdr != null
      modifies this`cdr, router, cdr
      ensures fresh(cdr) && cdr.Value() == Derived(old(cdr.Value()))
      ensures router.posted == old(router.posted) + [Written(old(cdr.Value()), false)]
    {
      hide Next, Derived;
      var newCdr := new Cdr.Derive(cdr);
      cdr := router.WriteCdr(cdr, false);
      cdr := newCdr;
    }

    /** Records about the current profile and the skipped ones behind it. */
    method RecordSkipped(now: nat) returns (next: nat, attempts: int)
      requires State().Ready() && profiles[current].skipCode != 0
      modifies router
      ensures next == NextIndex(profiles, current)
      ensures router.posted == old(router.posted) + Skips(old(State()), codes, now)
      ensures attempts == cdr.attemptNum + |Skips(old(State()), codes, now)|
    {
      hide SkipCdr;
      next, attempts := current, cdr.attemptNum;
      ghost var d, sent := cdr.Value(), [];
      while true
        invariant current <= next < |profiles| && profiles[next].skipCode != 0
        invariant NextIndex(profiles, next) == NextIndex(profiles, current)
        invariant sent == SkipCdrs(codes, d, profiles, current, next, now)
        invariant router.posted == old(router.posted) + sent && attempts == d.attemptNum + |sent|
        decreases |profiles| - next
      {
        var p := profiles[next];
        var t := codes(p.skipCode, p.overrideId);
        if t.write {
          SendSkipCdr(p, attempts, now);
          sent := sent + [SkipCdr(codes, d, p, attempts, now)];
          attempts := attempts + 1;
        }
        next := next + 1;
        if next == |profiles| || profiles[next].skipCode == 0 { break; }
      }
    }

    method SendSkipCdr(p: Profile, attempts: int, now: nat)
      requires cdr != null
      modifies router
      ensures router.posted == old(router.posted) + [SkipCdr(codes, cdr.Value(), p, attempts, now)]
    {
      var skipCdr := new Cdr.Derive(cdr);
      skipCdr.attemptNum := attempts;
      skipCdr.UpdateInternalReason(ByTS, codes(p.skipCode, p.overrideId).internal, now);
      var _ := router.WriteCdr(skipCdr, false);
    }

    method GetOverrideId() returns (id: int)
      ensures id == Override(State())
    {
      if current >= |profiles| { return 0; }
      return profiles[current].overrideId;
    }
  }

  /** A leg, which holds the context of its call, and on the calling side the loops that look
      for a profile the call can use. */
  class SBCCallLeg {
    const userInto: UserInto
    var callCtx: CallCtx?

    constructor (userInto: UserInto)
      ensures this.userInto == userInto && callCtx == null
    {
      this.userInto := userInto;
      callCtx := null;
    }

    /** A called leg takes the pointer of its caller. */
    constructor Callee(caller: SBCCallLeg)
      ensures userInto == caller.userInto && callCtx == caller.callCtx
    {
      userInto := caller.userInto;
      callCtx := caller.callCtx;
    }

    /** The second half of the callee's constructor, under the lock. */
    method CountReference()
      requires callCtx != null
      modifies callCtx`references
      ensures callCtx.Count() == Joined(old(callCtx.Count()))
    {
      callCtx.references := callCtx.references + 1;
    }

    method RequestProfiles(router: SqlRouter, codes: Codes)
      modifies this
      ensures fresh(callCtx) && callCtx.router == router && callCtx.codes == codes
      ensures callCtx.Count() == Context(1, 0, 0) && callCtx.State() == Hunt([], 0, None, router.posted)
    {
      callCtx := new CallCtx(router, codes);
      callCtx.references := callCtx.references + 1;
    }

    /** The answer with the profiles is in: the hunt begins, or there is nothing to hunt for. */
    method OnProfilesReady(profiles: seq<Profile>, start: nat) returns (found: bool)
      requires callCtx != null && callCtx.State().Valid()
      modifies this, callCtx, callCtx.router, callCtx.cdr
      ensures found <==> profiles != []
      ensures found ==> callCtx == old(callCtx) && fresh(callCtx.cdr) && callCtx.Count() == old(callCtx.Count())
                        && callCtx.State() == Begun(profiles, start).(posted := old(callCtx.router.posted))
      ensures !found ==> callCtx == null && old(callCtx).Count() == Abandoned(old(callCtx.Count()), false)
    {
      callCtx.profiles := profiles;
      callCtx.current := |profiles|;
      found := callCtx.GetFirstProfile();
      if !found {
        AbandonCall(false);
        return;
      }
      callCtx.cdr.SetStartTime(start);
    }

    /** The request for profiles failed, or the call is refused before any leg is called. */
    method AbandonCall(record: bool)
      requires callCtx != null && callCtx.State().Valid()
      modifies this, callCtx, callCtx.router, callCtx.cdr
      ensures callCtx == null
      ensures old(callCtx).Count() == Abandoned(old(callCtx.Count()), record)
      ensures record ==> old(callCtx).State() == Sent(old(callCtx.State()), true)
      ensures !record ==> old(callCtx).State() == old(callCtx.State())
    {
      if record {
        callCtx.cdr := callCtx.router.WriteCdr(callCtx.cdr, true);
        callCtx.closed := callCtx.closed + 1;
      }
      callCtx.freed := callCtx.freed + 1;
      callCtx := null;
    }

    /** What the leg reaches through its pointer. */
    ghost function Held(): set<object?>
      reads this, callCtx
    {
      if callCtx == null then {} else {callCtx, callCtx.router, callCtx.cdr}
    }

    /** The last leg asks for the last record and frees the context. */
    method OnBeforeDestroy()
      requires callCtx != null ==> callCtx.State().Valid()
      modifies this, Held()
      ensures callCtx == null
      ensures old(callCtx) != null ==>
                && old(callCtx).Count() == Released(old(callCtx.Count()))
                && old(callCtx).State() == if old(callCtx.references) <= 1 then Sent(old(callCtx.State()), true)
                                           else old(callCtx.State())
    {
      if callCtx == null { return; }
      if callCtx.references != 0 {
        callCtx.references := callCtx.references - 1;
      }
      if callCtx.references == 0 {
        callCtx.cdr := callCtx.router.WriteCdr(callCtx.cdr, true);
        callCtx.closed := callCtx.closed + 1;
        callCtx.freed := callCtx.freed + 1;
      }
      callCtx := null;
    }

    method OnRefer()
      requires callCtx != null
      modifies this, callCtx`references
      ensures callCtx == null && old(callCtx).Count() == Forgotten(old(callCtx.Count()))
      ensures old(callCtx).State() == old(callCtx.State())
    {
      callCtx.references := if callCtx.references > 0 then callCtx.references - 1 else UINT_MAX;
      callCtx := null;
    }

    /** An exception that refuses the call has put its reason into the record. */
    method Refuse(cdr: Cdr, code: int, now: nat)
      requires callCtx != null && callCtx.cdr == cdr && callCtx.State().Valid()
      modifies cdr
      ensures callCtx.State() == Refused(old(callCtx.State()), callCtx.codes, code, now)
    {
      hide Next;
      var overrideId := callCtx.GetOverrideId();
      var t := callCtx.codes(code, overrideId);
      cdr.UpdateInternalReason(ByTS, t.internal, now);
      cdr.UpdateInternalReason(ByTS, t.response, now);
    }

    method ProcessResources(replies: Replies, now: nat) returns (ok: bool)
      requires callCtx != null && callCtx.State().Ready()
      modifies callCtx`current, callCtx`cdr, callCtx.router, callCtx.cdr
      ensures var t := Processed(old(callCtx.State()), callCtx.codes, replies, 0, now);
              ok == t.found && callCtx.State() == t.hunt
      ensures callCtx.cdr == old(callCtx.cdr)
    {
      hide AfterNext, Next, Refused;
      var cdr := callCtx.cdr;
      var attempt := 0;
      ghost var whole := Processed(callCtx.State(), callCtx.codes, replies, 0, now);
      while true
        invariant callCtx.State().Ready() && callCtx.cdr == cdr == old(callCtx.cdr)
        invariant Processed(callCtx.State(), callCtx.codes, replies, attempt, now) == whole
        decreases |callCtx.profiles| - callCtx.current
      {
        match replies(attempt)
        case Granted => return true;
        case Rejected(code) =>
          Refuse(cdr, code, now);
          return false;
        case Failed(code) =>
          Refuse(cdr, code, now);
          return false;
        case TryNext(code) =>
          var found := callCtx.GetNextProfile(true, false, now);
          if !found {
            cdr.UpdateInternalReason(ByTS, NO_MORE_PROFILES, now);
            return false;
          }
          if callCtx.profiles[callCtx.current].disconnectCode != 0 {
            Refuse(cdr, code, now);
            return false;
          }
          attempt := attempt + 1;
      }
    }

    method ChooseNextProfile(replies: Replies, now: nat) returns (ok: bool)
      requires callCtx != null && callCtx.State().Ready()
      modifies callCtx`current, callCtx`cdr, callCtx.router, callCtx.cdr
      ensures var t := Chosen(old(callCtx.State()), callCtx.codes, replies, now);
              ok == t.found && callCtx.State() == t.hunt
    {
      hide AfterNext, Next;
      ok := callCtx.GetNextProfile(false, false, now);
      if !ok { return; }
      var cdr := callCtx.cdr;
      var attempt := 0;
      ghost var whole := ChosenFrom(callCtx.State(), callCtx.codes, replies, 0, now);
      while true
        invariant callCtx.State().Ready() && callCtx.cdr == cdr && (cdr == old(callCtx.cdr) || fresh(cdr))
        invariant ChosenFrom(callCtx.State(), callCtx.codes, replies, attempt, now) == whole
        decreases |callCtx.profiles| - callCtx.current
      {
        var reply := Granted;
        if callCtx.profiles[callCtx.current].needsResources {
          reply := replies(attempt);
        }
        if reply.Granted? { return true; }
        if reply.TryNext? {
          ok := callCtx.GetNextProfile(false, true, now);
        }
        if !reply.TryNext? || !ok {
          NoProfile(cdr, reply.code, now);
          return false;
        }
        attempt := attempt + 1;
      }
    }

    /** What is put into the record when the choice ends without a profile. */
    method NoProfile(cdr: Cdr, code: int, now: nat)
      requires callCtx != null && callCtx.cdr == cdr && callCtx.State().Valid()
      modifies cdr
      ensures callCtx.State() == Blame(old(callCtx.State()), callCtx.codes, code, now)
    {
      hide Next;
      var overrideId := callCtx.GetOverrideId();
      cdr.UpdateInternalReason(ByTS, callCtx.codes(code, overrideId).response, now);
    }

    /** The list is rewritten in place, and nothing but the list changes. */
    method ExpandProfiles(aors: Aors)
      requires callCtx != null && NoEmptyAor(aors)
      modifies callCtx`profiles
      ensures callCtx.profiles == Expanded(old(callCtx.profiles), aors, userInto)
    {
      hide Expanded, ExpandedOne;
      ghost var was := callCtx.profiles;
      var it: nat := 0;
      ghost var done := 0;
      ExpandedStart(was, aors, userInto);
      while it < |callCtx.profiles|
        invariant Halfway(callCtx.profiles, was, done, it, aors, userInto)
        decreases |was| - done
      {
        ExpandedStep(callCtx.profiles, was, done, it, aors, userInto);
        it := ExpandProfile(it, aors);
        done := done + 1;
      }
      ExpandedEnd(callCtx.profiles, was, done, it, aors, userInto);
    }

    method ExpandProfile(it: nat, aors: Aors) returns (next: nat)
      requires callCtx != null && NoEmptyAor(aors) && it < |callCtx.profiles|
      modifies callCtx`profiles
      ensures var was := old(callCtx.profiles);
              && next == it + |ExpandedOne(was[it], aors, userInto)|
              && callCtx.profiles == was[..it] + ExpandedOne(was[it], aors, userInto) + was[it + 1..]
    {
      var p := callCtx.profiles[it];
      if p.disconnectCode != 0 || p.aorId == 0 {
        next := it + 1;
      } else if p.aorId !in aors {
        callCtx.profiles := callCtx.profiles[it := p.(skipCode := SC_NOT_REGISTERED)];
        next := it + 1;
      } else {
        next := InsertCopies(it, aors[p.aorId]);
      }
    }

    /** What a contact does to a copy comes after the copy has been inserted and is lost with it. */
    method InsertCopies(at: nat, contacts: seq<Contact>) returns (it: nat)
      requires callCtx != null && at < |callCtx.profiles| && contacts != []
      modifies callCtx`profiles
      ensures it == at + |contacts|
      ensures var was := old(callCtx.profiles);
              callCtx.profiles == was[..at] + Copies(Resolved(was[at], contacts[0], userInto), |contacts|)
                                  + was[at + 1..]
    {
      ghost var was := callCtx.profiles;
      it := at;
      var p := Resolved(callCtx.profiles[it], contacts[0], userInto);
      callCtx.profiles := callCtx.profiles[it := p];
      var k := 1;
      while k < |contacts|
        invariant 1 <= k <= |contacts| && it == at + k - 1
        invariant callCtx.profiles == was[..at] + Copies(p, k) + was[at + 1..]
      {
        var cloned := p;
        it := it + 1;
        callCtx.profiles := callCtx.profiles[..it] + [cloned] + callCtx.profiles[it..];
        cloned := Resolved(cloned, contacts[k], userInto);
        k := k + 1;
      }
      it := it + 1;
    }

    /** Leave profiles at the front behind that are not registered; false ends the leg. */
    method PassSkipped(now: nat) returns (ok: bool)
      requires callCtx != null && callCtx.State().Valid() && callCtx.current < |callCtx.profiles|
      modifies callCtx`current, callCtx`cdr, callCtx.router, callCtx.cdr
      ensures var t := Passed(old(callCtx.State()), callCtx.codes, now);
              ok == t.found && callCtx.State() == t.hunt
      ensures callCtx.cdr == null || callCtx.cdr == old(callCtx.cdr) || fresh(callCtx.cdr)
    {
      hide Next, Derived, Explained, PassedOne, Sent;
      ghost var whole := Passed(callCtx.State(), callCtx.codes, now);
      while callCtx.profiles[callCtx.current].skipCode != 0
        invariant callCtx.State().Valid() && callCtx.current < |callCtx.profiles|
        invariant callCtx.cdr == null || callCtx.cdr == old(callCtx.cdr) || fresh(callCtx.cdr)
        invariant Passed(callCtx.State(), callCtx.codes, now) == whole
        decreases |callCtx.profiles| - callCtx.current
      {
        ok := PassOne(now);
        if !ok { return; }
      }
      return true;
    }

    /** One turn of the loop. */
    method PassOne(now: nat) returns (ok: bool)
      requires callCtx != null && callCtx.State().Valid() && callCtx.current < |callCtx.profiles|
      modifies callCtx`current, callCtx`cdr, callCtx.router, callCtx.cdr
      ensures var h := old(callCtx.State());
              && ok == (h.current + 1 < |h.profiles| && h.profiles[h.current + 1].disconnectCode == 0)
              && callCtx.State() == if ok then PassedOne(h, callCtx.codes, now)
                                    else Sent(Explained(h, callCtx.codes, now), true)
      ensures callCtx.cdr == null || callCtx.cdr == old(callCtx.cdr) || fresh(callCtx.cdr)
    {
      hide Next, Derived, Explained;
      Explain(now);
      var next := callCtx.current + 1;
      if next == |callCtx.profiles| || callCtx.profiles[next].disconnectCode != 0 {
        callCtx.cdr := callCtx.router.WriteCdr(callCtx.cdr, true);
        return false;
      }
      callCtx.current := next;
      FollowRecord();
      return true;
    }

    method FollowRecord()
      requires callCtx != null && callCtx.State().Valid()
      modifies callCtx`current, callCtx`cdr, callCtx.router, callCtx.cdr
      ensures var h := old(callCtx.State());
              callCtx.State() == if h.cdr.None? then h
                                 else Sent(h, false).(cdr := Some(Derived(h.cdr.value)))
      ensures if old(callCtx.cdr) == null then callCtx.cdr == null else fresh(callCtx.cdr)
    {
      hide Next, Derived;
      if callCtx.cdr != null {
        callCtx.BeginAttempt();
      }
    }

    method Explain(now: nat)
      requires callCtx != null && callCtx.State().Valid() && callCtx.current < |callCtx.profiles|
      modifies callCtx.cdr
      ensures callCtx.State() == Explained(old(callCtx.State()), callCtx.codes, now)
    {
      hide Next;
      var p := callCtx.profiles[callCtx.current];
      var t := callCtx.codes(p.skipCode, p.overrideId);
      if t.write && callCtx.cdr != null {
        callCtx.cdr.UpdateInternalReason(ByTS, t.internal, now);
        callCtx.cdr.UpdateAlegReason(t.response);
      }
    }
  }

  /** The part of the list before `it` is what the first `done` profiles become. */
  predicate Halfway(profiles: seq<Profile>, was: seq<Profile>, done: nat, it: nat, aors: Aors, userInto: UserInto) {
    && done <= |was| && it == |Expanded(was[..done], aors, userInto)|
    && profiles == Expanded(was[..done], aors, userInto) + was[done..]
  }

  lemma ExpandedStart(was: seq<Profile>, aors: Aors, userInto: UserInto)
    ensures Halfway(was, was, 0, 0, aors, userInto)
  {
    assert was[..0] == [] && was[0..] == was;
  }

  lemma ExpandedStep(profiles: seq<Profile>, was: seq<Profile>, done: nat, it: nat, aors: Aors, userInto: UserInto)
    requires Halfway(profiles, was, done, it, aors, userInto) && it < |profiles|
    ensures done < |was| && profiles[it] == was[done]
    ensures var one := ExpandedOne(was[done], aors, userInto);
            Halfway(profiles[..it] + one + profiles[it + 1..], was, done + 1, it + |one|, aors, userInto)
  {
    hide ExpandedOne;
    assert was[..done + 1][..done] == was[..done];
    assert profiles[it + 1..] == was[done + 1..] && profiles[..it] == Expanded(was[..done], aors, userInto);
  }

  lemma ExpandedEnd(profiles: seq<Profile>, was: seq<Profile>, done: nat, it: nat, aors: Aors, userInto: UserInto)
    requires Halfway(profiles, was, done, it, aors, userInto) && it >= |profiles|
    ensures profiles == Expanded(was, aors, userInto)
  {
    assert done == |was| && was[..done] == was;
  }
}
