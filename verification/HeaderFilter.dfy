/** Finding the next header of a block (src/HeaderFilter.cpp).  The code runs a state
    machine over characters; the specification reads the header as a line. */
module HeaderLines {
  const CR := '\r'
  const LF := '\n'
  const COLON := ':'

  predicate Eol(c: char) {
    c == CR || c == LF
  }

  predicate Blank(c: char) {
    c == ' ' || c == '\t'
  }

  /** Ends a header name: a colon, a blank, or the end of the line. */
  predicate Separator(c: char) {
    c == COLON || Blank(c) || Eol(c)
  }

  /** The kinds of character that a scan looks for. */
  datatype Class = Separators | NonBlanks | LineEnds

  predicate In(c: char, kind: Class) {
    match kind
    case Separators => Separator(c)
    case NonBlanks => !Blank(c)
    case LineEnds => Eol(c)
  }

  /** The first position from i on with a character of this kind, or the end. */
  function First(s: string, i: nat, kind: Class): (j: nat)
    requires i <= |s|
    ensures i <= j <= |s|
    ensures j < |s| ==> In(s[j], kind)
    decreases |s| - i
  {
    if i == |s| || In(s[i], kind) then i else First(s, i + 1, kind)
  }

  lemma {:induction false} FirstAtMost(s: string, i: nat, k: nat, kind: Class)
    requires i <= k < |s| && In(s[k], kind)
    ensures First(s, i, kind) <= k
    decreases k - i
  {
    if !In(s[i], kind) {
      FirstAtMost(s, i + 1, k, kind);
    }
  }

  /** Where the name ends and where the next header begins. */
  datatype Header = Malformed | Header(nameEnd: nat, end: nat)

  /** The header whose line ends at e: with LF, or CR LF, or the end of the text, also
      right after a CR.  Any other character after a CR is an error. */
  function Close(s: string, e: nat, nameEnd: nat): Header
    requires e <= |s|
  {
    if e == |s| then Header(nameEnd, e)
    else if s[e] != CR || e + 1 == |s| then Header(nameEnd, e + 1)
    else if s[e + 1] == LF then Header(nameEnd, e + 2)
    else Malformed
  }

  function ValueAt(s: string, p: nat, nameEnd: nat): Header
    requires p <= |s|
  {
    Close(s, First(s, p, LineEnds), nameEnd)
  }

  /** Blanks after the name must lead to a colon. */
  function ColonAt(s: string, p: nat, nameEnd: nat): Header
    requires p <= |s|
  {
    var c := First(s, p, NonBlanks);
    if c == |s| then Header(nameEnd, c)
    else if s[c] == COLON then ValueAt(s, c + 1, nameEnd)
    else Malformed
  }

  /** The name runs from `start` to the first separator; p is not beyond that.  A line
      without a separator has the empty name. */
  function NameAt(s: string, start: nat, p: nat): Header
    requires p <= |s|
  {
    var n := First(s, p, Separators);
    if n == |s| || Eol(s[n]) then Close(s, n, start)
    else if s[n] == COLON then ValueAt(s, n + 1, n)
    else ColonAt(s, n + 1, n)
  }

  /** The header at `start`. */
  function HeaderAt(s: string, start: nat): (h: Header)
    requires start <= |s|
    ensures h.Header? ==> start <= h.nameEnd <= h.end <= |s| && (start < |s| ==> start < h.end)
  {
    NameAt(s, start, start)
  }

  /** Where the value stands: between the blanks from p on and the end of the line; a
      line with nothing but blanks there leaves `noValue` as its beginning. */
  function ValueRange(s: string, start: nat, p: nat, noValue: nat): (nat, nat)
    requires p <= |s|
  {
    var v, e := First(s, p, NonBlanks), First(s, p, LineEnds);
    if v < e then (v, e) else (noValue, start)
  }

  /** The value of the header at `start`: empty at `start` if there is no colon. */
  function ValueOf(s: string, start: nat): (nat, nat)
    requires start <= |s|
  {
    var n := First(s, start, Separators);
    if n == |s| || Eol(s[n]) then (start, start)
    else if s[n] == COLON then ValueRange(s, start, n + 1, start)
    else
      var c := First(s, n, NonBlanks);
      if c < |s| && s[c] == COLON then ValueRange(s, start, c + 1, c) else (start, start)
  }

  datatype State = Name | HColon | ValueSws | ValueText | StCR | StLF | StCRLF

  /** What the header will be, seen from a state of the machine at position p. */
  ghost function Expected(st: State, s: string, start: nat, p: nat, nameEnd: nat): Header
    requires p <= |s| && (st == StCR ==> p > 0)
  {
    match st
    case Name => NameAt(s, start, p)
    case HColon => ColonAt(s, p, nameEnd)
    case ValueSws => ValueAt(s, p, nameEnd)
    case ValueText => ValueAt(s, p, nameEnd)
    case StCR => Close(s, p - 1, nameEnd)
    case StLF => Header(nameEnd, p)
    case StCRLF => Header(nameEnd, p)
  }

  /** And what its value will be. */
  ghost function ExpectedValue(
    st: State, s: string, start: nat, p: nat, nameEnd: nat, valBegin: nat, valEnd: nat): (nat, nat)
    requires p <= |s|
  {
    match st
    case Name =>
      var n := First(s, p, Separators);
      if n == |s| || Eol(s[n]) then (start, start)
      else if s[n] == COLON then ValueRange(s, start, n + 1, start)
      else
        var c := First(s, n, NonBlanks);
        if c < |s| && s[c] == COLON then ValueRange(s, start, c + 1, c) else (start, start)
    case HColon =>
      var c := First(s, p, NonBlanks);
      if c < |s| && s[c] == COLON then ValueRange(s, start, c + 1, c) else (start, start)
    case ValueSws => ValueRange(s, start, p, valBegin)
    case ValueText => (valBegin, First(s, p, LineEnds))
    case _ => (valBegin, valEnd)
  }

  /** The machine's variables. */
  datatype Machine = Machine(st: State, nameEnd: nat, valBegin: nat, valEnd: nat)

  predicate Running(m: Machine) {
    m.st != StLF && m.st != StCRLF
  }

  /** What the variables say about the text before p. */
  ghost predicate Sound(m: Machine, s: string, start: nat, p: nat) {
    && start <= p <= |s|
    && (m.st == Name ==> m.nameEnd == start)
    && (m.st in {Name, HColon} ==> m.valBegin == start)
    && (m.st in {Name, HColon, ValueSws, ValueText} ==> m.valEnd == start)
    && (m.st == StCR ==> p > 0 && s[p - 1] == CR)
  }

  ghost predicate SameOutcome(m: Machine, p: nat, m': Machine, p': nat, s: string, start: nat)
    requires Sound(m, s, start, p) && Sound(m', s, start, p')
  {
    && Expected(m.st, s, start, p, m.nameEnd) == Expected(m'.st, s, start, p', m'.nameEnd)
    && ExpectedValue(m.st, s, start, p, m.nameEnd, m.valBegin, m.valEnd)
       == ExpectedValue(m'.st, s, start, p', m'.nameEnd, m'.valBegin, m'.valEnd)
  }

  /** One character: the outcome stays what it was going to be. */
  method Step(hdr: string, start: nat, p: nat, m: Machine) returns (ok: bool, m': Machine)
    requires p < |hdr| && Running(m) && Sound(m, hdr, start, p)
    ensures !ok ==> Expected(m.st, hdr, start, p, m.nameEnd).Malformed?
    ensures ok ==> Sound(m', hdr, start, p + 1) && SameOutcome(m, p, m', p + 1, hdr, start)
  {
    var ch := hdr[p];
    ok, m' := true, m;
    match m.st
    case Name =>
      if ch == CR {
        m' := m.(st := StCR);
      } else if ch == LF {
        m' := m.(st := StLF);
      } else if ch == COLON {
        m' := m.(st := ValueSws, nameEnd := p);
      } else if Blank(ch) {
        m' := m.(st := HColon, nameEnd := p);
      }
    case ValueSws =>
      if ch == CR {
        m' := m.(st := StCR);
      } else if ch == LF {
        m' := m.(st := StLF);
      } else if !Blank(ch) {
        m' := m.(st := ValueText, valBegin := p);
      }
    case ValueText =>
      if ch == CR {
        m' := m.(st := StCR, valEnd := p);
      } else if ch == LF {
        m' := m.(st := StLF, valEnd := p);
      }
    case HColon =>
      if ch == COLON {
        m' := m.(st := ValueSws, valBegin := p);
      } else if !Blank(ch) {
        ok := false;
      }
    case StCR =>
      if ch == LF {
        m' := m.(st := StCRLF);
      } else {
        ok := false;
      }
  }

  /** The machine of the code: one pass over the characters. */
  method SkipHeader(hdr: string, startPos: nat)
    returns (ok: bool, nameEnd: nat, valBegin: nat, valEnd: nat, hdrEnd: nat)
    requires startPos <= |hdr|
    ensures ok <==> HeaderAt(hdr, startPos).Header?
    ensures ok ==> HeaderAt(hdr, startPos) == Header(nameEnd, hdrEnd)
    ensures ok ==> ValueOf(hdr, startPos) == (valBegin, valEnd)
  {
    var start := Machine(Name, startPos, startPos, startPos);
    var m := start;
    var p := startPos;
    ok := true;
    while p < |hdr| && Running(m)
      invariant ok && Sound(m, hdr, startPos, p) && SameOutcome(start, startPos, m, p, hdr, startPos)
      decreases |hdr| - p
    {
      ok, m := Step(hdr, startPos, p, m);
      if !ok {
        break;
      }
      p := p + 1;
    }
    if ok && p == |hdr| && m.st == ValueText {
      m := m.(valEnd := p);
    }
    nameEnd, valBegin, valEnd, hdrEnd := m.nameEnd, m.valBegin, m.valEnd, p;
  }

  // ---------- a header does not depend on what surrounds it ----------

  lemma {:induction false} FirstShift(s: string, start: nat, i: nat, kind: Class)
    requires start <= i <= |s|
    ensures First(s, i, kind) == start + First(s[start..], i - start, kind)
    decreases |s| - i
  {
    if i < |s| && !In(s[i], kind) {
      FirstShift(s, start, i + 1, kind);
    }
  }

  function Shift(h: Header, start: nat): Header {
    if h.Malformed? then h else Header(h.nameEnd + start, h.end + start)
  }

  lemma CloseShift(s: string, start: nat, e: nat, nameEnd: nat)
    requires start <= e <= |s| && start <= nameEnd
    ensures Close(s, e, nameEnd) == Shift(Close(s[start..], e - start, nameEnd - start), start)
  {}

  lemma ValueShift(s: string, start: nat, p: nat, nameEnd: nat)
    requires start <= p <= |s| && start <= nameEnd
    ensures ValueAt(s, p, nameEnd) == Shift(ValueAt(s[start..], p - start, nameEnd - start), start)
  {
    FirstShift(s, start, p, LineEnds);
    CloseShift(s, start, First(s, p, LineEnds), nameEnd);
  }

  lemma ColonShift(s: string, start: nat, p: nat, nameEnd: nat)
    requires start <= p <= |s| && start <= nameEnd
    ensures ColonAt(s, p, nameEnd) == Shift(ColonAt(s[start..], p - start, nameEnd - start), start)
  {
    FirstShift(s, start, p, NonBlanks);
    var c := First(s, p, NonBlanks);
    if c < |s| {
      ValueShift(s, start, c + 1, nameEnd);
    }
  }

  /** A header in the middle of a block reads like the same text on its own. */
  lemma HeaderShift(s: string, start: nat)
    requires start <= |s|
    ensures HeaderAt(s, start) == Shift(HeaderAt(s[start..], 0), start)
  {
    FirstShift(s, start, start, Separators);
    var n := First(s, start, Separators);
    if n == |s| {
      CloseShift(s, start, n, start);
    } else {
      assert s[start..][n - start] == s[n];
      if Eol(s[n]) {
        CloseShift(s, start, n, start);
      } else if s[n] == COLON {
        ValueShift(s, start, n + 1, n);
      } else {
        ColonShift(s, start, n + 1, n);
      }
    }
  }

  lemma {:induction false} FirstSame(s: string, t: string, i: nat, kind: Class, e: nat)
    requires i <= e <= |s| && e <= |t|
    requires First(s, i, kind) < e
    requires forall k :: i <= k < e ==> s[k] == t[k]
    ensures First(t, i, kind) == First(s, i, kind)
    decreases e - i
  {
    if !In(s[i], kind) {
      FirstSame(s, t, i + 1, kind, e);
    }
  }

  lemma ValueSame(s: string, t: string, p: nat, nameEnd: nat, e: nat)
    requires p < e <= |s| && e <= |t|
    requires forall k :: 0 <= k < e ==> s[k] == t[k]
    requires ValueAt(s, p, nameEnd) == Header(nameEnd, e) && s[e - 1] == LF
    ensures ValueAt(t, p, nameEnd) == Header(nameEnd, e)
  {
    FirstAtMost(s, p, e - 1, LineEnds);
    FirstSame(s, t, p, LineEnds, e);
  }

  lemma ColonSame(s: string, t: string, p: nat, nameEnd: nat, e: nat)
    requires p < e <= |s| && e <= |t|
    requires forall k :: 0 <= k < e ==> s[k] == t[k]
    requires ColonAt(s, p, nameEnd) == Header(nameEnd, e) && s[e - 1] == LF
    ensures ColonAt(t, p, nameEnd) == Header(nameEnd, e)
  {
    var c := First(s, p, NonBlanks);
    FirstAtMost(s, p, e - 1, NonBlanks);
    FirstSame(s, t, p, NonBlanks, e);
    ValueSame(s, t, c + 1, nameEnd, e);
  }

  /** A header that ends with LF reads the same in any text that agrees up to there. */
  lemma HeaderSame(s: string, t: string)
    requires HeaderAt(s, 0).Header?
    requires var e := HeaderAt(s, 0).end; 0 < e <= |t| && s[..e] == t[..e] && s[e - 1] == LF
    ensures HeaderAt(t, 0) == HeaderAt(s, 0)
  {
    var e := HeaderAt(s, 0).end;
    assert forall k :: 0 <= k < e ==> s[k] == s[..e][k] == t[..e][k] == t[k];
    var n := First(s, 0, Separators);
    FirstAtMost(s, 0, e - 1, Separators);
    FirstSame(s, t, 0, Separators, e);
    if s[n] == COLON {
      ValueSame(s, t, n + 1, n, e);
    } else if Blank(s[n]) {
      ColonSame(s, t, n + 1, n, e);
    }
  }

  lemma CloseEndsWithLF(s: string, e: nat, nameEnd: nat)
    requires e <= |s| && (e < |s| ==> Eol(s[e]))
    requires Close(s, e, nameEnd).Header? && Close(s, e, nameEnd).end < |s|
    ensures Close(s, e, nameEnd).end > 0 && s[Close(s, e, nameEnd).end - 1] == LF
  {}

  /** A header that is not the last thing in the text ends with LF. */
  lemma EndsWithLF(s: string)
    requires HeaderAt(s, 0).Header? && HeaderAt(s, 0).end < |s|
    ensures HeaderAt(s, 0).end > 0 && s[HeaderAt(s, 0).end - 1] == LF
  {
    var n := First(s, 0, Separators);
    if n == |s| || Eol(s[n]) {
      CloseEndsWithLF(s, n, 0);
    } else {
      var c := if s[n] == COLON then n else First(s, n + 1, NonBlanks);
      CloseEndsWithLF(s, First(s, c + 1, LineEnds), n);
    }
  }

  // ---------- a line, place by place ----------

  predicate NameChar(c: char) {
    c !in {':', ' ', '\t', '\r', '\n'}
  }

  /** A name without separators, blanks, a colon. */
  predicate NamedUpTo(s: string, start: nat, n: nat, colon: nat) {
    && start <= n <= colon < |s| && s[colon] == ':'
    && (forall k :: start <= k < n ==> NameChar(s[k]))
    && forall k :: n <= k < colon ==> s[k] in {' ', '\t'}
  }

  /** The line goes on up to here. */
  predicate LineUpTo(s: string, p: nat, e: nat) {
    && p <= e <= |s| && (forall k :: p <= k < e ==> s[k] !in {'\r', '\n'})
    && (e < |s| ==> s[e] in {'\r', '\n'})
  }

  lemma {:induction false} FirstIs(s: string, i: nat, k: nat, kind: Class)
    requires i <= k <= |s| && (k < |s| ==> In(s[k], kind))
    requires forall j :: i <= j < k ==> !In(s[j], kind)
    ensures First(s, i, kind) == k
    decreases k - i
  {
    if i < k {
      FirstIs(s, i + 1, k, kind);
    }
  }

  /** A line with a name and a colon ends behind LF, behind CR LF, or with the text; a CR that something
      else follows makes it malformed. */
  lemma HeaderIs(s: string, start: nat, n: nat, colon: nat, e: nat)
    requires NamedUpTo(s, start, n, colon) && LineUpTo(s, colon + 1, e)
    ensures HeaderAt(s, start)
         == if e == |s| then Header(n, e)
            else if s[e] == '\n' || e + 1 == |s| then Header(n, e + 1)
            else if s[e + 1] == '\n' then Header(n, e + 2)
            else Malformed
  {
    hide First;
    NameEnds(s, start, n, colon);
    FirstIs(s, colon + 1, e, LineEnds);
  }

  lemma NameEnds(s: string, start: nat, n: nat, colon: nat)
    requires NamedUpTo(s, start, n, colon)
    ensures First(s, start, Separators) == n
    ensures n < colon ==> First(s, n + 1, NonBlanks) == First(s, n, NonBlanks) == colon
  {
    FirstIs(s, start, n, Separators);
    if n < colon {
      FirstIs(s, n + 1, colon, NonBlanks);
      FirstIs(s, n, colon, NonBlanks);
    }
  }

  /** The value begins at the first character behind the colon that is not a blank, and ends with the line. */
  lemma ValueIs(s: string, start: nat, n: nat, colon: nat, v: nat, e: nat)
    requires NamedUpTo(s, start, n, colon) && LineUpTo(s, colon + 1, e)
    requires colon < v < e && s[v] !in {' ', '\t'} && forall k :: colon < k < v ==> s[k] in {' ', '\t'}
    ensures ValueOf(s, start) == (v, e)
  {
    hide First;
    NameEnds(s, start, n, colon);
    FirstIs(s, colon + 1, e, LineEnds);
    FirstIs(s, colon + 1, v, NonBlanks);
  }

  /** A blank behind the name that leads to something else than a colon, the end of the line included, makes the
      header malformed. */
  lemma NoColon(s: string, start: nat, n: nat, p: nat)
    requires start <= n < p < |s| && NonBlankColon(s[p])
    requires forall k :: start <= k < n ==> NameChar(s[k])
    requires forall k :: n <= k < p ==> s[k] in {' ', '\t'}
    ensures HeaderAt(s, start).Malformed?
  {
    FirstIs(s, start, n, Separators);
    FirstIs(s, n + 1, p, NonBlanks);
  }

  predicate NonBlankColon(c: char) {
    c !in {' ', '\t', ':'}
  }

  /** A line of nothing but name characters has the empty name and no value. */
  lemma NoSeparator(s: string, start: nat, e: nat)
    requires start <= e <= |s| && (forall k :: start <= k < e ==> NameChar(s[k]))
    requires e < |s| ==> s[e] in {'\r', '\n'}
    ensures HeaderAt(s, start)
         == if e == |s| then Header(start, e)
            else if s[e] == '\n' || e + 1 == |s| then Header(start, e + 1)
            else if s[e + 1] == '\n' then Header(start, e + 2)
            else Malformed
    ensures ValueOf(s, start) == (start, start)
  {
    FirstIs(s, start, e, Separators);
  }
}

/** Erasing headers from a block in place (src/HeaderFilter.cpp), proved to be: split into
    headers, keep those that pass, join again. */
module HeaderFilters {
  import opened Ascii
  import opened HeaderLines

  datatype FilterType = Transparent | Whitelist | Blacklist | Undefined

  datatype FilterEntry = FilterEntry(filterType: FilterType, filterList: set<string>)

  /** The two filters differ only in how a name is looked up. */
  datatype Lookup = ByName | ByPattern

  predicate IsActiveFilter(t: FilterType) {
    t != Undefined && t != Transparent
  }

  /** `*suffix`, `prefix*`, or the whole value. */
  predicate PatternMatches(p: string, v: string) {
    if p != "" && p[0] == '*' then |p| - 1 <= |v| && v[|v| - (|p| - 1)..] == p[1..]
    else if p != "" && p[|p| - 1] == '*' then p[..|p| - 1] <= v
    else p == v
  }

  predicate Listed(name: string, list: set<string>, lookup: Lookup) {
    match lookup
    case ByName => name in list
    case ByPattern => name != "" && exists p :: p in list && PatternMatches(p, name)
  }

  predicate Passes(name: string, fe: FilterEntry, lookup: Lookup) {
    match fe.filterType
    case Whitelist => Listed(name, fe.filterList, lookup)
    case Blacklist => !Listed(name, fe.filterList, lookup)
    case _ => true
  }

  /** The lower-case name of a header that stands alone. */
  function NameOf(h: string): string {
    match HeaderAt(h, 0)
    case Malformed => ""
    case Header(nameEnd, _) => ToLower(h[..nameEnd])
  }

  // ---------- splitting and joining ----------

  /** The headers of a block up to the first malformed one, and what is left from there. */
  datatype Block = Block(headers: seq<string>, rest: string)

  function Split(s: string): Block
    decreases |s|
  {
    if s == "" then Block([], "")
    else
      match HeaderAt(s, 0)
      case Malformed => Block([], s)
      case Header(_, end) =>
        var tail := Split(s[end..]);
        Block([s[..end]] + tail.headers, tail.rest)
  }

  function Join(headers: seq<string>): string {
    if headers == [] then "" else headers[0] + Join(headers[1..])
  }

  function Kept(headers: seq<string>, fe: FilterEntry, lookup: Lookup): seq<string> {
    if headers == [] then []
    else
      (if Passes(NameOf(headers[0]), fe, lookup) then [headers[0]] else [])
      + Kept(headers[1..], fe, lookup)
  }

  lemma {:induction false} JoinSplit(s: string)
    ensures Join(Split(s).headers) + Split(s).rest == s
    decreases |s|
  {
    hide HeaderAt, Split, Join;
    SplitUnfolds(s);
    if s != "" && HeaderAt(s, 0).Header? {
      var end := HeaderAt(s, 0).end;
      var tail := Split(s[end..]);
      JoinSplit(s[end..]);
      JoinStep(s[..end], tail.headers);
      JoinRest(s, end, Join(tail.headers), tail.rest);
    }
  }

  lemma SplitUnfolds(s: string)
    ensures s == "" || HeaderAt(s, 0).Malformed? ==> Join(Split(s).headers) + Split(s).rest == s
    ensures s != "" && HeaderAt(s, 0).Header? ==>
              var end := HeaderAt(s, 0).end;
              Split(s) == Block([s[..end]] + Split(s[end..]).headers, Split(s[end..]).rest)
  {
    hide HeaderAt;
  }

  lemma JoinRest(s: string, end: nat, joined: string, rest: string)
    requires end <= |s| && joined + rest == s[end..]
    ensures s[..end] + joined + rest == s
  {
    assert s[..end] + (joined + rest) == s;
  }

  lemma {:induction false} JoinAppend(headers: seq<string>, h: string)
    ensures Join(headers + [h]) == Join(headers) + h
  {
    if headers != [] {
      assert (headers + [h])[1..] == headers[1..] + [h];
      JoinAppend(headers[1..], h);
    }
  }

  /** A header on its own: it is read to its end, and unless it is the last one it ends
      with LF, so that it is read the same whatever follows. */
  ghost predicate Whole(h: string, last: bool) {
    && h != ""
    && HeaderAt(h, 0).Header? && HeaderAt(h, 0).end == |h|
    && (!last ==> h[|h| - 1] == LF)
  }

  ghost predicate WellFormed(headers: seq<string>) {
    headers != [] ==> Whole(headers[0], |headers| == 1) && WellFormed(headers[1..])
  }

  lemma FirstIsWhole(s: string)
    requires s != "" && HeaderAt(s, 0).Header?
    ensures var e := HeaderAt(s, 0).end;
            && Whole(s[..e], e == |s|)
            && HeaderAt(s[..e], 0) == HeaderAt(s, 0)
  {
    var e := HeaderAt(s, 0).end;
    if e < |s| {
      EndsWithLF(s);
      HeaderSame(s, s[..e]);
    } else {
      assert s[..e] == s;
    }
  }

  lemma {:induction false} SplitWellFormed(s: string)
    requires Split(s).rest == ""
    ensures WellFormed(Split(s).headers)
    ensures s != "" ==> Split(s).headers != []
    decreases |s|
  {
    if s != "" {
      var e := HeaderAt(s, 0).end;
      FirstIsWhole(s);
      SplitWellFormed(s[e..]);
      assert Split(s).headers[1..] == Split(s[e..]).headers;
    }
  }

  lemma WeakenWhole(h: string, last: bool)
    requires Whole(h, last)
    ensures Whole(h, true)
  {}

  lemma {:induction false} KeptWellFormed(headers: seq<string>, fe: FilterEntry, lookup: Lookup)
    requires WellFormed(headers)
    ensures WellFormed(Kept(headers, fe, lookup))
    ensures |Kept(headers, fe, lookup)| <= |headers|
  {
    if headers != [] {
      var tail := Kept(headers[1..], fe, lookup);
      KeptWellFormed(headers[1..], fe, lookup);
      if Passes(NameOf(headers[0]), fe, lookup) {
        assert ([headers[0]] + tail)[1..] == tail;
        WeakenWhole(headers[0], |headers| == 1);
      } else {
        assert [] + tail == tail;
      }
    }
  }

  /** Splitting finds again the headers that were joined. */
  lemma {:induction false} SplitJoin(headers: seq<string>)
    requires WellFormed(headers)
    ensures Split(Join(headers)) == Block(headers, "")
  {
    hide HeaderAt, Split, Join, Whole;
    SplitUnfolds(Join(headers));
    if headers == [] {
      EmptyJoin();
    } else {
      var h, tail := headers[0], Join(headers[1..]);
      SplitJoin(headers[1..]);
      assert headers == [h] + headers[1..];
      JoinStep(h, headers[1..]);
      HeadOfJoin(h, headers[1..]);
      assert (h + tail)[..|h|] == h && (h + tail)[|h|..] == tail;
    }
  }

  lemma EmptyJoin()
    ensures Join([]) == "" && Split("") == Block([], "")
  {}

  lemma HeadOfJoin(h: string, headers: seq<string>)
    requires Whole(h, headers == [])
    ensures h + Join(headers) != "" && HeaderAt(h + Join(headers), 0) == HeaderAt(h, 0)
    ensures HeaderAt(h, 0).Header? && HeaderAt(h, 0).end == |h|
  {
    hide HeaderAt;
    var tail := Join(headers);
    if headers == [] {
      assert h + tail == h;
    } else {
      assert (h + tail)[..|h|] == h == h[..|h|];
      HeaderSame(h, h + tail);
    }
  }

  // ---------- the erase-while-scanning loop ----------

  /** The header at a position of the block, against the split of what is left. */
  lemma NextHeader(s: string, start: nat)
    requires start < |s|
    ensures match HeaderAt(s, start)
            case Malformed => Split(s[start..]) == Block([], s[start..])
            case Header(nameEnd, end) =>
              var tail := Split(s[end..]);
              && Split(s[start..]) == Block([s[start..end]] + tail.headers, tail.rest)
              && NameOf(s[start..end]) == ToLower(s[start..nameEnd])
  {
    hide HeaderAt;
    HeaderShift(s, start);
    var todo := s[start..];
    if HeaderAt(s, start).Header? {
      var nameEnd, end := HeaderAt(s, start).nameEnd, HeaderAt(s, start).end;
      assert todo[..end - start] == s[start..end];
      assert todo[end - start..] == s[end..];
      assert s[start..end][..nameEnd - start] == s[start..nameEnd];
      FirstIsWhole(todo);
    }
  }

  /** Whether the loop erases a header. */
  method Erases(name: string, fe: FilterEntry, lookup: Lookup) returns (erase: bool)
    ensures erase == !Passes(name, fe, lookup)
  {
    erase := false;
    if fe.filterType == Whitelist {
      erase := !Listed(name, fe.filterList, lookup);
    } else if fe.filterType == Blacklist {
      erase := Listed(name, fe.filterList, lookup);
    }
  }

  /** What one filter makes of a block. */
  function FilteredBy(s: string, fe: FilterEntry, lookup: Lookup): string {
    Join(Kept(Split(s).headers, fe, lookup)) + Split(s).rest
  }

  /** Filtering from a position on, one header at a time. */
  lemma FilteredFrom(s: string, start: nat, fe: FilterEntry, lookup: Lookup)
    requires start < |s|
    ensures match HeaderAt(s, start)
            case Malformed => Split(s[start..]).rest != "" && FilteredBy(s[start..], fe, lookup) == s[start..]
            case Header(nameEnd, end) =>
              && Split(s[start..]).rest == Split(s[end..]).rest
              && FilteredBy(s[start..], fe, lookup)
                 == (if Passes(ToLower(s[start..nameEnd]), fe, lookup) then s[start..end] else "")
                    + FilteredBy(s[end..], fe, lookup)
  {
    hide HeaderAt, Split, Join, Kept;
    NextHeader(s, start);
    if HeaderAt(s, start).Header? {
      var end := HeaderAt(s, start).end;
      var h, tail := s[start..end], Split(s[end..]);
      var kept := Kept(tail.headers, fe, lookup);
      KeptStep(h, tail.headers, fe, lookup);
      JoinStep(h, kept);
      assert h + Join(kept) + tail.rest == h + (Join(kept) + tail.rest);
      assert "" + (Join(kept) + tail.rest) == Join(kept) + tail.rest;
    } else {
      KeptNothing(fe, lookup);
      assert "" + s[start..] == s[start..];
    }
  }

  /** One filter over the block: on a malformed header the loop stops where it is. */
  method FilterPass(hdrs: string, fe: FilterEntry, lookup: Lookup) returns (ok: bool, out: string)
    ensures ok <==> Split(hdrs).rest == ""
    ensures out == FilteredBy(hdrs, fe, lookup)
  {
    hide HeaderAt, Split, FilteredBy;
    out := hdrs;
    var startPos := 0;
    assert hdrs[0..] == hdrs && out[..0] == "";
    assert "" + FilteredBy(hdrs, fe, lookup) == FilteredBy(hdrs, fe, lookup);
    while startPos < |out|
      invariant startPos <= |out|
      invariant Split(out[startPos..]).rest == Split(hdrs).rest
      invariant FilteredBy(hdrs, fe, lookup) == out[..startPos] + FilteredBy(out[startPos..], fe, lookup)
      decreases |out| - startPos
    {
      FilteredFrom(out, startPos, fe, lookup);
      var res, nameEnd, _, _, hdrEnd := SkipHeader(out, startPos);
      if !res {
        assert out == out[..startPos] + out[startPos..];
        return false, out;
      }
      var erase := Erases(ToLower(out[startPos..nameEnd]), fe, lookup);
      ghost var tail := FilteredBy(out[hdrEnd..], fe, lookup);
      if erase {
        assert "" + tail == tail;
        EraseKeepsRest(out, startPos, hdrEnd);
        out := out[..startPos] + out[hdrEnd..];
      } else {
        assert out[..hdrEnd] == out[..startPos] + out[startPos..hdrEnd];
        assert out[..startPos] + (out[startPos..hdrEnd] + tail) == out[..hdrEnd] + tail;
        startPos := hdrEnd;
      }
    }
    assert out[startPos..] == "" && out == out[..startPos];
    FilteredEmpty(fe, lookup);
    assert out + "" == out;
    return true, out;
  }

  lemma FilteredEmpty(fe: FilterEntry, lookup: Lookup)
    ensures Split("").rest == "" && FilteredBy("", fe, lookup) == ""
  {}

  lemma EraseKeepsRest(s: string, start: nat, end: nat)
    requires start <= end <= |s|
    ensures var t := s[..start] + s[end..]; t[..start] == s[..start] && t[start..] == s[end..]
  {}

  lemma JoinStep(h: string, headers: seq<string>)
    ensures Join([h] + headers) == h + Join(headers)
  {
    assert ([h] + headers)[1..] == headers;
  }

  lemma KeptNothing(fe: FilterEntry, lookup: Lookup)
    ensures Join(Kept([], fe, lookup)) == ""
  {}

  lemma KeptStep(h: string, tail: seq<string>, fe: FilterEntry, lookup: Lookup)
    ensures Kept([h] + tail, fe, lookup)
         == if Passes(NameOf(h), fe, lookup) then [h] + Kept(tail, fe, lookup) else Kept(tail, fe, lookup)
  {
    assert ([h] + tail)[1..] == tail;
    assert [] + Kept(tail, fe, lookup) == Kept(tail, fe, lookup);
  }

  // ---------- a list of filters ----------

  function Active(filters: seq<FilterEntry>): seq<FilterEntry> {
    if filters == [] then []
    else
      var last := filters[|filters| - 1];
      Active(filters[..|filters| - 1]) + (if IsActiveFilter(last.filterType) then [last] else [])
  }

  predicate PassesAll(name: string, filters: seq<FilterEntry>, lookup: Lookup) {
    forall i :: 0 <= i < |filters| ==> Passes(name, filters[i], lookup)
  }

  function KeptByAll(headers: seq<string>, filters: seq<FilterEntry>, lookup: Lookup): seq<string> {
    if headers == [] then []
    else
      (if PassesAll(NameOf(headers[0]), filters, lookup) then [headers[0]] else [])
      + KeptByAll(headers[1..], filters, lookup)
  }

  /** What a list of filters makes of a block: it keeps the headers that pass all of them.
      On a malformed block the first active filter alone is applied, up to the bad header. */
  function Filtered(hdrs: string, filters: seq<FilterEntry>, lookup: Lookup): (r: (bool, string)) {
    var block := Split(hdrs);
    if Active(filters) == [] then (true, hdrs)
    else if block.rest == "" then (true, Join(KeptByAll(block.headers, filters, lookup)))
    else (false, FilteredBy(hdrs, Active(filters)[0], lookup))
  }

  lemma {:induction false} KeptByNone(headers: seq<string>, filters: seq<FilterEntry>, lookup: Lookup)
    requires Active(filters) == []
    ensures KeptByAll(headers, filters, lookup) == headers
  {
    if headers != [] {
      InactivePasses(NameOf(headers[0]), filters, lookup);
      KeptByNone(headers[1..], filters, lookup);
    }
  }

  lemma {:induction false} InactivePasses(name: string, filters: seq<FilterEntry>, lookup: Lookup)
    requires Active(filters) == []
    ensures PassesAll(name, filters, lookup)
  {
    if filters != [] {
      InactivePasses(name, filters[..|filters| - 1], lookup);
    }
  }

  /** Keeping by some filters and then by one more is keeping by all. */
  lemma {:induction false} KeptThenKept(
    headers: seq<string>, filters: seq<FilterEntry>, fe: FilterEntry, lookup: Lookup)
    ensures Kept(KeptByAll(headers, filters, lookup), fe, lookup)
         == KeptByAll(headers, filters + [fe], lookup)
  {
    if headers != [] {
      var h, tail := headers[0], headers[1..];
      KeptThenKept(tail, filters, fe, lookup);
      assert PassesAll(NameOf(h), filters + [fe], lookup)
          <==> PassesAll(NameOf(h), filters, lookup) && Passes(NameOf(h), fe, lookup) by {
        assert (filters + [fe])[|filters|] == fe;
        assert forall i :: 0 <= i < |filters| ==> (filters + [fe])[i] == filters[i];
      }
      KeptStep(h, KeptByAll(tail, filters, lookup), fe, lookup);
      assert forall k: seq<string> :: [] + k == k;
    }
  }

  lemma {:induction false} KeptByAllWellFormed(headers: seq<string>, filters: seq<FilterEntry>, lookup: Lookup)
    requires WellFormed(headers)
    ensures WellFormed(KeptByAll(headers, filters, lookup))
    ensures |KeptByAll(headers, filters, lookup)| <= |headers|
  {
    if headers != [] {
      var tail := KeptByAll(headers[1..], filters, lookup);
      KeptByAllWellFormed(headers[1..], filters, lookup);
      if PassesAll(NameOf(headers[0]), filters, lookup) {
        assert ([headers[0]] + tail)[1..] == tail;
        WeakenWhole(headers[0], |headers| == 1);
      } else {
        assert [] + tail == tail;
      }
    }
  }

  lemma ActiveStep(filters: seq<FilterEntry>, fe: FilterEntry)
    ensures Active(filters + [fe])
         == if IsActiveFilter(fe.filterType) then Active(filters) + [fe] else Active(filters)
  {
    assert (filters + [fe])[..|filters|] == filters;
  }

  /** On a well-formed block the filters so far leave exactly the headers they keep. */
  lemma SplitFiltered(hdrs: string, filters: seq<FilterEntry>, lookup: Lookup)
    requires Split(hdrs).rest == ""
    ensures var kept := KeptByAll(Split(hdrs).headers, filters, lookup);
            && Filtered(hdrs, filters, lookup) == (true, Join(kept))
            && Split(Join(kept)) == Block(kept, "")
  {
    var headers := Split(hdrs).headers;
    SplitWellFormed(hdrs);
    KeptByAllWellFormed(headers, filters, lookup);
    SplitJoin(KeptByAll(headers, filters, lookup));
    if Active(filters) == [] {
      KeptByNone(headers, filters, lookup);
      JoinSplit(hdrs);
      assert Join(headers) + "" == Join(headers);
    }
  }

  /** Filtering one entry more. */
  lemma FilteredStep(hdrs: string, filters: seq<FilterEntry>, fe: FilterEntry, lookup: Lookup)
    requires Filtered(hdrs, filters, lookup).0
    ensures var out := Filtered(hdrs, filters, lookup).1;
            Filtered(hdrs, filters + [fe], lookup)
            == if IsActiveFilter(fe.filterType)
               then (Split(out).rest == "", FilteredBy(out, fe, lookup))
               else (true, out)
  {
    ActiveStep(filters, fe);
    if Split(hdrs).rest == "" {
      var headers := Split(hdrs).headers;
      SplitFiltered(hdrs, filters, lookup);
      SplitFiltered(hdrs, filters + [fe], lookup);
      if IsActiveFilter(fe.filterType) {
        KeptThenKept(headers, filters, fe, lookup);
        var kept := KeptByAll(headers, filters + [fe], lookup);
        assert Join(kept) + "" == Join(kept);
      } else {
        KeptByAllInactive(headers, filters, fe, lookup);
      }
    }
  }

  lemma {:induction false} KeptByAllInactive(
    headers: seq<string>, filters: seq<FilterEntry>, fe: FilterEntry, lookup: Lookup)
    requires !IsActiveFilter(fe.filterType)
    ensures KeptByAll(headers, filters + [fe], lookup) == KeptByAll(headers, filters, lookup)
  {
    if headers != [] {
      KeptByAllInactive(headers[1..], filters, fe, lookup);
      var name := NameOf(headers[0]);
      assert PassesAll(name, filters + [fe], lookup) <==> PassesAll(name, filters, lookup) by {
        assert forall i :: 0 <= i < |filters| ==> (filters + [fe])[i] == filters[i];
      }
    }
  }

  method InplaceHeaderFilter(hdrs: string, filters: seq<FilterEntry>, lookup: Lookup)
    returns (ok: bool, out: string)
    ensures (ok, out) == Filtered(hdrs, filters, lookup)
  {
    ok, out := true, hdrs;
    if |hdrs| == 0 || |filters| == 0 {
      EmptyBlock(filters, lookup);
      return;
    }
    for i := 0 to |filters|
      invariant (ok, out) == Filtered(hdrs, filters[..i], lookup) && ok
    {
      FilteredStep(hdrs, filters[..i], filters[i], lookup);
      assert filters[..i] + [filters[i]] == filters[..i + 1];
      if IsActiveFilter(filters[i].filterType) {
        ok, out := FilterPass(out, filters[i], lookup);
        if !ok {
          MalformedStays(hdrs, filters, i + 1, lookup);
          return;
        }
      }
    }
    assert filters[..|filters|] == filters;
  }

  lemma EmptyBlock(filters: seq<FilterEntry>, lookup: Lookup)
    ensures Filtered("", filters, lookup) == (true, "")
  {}

  /** Once a filter met a malformed header the others do not matter. */
  lemma {:induction false} MalformedStays(hdrs: string, filters: seq<FilterEntry>, n: nat, lookup: Lookup)
    requires n <= |filters| && !Filtered(hdrs, filters[..n], lookup).0
    ensures Filtered(hdrs, filters, lookup) == Filtered(hdrs, filters[..n], lookup)
    decreases |filters|
  {
    if n < |filters| {
      var init := filters[..|filters| - 1];
      assert init[..n] == filters[..n];
      MalformedStays(hdrs, init, n, lookup);
    } else {
      assert filters[..n] == filters;
    }
  }

  // ---------- properties ----------

  /** On a well-formed block the order and repetition of filters are irrelevant. */
  lemma {:induction false} OrderIrrelevant(
    hdrs: string, filters: seq<FilterEntry>, others: seq<FilterEntry>, lookup: Lookup)
    requires Split(hdrs).rest == ""
    requires forall fe :: fe in filters <==> fe in others
    ensures Filtered(hdrs, filters, lookup) == Filtered(hdrs, others, lookup)
  {
    ActiveMembers(filters);
    ActiveMembers(others);
    SameKept(Split(hdrs).headers, filters, others, lookup);
    assert Active(filters) == [] <==> Active(others) == [] by {
      if Active(filters) != [] {
        assert Active(filters)[0] in Active(others);
      }
      if Active(others) != [] {
        assert Active(others)[0] in Active(filters);
      }
    }
  }

  lemma {:induction false} ActiveMembers(filters: seq<FilterEntry>)
    ensures forall fe :: fe in Active(filters) <==> fe in filters && IsActiveFilter(fe.filterType)
  {
    if filters != [] {
      ActiveMembers(filters[..|filters| - 1]);
    }
  }

  lemma {:induction false} SameKept(
    headers: seq<string>, filters: seq<FilterEntry>, others: seq<FilterEntry>, lookup: Lookup)
    requires forall fe :: fe in filters <==> fe in others
    ensures KeptByAll(headers, filters, lookup) == KeptByAll(headers, others, lookup)
  {
    if headers != [] {
      SameKept(headers[1..], filters, others, lookup);
      var name := NameOf(headers[0]);
      PassesMembers(name, filters, lookup);
      PassesMembers(name, others, lookup);
    }
  }

  lemma PassesMembers(name: string, filters: seq<FilterEntry>, lookup: Lookup)
    ensures PassesAll(name, filters, lookup) <==> forall fe :: fe in filters ==> Passes(name, fe, lookup)
  {
    if PassesAll(name, filters, lookup) {
      forall fe | fe in filters
        ensures Passes(name, fe, lookup)
      {
        var i :| 0 <= i < |filters| && filters[i] == fe;
      }
    }
  }

  lemma {:induction false} KeptAgain(headers: seq<string>, filters: seq<FilterEntry>, lookup: Lookup)
    ensures KeptByAll(KeptByAll(headers, filters, lookup), filters, lookup)
         == KeptByAll(headers, filters, lookup)
  {
    if headers != [] {
      var h, tail := headers[0], KeptByAll(headers[1..], filters, lookup);
      KeptAgain(headers[1..], filters, lookup);
      assert [] + tail == tail;
      assert ([h] + tail)[1..] == tail;
    }
  }

  /** Filtering a well-formed block a second time changes nothing. */
  lemma {:induction false} SecondPassIsNoOp(hdrs: string, filters: seq<FilterEntry>, lookup: Lookup)
    requires Split(hdrs).rest == ""
    ensures Filtered(Filtered(hdrs, filters, lookup).1, filters, lookup) == Filtered(hdrs, filters, lookup)
  {
    SplitFiltered(hdrs, filters, lookup);
    KeptAgain(Split(hdrs).headers, filters, lookup);
  }

  // ---------- which headers stay ----------

  /** A pattern fits a name that is equal to it; with a star in front, one that ends like it; with a star
      only behind, one that begins like it. */
  predicate Fits(pattern: string, name: string) {
    || pattern == name
    || (&& |pattern| > 0 && pattern[0] == '*' && |name| >= |pattern| - 1
        && forall k :: 1 <= k < |pattern| ==> name[|name| - |pattern| + k] == pattern[k])
    || (&& |pattern| > 0 && pattern[0] != '*' && pattern[|pattern| - 1] == '*' && |name| >= |pattern| - 1
        && forall k :: 0 <= k < |pattern| - 1 ==> name[k] == pattern[k])
  }

  lemma PatternFits(pattern: string, name: string)
    ensures PatternMatches(pattern, name) <==> Fits(pattern, name)
  {
    var n := |pattern| - 1;
    if 0 <= n <= |name| {
      SameText(name[|name| - n..], pattern[1..]);
      SameText(name[..n], pattern[..n]);
      assert forall k :: 1 <= k <= n ==>
               name[|name| - n..][k - 1] == name[|name| - n - 1 + k] && pattern[1..][k - 1] == pattern[k];
    }
  }

  lemma SameText(a: string, b: string)
    requires |a| == |b|
    ensures a == b <==> forall k :: 0 <= k < |a| ==> a[k] == b[k]
  {}

  predicate LowerCased(lower: char, c: char) {
    if 'A' <= c <= 'Z' then lower as int - 'a' as int == c as int - 'A' as int else lower == c
  }

  /** The name of a header that stands alone: what stands before the blanks and the colon, in lower case. */
  lemma NameIs(h: string, n: nat, colon: nat, e: nat)
    requires NamedUpTo(h, 0, n, colon) && LineUpTo(h, colon + 1, e)
    requires HeaderAt(h, 0).Header?
    ensures |NameOf(h)| == n
    ensures forall k :: 0 <= k < n ==> LowerCased(NameOf(h)[k], h[k])
  {
    hide HeaderAt;
    HeaderIs(h, 0, n, colon, e);
  }

  /** A list has the name itself, or a pattern that fits it; an empty name fits no pattern. */
  ghost predicate InList(list: set<string>, name: string, lookup: Lookup) {
    match lookup
    case ByName => name in list
    case ByPattern => name != "" && exists p :: p in list && Fits(p, name)
  }

  /** A header stays if its name is in every whitelist and in no blacklist. */
  ghost predicate Stays(h: string, filters: seq<FilterEntry>, lookup: Lookup) {
    forall i :: 0 <= i < |filters| ==>
      && (filters[i].filterType == Whitelist ==> InList(filters[i].filterList, NameOf(h), lookup))
      && (filters[i].filterType == Blacklist ==> !InList(filters[i].filterList, NameOf(h), lookup))
  }

  /** How many of the first n headers stay. */
  ghost function Staying(headers: seq<string>, filters: seq<FilterEntry>, lookup: Lookup, n: nat): nat
    requires n <= |headers|
  {
    if n == 0 then 0
    else Staying(headers, filters, lookup, n - 1) + if Stays(headers[n - 1], filters, lookup) then 1 else 0
  }

  /** Those that stay, in their order, and nothing else. */
  ghost predicate Remaining(out: seq<string>, headers: seq<string>, filters: seq<FilterEntry>, lookup: Lookup) {
    && |out| == Staying(headers, filters, lookup, |headers|)
    && forall k: nat :: k < |headers| && Stays(headers[k], filters, lookup) ==>
         StandsAt(out, Staying(headers, filters, lookup, k), headers[k])
  }

  predicate StandsAt(out: seq<string>, at: nat, h: string) {
    at < |out| && out[at] == h
  }

  lemma ListedIn(name: string, list: set<string>, lookup: Lookup)
    ensures Listed(name, list, lookup) <==> InList(list, name, lookup)
  {
    forall p: string
      ensures PatternMatches(p, name) <==> Fits(p, name)
    {
      PatternFits(p, name);
    }
  }

  lemma StaysIfPasses(h: string, filters: seq<FilterEntry>, lookup: Lookup)
    ensures PassesAll(NameOf(h), filters, lookup) <==> Stays(h, filters, lookup)
  {
    hide Listed, InList;
    forall i | 0 <= i < |filters|
      ensures Listed(NameOf(h), filters[i].filterList, lookup) <==> InList(filters[i].filterList, NameOf(h), lookup)
    {
      ListedIn(NameOf(h), filters[i].filterList, lookup);
    }
  }

  lemma {:induction false} KeptByAllMore(headers: seq<string>, h: string, filters: seq<FilterEntry>, lookup: Lookup)
    ensures KeptByAll(headers + [h], filters, lookup)
         == KeptByAll(headers, filters, lookup) + if PassesAll(NameOf(h), filters, lookup) then [h] else []
  {
    hide PassesAll, NameOf;
    if headers != [] {
      KeptByAllMore(headers[1..], h, filters, lookup);
      assert (headers + [h])[1..] == headers[1..] + [h];
    } else {
      assert ([] + [h])[1..] == [];
    }
  }

  lemma {:induction false} KeptRemain(headers: seq<string>, filters: seq<FilterEntry>, lookup: Lookup)
    ensures Remaining(KeptByAll(headers, filters, lookup), headers, filters, lookup)
  {
    KeptRemainUpTo(headers, filters, lookup, |headers|);
    assert headers[..|headers|] == headers;
  }

  lemma {:induction false} KeptRemainUpTo(headers: seq<string>, filters: seq<FilterEntry>, lookup: Lookup, n: nat)
    requires n <= |headers|
    ensures |KeptByAll(headers[..n], filters, lookup)| == Staying(headers, filters, lookup, n)
    ensures forall k: nat :: k < n && Stays(headers[k], filters, lookup) ==>
              StandsAt(KeptByAll(headers[..n], filters, lookup), Staying(headers, filters, lookup, k), headers[k])
  {
    hide Stays, PassesAll, NameOf, Staying, KeptByAll;
    StayingStep(headers, filters, lookup, n);
    if n > 0 {
      var h := headers[n - 1];
      KeptRemainUpTo(headers, filters, lookup, n - 1);
      KeptByAllMore(headers[..n - 1], h, filters, lookup);
      assert headers[..n - 1] + [h] == headers[..n];
      StaysIfPasses(h, filters, lookup);
    }
  }

  lemma StayingStep(headers: seq<string>, filters: seq<FilterEntry>, lookup: Lookup, n: nat)
    requires n <= |headers|
    ensures Staying(headers, filters, lookup, n)
         == if n == 0 then 0
            else Staying(headers, filters, lookup, n - 1) + if Stays(headers[n - 1], filters, lookup) then 1 else 0
    ensures KeptByAll(headers[..0], filters, lookup) == []
  {
    hide Stays;
  }

  /** A well-formed block comes out with the headers that stay, and is well-formed again. */
  lemma FilterLaw(hdrs: string, filters: seq<FilterEntry>, lookup: Lookup)
    requires Split(hdrs).rest == ""
    ensures Filtered(hdrs, filters, lookup).0
    ensures var out := Split(Filtered(hdrs, filters, lookup).1);
            out.rest == "" && Remaining(out.headers, Split(hdrs).headers, filters, lookup)
  {
    hide KeptByAll, Remaining, Filtered, Split;
    SplitFiltered(hdrs, filters, lookup);
    KeptRemain(Split(hdrs).headers, filters, lookup);
  }

  /** No whitelist or blacklist: the block stays as it is, well-formed or not. */
  lemma NothingToFilter(hdrs: string, filters: seq<FilterEntry>, lookup: Lookup)
    requires forall i :: 0 <= i < |filters| ==> filters[i].filterType in {Transparent, Undefined}
    ensures Filtered(hdrs, filters, lookup) == (true, hdrs)
  {
    NoneActive(filters);
  }

  lemma {:induction false} NoneActive(filters: seq<FilterEntry>)
    requires forall i :: 0 <= i < |filters| ==> !IsActiveFilter(filters[i].filterType)
    ensures Active(filters) == []
  {
    if filters != [] {
      NoneActive(filters[..|filters| - 1]);
    }
  }

  /** A malformed block: the first whitelist or blacklist alone works on the headers before the malformed one,
      and what is left from there stays. */
  lemma MalformedLaw(hdrs: string, filters: seq<FilterEntry>, lookup: Lookup, i: nat)
    requires Split(hdrs).rest != "" && i < |filters| && filters[i].filterType in {Whitelist, Blacklist}
    requires forall k :: 0 <= k < i ==> filters[k].filterType in {Transparent, Undefined}
    ensures HeaderAt(Split(hdrs).rest, 0).Malformed?
    ensures exists kept ::
      && Remaining(kept, Split(hdrs).headers, [filters[i]], lookup)
      && Filtered(hdrs, filters, lookup) == (false, Join(kept) + Split(hdrs).rest)
  {
    hide Split, Kept, KeptByAll, Remaining, Join;
    var headers, fe := Split(hdrs).headers, filters[i];
    RestIsMalformed(hdrs);
    FirstActive(filters, i);
    KeptByNone(headers, [], lookup);
    KeptThenKept(headers, [], fe, lookup);
    assert [] + [fe] == [fe];
    KeptRemain(headers, [fe], lookup);
  }

  lemma {:induction false} RestIsMalformed(s: string)
    requires Split(s).rest != ""
    ensures HeaderAt(Split(s).rest, 0).Malformed?
    decreases |s|
  {
    if HeaderAt(s, 0).Header? {
      RestIsMalformed(s[HeaderAt(s, 0).end..]);
    }
  }

  lemma {:induction false} FirstActive(filters: seq<FilterEntry>, i: nat)
    requires i < |filters| && IsActiveFilter(filters[i].filterType)
    requires forall k :: 0 <= k < i ==> !IsActiveFilter(filters[k].filterType)
    ensures Active(filters) != [] && Active(filters)[0] == filters[i]
  {
    var init := filters[..|filters| - 1];
    if i < |init| {
      FirstActive(init, i);
    } else {
      NoneActive(init);
    }
  }
}
