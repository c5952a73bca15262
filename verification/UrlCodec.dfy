/** Percent-encoding of C strings (src/ParamReplacer.cpp:588-658). The writers fill
    buffers of a size fixed in advance; bytes are 8 bits wide and wrap around. */
module UrlCodec {
  const PERCENT: bv8 := 0x25
  const PLUS: bv8 := 0x2B
  const SPACE: bv8 := 0x20

  // ---------- C strings ----------

  predicate Terminated(s: seq<bv8>) {
    0 in s
  }

  predicate NulFree(s: seq<bv8>) {
    0 !in s
  }

  function Strlen(s: seq<bv8>): (n: nat)
    requires Terminated(s)
    ensures n < |s| && s[n] == 0
    ensures forall k :: 0 <= k < n ==> s[k] != 0
  {
    if s[0] == 0 then 0 else 1 + Strlen(s[1..])
  }

  /** The bytes before the terminator. */
  function Text(s: seq<bv8>): (t: seq<bv8>)
    requires Terminated(s)
    ensures NulFree(t)
  {
    s[..Strlen(s)]
  }

  lemma TextIs(s: seq<bv8>, t: seq<bv8>)
    requires NulFree(t) && |t| < |s| && s[..|t|] == t && s[|t|] == 0
    ensures Terminated(s) && Text(s) == t
  {
    assert s[|t|] in s;
    assert forall k :: 0 <= k < |t| ==> s[k] == t[k] && t[k] in t;
    assert Strlen(s) == |t|;
  }

  method StrLen(a: array<bv8>) returns (n: nat)
    requires Terminated(a[..])
    ensures n == Strlen(a[..])
  {
    n := 0;
    while a[n] != 0
      invariant n <= Strlen(a[..])
      decreases a.Length - n
    {
      n := n + 1;
    }
  }

  // ---------- what the two directions compute ----------

  predicate IsDigit(c: bv8) {
    0x30 <= c <= 0x39
  }

  predicate IsUpper(c: bv8) {
    0x41 <= c <= 0x5A
  }

  predicate IsLower(c: bv8) {
    0x61 <= c <= 0x7A
  }

  /** isalnum in the C locale, '-', '_', '.' and '~'. */
  predicate Unreserved(c: bv8) {
    IsDigit(c) || IsUpper(c) || IsLower(c) || c == 0x2D || c == 0x5F || c == 0x2E || c == 0x7E
  }

  function ToHex(code: bv8): bv8 {
    var digit := code & 15;
    if digit < 10 then 0x30 + digit else 0x57 + digit
  }

  function FromHex(c: bv8): bv8 {
    if IsDigit(c) then c - 0x30 else (if IsUpper(c) then c + 0x20 else c) - 0x61 + 10
  }

  function Unescape(high: bv8, low: bv8): bv8 {
    (FromHex(high) << 4) | FromHex(low)
  }

  function Escape(b: bv8): (r: seq<bv8>)
    ensures 1 <= |r| <= 3
  {
    if Unreserved(b) then [b]
    else if b == SPACE then [PLUS]
    else [PERCENT, ToHex(b >> 4), ToHex(b & 15)]
  }

  function Encode(s: seq<bv8>): (r: seq<bv8>)
    ensures |s| <= |r| <= 3 * |s|
  {
    if s == [] then [] else Escape(s[0]) + Encode(s[1..])
  }

  /** A '%' with less than two bytes behind it is dropped; any two bytes are taken for digits. */
  function Decode(t: seq<bv8>): (r: seq<bv8>)
    ensures |r| <= |t|
  {
    if t == [] then []
    else if t[0] == PERCENT then
      if |t| >= 3 then [Unescape(t[1], t[2])] + Decode(t[3..]) else Decode(t[1..])
    else [if t[0] == PLUS then SPACE else t[0]] + Decode(t[1..])
  }

  // ---------- the two writers ----------

  /** Some escape of the text stands for NUL. */
  predicate EscapesNul(t: seq<bv8>) {
    && t != []
    && ((t[0] == PERCENT && |t| >= 3 && Unescape(t[1], t[2]) == 0) || EscapesNul(t[Reads(t)..]))
  }

  lemma Regroup(a: seq<bv8>, b: seq<bv8>, c: seq<bv8>)
    ensures a + (b + c) == (a + b) + c
  {}

  lemma Three(a: seq<bv8>, x: bv8, y: bv8, z: bv8)
    ensures ((a + [x]) + [y]) + [z] == a + [x, y, z]
  {}

  lemma EscapeOf(b: bv8)
    ensures Unreserved(b) ==> Escape(b) == [b]
    ensures !Unreserved(b) && b == SPACE ==> Escape(b) == [PLUS]
    ensures !Unreserved(b) && b != SPACE ==> Escape(b) == [PERCENT, ToHex(b >> 4), ToHex(b & 15)]
  {}

  lemma EncodeUnfolds(t: seq<bv8>)
    requires t != []
    ensures Encode(t) == Escape(t[0]) + Encode(t[1..])
  {
    hide Escape;
  }

  lemma EncodeStep(done: seq<bv8>, text: seq<bv8>, i: nat)
    requires i < |text| && done + Encode(text[i..]) == Encode(text)
    ensures (done + Escape(text[i])) + Encode(text[i + 1..]) == Encode(text)
  {
    hide *;
    var t := text[i..];
    assert t[0] == text[i] && t[1..] == text[i + 1..];
    EncodeUnfolds(t);
    Regroup(done, Escape(t[0]), Encode(t[1..]));
  }

  /** How many bytes of t one turn of the decoder reads, and what it writes for them. */
  function Reads(t: seq<bv8>): (n: nat)
    requires t != []
    ensures 1 <= n <= |t|
  {
    if t[0] == PERCENT && |t| >= 3 then 3 else 1
  }

  function Writes(t: seq<bv8>): (r: seq<bv8>)
    requires t != []
    ensures |r| <= 1
  {
    if t[0] != PERCENT then [if t[0] == PLUS then SPACE else t[0]]
    else if |t| >= 3 then [Unescape(t[1], t[2])]
    else []
  }

  lemma DecodeUnfolds(t: seq<bv8>)
    requires t != []
    ensures Decode(t) == Writes(t) + Decode(t[Reads(t)..])
  {
    hide Unescape;
  }

  lemma DecodeStep(done: seq<bv8>, text: seq<bv8>, i: nat)
    requires i < |text| && done + Decode(text[i..]) == Decode(text)
    ensures (done + Writes(text[i..])) + Decode(text[i + Reads(text[i..])..]) == Decode(text)
  {
    hide *;
    var t := text[i..];
    assert t[Reads(t)..] == text[i + Reads(t)..];
    DecodeUnfolds(t);
    Regroup(done, Writes(t), Decode(t[Reads(t)..]));
  }

  /** Write through a pointer that then moves on. */
  method Put(buf: array<bv8>, p: nat, b: bv8) returns (q: nat)
    requires p < buf.Length
    modifies buf
    ensures q == p + 1 && buf[..q] == old(buf[..p]) + [b]
  {
    buf[p] := b;
    q := p + 1;
  }

  method UrlEncode(str: array<bv8>) returns (buf: array<bv8>)
    requires Terminated(str[..])
    ensures fresh(buf) && buf.Length == 3 * |Text(str[..])| + 1
    ensures Terminated(buf[..]) && Text(buf[..]) == Encode(Text(str[..]))
  {
    hide Encode, Escape, ToHex, Unreserved;
    ghost var text := Text(str[..]);
    var length := StrLen(str);
    buf := new bv8[length * 3 + 1];
    var i, p := 0, 0;
    while str[i] != 0
      invariant i <= length == |text| && p <= 3 * i && str[..] == old(str[..])
      invariant buf[..p] + Encode(text[i..]) == Encode(text)
      decreases length - i
    {
      ghost var done := buf[..p];
      EncodeStep(done, text, i);
      EscapeOf(text[i]);
      if Unreserved(str[i]) {
        p := Put(buf, p, str[i]);
      } else if str[i] == SPACE {
        p := Put(buf, p, PLUS);
      } else {
        p := Put(buf, p, PERCENT);
        p := Put(buf, p, ToHex(str[i] >> 4));
        p := Put(buf, p, ToHex(str[i] & 15));
        Three(done, PERCENT, ToHex(str[i] >> 4), ToHex(str[i] & 15));
      }
      assert buf[..p] == done + Escape(text[i]);
      i := i + 1;
    }
    buf[p] := 0;
    EncodingEnds(buf[..], p, text, i);
  }

  lemma EncodingEnds(s: seq<bv8>, p: nat, text: seq<bv8>, i: nat)
    requires p < |s| && s[p] == 0 && i == |text| && s[..p] + Encode(text[i..]) == Encode(text)
    ensures Terminated(s) && Text(s) == Encode(text)
  {
    assert text[i..] == [];
    EncodedBytes(text);
    TextIs(s, Encode(text));
  }

  /** The whole decoded text is written and terminated; a C reader stops at a decoded NUL. */
  method UrlDecode(str: array<bv8>) returns (buf: array<bv8>)
    requires Terminated(str[..])
    ensures fresh(buf) && buf.Length == |Text(str[..])| + 1
    ensures var r := Decode(Text(str[..])); buf[..|r|] == r && buf[|r|] == 0
    ensures Terminated(buf[..])
    ensures Text(buf[..]) == Decode(Text(str[..])) <==> !EscapesNul(Text(str[..]))
  {
    hide Decode, FromHex;
    ghost var text := Text(str[..]);
    var length := StrLen(str);
    buf := new bv8[length + 1];
    var i, p := 0, 0;
    while str[i] != 0
      invariant i <= length == |text| && p <= i && str[..] == old(str[..])
      invariant buf[..p] + Decode(text[i..]) == Decode(text)
      decreases length - i
    {
      ghost var done, j := buf[..p], i;
      DecodeStep(done, text, i);
      if str[i] == PERCENT {
        if str[i + 1] != 0 && str[i + 2] != 0 {
          p := Put(buf, p, (FromHex(str[i + 1]) << 4) | FromHex(str[i + 2]));
          i := i + 2;
        }
      } else if str[i] == PLUS {
        p := Put(buf, p, SPACE);
      } else {
        p := Put(buf, p, str[i]);
      }
      i := i + 1;
      assert i == j + Reads(text[j..]) && buf[..p] == done + Writes(text[j..]);
    }
    buf[p] := 0;
    assert text[i..] == [];
    assert buf[p] in buf[..];
    NulExactlyWhenEscaped(text);
    if NulFree(Decode(text)) {
      TextIs(buf[..], Decode(text));
    }
  }

  /** A text without NUL is decoded to one with a NUL if and only if it escapes one. */
  lemma {:induction false} NulExactlyWhenEscaped(t: seq<bv8>)
    requires NulFree(t)
    ensures NulFree(Decode(t)) <==> !EscapesNul(t)
  {
    if t != [] {
      hide Unescape, Decode;
      DecodeUnfolds(t);
      var rest := t[Reads(t)..];
      assert forall b :: b in rest ==> b in t;
      NulExactlyWhenEscaped(rest);
      assert t[0] in t;
    } else {
      assert Decode(t) == [];
    }
  }

  /** The digits are not checked, so that %g0 stands for NUL as well as %00. */
  lemma NulEscapes()
    ensures EscapesNul([PERCENT, 0x30, 0x30]) && EscapesNul([PERCENT, 0x67, 0x30])
    ensures Decode([PERCENT, 0x67, 0x30]) == [0]
  {
    assert Unescape(0x67, 0x30) == 0 && Unescape(0x30, 0x30) == 0;
    assert [PERCENT, 0x67, 0x30][3..] == [];
    assert Decode([PERCENT, 0x67, 0x30]) == [0] + Decode([]);
  }

  // ---------- the two directions undo each other ----------

  /** The digits that Escape writes, for a byte that it does not write plainly. */
  predicate CanonicalEscape(high: bv8, low: bv8) {
    var b := Unescape(high, low);
    high == ToHex(b >> 4) && low == ToHex(b & 15) && !Unreserved(b) && b != SPACE
  }

  lemma HexDigits(n: bv8)
    requires n < 16
    ensures FromHex(ToHex(n)) == n && ToHex(n) != 0 && Unreserved(ToHex(n))
  {}

  lemma EscapeUndone(b: bv8)
    requires !Unreserved(b) && b != SPACE
    ensures Unescape(ToHex(b >> 4), ToHex(b & 15)) == b
    ensures Unreserved(ToHex(b >> 4)) && Unreserved(ToHex(b & 15))
    ensures CanonicalEscape(ToHex(b >> 4), ToHex(b & 15))
  {
    HexDigits(b >> 4);
    HexDigits(b & 15);
  }

  /** An encoded text holds unreserved bytes, '+' and '%' only; in particular no NUL. */
  lemma {:induction false} EncodedBytes(s: seq<bv8>)
    ensures forall b :: b in Encode(s) ==> Unreserved(b) || b == PLUS || b == PERCENT
    ensures NulFree(Encode(s))
  {
    if s != [] {
      EncodedBytes(s[1..]);
      if !Unreserved(s[0]) && s[0] != SPACE {
        EscapeUndone(s[0]);
      }
    }
  }

  lemma {:induction false} DecodeEncode(s: seq<bv8>)
    ensures Decode(Encode(s)) == s
  {
    hide *;
    if s != [] {
      var rest := Encode(s[1..]);
      DecodeEncode(s[1..]);
      EncodeUnfolds(s);
      EscapeRead(s[0], rest);
      DecodeUnfolds(Escape(s[0]) + rest);
      assert [s[0]] + s[1..] == s;
    } else {
      EmptyText();
    }
  }

  lemma EmptyText()
    ensures Encode([]) == [] && Decode([]) == []
  {}

  /** The decoder reads one escape in one turn. */
  lemma EscapeRead(b: bv8, rest: seq<bv8>)
    ensures var t := Escape(b) + rest;
            Writes(t) == [b] && Reads(t) == |Escape(b)| && t[Reads(t)..] == rest
  {
    hide ToHex, Unescape;
    if !Unreserved(b) && b != SPACE {
      EscapeUndone(b);
    }
  }

  /** Every reserved byte is written as its own two-digit escape and nothing else is escaped. */
  predicate Canonical(t: seq<bv8>) {
    t == [] ||
    if t[0] == PERCENT then |t| >= 3 && CanonicalEscape(t[1], t[2]) && Canonical(t[3..])
    else (Unreserved(t[0]) || t[0] == PLUS) && Canonical(t[1..])
  }

  lemma {:induction false} EncodedIsCanonical(s: seq<bv8>)
    ensures Canonical(Encode(s))
  {
    hide ToHex, Unescape, CanonicalEscape;
    if s != [] {
      EncodedIsCanonical(s[1..]);
      var head, rest := Escape(s[0]), Encode(s[1..]);
      assert (head + rest)[|head|..] == rest;
      if !Unreserved(s[0]) && s[0] != SPACE {
        EscapeUndone(s[0]);
      }
    }
  }

  lemma {:induction false} CanonicalIsEncoded(t: seq<bv8>)
    requires Canonical(t)
    ensures Encode(Decode(t)) == t
  {
    hide *;
    if t != [] {
      CanonicalHead(t);
      var rest := t[Reads(t)..];
      CanonicalIsEncoded(rest);
      DecodeUnfolds(t);
      assert Decode(t)[0] == Writes(t)[0] && Decode(t)[1..] == Decode(rest);
      EncodeUnfolds(Decode(t));
      assert t[..Reads(t)] + rest == t;
    } else {
      EmptyText();
    }
  }

  lemma CanonicalHead(t: seq<bv8>)
    requires Canonical(t) && t != []
    ensures |Writes(t)| == 1 && Escape(Writes(t)[0]) == t[..Reads(t)] && Canonical(t[Reads(t)..])
  {
    hide ToHex, Unescape;
  }

  /** Decoding loses nothing exactly on the canonical texts. */
  lemma {:induction false} EncodeDecode(t: seq<bv8>)
    ensures Encode(Decode(t)) == t <==> Canonical(t)
  {
    EncodedIsCanonical(Decode(t));
    if Canonical(t) {
      CanonicalIsEncoded(t);
    }
  }

  // ---------- the texts themselves ----------

  /** The digit that stands for n < 16, in lower or upper case. */
  predicate StandsFor(digit: bv8, n: bv8) {
    if n < 10 then digit == 0x30 + n else digit == 0x61 + (n - 10) || digit == 0x41 + (n - 10)
  }

  predicate IsLowerDigit(digit: bv8) {
    digit <= 0x39 || 0x61 <= digit
  }

  /** The letters, the digits and "-_.~". */
  predicate Plain(b: bv8) {
    0x30 <= b <= 0x39 || 0x41 <= b <= 0x5A || 0x61 <= b <= 0x7A || b in {0x2D, 0x5F, 0x2E, 0x7E}
  }

  /** A plain byte stands for itself, a space as '+', any other byte as '%' and its two digits, the high one first
      and in lower case. */
  lemma EncodedByte(high: bv8, low: bv8)
    requires high < 16 && low < 16
    ensures var b, r := 16 * high + low, Encode([16 * high + low]);
      if Plain(b) then r == [b]
      else if b == 0x20 then r == [0x2B]
      else && |r| == 3 && r[0] == 0x25 && StandsFor(r[1], high) && StandsFor(r[2], low)
           && IsLowerDigit(r[1]) && IsLowerDigit(r[2])
  {
    hide Escape;
    var b := 16 * high + low;
    EncodeUnfolds([b]);
    EscapeOf(b);
    EmptyText();
    Nibbles(high, low);
    DigitsOf(high);
    DigitsOf(low);
    assert Encode([b]) == Escape(b);
  }

  lemma Nibbles(high: bv8, low: bv8)
    requires high < 16 && low < 16
    ensures (16 * high + low) >> 4 == high && (16 * high + low) & 15 == low
    ensures (high << 4) | low == 16 * high + low
  {}

  lemma DigitsOf(n: bv8)
    requires n < 16
    ensures StandsFor(ToHex(n), n) && IsLowerDigit(ToHex(n))
  {}

  /** Two digits in either case stand for a byte, '+' for a space, other bytes for themselves; a '%' that two
      bytes do not follow is dropped. */
  lemma DecodedByte(b: bv8, t: seq<bv8>, high: bv8, low: bv8)
    requires high < 16 && low < 16
    ensures b == 0x25 && |t| >= 2 && StandsFor(t[0], high) && StandsFor(t[1], low) ==>
              Decode([b] + t) == [16 * high + low] + Decode(t[2..])
    ensures b == 0x25 && |t| < 2 ==> Decode([b] + t) == Decode(t)
    ensures b == 0x2B ==> Decode([b] + t) == [0x20] + Decode(t)
    ensures b != 0x25 && b != 0x2B ==> Decode([b] + t) == [b] + Decode(t)
  {
    hide Unescape, FromHex;
    assert ([b] + t)[1..] == t;
    if |t| >= 2 {
      assert ([b] + t)[3..] == t[2..];
      if StandsFor(t[0], high) && StandsFor(t[1], low) {
        DigitsRead(t[0], t[1], high, low);
      }
    }
  }

  lemma DigitsRead(a: bv8, b: bv8, high: bv8, low: bv8)
    requires high < 16 && low < 16 && StandsFor(a, high) && StandsFor(b, low)
    ensures Unescape(a, b) == 16 * high + low
  {
    hide FromHex;
    DigitRead(a, high);
    DigitRead(b, low);
    Nibbles(high, low);
  }

  lemma DigitRead(digit: bv8, n: bv8)
    requires n < 16 && StandsFor(digit, n)
    ensures FromHex(digit) == n
  {}
}
