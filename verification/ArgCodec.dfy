/** Encoding call variables into a SIP user name and back (src/arg_conversion.cpp).
    Values are printed with length prefixes, then escaped byte by byte. */
module ArgValues {
  type Byte = c: char | c as int < 256 witness 'a'
  type Text = seq<Byte>

  /** The dynamic values of the server. `Other` stands for the kinds that have no encoding
      (numbers, blobs, objects). A struct lists its fields in the order of its map. */
  datatype AmArg =
    | Undef
    | CStr(text: Text)
    | Array(items: seq<AmArg>)
    | Struct(fields: seq<Field>)
    | Other

  datatype Field = Field(key: Text, value: AmArg)

  const NUL: Byte := 0 as char

  /** The order of std::string. */
  predicate Less(a: Text, b: Text) {
    |b| > 0 && (|a| == 0 || a[0] < b[0] || (a[0] == b[0] && Less(a[1..], b[1..])))
  }

  lemma {:induction false} LessIsStrict(a: Text)
    ensures !Less(a, a)
  {
    if a != [] {
      LessIsStrict(a[1..]);
    }
  }

  lemma {:induction false} LessIsTransitive(a: Text, b: Text, c: Text)
    requires Less(a, b) && Less(b, c)
    ensures Less(a, c)
  {
    if |a| > 0 && a[0] == b[0] == c[0] {
      LessIsTransitive(a[1..], b[1..], c[1..]);
    }
  }

  lemma {:induction false} LessIsTotal(a: Text, b: Text)
    ensures Less(a, b) || a == b || Less(b, a)
  {
    if |a| > 0 && |b| > 0 && a[0] == b[0] {
      LessIsTotal(a[1..], b[1..]);
      assert a == [a[0]] + a[1..] && b == [b[0]] + b[1..];
    }
  }

  predicate Sorted(fields: seq<Field>) {
    forall i, j :: 0 <= i < j < |fields| ==> Less(fields[i].key, fields[j].key)
  }

  /** Insert a field into the map, or replace the one with its key. */
  function Put(fields: seq<Field>, key: Text, value: AmArg): seq<Field> {
    if fields == [] || Less(key, fields[0].key) then [Field(key, value)] + fields
    else if key == fields[0].key then [Field(key, value)] + fields[1..]
    else [fields[0]] + Put(fields[1..], key, value)
  }

  /** What a string value keeps of the bytes assigned to it: it is a C string. */
  function CString(s: Text): (r: Text)
    ensures NUL !in r
    ensures NUL !in s ==> r == s
  {
    if s == [] || s[0] == NUL then [] else [s[0]] + CString(s[1..])
  }

  /** What holds of every value by its representation. */
  predicate WellFormed(a: AmArg) {
    match a
    case CStr(text) => NUL !in text
    case Array(items) => forall i :: 0 <= i < |items| ==> WellFormed(items[i])
    case Struct(fields) => Sorted(fields) && forall i :: 0 <= i < |fields| ==> WellFormed(fields[i].value)
    case _ => true
  }

  lemma {:induction false} PutKeepsOrder(fields: seq<Field>, key: Text, value: AmArg)
    requires Sorted(fields)
    ensures Sorted(Put(fields, key, value))
    ensures forall f :: f in Put(fields, key, value) <==>
              f == Field(key, value) || (f in fields && f.key != key)
  {
    if fields != [] {
      var head, tail := fields[0], fields[1..];
      assert fields == [head] + tail;
      assert forall i :: 0 <= i < |tail| ==> Less(head.key, tail[i].key);
      if Less(key, head.key) {
        forall i | 0 <= i < |tail| ensures Less(key, tail[i].key) {
          LessIsTransitive(key, head.key, tail[i].key);
        }
        OtherKeys(fields, key);
      } else if key == head.key {
        OtherKeys(tail, key);
      } else {
        LessIsTotal(key, head.key);
        PutKeepsOrder(tail, key, value);
        forall f | f in Put(tail, key, value) ensures Less(head.key, f.key) {}
      }
    }
  }

  lemma OtherKeys(fields: seq<Field>, key: Text)
    requires forall i :: 0 <= i < |fields| ==> Less(key, fields[i].key)
    ensures forall f :: f in fields ==> f.key != key
  {
    LessIsStrict(key);
  }

  /** A key behind all others goes to the end. */
  lemma {:induction false} PutLast(fields: seq<Field>, key: Text, value: AmArg)
    requires forall i :: 0 <= i < |fields| ==> Less(fields[i].key, key)
    ensures Put(fields, key, value) == fields + [Field(key, value)]
  {
    if fields != [] {
      LessIsStrict(key);
      if Less(key, fields[0].key) {
        LessIsTransitive(key, fields[0].key, key);
      } else {
        PutLast(fields[1..], key, value);
      }
    }
  }
}

/** Printing values with length prefixes, and reading them back. */
module ArgStrings {
  import opened Options
  import opened ArgValues

  const CSTR_LABEL: Byte := 's'
  const ARRAY_LABEL: Byte := 'a'
  const STRUCT_LABEL: Byte := 'x'
  const SEPARATOR: Byte := '/'

  // ---------- numbers ----------

  predicate IsDigit(c: Byte) {
    '0' <= c <= '9'
  }

  function DigitOf(c: Byte): nat
    requires IsDigit(c)
  {
    c as int - '0' as int
  }

  predicate AllDigits(s: Text) {
    forall i :: 0 <= i < |s| ==> IsDigit(s[i])
  }

  function Value(s: Text): nat
    requires AllDigits(s)
  {
    if s == [] then 0 else 10 * Value(s[..|s| - 1]) + DigitOf(s[|s| - 1])
  }

  function Decimal(n: nat): (s: Text)
    ensures |s| > 0 && AllDigits(s) && Value(s) == n
  {
    var digit: Byte := ('0' as int + n % 10) as char;
    if n < 10 then [digit] else Decimal(n / 10) + [digit]
  }

  /** A length prefix. */
  function Length(n: nat): Text {
    Decimal(n) + [SEPARATOR]
  }

  // ---------- printing ----------

  predicate Encodable(a: AmArg) {
    match a
    case CStr(_) => true
    case Array(items) => forall i :: 0 <= i < |items| ==> Encodable(items[i])
    case Struct(fields) => forall i :: 0 <= i < |fields| ==> Encodable(fields[i].value)
    case _ => false
  }

  predicate EncodableItems(items: seq<AmArg>) {
    forall i :: 0 <= i < |items| ==> Encodable(items[i])
  }

  predicate EncodableFields(fields: seq<Field>) {
    forall i :: 0 <= i < |fields| ==> Encodable(fields[i].value)
  }

  function Encoded(a: AmArg): Text
    requires Encodable(a)
  {
    match a
    case CStr(text) => [CSTR_LABEL] + Length(|text|) + text
    case Array(items) => [ARRAY_LABEL] + Length(|items|) + EncodedItems(items)
    case Struct(fields) => [STRUCT_LABEL] + Length(|fields|) + EncodedFields(fields)
  }

  function EncodedItems(items: seq<AmArg>): Text
    requires EncodableItems(items)
  {
    if items == [] then [] else Encoded(items[0]) + EncodedItems(items[1..])
  }

  function EncodedField(field: Field): Text
    requires Encodable(field.value)
  {
    Length(|field.key|) + field.key + Encoded(field.value)
  }

  function EncodedFields(fields: seq<Field>): Text
    requires EncodableFields(fields)
  {
    if fields == [] then [] else EncodedField(fields[0]) + EncodedFields(fields[1..])
  }

  /** What is printed so far, completed by the items from i on, is the whole text. */
  predicate ItemsToGo(done: Text, items: seq<AmArg>, i: nat, whole: seq<AmArg>, head: Text)
    requires i <= |items|
  {
    && (EncodableItems(items[i..]) <==> EncodableItems(whole))
    && (EncodableItems(whole) ==> done + EncodedItems(items[i..]) == head + EncodedItems(whole))
  }

  lemma ItemsStep(done: Text, items: seq<AmArg>, i: nat, head: Text)
    requires i < |items| && ItemsToGo(done, items, i, items, head)
    ensures Encodable(items[i]) ==> ItemsToGo(done + Encoded(items[i]), items, i + 1, items, head)
    ensures !Encodable(items[i]) ==> !EncodableItems(items)
  {
    hide Encoded, Encodable;
    var rest := items[i..];
    assert rest[0] == items[i] && rest[1..] == items[i + 1..] && rest == [rest[0]] + rest[1..];
    if EncodableItems(rest) {
      Regroup(done, Encoded(rest[0]), EncodedItems(rest[1..]));
    }
  }

  predicate FieldsToGo(done: Text, fields: seq<Field>, i: nat, whole: seq<Field>, head: Text)
    requires i <= |fields|
  {
    && (EncodableFields(fields[i..]) <==> EncodableFields(whole))
    && (EncodableFields(whole) ==> done + EncodedFields(fields[i..]) == head + EncodedFields(whole))
  }

  lemma FieldsStep(done: Text, fields: seq<Field>, i: nat, head: Text)
    requires i < |fields| && FieldsToGo(done, fields, i, fields, head)
    ensures Encodable(fields[i].value) ==> FieldsToGo(done + EncodedField(fields[i]), fields, i + 1, fields, head)
    ensures !Encodable(fields[i].value) ==> !EncodableFields(fields)
  {
    hide EncodedField, Encodable;
    var rest := fields[i..];
    assert rest[0] == fields[i] && rest[1..] == fields[i + 1..] && rest == [rest[0]] + rest[1..];
    if EncodableFields(rest) {
      Regroup(done, EncodedField(rest[0]), EncodedFields(rest[1..]));
    }
  }

  lemma Regroup(a: Text, b: Text, c: Text)
    ensures a + (b + c) == (a + b) + c
  {}

  /** None stands for the exception that is thrown at a value without an encoding. */
  method Arg2String(a: AmArg) returns (r: Option<Text>)
    ensures r == if Encodable(a) then Some(Encoded(a)) else None
    decreases a, 1
  {
    match a
    case CStr(p) => r := Some([CSTR_LABEL] + Length(|p|) + p);
    case Array(items) => r := Items2String(items);
    case Struct(fields) => r := Fields2String(fields);
    case _ => r := None;
  }

  method Items2String(items: seq<AmArg>) returns (r: Option<Text>)
    ensures r == if EncodableItems(items) then Some([ARRAY_LABEL] + Length(|items|) + EncodedItems(items)) else None
    decreases items, 0
  {
    hide Encoded, Encodable, EncodableItems, EncodedItems, Length;
    var s: Text := [ARRAY_LABEL] + Length(|items|);
    ghost var head := s;
    assert items[0..] == items;
    for i := 0 to |items|
      invariant ItemsToGo(s, items, i, items, head)
    {
      ItemsStep(s, items, i, head);
      var item := Arg2String(items[i]);
      if item.None? { return None; }
      s := s + item.value;
    }
    NoMoreItems(items);
    assert s + [] == s;
    return Some(s);
  }

  method Fields2String(fields: seq<Field>) returns (r: Option<Text>)
    ensures r == if EncodableFields(fields)
                 then Some([STRUCT_LABEL] + Length(|fields|) + EncodedFields(fields)) else None
    decreases fields, 0
  {
    hide Encoded, Encodable, EncodableFields, EncodedFields, Length;
    var s: Text := [STRUCT_LABEL] + Length(|fields|);
    ghost var head := s;
    assert fields[0..] == fields;
    for i := 0 to |fields|
      invariant FieldsToGo(s, fields, i, fields, head)
    {
      FieldsStep(s, fields, i, head);
      ghost var done := s;
      s := s + Length(|fields[i].key|);
      s := s + fields[i].key;
      var value := Arg2String(fields[i].value);
      if value.None? { return None; }
      s := s + value.value;
      FieldPrinted(done, fields[i]);
    }
    NoMoreFields(fields);
    assert s + [] == s;
    return Some(s);
  }

  lemma FieldPrinted(done: Text, field: Field)
    requires Encodable(field.value)
    ensures done + Length(|field.key|) + field.key + Encoded(field.value) == done + EncodedField(field)
  {
    hide Encoded, Encodable, Length;
  }

  lemma NoMoreItems(items: seq<AmArg>)
    ensures items[|items|..] == [] && EncodableItems([]) && EncodedItems([]) == []
  {}

  lemma NoMoreFields(fields: seq<Field>)
    ensures fields[|fields|..] == [] && EncodableFields([]) && EncodedFields([]) == []
  {}

  // ---------- the texts themselves ----------

  /** A number has no leading zero. */
  lemma {:induction false} NoLeadingZero(n: nat)
    ensures Decimal(n)[0] == '0' <==> n == 0
  {
    if n >= 10 {
      NoLeadingZero(n / 10);
    }
  }

  lemma OneDigit(n: nat)
    requires n < 10
    ensures Length(n) == ["0123456789"[n], '/']
  {}

  /** The format: "s2/ab" is a string, "a2/s1/as1/b" an array of two, "x1/1/ka0/" a struct whose field k is an
      empty array; and a length has as many digits as it needs. */
  lemma Format(a: Byte, b: Byte)
    ensures Encoded(CStr([a, b])) == ['s', '2', '/', a, b]
    ensures Encoded(Array([CStr([a]), CStr([b])])) == ['a', '2', '/', 's', '1', '/', a, 's', '1', '/', b]
    ensures Encoded(Struct([Field([a], Array([]))])) == ['x', '1', '/', '1', '/', a, 'a', '0', '/']
    ensures Length(120) == ['1', '2', '0', '/']
  {
    hide Encoded, Length;
    StringFormat([a, b]);
    ArrayFormat(a, b);
    StructFormat(a);
    LongLength();
  }

  lemma LongLength()
    ensures Length(120) == ['1', '2', '0', '/']
  {}

  lemma StringFormat(text: Text)
    requires |text| < 10
    ensures Encoded(CStr(text)) == ['s', "0123456789"[|text|], '/'] + text
  {
    OneDigit(|text|);
  }

  lemma ArrayFormat(a: Byte, b: Byte)
    ensures Encoded(Array([CStr([a]), CStr([b])])) == ['a', '2', '/', 's', '1', '/', a, 's', '1', '/', b]
  {
    hide Length;
    OneDigit(2);
    StringFormat([a]);
    StringFormat([b]);
    var items, last := [CStr([a]), CStr([b])], [CStr([b])];
    assert items[1..] == last && last[1..] == [];
    assert EncodedItems(last) == Encoded(last[0]) + [];
    assert EncodedItems(items) == Encoded(items[0]) + EncodedItems(last);
  }

  lemma StructFormat(a: Byte)
    ensures Encoded(Struct([Field([a], Array([]))])) == ['x', '1', '/', '1', '/', a, 'a', '0', '/']
  {
    hide Length;
    OneDigit(0);
    OneDigit(1);
    var fields := [Field([a], Array([]))];
    assert fields[1..] == [];
    assert Encoded(Array([])) == ['a', '0', '/'];
    assert EncodedFields(fields) == EncodedField(fields[0]) + [];
  }

  // ---------- reading ----------

  /** What is read from the front of a text, and what stays behind it. */
  datatype Read<+T> = Fail | Read(value: T, rest: Text)

  function LeadingDigits(s: Text): (n: nat)
    ensures n <= |s| && AllDigits(s[..n]) && (n < |s| ==> !IsDigit(s[n]))
  {
    if s == [] || !IsDigit(s[0]) then 0 else 1 + LeadingDigits(s[1..])
  }

  function LengthOf(s: Text): (r: Read<nat>)
    ensures r.Read? ==> |r.rest| < |s|
  {
    var n := LeadingDigits(s);
    if n == 0 || n == |s| || s[n] != SEPARATOR then Fail else Read(Value(s[..n]), s[n + 1..])
  }

  function StringOf(s: Text): (r: Read<Text>)
    ensures r.Read? ==> |r.rest| < |s|
  {
    var length := LengthOf(s);
    if length.Fail? || length.value > |length.rest| then Fail
    else Read(length.rest[..length.value], length.rest[length.value..])
  }

  function ArgOf(s: Text): (r: Read<AmArg>)
    ensures r.Read? ==> |r.rest| < |s|
    decreases |s|, 0
  {
    if s == [] then Fail
    else if s[0] == CSTR_LABEL then
      match StringOf(s[1..])
      case Fail => Fail
      case Read(text, rest) => Read(CStr(CString(text)), rest)
    else if s[0] == ARRAY_LABEL then
      match ArrayOf(s[1..])
      case Fail => Fail
      case Read(items, rest) => Read(Array(items), rest)
    else if s[0] == STRUCT_LABEL then
      match StructOf(s[1..])
      case Fail => Fail
      case Read(fields, rest) => Read(Struct(fields), rest)
    else Fail
  }

  function ArrayOf(s: Text): (r: Read<seq<AmArg>>)
    ensures r.Read? ==> |r.rest| < |s|
    decreases |s|, 0
  {
    match LengthOf(s)
    case Fail => Fail
    case Read(count, rest) => ItemsOf(count, rest, [])
  }

  function StructOf(s: Text): (r: Read<seq<Field>>)
    ensures r.Read? ==> |r.rest| < |s|
    decreases |s|, 0
  {
    match LengthOf(s)
    case Fail => Fail
    case Read(count, rest) => FieldsOf(count, rest, [])
  }

  /** `count` more items behind those in `items`. */
  function ItemsOf(count: nat, s: Text, items: seq<AmArg>): (r: Read<seq<AmArg>>)
    ensures r.Read? ==> |r.rest| <= |s|
    decreases |s|, count + 1
  {
    if count == 0 then Read(items, s)
    else
      match ArgOf(s)
      case Fail => Fail
      case Read(item, rest) => ItemsOf(count - 1, rest, items + [item])
  }

  function FieldOf(s: Text): (r: Read<Field>)
    ensures r.Read? ==> |r.rest| < |s|
    decreases |s|, 1
  {
    match StringOf(s)
    case Fail => Fail
    case Read(key, rest) =>
      (match ArgOf(rest)
       case Fail => Fail
       case Read(value, rest') => Read(Field(key, value), rest'))
  }

  function FieldsOf(count: nat, s: Text, fields: seq<Field>): (r: Read<seq<Field>>)
    ensures r.Read? ==> |r.rest| <= |s|
    decreases |s|, count + 2
  {
    if count == 0 then Read(fields, s)
    else
      match FieldOf(s)
      case Fail => Fail
      case Read(field, rest) => FieldsOf(count - 1, rest, Put(fields, field.key, field.value))
  }

  /** The position of a reader in its text: `src` bytes are behind it and `len` ahead. */
  class Cursor {
    const data: Text
    var src: nat
    var len: nat

    constructor (data: Text)
      ensures this.data == data && Valid() && Rest() == data
    {
      this.data := data;
      src, len := 0, |data|;
    }

    ghost predicate Valid()
      reads this
    {
      src + len == |data|
    }

    ghost function Rest(): (s: Text)
      reads this
      requires Valid()
      ensures |s| == len
    {
      data[src..]
    }

    method Advance(n: nat)
      requires Valid() && n <= len
      modifies this
      ensures Valid() && Rest() == old(Rest()[n..])
    {
      len := len - n;
      src := src + n;
    }

    method ReadLen() returns (ok: bool, dst: nat)
      requires Valid()
      modifies this
      ensures Valid() && len <= old(len)
      ensures match LengthOf(old(Rest()))
              case Fail => !ok && Rest() == old(Rest())
              case Read(value, rest) => ok && dst == value && Rest() == rest
    {
      ghost var s := Rest();
      dst := 0;
      var i := 0;
      while i < len && IsDigit(data[src + i])
        invariant i <= LeadingDigits(s) && dst == Value(s[..i])
        invariant Valid() && Rest() == s
      {
        dst := 10 * dst + DigitOf(data[src + i]);
        i := i + 1;
        DigitRead(s, i);
      }
      assert i == LeadingDigits(s);
      if i == len || data[src + i] != SEPARATOR || i == 0 {
        return false, dst;
      }
      Advance(i + 1);
      return true, dst;
    }

    method ReadString() returns (ok: bool, dst: Text)
      requires Valid()
      modifies this
      ensures Valid() && len <= old(len)
      ensures match StringOf(old(Rest()))
              case Fail => !ok
              case Read(value, rest) => ok && dst == value && Rest() == rest
    {
      dst := [];
      var l;
      ok, l := ReadLen();
      if !ok { return; }
      if l > len { return false, dst; }
      dst := data[src..src + l];
      Advance(l);
    }

    /** Whatever the text, the reader ends and stays inside it. */
    method String2Arg() returns (ok: bool, dst: AmArg)
      requires Valid()
      modifies this
      ensures Valid() && len <= old(len)
      ensures match ArgOf(old(Rest()))
              case Fail => !ok
              case Read(value, rest) => ok && dst == value && Rest() == rest
      decreases len, 0
    {
      hide StringOf, ArrayOf, StructOf;
      dst := Undef;
      if len < 1 { return false, dst; }
      var kind := data[src];
      if kind == CSTR_LABEL {
        Advance(1);
        var text;
        ok, text := ReadString();
        if ok { dst := CStr(CString(text)); }
      } else if kind == ARRAY_LABEL {
        Advance(1);
        var items;
        ok, items := ReadItems();
        if ok { dst := Array(items); }
      } else if kind == STRUCT_LABEL {
        Advance(1);
        var fields;
        ok, fields := ReadFields();
        if ok { dst := Struct(fields); }
      } else {
        ok := false;
      }
    }

    method ReadItems() returns (ok: bool, items: seq<AmArg>)
      requires Valid()
      modifies this
      ensures Valid() && len <= old(len)
      ensures match ArrayOf(old(Rest()))
              case Fail => !ok
              case Read(value, rest) => ok && items == value && Rest() == rest
      decreases len, 1
    {
      hide ArgOf, ItemsOf, LengthOf;
      var count;
      items := [];
      ok, count := ReadLen();
      if !ok { return; }
      ghost var all := ItemsOf(count, Rest(), []);
      for i := 0 to count
        invariant ok && Valid() && len < old(len)
        invariant ItemsOf(count - i, Rest(), items) == all
      {
        ItemsOfStep(count - i, Rest(), items);
        var item;
        ok, item := String2Arg();
        if !ok { return; }
        items := items + [item];
      }
      NothingToRead(Rest(), items, []);
    }

    method ReadFields() returns (ok: bool, fields: seq<Field>)
      requires Valid()
      modifies this
      ensures Valid() && len <= old(len)
      ensures match StructOf(old(Rest()))
              case Fail => !ok
              case Read(value, rest) => ok && fields == value && Rest() == rest
      decreases len, 1
    {
      hide ArgOf, FieldsOf, LengthOf, StringOf;
      var count;
      fields := [];
      ok, count := ReadLen();
      if !ok { return; }
      ghost var all := FieldsOf(count, Rest(), []);
      for i := 0 to count
        invariant ok && Valid() && len < old(len)
        invariant FieldsOf(count - i, Rest(), fields) == all
      {
        FieldsOfStep(count - i, Rest(), fields);
        var key, value;
        ok, key := ReadString();
        if !ok { return; }
        ok, value := String2Arg();
        if !ok { return; }
        fields := Put(fields, key, value);
      }
      NothingToRead(Rest(), [], fields);
    }
  }

  lemma NothingToRead(s: Text, items: seq<AmArg>, fields: seq<Field>)
    ensures ItemsOf(0, s, items) == Read(items, s)
    ensures FieldsOf(0, s, fields) == Read(fields, s)
  {}

  lemma ItemsOfStep(count: nat, s: Text, items: seq<AmArg>)
    requires count > 0
    ensures match ArgOf(s)
            case Fail => ItemsOf(count, s, items) == Fail
            case Read(item, rest) => ItemsOf(count, s, items) == ItemsOf(count - 1, rest, items + [item])
  {
    hide ArgOf;
  }

  lemma FieldsOfStep(count: nat, s: Text, fields: seq<Field>)
    requires count > 0
    ensures match FieldOf(s)
            case Fail => FieldsOf(count, s, fields) == Fail
            case Read(f, rest) => FieldsOf(count, s, fields) == FieldsOf(count - 1, rest, Put(fields, f.key, f.value))
  {
    hide FieldOf;
  }

  lemma DigitRead(s: Text, i: nat)
    requires 0 < i <= LeadingDigits(s)
    ensures Value(s[..i]) == 10 * Value(s[..i - 1]) + DigitOf(s[i - 1])
  {
    assert s[..i][..i - 1] == s[..i - 1];
  }

  // ---------- reading undoes printing ----------

  lemma {:induction false} LeadingDigitsOf(digits: Text, rest: Text)
    requires AllDigits(digits) && rest != [] && !IsDigit(rest[0])
    ensures LeadingDigits(digits + rest) == |digits|
  {
    if digits == [] {
      assert digits + rest == rest;
    } else {
      LeadingDigitsOf(digits[1..], rest);
      assert (digits + rest)[1..] == digits[1..] + rest;
    }
  }

  lemma LengthRead(n: nat, rest: Text)
    ensures LengthOf(Length(n) + rest) == Read(n, rest)
  {
    hide LeadingDigits, Decimal, Value;
    var digits, behind := Decimal(n), [SEPARATOR] + rest;
    var s := Length(n) + rest;
    assert s == digits + behind;
    LeadingDigitsOf(digits, behind);
    assert s[..|digits|] == digits && s[|digits| + 1..] == rest;
  }

  lemma StringRead(text: Text, rest: Text)
    ensures StringOf(Length(|text|) + text + rest) == Read(text, rest)
  {
    hide LengthOf, Length;
    LengthRead(|text|, text + rest);
    Regroup(Length(|text|), text, rest);
    assert (text + rest)[..|text|] == text && (text + rest)[|text|..] == rest;
  }

  /** Every encoding is self-delimiting: it is read back whatever follows it. */
  lemma ArgRead(a: AmArg, rest: Text)
    requires WellFormed(a) && Encodable(a)
    ensures ArgOf(Encoded(a) + rest) == Read(a, rest)
    decreases a, 1
  {
    hide Length, LengthOf, StringOf, ItemsOf, FieldsOf, EncodedItems, EncodedFields;
    var s := Encoded(a) + rest;
    match a
    case CStr(text) =>
      StringRead(text, rest);
      assert s[1..] == Length(|text|) + text + rest;
    case Array(items) =>
      assert s[1..] == Length(|items|) + (EncodedItems(items) + rest);
      LengthRead(|items|, EncodedItems(items) + rest);
      ItemsRead(items, [], rest);
      assert [] + items == items;
    case Struct(fields) =>
      assert s[1..] == Length(|fields|) + (EncodedFields(fields) + rest);
      LengthRead(|fields|, EncodedFields(fields) + rest);
      assert [] + fields == fields;
      FieldsRead(fields, [], rest);
  }

  lemma ItemsRead(items: seq<AmArg>, done: seq<AmArg>, rest: Text)
    requires EncodableItems(items) && forall i :: 0 <= i < |items| ==> WellFormed(items[i])
    ensures ItemsOf(|items|, EncodedItems(items) + rest, done) == Read(done + items, rest)
    decreases items, 0
  {
    hide Encoded, Encodable, WellFormed, ArgOf;
    if items == [] {
      assert done + items == done && EncodedItems(items) + rest == rest;
    } else {
      var behind := EncodedItems(items[1..]) + rest;
      assert EncodedItems(items) + rest == Encoded(items[0]) + behind;
      ArgRead(items[0], behind);
      ItemsRead(items[1..], done + [items[0]], rest);
      assert done + [items[0]] + items[1..] == done + items;
    }
  }

  lemma FieldsRead(fields: seq<Field>, done: seq<Field>, rest: Text)
    requires EncodableFields(fields) && forall i :: 0 <= i < |fields| ==> WellFormed(fields[i].value)
    requires Sorted(done + fields)
    ensures FieldsOf(|fields|, EncodedFields(fields) + rest, done) == Read(done + fields, rest)
    decreases fields, 0
  {
    hide Encoded, Encodable, WellFormed, ArgOf, Length, FieldOf, EncodedField;
    if fields == [] {
      assert done + fields == done && EncodedFields(fields) + rest == rest;
    } else {
      var f, behind := fields[0], EncodedFields(fields[1..]) + rest;
      Regroup(EncodedField(f), EncodedFields(fields[1..]), rest);
      FieldRead(f, behind);
      SortedAt(done, fields);
      PutLast(done, f.key, f.value);
      assert Field(f.key, f.value) == f;
      assert done + [f] + fields[1..] == done + fields;
      FieldsRead(fields[1..], done + [f], rest);
    }
  }

  lemma FieldRead(f: Field, rest: Text)
    requires WellFormed(f.value) && Encodable(f.value)
    ensures FieldOf(EncodedField(f) + rest) == Read(f, rest)
    decreases f, 2
  {
    hide Encoded, Encodable, WellFormed, ArgOf, Length, StringOf;
    var behind := Encoded(f.value) + rest;
    assert EncodedField(f) + rest == Length(|f.key|) + f.key + behind;
    StringRead(f.key, behind);
    ArgRead(f.value, rest);
  }

  lemma SortedAt(done: seq<Field>, fields: seq<Field>)
    requires Sorted(done + fields) && fields != []
    ensures forall i :: 0 <= i < |done| ==> Less(done[i].key, fields[0].key)
  {
    hide Less;
    var all := done + fields;
    forall i | 0 <= i < |done| ensures Less(done[i].key, fields[0].key) {
      assert all[i] == done[i] && all[|done|] == fields[0];
    }
  }

  /** No encoding is a proper prefix of another, and no two values share one. */
  lemma PrefixFree(a: AmArg, b: AmArg)
    requires WellFormed(a) && Encodable(a) && WellFormed(b) && Encodable(b)
    ensures Encoded(a) <= Encoded(b) <==> a == b
  {
    hide Encoded, Encodable, WellFormed, ArgOf;
    if Encoded(a) <= Encoded(b) {
      var rest := Encoded(b)[|Encoded(a)|..];
      assert Encoded(b) == Encoded(a) + rest;
      ArgRead(a, rest);
      ArgRead(b, []);
      assert Encoded(b) + [] == Encoded(b);
    }
  }

  /** Only what could have been printed is ever read. */
  lemma {:induction false} ReadIsPrintable(s: Text)
    ensures ArgOf(s).Read? ==> WellFormed(ArgOf(s).value) && Encodable(ArgOf(s).value)
    decreases |s|, 0
  {
    hide LengthOf, StringOf, ItemsOf, FieldsOf;
    if s != [] {
      var length := LengthOf(s[1..]);
      if length.Read? {
        ItemsArePrintable(length.value, length.rest, []);
        FieldsArePrintable(length.value, length.rest, []);
      }
    }
  }

  lemma {:induction false} ItemsArePrintable(count: nat, s: Text, items: seq<AmArg>)
    requires EncodableItems(items) && forall i :: 0 <= i < |items| ==> WellFormed(items[i])
    ensures var r := ItemsOf(count, s, items);
      r.Read? ==> EncodableItems(r.value) && forall i :: 0 <= i < |r.value| ==> WellFormed(r.value[i])
    decreases |s|, count + 1
  {
    hide ArgOf, WellFormed, Encodable;
    if count > 0 {
      ReadIsPrintable(s);
      if ArgOf(s).Read? {
        ItemsArePrintable(count - 1, ArgOf(s).rest, items + [ArgOf(s).value]);
      }
    }
  }

  lemma {:induction false} FieldsArePrintable(count: nat, s: Text, fields: seq<Field>)
    requires Sorted(fields) && EncodableFields(fields)
    requires forall i :: 0 <= i < |fields| ==> WellFormed(fields[i].value)
    ensures var r := FieldsOf(count, s, fields);
      r.Read? ==> Sorted(r.value) && EncodableFields(r.value)
                  && forall i :: 0 <= i < |r.value| ==> WellFormed(r.value[i].value)
    decreases |s|, count + 1
  {
    hide ArgOf, WellFormed, Encodable, Sorted, Put, StringOf;
    if count > 0 && FieldOf(s).Read? {
      var key := StringOf(s);
      ReadIsPrintable(key.rest);
      var f := FieldOf(s).value;
      PutKeepsOrder(fields, f.key, f.value);
      var more := Put(fields, f.key, f.value);
      forall i | 0 <= i < |more| ensures WellFormed(more[i].value) && Encodable(more[i].value) {
        assert more[i] in more;
      }
      FieldsArePrintable(count - 1, FieldOf(s).rest, more);
    }
  }
}

/** The bytes of an encoding as a SIP user name: those that a user name cannot hold are
    written as '?' and two hexadecimal digits. */
module UserNames {
  import opened Options
  import opened ArgValues
  import opened ArgStrings

  const ESCAPE_CHAR: Byte := '?'

  /** The characters of a user name; strchr finds the NUL that ends their list as well. */
  predicate Allowed(c: Byte) {
    || 'a' <= c <= 'z' || 'A' <= c <= 'Z' || '0' <= c <= '9'
    || c in {'-', '_', '.', '!', '~', '*', '\'', '&', '=', '+', '$', ',', ';', '/'}
    || c == NUL
  }

  // ---------- hexadecimal digits ----------

  function HexDigit(n: nat): Byte
    requires n < 16
  {
    if n < 10 then ('0' as int + n) as char else ('a' as int + n - 10) as char
  }

  function HexValue(c: Byte): (r: Option<nat>)
    ensures r.Some? ==> r.value < 16
  {
    if '0' <= c <= '9' then Some(c as int - '0' as int)
    else if 'a' <= c <= 'f' then Some(c as int - 'a' as int + 10)
    else if 'A' <= c <= 'F' then Some(c as int - 'A' as int + 10)
    else None
  }

  /** char2hex: the high nibble comes first. */
  function Hex(c: Byte): Text {
    [HexDigit(c as int / 16), HexDigit(c as int % 16)]
  }

  /** reverse_hex2int, given the two digits in the order of the text. */
  function Unhex(high: Byte, low: Byte): Option<Byte> {
    if HexValue(high).None? || HexValue(low).None? then None
    else Some((16 * HexValue(high).value + HexValue(low).value) as char)
  }

  lemma UnhexHex(c: Byte)
    ensures |Hex(c)| == 2 && Unhex(Hex(c)[0], Hex(c)[1]) == Some(c)
    ensures Allowed(Hex(c)[0]) && Allowed(Hex(c)[1])
  {
    var high, low := c as int / 16, c as int % 16;
    assert HexValue(HexDigit(high)) == Some(high) && HexValue(HexDigit(low)) == Some(low);
    assert (16 * high + low) as char == c;
  }

  // ---------- escaping ----------

  function EscapedByte(c: Byte): Text {
    if Allowed(c) then [c] else [ESCAPE_CHAR] + Hex(c)
  }

  function Escaped(s: Text): Text {
    if s == [] then [] else EscapedByte(s[0]) + Escaped(s[1..])
  }

  function Behind(head: Text, rest: Option<Text>): Option<Text> {
    match rest
    case None => None
    case Some(tail) => Some(head + tail)
  }

  /** None when an escape is cut off or is not hexadecimal. */
  function Unescaped(s: Text): Option<Text> {
    if s == [] then Some([])
    else if s[0] != ESCAPE_CHAR then Behind([s[0]], Unescaped(s[1..]))
    else if |s| < 3 then None
    else
      match Unhex(s[1], s[2])
      case None => None
      case Some(c) => Behind([c], Unescaped(s[3..]))
  }

  /** What a user name stands for. */
  function Decoded(name: Text): Option<AmArg> {
    match Unescaped(name)
    case None => None
    case Some(encoded) => if ArgOf(encoded).Read? then Some(ArgOf(encoded).value) else None
  }

  lemma {:induction false} UnescapedEscaped(s: Text)
    ensures Unescaped(Escaped(s)) == Some(s)
  {
    hide Hex, Unhex;
    if s != [] {
      UnescapedEscaped(s[1..]);
      UnhexHex(s[0]);
      var head, rest := EscapedByte(s[0]), Escaped(s[1..]);
      assert (head + rest)[|head|..] == rest;
      assert [s[0]] + s[1..] == s;
    }
  }

  const HEX_DIGITS := "0123456789abcdef"

  /** A letter, a digit, one of the listed signs or NUL stands for itself, any other byte as '?' and its two
      digits, the high one first. */
  predicate StandsForByte(text: Text, c: Byte) {
    if 'a' <= c <= 'z' || 'A' <= c <= 'Z' || '0' <= c <= '9' || c == NUL
       || c in {'-', '_', '.', '!', '~', '*', '\'', '&', '=', '+', '$', ',', ';', '/'}
    then text == [c]
    else text == ['?', HEX_DIGITS[c as int / 16], HEX_DIGITS[c as int % 16]]
  }

  lemma EscapeFormat(c: Byte)
    ensures StandsForByte(Escaped([c]), c)
  {
    assert Escaped([c]) == EscapedByte(c) + [];
  }

  /** A user name holds nothing but allowed bytes and the escape character. */
  lemma {:induction false} EscapedBytes(s: Text)
    ensures forall c :: c in Escaped(s) ==> Allowed(c) || c == ESCAPE_CHAR
  {
    hide Allowed, Hex;
    if s != [] {
      EscapedBytes(s[1..]);
      UnhexHex(s[0]);
    }
  }

  /** Any nesting of strings, arrays and structs comes back from its user name. */
  lemma UserNameRoundTrip(a: AmArg)
    requires WellFormed(a) && Encodable(a)
    ensures Decoded(Escaped(Encoded(a))) == Some(a)
  {
    hide Encoded, Encodable, WellFormed, ArgOf;
    UnescapedEscaped(Encoded(a));
    ArgRead(a, []);
    assert Encoded(a) + [] == Encoded(a);
  }

  /** A user name stands for some value if and only if that value can be given a user name. */
  lemma NamedExactlyWhenEncodable(a: AmArg)
    requires WellFormed(a)
    ensures (exists name :: Decoded(name) == Some(a)) <==> Encodable(a)
  {
    if Encodable(a) {
      UserNameRoundTrip(a);
    } else {
      forall name | Decoded(name) == Some(a) ensures false {
        ReadIsPrintable(Unescaped(name).value);
      }
    }
  }

  // ---------- the two conversions ----------

  method Arg2Username(a: AmArg) returns (r: Option<Text>)
    ensures r == if Encodable(a) then Some(Escaped(Encoded(a))) else None
  {
    hide Encoded, Encodable;
    var encoded := Arg2String(a);
    if encoded.None? { return None; }
    var s := encoded.value;
    var res: Text := [];
    for i := 0 to |s|
      invariant res + Escaped(s[i..]) == Escaped(s)
    {
      EscapeStep(res, s, i);
      if Allowed(s[i]) {
        res := res + [s[i]];
      } else {
        res := res + [ESCAPE_CHAR];
        res := res + Hex(s[i]);
      }
    }
    assert s[|s|..] == [] && res + [] == res;
    return Some(res);
  }

  lemma EscapeStep(res: Text, s: Text, i: nat)
    requires i < |s| && res + Escaped(s[i..]) == Escaped(s)
    ensures res + EscapedByte(s[i]) + Escaped(s[i + 1..]) == Escaped(s)
    ensures Allowed(s[i]) ==> res + EscapedByte(s[i]) == res + [s[i]]
    ensures !Allowed(s[i]) ==> res + EscapedByte(s[i]) == res + [ESCAPE_CHAR] + Hex(s[i])
  {
    hide Allowed, Hex, Escaped;
    EscapedFrom(s, i);
    Regroup(res, EscapedByte(s[i]), Escaped(s[i + 1..]));
    Regroup(res, [ESCAPE_CHAR], Hex(s[i]));
  }

  lemma EscapedFrom(s: Text, i: nat)
    requires i < |s|
    ensures Escaped(s[i..]) == EscapedByte(s[i]) + Escaped(s[i + 1..])
  {
    hide EscapedByte;
    assert s[i..][1..] == s[i + 1..];
  }

  /** The first escape at or behind `from`, or the end of the text. */
  method Find(s: Text, from: nat) returns (pos: nat)
    requires from <= |s|
    ensures from <= pos <= |s| && (pos < |s| ==> s[pos] == ESCAPE_CHAR)
    ensures ESCAPE_CHAR !in s[from..pos]
  {
    pos := from;
    while pos < |s| && s[pos] != ESCAPE_CHAR
      invariant from <= pos <= |s| && ESCAPE_CHAR !in s[from..pos]
    {
      pos := pos + 1;
    }
  }

  method Username2Arg(src: Text) returns (ok: bool, dst: AmArg)
    ensures Decoded(src) == if ok then Some(dst) else None
  {
    hide ArgOf, Unescaped, Unhex;
    var encoded := src;
    var pos := Find(encoded, 0);
    NothingPassed(src);
    PlainPrefix(encoded, 0, pos, Unescaped(src));
    while pos < |encoded|
      invariant pos <= |encoded| && (pos < |encoded| ==> encoded[pos] == ESCAPE_CHAR)
      invariant Behind(encoded[..pos], Unescaped(encoded[pos..])) == Unescaped(src)
      decreases |encoded| - pos
    {
      BadEscape(encoded, pos);
      if pos + 2 >= |encoded| { return false, Undef; }
      var c := Unhex(encoded[pos + 1], encoded[pos + 2]);
      if c.None? { return false, Undef; }
      ReplacedEscape(encoded, pos);
      encoded := encoded[..pos] + [c.value] + encoded[pos + 3..];
      var next := Find(encoded, pos + 1);
      PlainPrefix(encoded, pos + 1, next, Unescaped(src));
      pos := next;
    }
    NoEscapeLeft(encoded);
    var cursor := new Cursor(encoded);
    ok, dst := cursor.String2Arg();
  }

  lemma NothingPassed(s: Text)
    ensures Behind(s[..0], Unescaped(s[0..])) == Unescaped(s)
  {
    hide Unescaped;
    assert s[0..] == s;
    assert forall t: Text :: s[..0] + t == t;
  }

  lemma NoEscapeLeft(s: Text)
    ensures s[|s|..] == [] && Unescaped([]) == Some([]) && s[..|s|] + [] == s
  {}

  lemma {:induction false} PlainPrefix(s: Text, from: nat, to: nat, whole: Option<Text>)
    requires from <= to <= |s| && ESCAPE_CHAR !in s[from..to]
    requires Behind(s[..from], Unescaped(s[from..])) == whole
    ensures Behind(s[..to], Unescaped(s[to..])) == whole
    decreases |s| - from
  {
    hide Unhex;
    if from < to {
      assert s[from..][0] == s[from..to][0] && s[from..][1..] == s[from + 1..];
      assert s[..from + 1] == s[..from] + [s[from]];
      assert forall t: Text :: s[..from] + ([s[from]] + t) == s[..from + 1] + t;
      assert s[from + 1..to] == s[from..to][1..];
      PlainPrefix(s, from + 1, to, whole);
    }
  }

  lemma BadEscape(s: Text, pos: nat)
    requires pos < |s| && s[pos] == ESCAPE_CHAR
    ensures pos + 2 >= |s| ==> Unescaped(s[pos..]) == None
    ensures pos + 2 < |s| && Unhex(s[pos + 1], s[pos + 2]).None? ==> Unescaped(s[pos..]) == None
  {
    hide Unhex;
  }

  lemma ReplacedEscape(s: Text, pos: nat)
    requires pos + 2 < |s| && s[pos] == ESCAPE_CHAR && Unhex(s[pos + 1], s[pos + 2]).Some?
    ensures var c := Unhex(s[pos + 1], s[pos + 2]).value;
      var s' := s[..pos] + [c] + s[pos + 3..];
      Behind(s[..pos], Unescaped(s[pos..])) == Behind(s'[..pos + 1], Unescaped(s'[pos + 1..]))
  {
    hide Unhex;
    var c := Unhex(s[pos + 1], s[pos + 2]).value;
    var s' := s[..pos] + [c] + s[pos + 3..];
    assert s[pos..][3..] == s[pos + 3..] == s'[pos + 1..];
    assert s'[..pos + 1] == s[..pos] + [c];
    assert forall t: Text :: s[..pos] + ([c] + t) == s[..pos] + [c] + t;
  }
}
