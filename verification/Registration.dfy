/** Keeping the SIP registrar in step with the registrations of the database
    (src/Registration.cpp:40-153): only the differences are sent. */
module RegistrationRecords {
  import opened Options

  type Id = string

  datatype Value = Undef | CStr(text: string) | Int(number: int) | Bool(flag: bool) | Other(tag: string)

  /** A row of the database answer, and what is kept of it. */
  type Row = map<string, Value>
  type Record = map<string, Value>
  type Registrations = map<Id, Record>

  datatype Kind = Text | Number(number: int) | Flag(flag: bool)

  datatype FieldSpec = FieldSpec(name: string, column: string, kind: Kind)

  /** The defaults that the SIP stack defines, and how it prints a value that is no string. */
  datatype Stack = Stack(retryDelay: int, maxAttempts: int, udp: int, sip: int, shown: Value -> string)

  function Fields(stack: Stack): seq<FieldSpec> {
    [ FieldSpec("id", "o_id", Text),
      FieldSpec("domain", "o_domain", Text),
      FieldSpec("user", "o_user", Text),
      FieldSpec("name", "o_display_name", Text),
      FieldSpec("auth_username", "o_auth_user", Text),
      FieldSpec("auth_password", "o_auth_password", Text),
      FieldSpec("proxy", "o_proxy", Text),
      FieldSpec("contact", "o_contact", Text),
      FieldSpec("sip_interface_name", "o_sip_interface_name", Text),
      FieldSpec("expires_interval", "o_expire", Number(0)),
      FieldSpec("retry_delay", "o_retry_delay", Number(stack.retryDelay)),
      FieldSpec("max_attempts", "o_max_attempts", Number(stack.maxAttempts)),
      FieldSpec("transport_protocol_id", "o_transport_protocol_id", Number(stack.udp)),
      FieldSpec("proxy_transport_protocol_id", "o_proxy_transport_protocol_id", Number(stack.udp)),
      FieldSpec("scheme_id", "o_scheme_id", Number(stack.sip)),
      FieldSpec("force_expires_interval", "o_force_expire", Flag(false)) ]
  }

  function Column(row: Row, column: string, kind: Kind, shown: Value -> string): Value {
    var v := if column in row then row[column] else Undef;
    match kind
    case Text => if v.Undef? then CStr("") else if v.CStr? then v else CStr(shown(v))
    case Number(otherwise) => if v.Int? then v else Int(otherwise)
    case Flag(otherwise) => Int(if (if v.Bool? then v.flag else otherwise) then 1 else 0)
  }

  /** A record after the first n fields have been read over it. */
  function ReadOver(record: Record, row: Row, fields: seq<FieldSpec>, shown: Value -> string): Record {
    if fields == [] then record
    else
      var last := fields[|fields| - 1];
      ReadOver(record, row, fields[..|fields| - 1], shown)[last.name := Column(row, last.column, last.kind, shown)]
  }

  function RecordOf(row: Row, stack: Stack): Record {
    ReadOver(map[], row, Fields(stack), stack.shown)
  }

  function IdOf(row: Row, stack: Stack): Id {
    Column(row, "o_id", Text, stack.shown).text
  }

  function Names(fields: seq<FieldSpec>): set<string> {
    set f | f in fields :: f.name
  }

  lemma {:induction false} ReadOverKeys(record: Record, row: Row, fields: seq<FieldSpec>, shown: Value -> string)
    ensures ReadOver(record, row, fields, shown).Keys == record.Keys + Names(fields)
  {
    if fields != [] {
      var rest, last := fields[..|fields| - 1], fields[|fields| - 1];
      ReadOverKeys(record, row, rest, shown);
      assert fields == rest + [last];
      assert Names(fields) == Names(rest) + {last.name};
    } else {
      assert Names(fields) == {};
    }
  }

  /** Reading a row replaces whatever a row with the same id has left behind. */
  lemma {:induction false} ReadOverForgets(record: Record, other: Record, row: Row, fields: seq<FieldSpec>,
                                           shown: Value -> string)
    requires record.Keys <= Names(fields) + other.Keys && other.Keys <= Names(fields) + record.Keys
    requires forall k :: k in record && k !in Names(fields) ==> k in other && record[k] == other[k]
    ensures ReadOver(record, row, fields, shown) == ReadOver(other, row, fields, shown)
  {
    ReadOverKeys(record, row, fields, shown);
    ReadOverKeys(other, row, fields, shown);
    forall k | k in ReadOver(record, row, fields, shown)
      ensures ReadOver(record, row, fields, shown)[k] == ReadOver(other, row, fields, shown)[k]
    {
      SameField(record, other, row, fields, shown, k);
    }
  }

  lemma {:induction false} SameField(record: Record, other: Record, row: Row, fields: seq<FieldSpec>,
                                     shown: Value -> string, k: string)
    requires k in ReadOver(record, row, fields, shown) && k in ReadOver(other, row, fields, shown)
    requires k in Names(fields) || (k in record && k in other && record[k] == other[k])
    ensures ReadOver(record, row, fields, shown)[k] == ReadOver(other, row, fields, shown)[k]
  {
    if fields != [] {
      var rest, last := fields[..|fields| - 1], fields[|fields| - 1];
      if k != last.name {
        assert fields == rest + [last];
        SameField(record, other, row, rest, shown, k);
      }
    }
  }

  lemma RereadIsFresh(record: Record, row: Row, stack: Stack)
    requires record.Keys <= Names(Fields(stack))
    ensures ReadOver(record, row, Fields(stack), stack.shown) == RecordOf(row, stack)
  {
    hide ReadOver, Fields;
    ReadOverForgets(record, map[], row, Fields(stack), stack.shown);
  }

  /** Every record has the same fields, and its own id among them. */
  predicate Proper(id: Id, record: Record, stack: Stack) {
    record.Keys == Names(Fields(stack)) && "id" in record && record["id"] == CStr(id)
  }

  predicate AllProper(registrations: Registrations, stack: Stack) {
    forall id :: id in registrations ==> Proper(id, registrations[id], stack)
  }

  lemma {:induction false} FieldRead(record: Record, row: Row, fields: seq<FieldSpec>, shown: Value -> string, i: nat)
    requires i < |fields| && forall j :: i < j < |fields| ==> fields[j].name != fields[i].name
    ensures fields[i].name in ReadOver(record, row, fields, shown)
    ensures ReadOver(record, row, fields, shown)[fields[i].name]
         == Column(row, fields[i].column, fields[i].kind, shown)
  {
    if i < |fields| - 1 {
      FieldRead(record, row, fields[..|fields| - 1], shown, i);
    }
  }

  lemma IdIsFirst(stack: Stack)
    ensures |Fields(stack)| > 0 && Fields(stack)[0] == FieldSpec("id", "o_id", Text)
    ensures forall j :: 0 < j < |Fields(stack)| ==> Fields(stack)[j].name != "id"
  {
    assert forall j :: 0 < j < |Fields(stack)| ==> |Fields(stack)[j].name| > 2;
  }

  lemma RecordIsProper(row: Row, stack: Stack)
    ensures Proper(IdOf(row, stack), RecordOf(row, stack), stack)
  {
    hide ReadOver, Fields;
    IdIsFirst(stack);
    var nothing: Record, fields := map[], Fields(stack);
    ReadOverKeys(nothing, row, fields, stack.shown);
    FieldRead(nothing, row, fields, stack.shown, 0);
    assert fields[0].name in Names(fields) && nothing.Keys + Names(fields) == Names(fields);
  }

  /** The field tells the text of a column, empty if the row has none; another value is printed. */
  predicate TellsText(record: Record, name: string, row: Row, column: string, stack: Stack) {
    && name in record
    && (column !in row || row[column].Undef? ==> record[name] == CStr(""))
    && (column in row && row[column].CStr? ==> record[name] == row[column])
    && (column in row && !row[column].Undef? && !row[column].CStr? ==> record[name] == CStr(stack.shown(row[column])))
  }

  /** The field tells the number of a column, and one that the SIP stack defines if the row has none. */
  predicate TellsNumber(record: Record, name: string, row: Row, column: string, otherwise: int) {
    name in record && record[name] == if column in row && row[column].Int? then row[column] else Int(otherwise)
  }

  /** Field n tells what its entry in the list says. */
  lemma FieldTells(row: Row, stack: Stack, n: nat)
    requires n < |Fields(stack)| && forall j :: n < j < |Fields(stack)| ==> Fields(stack)[j].name != Fields(stack)[n].name
    ensures var f := Fields(stack)[n];
      && (f.kind.Text? ==> TellsText(RecordOf(row, stack), f.name, row, f.column, stack))
      && (f.kind.Number? ==> TellsNumber(RecordOf(row, stack), f.name, row, f.column, f.kind.number))
      && f.name in RecordOf(row, stack)
      && RecordOf(row, stack)[f.name] == Column(row, f.column, f.kind, stack.shown)
  {
    hide Fields, ReadOver;
    FieldRead(map[], row, Fields(stack), stack.shown, n);
  }

  /** What every field of a record tells: the column it is read from, and what counts if the row lacks it. */
  lemma TextFields(row: Row, stack: Stack)
    ensures var r := RecordOf(row, stack);
      && TellsText(r, "id", row, "o_id", stack)
      && TellsText(r, "domain", row, "o_domain", stack)
      && TellsText(r, "user", row, "o_user", stack)
      && TellsText(r, "name", row, "o_display_name", stack)
      && TellsText(r, "auth_username", row, "o_auth_user", stack)
      && TellsText(r, "auth_password", row, "o_auth_password", stack)
      && TellsText(r, "proxy", row, "o_proxy", stack)
      && TellsText(r, "contact", row, "o_contact", stack)
      && TellsText(r, "sip_interface_name", row, "o_sip_interface_name", stack)
  {
    hide RecordOf, TellsText, TellsNumber, Column;
    NamesDiffer(stack);
    FieldTells(row, stack, 0);
    FieldTells(row, stack, 1);
    FieldTells(row, stack, 2);
    FieldTells(row, stack, 3);
    FieldTells(row, stack, 4);
    FieldTells(row, stack, 5);
    FieldTells(row, stack, 6);
    FieldTells(row, stack, 7);
    FieldTells(row, stack, 8);
  }

  lemma NumberFields(row: Row, stack: Stack)
    ensures var r := RecordOf(row, stack);
      && TellsNumber(r, "expires_interval", row, "o_expire", 0)
      && TellsNumber(r, "retry_delay", row, "o_retry_delay", stack.retryDelay)
      && TellsNumber(r, "max_attempts", row, "o_max_attempts", stack.maxAttempts)
      && TellsNumber(r, "transport_protocol_id", row, "o_transport_protocol_id", stack.udp)
      && TellsNumber(r, "proxy_transport_protocol_id", row, "o_proxy_transport_protocol_id", stack.udp)
      && TellsNumber(r, "scheme_id", row, "o_scheme_id", stack.sip)
      && "force_expires_interval" in r
      && r["force_expires_interval"] == Int(if "o_force_expire" in row && row["o_force_expire"] == Bool(true) then 1 else 0)
  {
    hide RecordOf, TellsText, TellsNumber;
    NamesDiffer(stack);
    FieldTells(row, stack, 9);
    FieldTells(row, stack, 10);
    FieldTells(row, stack, 11);
    FieldTells(row, stack, 12);
    FieldTells(row, stack, 13);
    FieldTells(row, stack, 14);
    FieldTells(row, stack, 15);
  }

  lemma NamesDiffer(stack: Stack)
    ensures |Fields(stack)| == 16
    ensures forall i, j :: 0 <= i < j < 16 ==> Fields(stack)[i].name != Fields(stack)[j].name
  {}

  /** The registrations of a database answer; of rows with the same id the last one counts. */
  function Loaded(rows: seq<Row>, stack: Stack): Registrations {
    if rows == [] then map[]
    else
      var row := rows[|rows| - 1];
      Loaded(rows[..|rows| - 1], stack)[IdOf(row, stack) := RecordOf(row, stack)]
  }

  lemma {:induction false} LoadedIsProper(rows: seq<Row>, stack: Stack)
    ensures AllProper(Loaded(rows, stack), stack)
  {
    hide RecordOf, IdOf, Proper;
    if rows != [] {
      LoadedIsProper(rows[..|rows| - 1], stack);
      RecordIsProper(rows[|rows| - 1], stack);
    }
  }

  lemma {:induction false} LastRowCounts(rows: seq<Row>, stack: Stack, i: nat)
    requires i < |rows| && forall j :: i < j < |rows| ==> IdOf(rows[j], stack) != IdOf(rows[i], stack)
    ensures IdOf(rows[i], stack) in Loaded(rows, stack)
    ensures Loaded(rows, stack)[IdOf(rows[i], stack)] == RecordOf(rows[i], stack)
  {
    hide RecordOf, IdOf;
    if i < |rows| - 1 {
      LastRowCounts(rows[..|rows| - 1], stack, i);
    }
  }
}

/** The requests to the registrar and what they leave it holding. */
module RegistrarOps {
  import opened Options
  import opened RegistrationRecords

  /** createRegistration is given the record alone, so that its id has to be in there. */
  datatype Op = Create(record: Record) | Remove(id: Id)

  function Target(op: Op): Id {
    match op
    case Remove(id) => id
    case Create(record) => if "id" in record && record["id"].CStr? then record["id"].text else ""
  }

  function Get(registrations: Registrations, id: Id): Option<Record> {
    if id in registrations then Some(registrations[id]) else None
  }

  function Apply(held: Registrations, op: Op): Registrations {
    match op
    case Remove(id) => held - {id}
    case Create(record) => held[Target(op) := record]
  }

  function Replay(held: Registrations, ops: seq<Op>): Registrations {
    if ops == [] then held else Apply(Replay(held, ops[..|ops| - 1]), ops[|ops| - 1])
  }

  /** The requests about one id. */
  function Of(ops: seq<Op>, id: Id): seq<Op> {
    if ops == [] then []
    else
      var last := ops[|ops| - 1];
      Of(ops[..|ops| - 1], id) + if Target(last) == id then [last] else []
  }

  /** What one registration needs, given what it was and what it has become. */
  function Needed(before: Option<Record>, after: Option<Record>, id: Id): seq<Op> {
    match (before, after)
    case (None, None) => []
    case (None, Some(r)) => [Create(r)]
    case (Some(_), None) => [Remove(id)]
    case (Some(r), Some(r')) => if r == r' then [] else [Remove(id), Create(r')]
  }

  /** The requests are, id by id, the ones that are needed, and no others. */
  ghost predicate Minimal(before: Registrations, after: Registrations, ops: seq<Op>) {
    forall id :: Of(ops, id) == Needed(Get(before, id), Get(after, id), id)
  }

  lemma {:induction false} ReplayAt(held: Registrations, ops: seq<Op>, id: Id)
    ensures Get(Replay(held, ops), id) == Get(Replay(held, Of(ops, id)), id)
  {
    if ops != [] {
      var rest, last := ops[..|ops| - 1], ops[|ops| - 1];
      ReplayAt(held, rest, id);
      if Target(last) == id {
        assert (Of(rest, id) + [last])[..|Of(rest, id)|] == Of(rest, id);
      } else {
        assert Of(rest, id) + [] == Of(rest, id);
      }
    }
  }

  lemma NeededReaches(before: Registrations, after: Registrations, id: Id, stack: Stack)
    requires AllProper(after, stack)
    ensures Get(Replay(before, Needed(Get(before, id), Get(after, id), id)), id) == Get(after, id)
  {
    hide Fields, Names;
    if id in after {
      assert Proper(id, after[id], stack);
      ReplayTwo(before, Remove(id), Create(after[id]));
    }
    ReplayOne(before, Remove(id));
    if id in after {
      ReplayOne(before, Create(after[id]));
    }
  }

  lemma ReplayOne(held: Registrations, op: Op)
    ensures Replay(held, [op]) == Apply(held, op)
  {
    assert [op][..0] == [];
  }

  lemma ReplayTwo(held: Registrations, first: Op, second: Op)
    ensures Replay(held, [first, second]) == Apply(Apply(held, first), second)
  {
    assert [first, second][..1] == [first];
    ReplayOne(held, first);
  }

  /** The differences, in whatever order, do what a full reload does. */
  lemma DifferencesEqualReload(before: Registrations, after: Registrations, ops: seq<Op>, stack: Stack)
    requires AllProper(after, stack) && Minimal(before, after, ops)
    ensures Replay(before, ops) == after
  {
    hide AllProper, Replay, Of, Needed;
    var held := Replay(before, ops);
    forall id ensures Get(held, id) == Get(after, id) {
      ReplayAt(before, ops, id);
      NeededReaches(before, after, id, stack);
    }
    SameEverywhere(held, after);
  }

  lemma SameEverywhere(a: Registrations, b: Registrations)
    requires forall id :: Get(a, id) == Get(b, id)
    ensures a == b
  {
    forall id ensures id in a <==> id in b {
      assert Get(a, id) == Get(b, id);
    }
    forall id | id in a ensures a[id] == b[id] {
      assert Get(a, id) == Get(b, id);
    }
  }

  /** No registration is created twice and none is removed that is not there. */
  predicate Fits(held: Registrations, op: Op) {
    if op.Remove? then op.id in held else Target(op) !in held
  }

  lemma {:induction false} OfPrefix(ops: seq<Op>, k: nat, id: Id)
    requires k <= |ops|
    ensures Of(ops[..k], id) <= Of(ops, id)
    decreases |ops| - k
  {
    if k == |ops| {
      assert ops[..k] == ops;
    } else {
      OfPrefix(ops, k + 1, id);
      assert ops[..k + 1][..k] == ops[..k];
    }
  }

  lemma EveryRequestFits(before: Registrations, after: Registrations, ops: seq<Op>, k: nat, stack: Stack)
    requires AllProper(after, stack) && Minimal(before, after, ops) && k < |ops|
    ensures Fits(Replay(before, ops[..k]), ops[k])
  {
    hide Replay, Apply, AllProper, Minimal;
    var op := ops[k];
    var id, done := Target(op), Of(ops[..k], Target(op));
    assert ops[..k + 1][..k] == ops[..k];
    OfPrefix(ops, k + 1, id);
    var needed := Needed(Get(before, id), Get(after, id), id);
    NeededFor(before, after, ops, id);
    assert needed[|done|] == (done + [op])[|done|] == op && needed[..|done|] == (done + [op])[..|done|] == done;
    ReplayAt(before, ops[..k], id);
    if |done| == 0 {
      NothingReplayed(before);
    } else {
      assert done == [needed[0]];
      ReplayOne(before, Remove(id));
      Removed(before, id);
    }
  }

  lemma NeededFor(before: Registrations, after: Registrations, ops: seq<Op>, id: Id)
    requires Minimal(before, after, ops)
    ensures Of(ops, id) == Needed(Get(before, id), Get(after, id), id)
  {}

  /** How often a request is among the ones about its id. */
  lemma {:induction false} OfCounts(ops: seq<Op>, op: Op)
    ensures multiset(ops)[op] == multiset(Of(ops, Target(op)))[op]
  {
    hide Target;
    if ops != [] {
      var rest, last := ops[..|ops| - 1], ops[|ops| - 1];
      OfCounts(rest, op);
      assert ops == rest + [last];
      assert multiset(ops) == multiset(rest) + multiset{last};
      assert multiset(Of(rest, Target(op)) + [last]) == multiset(Of(rest, Target(op))) + multiset{last};
      assert Of(rest, Target(op)) + [] == Of(rest, Target(op));
    }
  }

  lemma NeededCounts(before: Registrations, after: Registrations, id: Id, op: Op)
    requires Target(op) == id
    ensures multiset(Needed(Get(before, id), Get(after, id), id))[op]
         == match op
            case Remove(_) => if id in before && (id !in after || after[id] != before[id]) then 1 else 0
            case Create(r) => if id in after && after[id] == r && (id !in before || before[id] != r) then 1 else 0
  {}

  /** Exactly what has changed: a removal, once, of what is gone or different, and the creation, once, of what is
      new or different; of a registration that is the same nothing is heard. */
  lemma OnlyDifferences(before: Registrations, after: Registrations, ops: seq<Op>, op: Op)
    requires Minimal(before, after, ops)
    ensures multiset(ops)[op]
         == match op
            case Remove(id) => if id in before && (id !in after || after[id] != before[id]) then 1 else 0
            case Create(r) =>
              var id := Target(op);
              if id in after && after[id] == r && (id !in before || before[id] != r) then 1 else 0
  {
    hide Of, Needed, Minimal;
    OfCounts(ops, op);
    NeededFor(before, after, ops, Target(op));
    NeededCounts(before, after, Target(op), op);
  }

  lemma NothingReplayed(held: Registrations)
    ensures Replay(held, []) == held
  {}

  lemma Removed(held: Registrations, id: Id)
    ensures id !in Apply(held, Remove(id))
  {}

  lemma {:induction false} ReplayMore(held: Registrations, ops: seq<Op>, more: seq<Op>)
    ensures Replay(held, ops + more) == Replay(Replay(held, ops), more)
  {
    if more == [] {
      assert ops + more == ops;
    } else {
      var n := |more| - 1;
      ReplayMore(held, ops, more[..n]);
      assert (ops + more)[..|ops| + n] == ops + more[..n];
    }
  }

  lemma {:induction false} OfMore(ops: seq<Op>, more: seq<Op>, id: Id)
    ensures Of(ops + more, id) == Of(ops, id) + Of(more, id)
  {
    hide Target;
    if more == [] {
      assert ops + more == ops;
    } else {
      var n := |more| - 1;
      OfMore(ops, more[..n], id);
      assert (ops + more)[..|ops| + n] == ops + more[..n];
    }
  }

  lemma {:induction false} OfOthers(ops: seq<Op>, id: Id)
    ensures (forall op :: op in ops ==> Target(op) == id) ==> Of(ops, id) == ops
    ensures (forall op :: op in ops ==> Target(op) != id) ==> Of(ops, id) == []
  {
    hide Target;
    if ops != [] {
      OfOthers(ops[..|ops| - 1], id);
      assert ops[..|ops| - 1] + [ops[|ops| - 1]] == ops;
    }
  }

  /** What is needed has been sent for the ids in `done`, and nothing for any other. */
  ghost predicate Sent(ops: seq<Op>, done: set<Id>, before: Registrations, after: Registrations) {
    forall id :: Of(ops, id) == if id in done then Needed(Get(before, id), Get(after, id), id) else []
  }

  lemma SentStart(before: Registrations, after: Registrations)
    ensures Sent([], {}, before, after)
  {}

  lemma SentStep(ops: seq<Op>, done: set<Id>, before: Registrations, after: Registrations, id: Id, more: seq<Op>)
    requires Sent(ops, done, before, after) && id !in done
    requires more == Needed(Get(before, id), Get(after, id), id) && forall op :: op in more ==> Target(op) == id
    ensures Sent(ops + more, done + {id}, before, after)
  {
    hide Of, Needed, Target;
    forall other ensures Of(ops + more, other) == Of(ops, other) + if other == id then more else [] {
      OfMore(ops, more, other);
      OfOthers(more, other);
    }
  }

  lemma SentAll(ops: seq<Op>, before: Registrations, after: Registrations)
    requires Sent(ops, before.Keys + after.Keys, before, after)
    ensures Minimal(before, after, ops)
  {
    hide Of;
  }

  // ---------- any number of loads ----------

  function LoadBefore(before: Registrations, loads: seq<Registrations>, i: nat): Registrations
    requires i <= |loads|
  {
    if i == 0 then before else loads[i - 1]
  }

  /** Each load sends what is needed after the load before it. */
  ghost predicate LoadRun(before: Registrations, loads: seq<Registrations>, ops: seq<seq<Op>>)
    requires |ops| == |loads|
  {
    forall i :: 0 <= i < |loads| ==> Minimal(LoadBefore(before, loads, i), loads[i], ops[i])
  }

  function Joined(ops: seq<seq<Op>>): seq<Op> {
    if ops == [] then [] else Joined(ops[..|ops| - 1]) + ops[|ops| - 1]
  }

  /** After any number of loads the registrar holds the last answer, whatever the others were. */
  lemma {:induction false} LoadsInStep(before: Registrations, loads: seq<Registrations>, ops: seq<seq<Op>>, stack: Stack)
    requires |ops| == |loads| && LoadRun(before, loads, ops)
    requires forall i :: 0 <= i < |loads| ==> AllProper(loads[i], stack)
    ensures Replay(before, Joined(ops)) == LoadBefore(before, loads, |loads|)
  {
    hide AllProper, Minimal, Replay;
    NothingReplayed(before);
    if loads != [] {
      var n := |loads| - 1;
      assert forall i :: 0 <= i <= n ==> LoadBefore(before, loads[..n], i) == LoadBefore(before, loads, i);
      LoadsInStep(before, loads[..n], ops[..n], stack);
      ReplayMore(before, Joined(ops[..n]), ops[n]);
      DifferencesEqualReload(LoadBefore(before, loads, n), loads[n], ops[n], stack);
    }
  }
}

/** The loader itself. */
module RegistrationLoader {
  import opened Options
  import opened RegistrationRecords
  import opened RegistrarOps

  datatype Answer = NoArray | Rows(rows: seq<Row>)

  class Registration {
    /** Whether the registrar client module was found when the server started. */
    const hasClient: bool
    const stack: Stack
    var registrations: Registrations
    var requests: seq<Op>

    constructor (hasClient: bool, stack: Stack)
      ensures this.hasClient == hasClient && this.stack == stack
      ensures registrations == map[] && requests == [] && InStep()
    {
      this.hasClient, this.stack := hasClient, stack;
      registrations, requests := map[], [];
    }

    /** The registrar holds what the last answer was. */
    ghost predicate InStep()
      reads this
    {
      AllProper(registrations, stack) && Replay(map[], requests) == registrations
    }

    method LoadRegistrations(data: Answer)
      requires InStep()
      modifies this
      ensures InStep() && old(requests) <= requests
      ensures !hasClient ==> registrations == old(registrations) && requests == old(requests)
      ensures hasClient ==> registrations == Loaded(if data.Rows? then data.rows else [], stack)
      ensures Minimal(old(registrations), registrations, requests[|old(requests)|..])
    {
      hide Loaded, Replay, AllProper, Of, Minimal;
      if !hasClient {
        assert requests[|old(requests)|..] == [];
        NothingNeeded(registrations);
        return;
      }
      var dbRegistrations: Registrations := map[];
      NoRows(stack);
      if data.Rows? {
        for i := 0 to |data.rows|
          invariant unchanged(this) && dbRegistrations == Loaded(data.rows[..i], stack)
        {
          dbRegistrations := ReadRegistration(data.rows[i], dbRegistrations, data.rows[..i]);
          assert data.rows[..i + 1][..i] == data.rows[..i];
          OneMoreRow(data.rows[..i + 1], stack);
        }
        assert data.rows[..|data.rows|] == data.rows;
      }
      LoadedIsProper(if data.Rows? then data.rows else [], stack);
      ghost var sent := SendRemovedAndUpdated(dbRegistrations);
      sent := SendNew(dbRegistrations, old(requests), sent);
      assert requests[|old(requests)|..] == sent;
      DifferencesEqualReload(registrations, dbRegistrations, sent, stack);
      ReplayMore(map[], old(requests), sent);
      registrations := dbRegistrations;
    }

    /** Fill the entry for the row's id, which an earlier row may have left there. */
    method ReadRegistration(row: Row, regs: Registrations, ghost earlier: seq<Row>) returns (regs': Registrations)
      requires regs == Loaded(earlier, stack)
      ensures regs' == regs[IdOf(row, stack) := RecordOf(row, stack)]
    {
      hide Column, Loaded, RecordOf, Fields, IdOf;
      var id := IdOf(row, stack);
      var ri: Record := if id in regs then regs[id] else map[];
      ghost var start := ri;
      var fields := Fields(stack);
      for i := 0 to |fields|
        invariant ri == ReadOver(start, row, fields[..i], stack.shown)
      {
        ri := ri[fields[i].name := Column(row, fields[i].column, fields[i].kind, stack.shown)];
        assert fields[..i + 1][..i] == fields[..i];
      }
      assert fields[..|fields|] == fields;
      LoadedIsProper(earlier, stack);
      assert start.Keys <= Names(fields);
      RereadIsFresh(start, row, stack);
      regs' := regs[id := ri];
    }

    /** Whether a field has another value in the database. */
    method IsRegUpdated(local: Record, db: Record) returns (updated: bool)
      requires local.Keys == db.Keys
      ensures updated <==> local != db
    {
      var names := local.Keys;
      while names != {}
        invariant names <= local.Keys
        invariant forall k :: k in local && k !in names ==> local[k] == db[k]
        decreases |names|
      {
        var k :| k in names;
        if local[k] != db[k] { return true; }
        names := names - {k};
      }
      return false;
    }

    method AddRegistration(r: Record)
      modifies this`requests
      ensures requests == old(requests) + [Create(r)]
    {
      requests := requests + [Create(r)];
    }

    method RemoveRegistration(id: Id)
      modifies this`requests
      ensures requests == old(requests) + [Remove(id)]
    {
      requests := requests + [Remove(id)];
    }

    /** The first loop over the registrations: what was there and is gone or different. */
    method SendRemovedAndUpdated(db: Registrations) returns (ghost sent: seq<Op>)
      requires AllProper(registrations, stack) && AllProper(db, stack)
      modifies this`requests
      ensures requests == old(requests) + sent
      ensures Sent(sent, registrations.Keys, registrations, db)
    {
      hide Sent, Fields, Names, Needed, Target, AllProper, Of, Proper, Replay, Get, Split;
      var ids := registrations.Keys;
      ghost var done: set<Id> := {};
      sent := [];
      SentStart(registrations, db);
      AllAhead(registrations.Keys, {});
      while ids != {}
        invariant requests == old(requests) + sent
        invariant Split(registrations.Keys, {}, ids, done)
        invariant Sent(sent, done, registrations, db)
        decreases |ids|
      {
        var id :| id in ids;
        Ahead(registrations.Keys, {}, ids, done, id);
        ghost var more := SendChange(id, db);
        SentStep(sent, done, registrations, db, id, more);
        Regroup(old(requests), sent, more);
        Moved(registrations.Keys, {}, ids, done, id);
        sent := sent + more;
        ids, done := ids - {id}, done + {id};
      }
      NoneAhead(registrations.Keys, {}, done);
    }

    /** One turn of the loop. */
    method SendChange(id: Id, db: Registrations) returns (ghost more: seq<Op>)
      requires AllProper(registrations, stack) && AllProper(db, stack) && id in registrations
      modifies this`requests
      ensures requests == old(requests) + more
      ensures more == Needed(Get(registrations, id), Get(db, id), id) && forall op :: op in more ==> Target(op) == id
    {
      hide Fields, Names, Needed, Target, AllProper, Of, Proper, Replay, Get;
      more := [];
      WhatIsNeeded(registrations, db, id, stack);
      if id in db {
        SameNames(registrations, db, id, stack);
        var updated := IsRegUpdated(registrations[id], db[id]);
        if updated {
          RemoveRegistration(id);
          AddRegistration(db[id]);
          more := [Remove(id), Create(db[id])];
          assert requests == old(requests) + [Remove(id)] + [Create(db[id])] == old(requests) + more;
        }
      } else {
        RemoveRegistration(id);
        more := [Remove(id)];
      }
    }

    /** The second loop: what is new in the database. */
    method SendNew(db: Registrations, ghost start: seq<Op>, ghost before: seq<Op>) returns (ghost sent: seq<Op>)
      requires AllProper(registrations, stack) && AllProper(db, stack)
      requires Sent(before, registrations.Keys, registrations, db) && requests == start + before
      modifies this`requests
      ensures requests == start + sent && Minimal(registrations, db, sent)
    {
      hide Sent, Fields, Names, Needed, Target, AllProper, Of, Proper, Replay, Minimal, Get, Split;
      var ids := db.Keys;
      ghost var done := registrations.Keys;
      sent := before;
      AllAhead(db.Keys, registrations.Keys);
      while ids != {}
        invariant requests == start + sent
        invariant Split(db.Keys, registrations.Keys, ids, done)
        invariant Sent(sent, done, registrations, db)
        decreases |ids|
      {
        var id :| id in ids;
        Ahead(db.Keys, registrations.Keys, ids, done, id);
        if id !in registrations {
          WhatIsNeeded(registrations, db, id, stack);
          SentStep(sent, done, registrations, db, id, [Create(db[id])]);
          AddRegistration(db[id]);
          Regroup(start, sent, [Create(db[id])]);
          sent := sent + [Create(db[id])];
        }
        Moved(db.Keys, registrations.Keys, ids, done, id);
        ids, done := ids - {id}, done + {id};
      }
      NoneAhead(db.Keys, registrations.Keys, done);
      SentAll(sent, registrations, db);
    }
  }

  /** A loop over `all` has `ids` ahead; `done` holds `start` and what is behind it. */
  predicate Split(all: set<Id>, start: set<Id>, ids: set<Id>, done: set<Id>) {
    ids <= all && start <= done && done + ids == start + all && done * ids <= start
  }

  lemma AllAhead(all: set<Id>, start: set<Id>)
    ensures Split(all, start, all, start)
  {}

  lemma Ahead(all: set<Id>, start: set<Id>, ids: set<Id>, done: set<Id>, id: Id)
    requires Split(all, start, ids, done) && id in ids
    ensures id in all && (id in done <==> id in start)
  {}

  lemma Moved(all: set<Id>, start: set<Id>, ids: set<Id>, done: set<Id>, id: Id)
    requires Split(all, start, ids, done) && id in ids
    ensures Split(all, start, ids - {id}, done + {id})
    ensures id in start ==> done + {id} == done
  {}

  lemma NoneAhead(all: set<Id>, start: set<Id>, done: set<Id>)
    requires Split(all, start, {}, done)
    ensures done == start + all
  {}

  lemma Regroup(a: seq<Op>, b: seq<Op>, c: seq<Op>)
    ensures (a + b) + c == a + (b + c)
  {}

  lemma SameNames(before: Registrations, after: Registrations, id: Id, stack: Stack)
    requires AllProper(before, stack) && AllProper(after, stack) && id in before && id in after
    ensures before[id].Keys == after[id].Keys
  {
    hide Fields;
    assert Proper(id, before[id], stack) && Proper(id, after[id], stack);
  }

  lemma WhatIsNeeded(before: Registrations, after: Registrations, id: Id, stack: Stack)
    requires AllProper(after, stack) && (id in before || id in after)
    ensures var needed := Needed(Get(before, id), Get(after, id), id);
      && (forall op :: op in needed ==> Target(op) == id)
      && (id !in after ==> needed == [Remove(id)])
      && (id !in before ==> needed == [Create(after[id])])
      && (id in before && id in after ==>
            needed == if before[id] == after[id] then [] else [Remove(id), Create(after[id])])
  {
    hide Fields, Names;
    assert id in after ==> Proper(id, after[id], stack);
  }

  lemma NothingNeeded(registrations: Registrations)
    ensures Minimal(registrations, registrations, [])
  {}

  lemma NoRows(stack: Stack)
    ensures Loaded([], stack) == map[]
  {}

  lemma OneMoreRow(rows: seq<Row>, stack: Stack)
    requires rows != []
    ensures var row := rows[|rows| - 1];
      Loaded(rows, stack) == Loaded(rows[..|rows| - 1], stack)[IdOf(row, stack) := RecordOf(row, stack)]
  {}
}
