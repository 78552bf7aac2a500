/** What the generated writers do: check a whole message, then write it field by field to a sink. */
module Writer {
  import opened Wire
  import opened GroupSpecs
  import opened GroupTree
  import opened Levels

  /** What a caller sets for one member; numbers and characters as the text they are formatted into. */
  datatype Input =
    | Absent
    | Text(bytes: seq<Byte>)
    | TokenList(tokens: seq<seq<Byte>>)
    | Records(records: seq<Record>)

  /** One input per member the writer takes. */
  datatype Record = Record(inputs: seq<Input>)

  datatype EncodeError = MissingRequiredField(tag: Tag) | InvalidFieldValue(tag: Tag)

  const SOH: Byte := 1
  const SPACE: Byte := 32
  /** Bytes a formatted number may take. */
  const FORMAT_BUFFER_BYTES: nat := 64

  /** The types of the writer's fields; a slice length fits a `u64`. */
  predicate Typed(record: Record, level: Level) {
    TypedInputs(record.inputs, WriterMembers(level.members))
  }

  predicate TypedInputs(inputs: seq<Input>, taken: seq<Member>) {
    && |inputs| == |taken|
    && (inputs != [] ==> TypedInput(inputs[0], taken[0]) && TypedInputs(inputs[1..], taken[1..]))
  }

  predicate TypedInput(input: Input, member: Member) {
    match member
    case GroupM(group) =>
      input.Records? && |input.records| <= U64_MAX && TypedRecords(input.records, group.entry)
    case FieldM(field) =>
      if field.kind.Tokens? then input.TokenList? else input.Absent? || input.Text?
  }

  predicate TypedRecords(records: seq<Record>, entry: Level) {
    records != [] ==> Typed(records[0], entry) && TypedRecords(records[1..], entry)
  }

  // ----- check -----

  predicate Present(input: Input) {
    match input
    case Absent => false
    case Text(_) => true
    case TokenList(tokens) => tokens != []
    case Records(_) => true
  }

  predicate Printable(bytes: seq<Byte>) {
    |bytes| == 1 && 32 <= bytes[0] < 127
  }

  /** The value rules of one field; `grammar` is the grammar of its FIX type. */
  predicate ValidValue(input: Input, field: FieldMember, grammar: (Tag, seq<Byte>) -> bool) {
    match input
    case Text(bytes) =>
      (match field.kind
       case Str => bytes != [] && SOH !in bytes && grammar(field.tag, bytes)
       case Enum => bytes != [] && SOH !in bytes && grammar(field.tag, bytes) && (field.oneChar ==> Printable(bytes))
       case Bytes => bytes != []
       case Char => Printable(bytes)
       case UInt => grammar(field.tag, bytes)
       case _ => true)
    case TokenList(tokens) =>
      forall i :: 0 <= i < |tokens| ==>
        && tokens[i] != [] && SPACE !in tokens[i] && SOH !in tokens[i]
        && grammar(field.tag, tokens[i]) && (field.oneChar ==> Printable(tokens[i]))
    case _ => true
  }

  /** The checks of one level, member by member; an entry of a group is checked where its group stands. */
  function Check(record: Record, level: Level, grammar: (Tag, seq<Byte>) -> bool): Option<EncodeError>
    decreases record, 1
  {
    CheckMembers(record.inputs, WriterMembers(level.members), level, grammar)
  }

  function CheckMembers(inputs: seq<Input>, taken: seq<Member>, level: Level, grammar: (Tag, seq<Byte>) -> bool)
    : Option<EncodeError>
    decreases inputs, 1
  {
    if inputs == [] || taken == [] then None
    else
      var first := CheckMember(inputs[0], taken[0], level, grammar);
      if first.Some? then first else CheckMembers(inputs[1..], taken[1..], level, grammar)
  }

  function CheckMember(input: Input, member: Member, level: Level, grammar: (Tag, seq<Byte>) -> bool): Option<EncodeError>
    decreases input, 1
  {
    match member
    case FieldM(field) =>
      if Mandatory(level, member) && !Present(input) then Some(MissingRequiredField(field.tag))
      else if !ValidValue(input, field, grammar) then Some(InvalidFieldValue(field.tag))
      else None
    case GroupM(group) =>
      if input.Records? then CheckRecords(input.records, group.entry, grammar) else None
  }

  function CheckRecords(records: seq<Record>, entry: Level, grammar: (Tag, seq<Byte>) -> bool): Option<EncodeError>
    decreases records, 1
  {
    if records == [] then None
    else
      var first := Check(records[0], entry, grammar);
      if first.Some? then first else CheckRecords(records[1..], entry, grammar)
  }

  // ----- what may be sent, rule by rule -----

  /** Text and enumerations carry no SOH, data may; a number is formatted by the writer. */
  predicate MayBeSent(value: seq<Byte>, field: FieldMember, grammar: (Tag, seq<Byte>) -> bool) {
    && (field.kind in {Str, Enum, Bytes, Tokens} ==> |value| > 0)
    && (field.kind in {Str, Enum, Tokens} ==> forall i :: 0 <= i < |value| ==> value[i] != 1)
    && (field.kind == Tokens ==> forall i :: 0 <= i < |value| ==> value[i] != 32)
    && (field.kind in {Str, Enum, UInt, Tokens} ==> grammar(field.tag, value))
    && (field.kind == Char || (field.kind in {Enum, Tokens} && field.oneChar) ==> exists b: Byte :: ' ' <= b as char <= '~' && value == [b])
  }

  /** A field is needed when it is required, and data also when its length is. */
  predicate IsNeeded(level: Level, field: FieldMember) {
    field.required || exists m :: m in level.members && m.FieldM? && m.field.required && field.pair == DataOf(m.field.tag)
  }

  /** Everything needed is set, and every value that is set may be sent, in every record below. */
  ghost predicate Sendable(record: Record, level: Level, grammar: (Tag, seq<Byte>) -> bool)
    decreases record, 2
  {
    forall i :: 0 <= i < |record.inputs| && i < |WriterMembers(level.members)| ==>
      SendableInput(record.inputs[i], WriterMembers(level.members)[i], level, grammar)
  }

  ghost predicate SendableInput(input: Input, member: Member, level: Level, grammar: (Tag, seq<Byte>) -> bool)
    decreases input, 0
  {
    match member
    case FieldM(field) => (IsNeeded(level, field) ==> input != Absent && input != TokenList([])) && SendableValue(input, field, grammar)
    case GroupM(group) => input.Records? ==> forall i :: 0 <= i < |input.records| ==> Sendable(input.records[i], group.entry, grammar)
  }

  predicate SendableValue(input: Input, field: FieldMember, grammar: (Tag, seq<Byte>) -> bool) {
    match input
    case Text(bytes) => MayBeSent(bytes, field, grammar)
    case TokenList(tokens) => forall i :: 0 <= i < |tokens| ==> MayBeSent(tokens[i], field, grammar)
    case _ => true
  }

  /** The first member, in writing order, that may not be sent, and the error that names it. */
  ghost predicate FirstRefused(record: Record, level: Level, grammar: (Tag, seq<Byte>) -> bool, error: EncodeError)
    decreases record, 2
  {
    exists i :: 0 <= i < |record.inputs| && i < |WriterMembers(level.members)|
                && (forall k :: 0 <= k < i ==> SendableInput(record.inputs[k], WriterMembers(level.members)[k], level, grammar))
                && Refused(record.inputs[i], WriterMembers(level.members)[i], level, grammar, error)
  }

  /** A field is missing, or holds a value that may not be sent; of a group the first record to be refused says which. */
  ghost predicate Refused(input: Input, member: Member, level: Level, grammar: (Tag, seq<Byte>) -> bool, error: EncodeError)
    decreases input, 1
  {
    match member
    case FieldM(field) =>
      && !SendableInput(input, member, level, grammar)
      && error == if IsNeeded(level, field) && (input == Absent || input == TokenList([])) then MissingRequiredField(field.tag)
                  else InvalidFieldValue(field.tag)
    case GroupM(group) => input.Records? && FirstRecordRefused(input.records, group.entry, grammar, error)
  }

  ghost predicate FirstRecordRefused(records: seq<Record>, entry: Level, grammar: (Tag, seq<Byte>) -> bool, error: EncodeError)
    decreases records, 3
  {
    exists i :: 0 <= i < |records| && (forall k :: 0 <= k < i ==> Sendable(records[k], entry, grammar))
                && FirstRefused(records[i], entry, grammar, error)
  }

  lemma OneValueIsChecked(input: Input, field: FieldMember, grammar: (Tag, seq<Byte>) -> bool)
    requires TypedInput(input, FieldM(field))
    ensures ValidValue(input, field, grammar) <==> SendableValue(input, field, grammar)
  {
    match input
    case Text(bytes) => VisibleIsPrintable(bytes);
    case TokenList(tokens) =>
      forall i | 0 <= i < |tokens| ensures Printable(tokens[i]) <==> exists b: Byte :: ' ' <= b as char <= '~' && tokens[i] == [b] {
        VisibleIsPrintable(tokens[i]);
      }
    case _ =>
  }

  lemma VisibleIsPrintable(value: seq<Byte>)
    ensures Printable(value) <==> exists b: Byte :: ' ' <= b as char <= '~' && value == [b]
  {
    if |value| == 1 {
      assert value == [value[0]];
    }
  }

  lemma NeededIsMandatory(level: Level, field: FieldMember)
    ensures IsNeeded(level, field) <==> Mandatory(level, FieldM(field))
  {
    if Mandatory(level, FieldM(field)) && !field.required {
      var i :| 0 <= i < |level.members| && level.members[i].FieldM?
               && level.members[i].field.tag == field.pair.length && level.members[i].field.required;
      assert level.members[i] in level.members;
    }
  }

  /** The check passes exactly on the records that may be sent, and names the first refusal of any other. */
  lemma {:induction false} CheckPassesExactly(record: Record, level: Level, grammar: (Tag, seq<Byte>) -> bool)
    requires Typed(record, level)
    ensures Check(record, level, grammar).None? <==> Sendable(record, level, grammar)
    ensures Check(record, level, grammar).Some? ==> FirstRefused(record, level, grammar, Check(record, level, grammar).value)
    decreases record, 2
  {
    CheckedMembers(record.inputs, WriterMembers(level.members), level, grammar);
  }

  lemma {:induction false} CheckedMembers(inputs: seq<Input>, taken: seq<Member>, level: Level, grammar: (Tag, seq<Byte>) -> bool)
    requires TypedInputs(inputs, taken)
    ensures CheckMembers(inputs, taken, level, grammar).None?
            <==> forall i :: 0 <= i < |inputs| && i < |taken| ==> SendableInput(inputs[i], taken[i], level, grammar)
    ensures CheckMembers(inputs, taken, level, grammar).Some? ==>
              exists i :: 0 <= i < |inputs| && (forall k :: 0 <= k < i ==> SendableInput(inputs[k], taken[k], level, grammar))
                          && Refused(inputs[i], taken[i], level, grammar, CheckMembers(inputs, taken, level, grammar).value)
    decreases inputs, 1
  {
    if inputs != [] {
      CheckedMember(inputs[0], taken[0], level, grammar);
      CheckedMembers(inputs[1..], taken[1..], level, grammar);
      assert forall i :: 0 < i < |inputs| ==> inputs[i] == inputs[1..][i - 1] && taken[i] == taken[1..][i - 1];
      assert forall i :: 0 <= i < |inputs[1..]| ==> inputs[1..][i] == inputs[i + 1] && taken[1..][i] == taken[i + 1];
      if CheckMember(inputs[0], taken[0], level, grammar).None? && CheckMembers(inputs[1..], taken[1..], level, grammar).Some? {
        var error := CheckMembers(inputs[1..], taken[1..], level, grammar).value;
        var i :| 0 <= i < |inputs[1..]| && (forall k :: 0 <= k < i ==> SendableInput(inputs[1..][k], taken[1..][k], level, grammar))
                 && Refused(inputs[1..][i], taken[1..][i], level, grammar, error);
        assert Refused(inputs[i + 1], taken[i + 1], level, grammar, error);
      }
    }
  }

  lemma {:induction false} CheckedMember(input: Input, member: Member, level: Level, grammar: (Tag, seq<Byte>) -> bool)
    requires TypedInput(input, member)
    ensures CheckMember(input, member, level, grammar).None? <==> SendableInput(input, member, level, grammar)
    ensures CheckMember(input, member, level, grammar).Some? ==>
              Refused(input, member, level, grammar, CheckMember(input, member, level, grammar).value)
    decreases input, 1
  {
    match member
    case FieldM(field) =>
      OneValueIsChecked(input, field, grammar);
      NeededIsMandatory(level, field);
    case GroupM(group) => CheckedRecords(input.records, group.entry, grammar);
  }

  lemma {:induction false} CheckedRecords(records: seq<Record>, entry: Level, grammar: (Tag, seq<Byte>) -> bool)
    requires TypedRecords(records, entry)
    ensures CheckRecords(records, entry, grammar).None? <==> forall i :: 0 <= i < |records| ==> Sendable(records[i], entry, grammar)
    ensures CheckRecords(records, entry, grammar).Some? ==>
              FirstRecordRefused(records, entry, grammar, CheckRecords(records, entry, grammar).value)
    decreases records, 1
  {
    if records != [] {
      CheckPassesExactly(records[0], entry, grammar);
      CheckedRecords(records[1..], entry, grammar);
      assert forall i :: 0 < i < |records| ==> records[i] == records[1..][i - 1];
      assert forall i :: 0 <= i < |records[1..]| ==> records[1..][i] == records[i + 1];
      if Check(records[0], entry, grammar).None? && CheckRecords(records[1..], entry, grammar).Some? {
        var error := CheckRecords(records[1..], entry, grammar).value;
        var i :| 0 <= i < |records[1..]| && (forall k :: 0 <= k < i ==> Sendable(records[1..][k], entry, grammar))
                 && FirstRefused(records[1..][i], entry, grammar, error);
        assert FirstRefused(records[i + 1], entry, grammar, error);
      }
    }
  }

  // ----- emit -----

  /** What reached the sink, and the error that stopped the writer, if one did. */
  datatype Emitted = Emitted(fields: seq<Field>, error: Option<EncodeError>)

  function Then(first: Emitted, second: Emitted): Emitted {
    if first.error.Some? then first else Emitted(first.fields + second.fields, second.error)
  }

  /** Formats a number into the stack buffer and writes it. */
  function PutDisplay(tag: Tag, text: seq<Byte>): Emitted {
    if |text| <= FORMAT_BUFFER_BYTES then Emitted([Field(tag, text)], None) else Emitted([], Some(InvalidFieldValue(tag)))
  }

  function Join(tokens: seq<seq<Byte>>): seq<Byte> {
    if tokens == [] then []
    else if |tokens| == 1 then tokens[0]
    else tokens[0] + [SPACE] + Join(tokens[1..])
  }

  function Emit(record: Record, level: Level): Emitted
    decreases record, 1
  {
    EmitMembers(record.inputs, WriterMembers(level.members))
  }

  function EmitMembers(inputs: seq<Input>, taken: seq<Member>): Emitted
    decreases inputs, 1
  {
    if inputs == [] || taken == [] then Emitted([], None)
    else Then(EmitMember(inputs[0], taken[0]), EmitMembers(inputs[1..], taken[1..]))
  }

  function EmitMember(input: Input, member: Member): Emitted
    decreases input, 1
  {
    match member
    case FieldM(field) =>
      (match input
       case Text(bytes) =>
         if field.kind.Bytes? && field.pair.DataOf? then
           Emitted([Field(field.pair.length, Decimal(|bytes|)), Field(field.tag, bytes)], None)
         else if field.kind.Int? || field.kind.UInt? || field.kind.DecimalNumber? then PutDisplay(field.tag, bytes)
         else Emitted([Field(field.tag, bytes)], None)
       case TokenList(tokens) =>
         if tokens == [] then Emitted([], None) else Emitted([Field(field.tag, Join(tokens))], None)
       case _ => Emitted([], None))
    case GroupM(group) =>
      if input.Records? && (group.required || input.records != []) then
        Then(PutDisplay(group.countTag, Decimal(|input.records|)), EmitRecords(input.records, group.entry))
      else Emitted([], None)
  }

  function EmitRecords(records: seq<Record>, entry: Level): Emitted
    decreases records, 1
  {
    if records == [] then Emitted([], None)
    else Then(Emit(records[0], entry), EmitRecords(records[1..], entry))
  }

  /** A sink that keeps the fields it is sent. */
  class Sink {
    var fields: seq<Field>

    constructor ()
      ensures fields == []
    {
      fields := [];
    }

    /**
     Writes a message body: the whole body is checked before anything is written, so a failed check
     leaves the sink as it was; otherwise exactly the body's fields are appended, in member order.
     */
    method Write(record: Record, level: Level, grammar: (Tag, seq<Byte>) -> bool) returns (error: Option<EncodeError>)
      requires Typed(record, level)
      modifies this
      ensures Check(record, level, grammar).Some? ==> error == Check(record, level, grammar) && fields == old(fields)
      ensures Check(record, level, grammar).None? ==>
                error == Emit(record, level).error && fields == old(fields) + Emit(record, level).fields
      ensures Check(record, level, grammar).None? && error.None? ==> fields == old(fields) + FlatItems(WrittenItems(record, level))
    {
      error := Check(record, level, grammar);
      if error.Some? {
        return;
      }
      var emitted := Emit(record, level);
      fields, error := fields + emitted.fields, emitted.error;
      if error.None? {
        EmitWritesItems(record, level);
      }
    }
  }

  // ----- the tree a record stands for -----

  function WrittenItems(record: Record, level: Level): seq<Item>
    decreases record, 1
  {
    MemberItems(record.inputs, WriterMembers(level.members))
  }

  function MemberItems(inputs: seq<Input>, taken: seq<Member>): seq<Item>
    decreases inputs, 1
  {
    if inputs == [] || taken == [] then []
    else InputItems(inputs[0], taken[0]) + MemberItems(inputs[1..], taken[1..])
  }

  /** What one member contributes: a field, a length and its data, or a whole group with its count. */
  function InputItems(input: Input, member: Member): seq<Item>
    decreases input, 1
  {
    match member
    case FieldM(field) =>
      (match input
       case Text(bytes) =>
         if field.kind.Bytes? && field.pair.DataOf? then
           [Plain(Field(field.pair.length, Decimal(|bytes|))), Plain(Field(field.tag, bytes))]
         else [Plain(Field(field.tag, bytes))]
       case TokenList(tokens) => if tokens == [] then [] else [Plain(Field(field.tag, Join(tokens)))]
       case _ => [])
    case GroupM(group) =>
      if input.Records? && (group.required || input.records != [])
      then [Nested(WrittenRun(group, input.records))] else []
  }

  function WrittenRun(group: GroupMember, records: seq<Record>): Run
    decreases records, 3
  {
    Run(Field(group.countTag, Decimal(|records|)), WrittenEntries(records, group.entry))
  }

  function WrittenEntries(records: seq<Record>, entry: Level): (entries: seq<Entry>)
    ensures |entries| == |records|
    decreases records, 2
  {
    if records == [] then [] else [Entry(WrittenItems(records[0], entry))] + WrittenEntries(records[1..], entry)
  }

  // ----- emitting a record writes its tree out -----

  lemma FlatPlain(a: Field, b: Field)
    ensures FlatItems([Plain(a)]) == [a] && FlatItems([Plain(a), Plain(b)]) == [a, b]
  {
    assert [Plain(a)][1..] == [] && [Plain(a), Plain(b)][1..] == [Plain(b)] && [Plain(b)][1..] == [];
    assert FlatItems([Plain(b)]) == [b];
  }

  lemma {:induction false} EmitWritesItems(record: Record, level: Level)
    ensures Emit(record, level).error.None? ==> Emit(record, level).fields == FlatItems(WrittenItems(record, level))
    decreases record, 1
  {
    EmitWritesMembers(record.inputs, WriterMembers(level.members));
  }

  lemma {:induction false} EmitWritesMembers(inputs: seq<Input>, taken: seq<Member>)
    ensures EmitMembers(inputs, taken).error.None? ==> EmitMembers(inputs, taken).fields == FlatItems(MemberItems(inputs, taken))
    decreases inputs, 1
  {
    if inputs != [] && taken != [] {
      EmitWritesMember(inputs[0], taken[0]);
      EmitWritesMembers(inputs[1..], taken[1..]);
      FlatItemsConcat(InputItems(inputs[0], taken[0]), MemberItems(inputs[1..], taken[1..]));
    }
  }

  lemma {:induction false} EmitWritesMember(input: Input, member: Member)
    ensures EmitMember(input, member).error.None? ==> EmitMember(input, member).fields == FlatItems(InputItems(input, member))
    decreases input, 1
  {
    match member
    case FieldM(field) =>
      if input.Text? {
        FlatPlain(Field(field.tag, input.bytes), Field(field.tag, input.bytes));
        if field.pair.DataOf? {
          FlatPlain(Field(field.pair.length, Decimal(|input.bytes|)), Field(field.tag, input.bytes));
        }
      } else if input.TokenList? {
        FlatPlain(Field(field.tag, Join(input.tokens)), Field(field.tag, []));
      }
    case GroupM(group) =>
      if input.Records? {
        EmitWritesRecords(input.records, group.entry);
        var run := WrittenRun(group, input.records);
        assert [Nested(run)][1..] == [];
        assert FlatItems([Nested(run)]) == FlatRun(run);
      }
  }

  lemma {:induction false} EmitWritesRecords(records: seq<Record>, entry: Level)
    ensures EmitRecords(records, entry).error.None? ==>
              EmitRecords(records, entry).fields == FlatEntries(WrittenEntries(records, entry))
    decreases records, 1
  {
    if records != [] {
      EmitWritesItems(records[0], entry);
      EmitWritesRecords(records[1..], entry);
      FlatEntriesCons(Entry(WrittenItems(records[0], entry)), WrittenEntries(records[1..], entry));
    }
  }

  // ----- after a successful check only an oversized number can stop a writer -----

  lemma {:induction false} DecimalLength(n: nat, digits: nat)
    requires n < Pow10(digits) && 0 < digits
    ensures |Decimal(n)| <= digits
  {
    if n >= 10 {
      DecimalLength(n / 10, digits - 1);
    }
  }

  lemma TwentyDigits(n: nat)
    requires n <= U64_MAX
    ensures |Decimal(n)| <= 20
  {
    assert Pow10(5) == 100000;
    assert Pow10(10) == 100000 * Pow10(5);
    assert Pow10(15) == 100000 * Pow10(10);
    assert Pow10(20) == 100000 * Pow10(15);
    DecimalLength(n, 20);
  }

  /** A count takes at most 20 digits, so it always fits. */
  lemma CountFits(n: nat)
    requires n <= U64_MAX
    ensures |Decimal(n)| <= FORMAT_BUFFER_BYTES
  {
    TwentyDigits(n);
  }

  /** Writes a length in decimal at the end of a twenty-byte buffer; the digits start at `start`. */
  method FormatDecimal(value: nat, digits: array<Byte>) returns (start: nat)
    requires digits.Length == 20 && value <= U64_MAX
    modifies digits
    ensures start < digits.Length && digits[start..] == Decimal(value)
  {
    TwentyDigits(value);
    var rest := value;
    start := digits.Length - 1;
    digits[start] := 48 + rest % 10;
    rest := rest / 10;
    while rest > 0
      invariant start < digits.Length && |digits[start..]| + (if rest > 0 then |Decimal(rest)| else 0) <= 20
      invariant Decimal(value) == if rest > 0 then Decimal(rest) + digits[start..] else digits[start..]
      decreases rest
    {
      ghost var written := digits[start..];
      start := start - 1;
      digits[start] := 48 + rest % 10;
      assert digits[start..] == [digits[start]] + written;
      DecimalStep(rest, written);
      rest := rest / 10;
    }
  }

  /** The last digit of what is left goes in front of the digits written. */
  lemma DecimalStep(rest: nat, written: seq<Byte>)
    requires rest > 0
    ensures Decimal(rest) + written
            == (if rest >= 10 then Decimal(rest / 10) else []) + ([48 + rest % 10] + written)
    ensures |Decimal(rest)| == 1 + if rest >= 10 then |Decimal(rest / 10)| else 0
  {
    var digit: Byte := 48 + rest % 10;
    Regroup(if rest >= 10 then Decimal(rest / 10) else [], [digit], written);
  }

  /** Every number among the inputs fits the formatting buffer. */
  predicate NumbersFit(inputs: seq<Input>, taken: seq<Member>)
    decreases inputs, 1
  {
    inputs != [] && taken != [] ==> NumberFits(inputs[0], taken[0]) && NumbersFit(inputs[1..], taken[1..])
  }

  predicate NumberFits(input: Input, member: Member)
    decreases input, 1
  {
    match member
    case FieldM(field) =>
      input.Text? && (field.kind.Int? || field.kind.UInt? || field.kind.DecimalNumber?) ==>
        |input.bytes| <= FORMAT_BUFFER_BYTES
    case GroupM(group) => input.Records? ==> RecordsFit(input.records, group.entry)
  }

  predicate RecordsFit(records: seq<Record>, entry: Level)
    decreases records, 1
  {
    records != [] ==> NumbersFit(records[0].inputs, WriterMembers(entry.members)) && RecordsFit(records[1..], entry)
  }

  /** The first number that does not fit stands under the tag the error names. */
  predicate FirstTooLong(inputs: seq<Input>, taken: seq<Member>, error: EncodeError)
    decreases inputs, 1
  {
    && inputs != [] && taken != []
    && (TooLong(inputs[0], taken[0], error) || (NumberFits(inputs[0], taken[0]) && FirstTooLong(inputs[1..], taken[1..], error)))
  }

  predicate TooLong(input: Input, member: Member, error: EncodeError)
    decreases input, 1
  {
    match member
    case FieldM(field) => !NumberFits(input, member) && error == InvalidFieldValue(field.tag)
    case GroupM(group) => input.Records? && RecordTooLong(input.records, group.entry, error)
  }

  predicate RecordTooLong(records: seq<Record>, entry: Level, error: EncodeError)
    decreases records, 1
  {
    && records != []
    && (FirstTooLong(records[0].inputs, WriterMembers(entry.members), error)
        || (NumbersFit(records[0].inputs, WriterMembers(entry.members)) && RecordTooLong(records[1..], entry, error)))
  }

  /** What a writer has written when it stops: part of `whole`, all of it unless there is an error. */
  predicate Written(emitted: Emitted, whole: seq<Field>) {
    if emitted.error.Some? then emitted.fields <= whole else emitted.fields == whole
  }

  lemma ThenWritten(first: Emitted, second: Emitted, a: seq<Field>, b: seq<Field>)
    requires Written(first, a) && Written(second, b)
    ensures Written(Then(first, second), a + b)
  {
  }

  /**
   A writer stops exactly at the first number that does not fit its buffer, in any record below, naming its
   tag; what it has written by then is what stands ahead of that number.
   */
  lemma {:induction false} EmitStops(inputs: seq<Input>, taken: seq<Member>)
    requires TypedInputs(inputs, taken)
    ensures EmitMembers(inputs, taken).error.None? <==> NumbersFit(inputs, taken)
    ensures EmitMembers(inputs, taken).error.Some? ==> FirstTooLong(inputs, taken, EmitMembers(inputs, taken).error.value)
    ensures Written(EmitMembers(inputs, taken), FlatItems(MemberItems(inputs, taken)))
    decreases inputs, 1
  {
    if inputs != [] {
      EmitMemberStops(inputs[0], taken[0]);
      EmitStops(inputs[1..], taken[1..]);
      ThenWritten(EmitMember(inputs[0], taken[0]), EmitMembers(inputs[1..], taken[1..]),
                  FlatItems(InputItems(inputs[0], taken[0])), FlatItems(MemberItems(inputs[1..], taken[1..])));
      FlatItemsConcat(InputItems(inputs[0], taken[0]), MemberItems(inputs[1..], taken[1..]));
    }
  }

  lemma {:induction false} EmitMemberStops(input: Input, member: Member)
    requires TypedInput(input, member)
    ensures EmitMember(input, member).error.None? <==> NumberFits(input, member)
    ensures EmitMember(input, member).error.Some? ==> TooLong(input, member, EmitMember(input, member).error.value)
    ensures Written(EmitMember(input, member), FlatItems(InputItems(input, member)))
    decreases input, 1
  {
    EmitWritesMember(input, member);
    match member
    case FieldM(field) =>
    case GroupM(group) =>
      CountFits(|input.records|);
      EmitRecordsStop(input.records, group.entry);
      var run := WrittenRun(group, input.records);
      assert [Nested(run)][1..] == [];
      assert FlatItems([Nested(run)]) == FlatRun(run);
  }

  lemma {:induction false} EmitRecordsStop(records: seq<Record>, entry: Level)
    requires TypedRecords(records, entry)
    ensures EmitRecords(records, entry).error.None? <==> RecordsFit(records, entry)
    ensures EmitRecords(records, entry).error.Some? ==> RecordTooLong(records, entry, EmitRecords(records, entry).error.value)
    ensures Written(EmitRecords(records, entry), FlatEntries(WrittenEntries(records, entry)))
    decreases records, 1
  {
    if records != [] {
      EmitRecordStops(records[0], entry);
      EmitRecordsStop(records[1..], entry);
      ThenWritten(Emit(records[0], entry), EmitRecords(records[1..], entry),
                  FlatItems(WrittenItems(records[0], entry)), FlatEntries(WrittenEntries(records[1..], entry)));
      FlatEntriesCons(Entry(WrittenItems(records[0], entry)), WrittenEntries(records[1..], entry));
    }
  }

  lemma {:induction false} EmitRecordStops(record: Record, entry: Level)
    requires Typed(record, entry)
    ensures Emit(record, entry).error.None? <==> NumbersFit(record.inputs, WriterMembers(entry.members))
    ensures Emit(record, entry).error.Some? ==>
              FirstTooLong(record.inputs, WriterMembers(entry.members), Emit(record, entry).error.value)
    ensures Written(Emit(record, entry), FlatItems(WrittenItems(record, entry)))
    decreases record, 1
  {
    EmitStops(record.inputs, WriterMembers(entry.members));
  }
}
