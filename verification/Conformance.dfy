/**
 What stands in a written level: items in the order of its members, every length right before the data it
 announces, everything required, and only values that may be sent. Stated on the items and the level alone.
 */
module Conformance {
  import opened Wire
  import opened GroupSpecs
  import opened GroupTree
  import opened Grammar
  import opened Levels
  import opened Writer
  import opened Recovery

  /** Earlier items stand under tags that come earlier in the list. */
  predicate InOrder(items: seq<Item>, tags: seq<Tag>) {
    forall i, j :: 0 <= i < j < |items| ==> Precedes(tags, items[i].Tag(), items[j].Tag())
  }

  predicate Precedes(tags: seq<Tag>, a: Tag, b: Tag) {
    exists p, q :: 0 <= p < q < |tags| && tags[p] == a && tags[q] == b
  }

  /** The digits spell the number. */
  ghost predicate Announces(text: seq<Byte>, n: nat) {
    text != [] && AllDigits(text) && DecimalValue(text) == n
  }

  /** A length and its data stand together, the length announcing how many bytes follow. */
  ghost predicate LengthLeads(items: seq<Item>, length: Tag, data: Tag) {
    && (forall i :: 0 <= i < |items| && items[i].Tag() == data ==>
          && 0 < i && items[i].Plain? && items[i - 1].Plain? && items[i - 1].Tag() == length
          && Announces(items[i - 1].field.value, |items[i].field.value|))
    && forall i :: 0 <= i < |items| && items[i].Tag() == length ==> i + 1 < |items| && items[i + 1].Tag() == data
  }

  predicate IsData(member: Member) {
    member.FieldM? && member.field.kind == Bytes && member.field.pair.DataOf?
  }

  predicate BelongsTo(data: Member, length: Member) {
    IsData(data) && data.field.pair.length == length.Tag()
  }

  /** A value that may be sent for the field. */
  predicate LegalValue(value: seq<Byte>, field: FieldMember, grammar: (Tag, seq<Byte>) -> bool) {
    match field.kind
    case Str => value != [] && 1 !in value && grammar(field.tag, value)
    case Enum => value != [] && 1 !in value && grammar(field.tag, value) && (field.oneChar ==> IsVisible(value))
    case Bytes => value != []
    case Char => IsVisible(value)
    case UInt => grammar(field.tag, value)
    case Tokens =>
      forall token :: token in Split(value) ==>
        token != [] && 1 !in token && grammar(field.tag, token) && (field.oneChar ==> IsVisible(token))
    case _ => true
  }

  /** One printable ASCII character. */
  predicate IsVisible(value: seq<Byte>) {
    exists b: Byte :: 32 <= b <= 126 && value == [b]
  }

  predicate IsRequired(member: Member) {
    match member
    case FieldM(field) => field.required
    case GroupM(group) => group.required
  }

  predicate HasUnder(items: seq<Item>, tag: Tag) {
    exists i :: 0 <= i < |items| && items[i].Tag() == tag
  }

  /** What is required stands there; a length does when there is a data field it belongs to. */
  predicate Complete(items: seq<Item>, level: Level) {
    && (forall m :: m in level.members && IsRequired(m) && !IsLength(m) ==> HasUnder(items, m.Tag()))
    && forall m, d :: m in level.members && IsRequired(m) && IsLength(m) && d in level.members && BelongsTo(d, m) ==>
         HasUnder(items, m.Tag()) && HasUnder(items, d.Tag())
  }

  /** The items of one level, those nested in its groups left aside. */
  ghost predicate LevelConforms(items: seq<Item>, level: Level, grammar: (Tag, seq<Byte>) -> bool) {
    && InOrder(items, AllWrittenTags(WriterMembers(level.members)))
    && Complete(items, level)
    && (forall m :: m in level.members && IsData(m) ==> LengthLeads(items, m.field.pair.length, m.Tag()))
    && forall m, i :: m in level.members && m.FieldM? && !IsLength(m) && 0 <= i < |items| && items[i].Tag() == m.Tag() ==>
         items[i].Plain? && LegalValue(items[i].field.value, m.field, grammar)
  }

  /** And so at every level below; a group announces as many entries as it holds. */
  ghost predicate Conforms(items: seq<Item>, level: Level, grammar: (Tag, seq<Byte>) -> bool)
    decreases items, 1
  {
    LevelConforms(items, level, grammar) && BelowConforms(items, level, grammar)
  }

  ghost predicate BelowConforms(items: seq<Item>, level: Level, grammar: (Tag, seq<Byte>) -> bool)
    decreases items, 0
  {
    items != [] ==> ItemConforms(items[0], level, grammar) && BelowConforms(items[1..], level, grammar)
  }

  ghost predicate ItemConforms(item: Item, level: Level, grammar: (Tag, seq<Byte>) -> bool)
    decreases item, 3
  {
    match item
    case Plain(_) => true
    case Nested(run) =>
      && Announces(run.count.value, |run.entries|)
      && forall g :: g in level.groups && g.countTag == run.count.tag ==> EntriesConform(run.entries, g.entry, grammar)
  }

  ghost predicate EntriesConform(entries: seq<Entry>, level: Level, grammar: (Tag, seq<Byte>) -> bool)
    decreases entries, 2
  {
    entries != [] ==> EntryConforms(entries[0], level, grammar) && EntriesConform(entries[1..], level, grammar)
  }

  ghost predicate EntryConforms(entry: Entry, level: Level, grammar: (Tag, seq<Byte>) -> bool)
    decreases entry, 2
  {
    Conforms(entry.items, level, grammar)
  }

  // ----- order -----

  lemma PrecedesStill(a: seq<Tag>, b: seq<Tag>, s: Tag, t: Tag)
    ensures Precedes(a, s, t) || Precedes(b, s, t) || (s in a && t in b) ==> Precedes(a + b, s, t)
  {
    var all := a + b;
    if Precedes(a, s, t) {
      var p, q :| 0 <= p < q < |a| && a[p] == s && a[q] == t;
      assert all[p] == s && all[q] == t;
    } else if Precedes(b, s, t) {
      var p, q :| 0 <= p < q < |b| && b[p] == s && b[q] == t;
      assert all[|a| + p] == s && all[|a| + q] == t;
    } else if s in a && t in b {
      var p :| 0 <= p < |a| && a[p] == s;
      var q :| 0 <= q < |b| && b[q] == t;
      assert all[p] == s && all[|a| + q] == t;
    }
  }

  lemma InOrderConcat(a: seq<Item>, b: seq<Item>, s: seq<Tag>, t: seq<Tag>)
    requires InOrder(a, s) && InOrder(b, t) && TagsWithin(a, s) && TagsWithin(b, t)
    ensures InOrder(a + b, s + t)
  {
    var all := a + b;
    forall i, j | 0 <= i < j < |all| ensures Precedes(s + t, all[i].Tag(), all[j].Tag()) {
      PrecedesStill(s, t, all[i].Tag(), all[j].Tag());
      if j < |a| {
        assert all[i] == a[i] && all[j] == a[j];
      } else if |a| <= i {
        assert all[i] == b[i - |a|] && all[j] == b[j - |a|];
      } else {
        assert all[i] == a[i] && all[j] == b[j - |a|];
      }
    }
  }

  lemma InputInOrder(input: Input, member: Member)
    ensures InOrder(InputItems(input, member), WrittenTags(member))
  {
    var items, tags := InputItems(input, member), WrittenTags(member);
    if |items| == 2 {
      assert tags[0] == items[0].Tag() && tags[1] == items[1].Tag();
    }
  }

  lemma {:induction false} MembersInOrder(inputs: seq<Input>, taken: seq<Member>)
    requires NoDuplicates(AllWrittenTags(taken))
    ensures InOrder(MemberItems(inputs, taken), AllWrittenTags(taken))
    decreases inputs
  {
    if inputs != [] && taken != [] {
      SplitTags(WrittenTags(taken[0]), AllWrittenTags(taken[1..]));
      InputTags(inputs[0], taken[0]);
      MemberTags(inputs[1..], taken[1..]);
      InputInOrder(inputs[0], taken[0]);
      MembersInOrder(inputs[1..], taken[1..]);
      InOrderConcat(InputItems(inputs[0], taken[0]), MemberItems(inputs[1..], taken[1..]), WrittenTags(taken[0]), AllWrittenTags(taken[1..]));
    }
  }

  // ----- where the items of a member stand -----

  lemma {:induction false} MemberPlace(inputs: seq<Input>, taken: seq<Member>, m: nat) returns (at: nat)
    requires |inputs| == |taken| && m < |taken|
    ensures StandAt(MemberItems(inputs, taken), at, InputItems(inputs[m], taken[m]))
    decreases m
  {
    var first, rest := InputItems(inputs[0], taken[0]), MemberItems(inputs[1..], taken[1..]);
    if m == 0 {
      at := 0;
      assert (first + rest)[..|first|] == first;
    } else {
      var behind := MemberPlace(inputs[1..], taken[1..], m - 1);
      at := |first| + behind;
      StandBehind(first, rest, behind, InputItems(inputs[m], taken[m]));
    }
  }

  /** The items stand in the list, from `at` on. */
  predicate StandAt(items: seq<Item>, at: nat, part: seq<Item>) {
    at + |part| <= |items| && items[at..at + |part|] == part
  }

  lemma StandBehind(first: seq<Item>, rest: seq<Item>, at: nat, part: seq<Item>)
    requires StandAt(rest, at, part)
    ensures StandAt(first + rest, |first| + at, part)
  {
    assert (first + rest)[|first| + at..|first| + at + |part|] == rest[at..at + |part|];
  }

  lemma {:induction false} OnlyOneUnder(items: seq<Item>, i: nat)
    requires Distinct(items) && i < |items|
    ensures ItemUnder(items, items[i].Tag()) == Some(items[i])
  {
    if i > 0 {
      assert forall j, k :: 0 <= j < k < |items[1..]| ==> items[1..][j] == items[j + 1] && items[1..][k] == items[k + 1];
      OnlyOneUnder(items[1..], i - 1);
    }
  }

  // ----- a checked record conforms -----

  /** What is known of a checked record, written. */
  ghost predicate Checked(record: Record, level: Level, grammar: (Tag, seq<Byte>) -> bool) {
    WfLevel(level) && Typed(record, level) && Check(record, level, grammar).None?
  }

  /** The position of a member among those the writer takes. */
  lemma TakenAt(record: Record, level: Level, grammar: (Tag, seq<Byte>) -> bool, member: Member) returns (m: nat)
    requires Checked(record, level, grammar) && member in level.members && !IsLength(member)
    ensures m < |WriterMembers(level.members)| == |record.inputs| && WriterMembers(level.members)[m] == member
    ensures TypedInput(record.inputs[m], member) && CheckMember(record.inputs[m], member, level, grammar).None?
    ensures ItemUnder(WrittenItems(record, level), member.Tag()) == LastOf(InputItems(record.inputs[m], member))
  {
    m :| 0 <= m < |WriterMembers(level.members)| && WriterMembers(level.members)[m] == member;
    MemberIsChecked(record.inputs, WriterMembers(level.members), level, grammar, m);
    MemberUnder(record.inputs, WriterMembers(level.members), m);
  }

  lemma UnderIsHeld(items: seq<Item>, tag: Tag)
    ensures ItemUnder(items, tag).Some? ==> HasUnder(items, tag)
  {
    if ItemUnder(items, tag).Some? {
      var i :| 0 <= i < |items| && items[i] == ItemUnder(items, tag).value;
    }
  }

  lemma RequiredIsHeld(record: Record, level: Level, grammar: (Tag, seq<Byte>) -> bool, member: Member)
    requires Checked(record, level, grammar) && member in level.members && IsRequired(member) && !IsLength(member)
    ensures HasUnder(WrittenItems(record, level), member.Tag())
  {
    var m := TakenAt(record, level, grammar, member);
    assert Mandatory(level, member);
    UnderIsHeld(WrittenItems(record, level), member.Tag());
  }

  lemma LengthIsHeld(record: Record, level: Level, grammar: (Tag, seq<Byte>) -> bool, length: Member, data: Member)
    requires Checked(record, level, grammar) && length in level.members && IsRequired(length) && IsLength(length)
    requires data in level.members && BelongsTo(data, length)
    ensures HasUnder(WrittenItems(record, level), length.Tag()) && HasUnder(WrittenItems(record, level), data.Tag())
  {
    var items := WrittenItems(record, level);
    var m := TakenAt(record, level, grammar, data);
    var i :| 0 <= i < |level.members| && level.members[i] == length;
    assert Mandatory(level, data);
    UnderIsHeld(items, data.Tag());
    var at := MemberPlace(record.inputs, WriterMembers(level.members), m);
    assert items[at] == InputItems(record.inputs[m], data)[0];
  }

  lemma DataFollowsLength(record: Record, level: Level, grammar: (Tag, seq<Byte>) -> bool, data: Member)
    requires Checked(record, level, grammar) && data in level.members && IsData(data)
    ensures LengthLeads(WrittenItems(record, level), data.field.pair.length, data.Tag())
  {
    var items, taken := WrittenItems(record, level), WriterMembers(level.members);
    var m := TakenAt(record, level, grammar, data);
    MemberTags(record.inputs, taken);
    var written := InputItems(record.inputs[m], data);
    if written == [] {
      NothingUnderEither(record, level, grammar, data, m);
    } else {
      var at := MemberPlace(record.inputs, taken, m);
      assert items[at] == items[at..at + 2][0] && items[at + 1] == items[at..at + 2][1];
      DecimalRoundTrip(|record.inputs[m].bytes|);
      PairLeads(items, at, data.field.pair.length, data.Tag());
    }
  }

  /** The one length and the one data, side by side. */
  lemma PairLeads(items: seq<Item>, at: nat, length: Tag, data: Tag)
    requires Distinct(items) && at + 1 < |items| && items[at].Plain? && items[at + 1].Plain?
    requires items[at].Tag() == length && items[at + 1].Tag() == data
    requires Announces(items[at].field.value, |items[at + 1].field.value|)
    ensures LengthLeads(items, length, data)
  {
    forall i | 0 <= i < |items|
      ensures items[i].Tag() == length ==> i == at
      ensures items[i].Tag() == data ==> i == at + 1
    {
    }
  }

  /** A data field that was not set leaves neither half. */
  lemma NothingUnderEither(record: Record, level: Level, grammar: (Tag, seq<Byte>) -> bool, data: Member, m: nat)
    requires Checked(record, level, grammar) && data in level.members && IsData(data)
    requires m < |WriterMembers(level.members)| == |record.inputs| && WriterMembers(level.members)[m] == data
    requires InputItems(record.inputs[m], data) == []
    ensures forall i :: 0 <= i < |WrittenItems(record, level)| ==>
              WrittenItems(record, level)[i].Tag() != data.Tag() && WrittenItems(record, level)[i].Tag() != data.field.pair.length
  {
    NoTagOf(record.inputs, WriterMembers(level.members), m);
    assert WrittenTags(data) == [data.field.pair.length, data.Tag()];
    assert WrittenTags(data)[0] == data.field.pair.length && WrittenTags(data)[1] == data.Tag();
  }

  /** A member that writes nothing leaves no item under any of its tags. */
  lemma {:induction false} NoTagOf(inputs: seq<Input>, taken: seq<Member>, m: nat)
    requires |inputs| == |taken| && m < |taken| && InputItems(inputs[m], taken[m]) == [] && NoDuplicates(AllWrittenTags(taken))
    ensures forall i, w :: 0 <= i < |MemberItems(inputs, taken)| && 0 <= w < |WrittenTags(taken[m])| ==>
              MemberItems(inputs, taken)[i].Tag() != WrittenTags(taken[m])[w]
    decreases m
  {
    var first, rest := InputItems(inputs[0], taken[0]), MemberItems(inputs[1..], taken[1..]);
    SplitTags(WrittenTags(taken[0]), AllWrittenTags(taken[1..]));
    InputTags(inputs[0], taken[0]);
    MemberTags(inputs[1..], taken[1..]);
    if m > 0 {
      NoTagOf(inputs[1..], taken[1..], m - 1);
      assert taken[1..][m - 1] == taken[m];
      WrittenMember(taken[1..], taken[m]);
    }
  }

  lemma ValueIsLegal(record: Record, level: Level, grammar: (Tag, seq<Byte>) -> bool, member: Member, i: nat)
    requires Checked(record, level, grammar) && member in level.members && member.FieldM? && !IsLength(member)
    requires i < |WrittenItems(record, level)| && WrittenItems(record, level)[i].Tag() == member.Tag()
    ensures var item := WrittenItems(record, level)[i];
            item.Plain? && LegalValue(item.field.value, member.field, grammar)
  {
    var items := WrittenItems(record, level);
    var m := TakenAt(record, level, grammar, member);
    MemberTags(record.inputs, WriterMembers(level.members));
    OnlyOneUnder(items, i);
    assert items[i] == InputItems(record.inputs[m], member)[|InputItems(record.inputs[m], member)| - 1];
    InputIsLegal(record.inputs[m], member.field, grammar);
  }

  lemma InputIsLegal(input: Input, field: FieldMember, grammar: (Tag, seq<Byte>) -> bool)
    requires TypedInput(input, FieldM(field)) && ValidValue(input, field, grammar)
    ensures input.Text? ==> LegalValue(input.bytes, field, grammar)
    ensures input.TokenList? && input.tokens != [] ==> LegalValue(Join(input.tokens), field, grammar)
  {
    if input.Text? && |input.bytes| == 1 {
      assert input.bytes == [input.bytes[0]];
    }
    if input.TokenList? && input.tokens != [] {
      SplitJoined(input.tokens);
      forall token | token in input.tokens && Printable(token) ensures IsVisible(token) {
        assert token == [token[0]];
      }
    }
  }

  lemma LevelIsConforming(record: Record, level: Level, grammar: (Tag, seq<Byte>) -> bool)
    requires Checked(record, level, grammar)
    ensures LevelConforms(WrittenItems(record, level), level, grammar)
  {
    var items := WrittenItems(record, level);
    MembersInOrder(record.inputs, WriterMembers(level.members));
    forall m | m in level.members && IsRequired(m) && !IsLength(m) ensures HasUnder(items, m.Tag()) {
      RequiredIsHeld(record, level, grammar, m);
    }
    forall m, d | m in level.members && IsRequired(m) && IsLength(m) && d in level.members && BelongsTo(d, m)
      ensures HasUnder(items, m.Tag()) && HasUnder(items, d.Tag())
    {
      LengthIsHeld(record, level, grammar, m, d);
    }
    forall m | m in level.members && IsData(m) ensures LengthLeads(items, m.field.pair.length, m.Tag()) {
      DataFollowsLength(record, level, grammar, m);
    }
    forall m, i | m in level.members && m.FieldM? && !IsLength(m) && 0 <= i < |items| && items[i].Tag() == m.Tag()
      ensures items[i].Plain? && LegalValue(items[i].field.value, m.field, grammar)
    {
      ValueIsLegal(record, level, grammar, m, i);
    }
  }

  /** What a checked writer writes conforms, at every level. */
  lemma {:induction false} WrittenConforms(record: Record, level: Level, grammar: (Tag, seq<Byte>) -> bool)
    requires Checked(record, level, grammar)
    ensures Conforms(WrittenItems(record, level), level, grammar)
    decreases record, 2
  {
    LevelIsConforming(record, level, grammar);
    MembersConformBelow(record.inputs, WriterMembers(level.members), level, grammar);
  }

  lemma BelowConcat(a: seq<Item>, b: seq<Item>, level: Level, grammar: (Tag, seq<Byte>) -> bool)
    requires BelowConforms(a, level, grammar) && BelowConforms(b, level, grammar)
    ensures BelowConforms(a + b, level, grammar)
  {
    if a == [] {
      assert a + b == b;
    } else {
      assert (a + b)[0] == a[0] && (a + b)[1..] == a[1..] + b;
      BelowConcat(a[1..], b, level, grammar);
    }
  }

  lemma PlainsConformBelow(items: seq<Item>, level: Level, grammar: (Tag, seq<Byte>) -> bool)
    requires forall i :: 0 <= i < |items| ==> items[i].Plain?
    ensures BelowConforms(items, level, grammar)
  {
    if items != [] {
      assert forall i :: 0 <= i < |items[1..]| ==> items[1..][i] == items[i + 1];
      PlainsConformBelow(items[1..], level, grammar);
    }
  }

  lemma {:induction false} MembersConformBelow(inputs: seq<Input>, taken: seq<Member>, level: Level, grammar: (Tag, seq<Byte>) -> bool)
    requires WfLevel(level) && TypedInputs(inputs, taken) && CheckMembers(inputs, taken, level, grammar).None?
    requires forall m :: m in taken ==> m in level.members
    ensures BelowConforms(MemberItems(inputs, taken), level, grammar)
    decreases inputs, 1
  {
    if inputs != [] {
      assert CheckMember(inputs[0], taken[0], level, grammar).None?;
      InputConformsBelow(inputs[0], taken[0], level, grammar);
      MembersConformBelow(inputs[1..], taken[1..], level, grammar);
      BelowConcat(InputItems(inputs[0], taken[0]), MemberItems(inputs[1..], taken[1..]), level, grammar);
    }
  }

  lemma {:induction false} InputConformsBelow(input: Input, member: Member, level: Level, grammar: (Tag, seq<Byte>) -> bool)
    requires WfLevel(level) && member in level.members && TypedInput(input, member) && CheckMember(input, member, level, grammar).None?
    ensures BelowConforms(InputItems(input, member), level, grammar)
    decreases input, 1
  {
    match member
    case FieldM(field) => PlainsConformBelow(InputItems(input, member), level, grammar);
    case GroupM(group) =>
      assert group in level.groups;
      RecordsConform(input.records, group, grammar);
      RunConforms(input.records, group, level, grammar);
      OneConformsBelow(Nested(WrittenRun(group, input.records)), level, grammar);
  }

  lemma OneConformsBelow(item: Item, level: Level, grammar: (Tag, seq<Byte>) -> bool)
    requires ItemConforms(item, level, grammar)
    ensures BelowConforms([item], level, grammar)
  {
    assert [item][1..] == [];
  }

  lemma RunConforms(records: seq<Record>, group: GroupMember, level: Level, grammar: (Tag, seq<Byte>) -> bool)
    requires WfLevel(level) && group in level.groups && EntriesConform(WrittenEntries(records, group.entry), group.entry, grammar)
    ensures ItemConforms(Nested(WrittenRun(group, records)), level, grammar)
  {
    DecimalRoundTrip(|records|);
    OneGroupOfATag(level, group);
  }

  lemma OneGroupOfATag(level: Level, group: GroupMember)
    requires WfLevel(level) && group in level.groups
    ensures forall g :: g in level.groups && g.countTag == group.countTag ==> g == group
  {
    forall g | g in level.groups && g.countTag == group.countTag ensures g == group {
      var i :| 0 <= i < |level.groups| && level.groups[i] == group;
      var j :| 0 <= j < |level.groups| && level.groups[j] == g;
      SamePlace(level.groups, i, j);
    }
  }

  lemma SamePlace(groups: seq<GroupMember>, i: nat, j: nat)
    requires Ascending(GroupTags(groups)) && i < |groups| && j < |groups| && groups[i].countTag == groups[j].countTag
    ensures i == j
  {
    assert GroupTags(groups)[i] == GroupTags(groups)[j];
  }

  lemma {:induction false} RecordsConform(records: seq<Record>, group: GroupMember, grammar: (Tag, seq<Byte>) -> bool)
    requires WfGroup(group) && TypedRecords(records, group.entry) && CheckRecords(records, group.entry, grammar).None?
    ensures EntriesConform(WrittenEntries(records, group.entry), group.entry, grammar)
    decreases records, 3
  {
    if records != [] {
      assert Typed(records[0], group.entry) && Check(records[0], group.entry, grammar).None?;
      WrittenConforms(records[0], group.entry, grammar);
      RecordsConform(records[1..], group, grammar);
      var first, rest := Entry(WrittenItems(records[0], group.entry)), WrittenEntries(records[1..], group.entry);
      assert EntryConforms(first, group.entry, grammar);
      assert ([first] + rest)[1..] == rest;
    }
  }
}
