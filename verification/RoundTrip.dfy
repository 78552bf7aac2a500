/** What a generated writer writes after its check passed, the reader reads back: the same groups, entries and values. */
module RoundTrip {
  import opened Wire
  import opened GroupSpecs
  import opened GroupTree
  import opened Grammar
  import opened GroupCheck
  import opened Message
  import opened Reader
  import opened Levels
  import opened Writer
  import opened Recovery
  import opened Conformance
  import Walk

  // ----- conditions on the schema -----

  /** The group and the groups nested in it stay within the depth limit. */
  predicate Shallow(group: GroupMember, depth: nat) {
    && depth <= MAX_SCOPE_DEPTH
    && forall i :: 0 <= i < |group.entry.groups| ==> Shallow(group.entry.groups[i], depth + 1)
  }

  /** No tag of the group's entries occurs at an enclosing level, and so for the groups nested in it. */
  predicate Clear(group: GroupMember, outer: set<Tag>) {
    && (forall i :: 0 <= i < |group.entry.tags| ==> group.entry.tags[i] !in outer)
    && forall i :: 0 <= i < |group.entry.groups| ==> Clear(group.entry.groups[i], outer + TagSet(group.entry.tags))
  }

  function TagSet(tags: seq<Tag>): set<Tag> {
    set i | 0 <= i < |tags| :: tags[i]
  }

  /** The tables look a written tag up as the level itself does. */
  ghost predicate Describes(specs: seq<Spec>, level: Level) {
    forall i :: 0 <= i < |level.groups| ==> Lookup(specs, level.groups[i].countTag) == Some(SpecOf(level.groups[i]))
  }

  ghost predicate PlainElsewhere(specs: seq<Spec>, level: Level) {
    forall tag :: tag in AllWrittenTags(WriterMembers(level.members)) && tag !in GroupTags(level.groups) ==>
      Lookup(specs, tag) == None
  }

  // ----- lists of items, joined -----

  lemma MatchItemsConcat(a: seq<Item>, b: seq<Item>, specs: seq<Spec>, depth: nat)
    ensures MatchItems(a + b, specs, depth) <==> MatchItems(a, specs, depth) && MatchItems(b, specs, depth)
  {
    if a == [] {
      assert a + b == b;
    } else {
      assert (a + b)[0] == a[0] && (a + b)[1..] == a[1..] + b;
      MatchItemsConcat(a[1..], b, specs, depth);
    }
  }

  lemma FitItemsConcat(a: seq<Item>, b: seq<Item>, g: Spec, follow: Option<Tag>)
    ensures FitItems(a + b, g, follow) <==> FitItems(a, g, LeadingTag(FlatItems(b), follow)) && FitItems(b, g, follow)
  {
    if a == [] {
      assert a + b == b;
    } else {
      assert (a + b)[0] == a[0] && (a + b)[1..] == a[1..] + b;
      FlatItemsConcat(a[1..], b);
      FitItemsConcat(a[1..], b, g, follow);
    }
  }

  lemma MatchMakesWellFormed(items: seq<Item>, g: Spec, depth: nat)
    requires MatchItems(items, g.nested, depth + 1)
    requires forall i :: 0 <= i < |items| ==> items[i].Tag() in g.members
    ensures WellFormedItems(items, g, depth)
  {
    if items != [] {
      assert items[0].Tag() in g.members;
      assert forall i :: 0 <= i < |items[1..]| ==> items[1..][i] == items[i + 1];
      MatchMakesWellFormed(items[1..], g, depth);
    }
  }

  // ----- a checked record makes a well-formed tree -----

  /** The members are members of the level, still to be written. */
  ghost predicate TakenFrom(taken: seq<Member>, level: Level) {
    && WfLevel(level)
    && (forall m :: m in taken ==> m in WriterMembers(level.members))
    && NoDuplicates(AllWrittenTags(taken))
    && AllIn(AllWrittenTags(taken), AllWrittenTags(WriterMembers(level.members)))
  }

  lemma SplitAllIn(a: seq<Tag>, b: seq<Tag>, among: seq<Tag>)
    requires AllIn(a + b, among)
    ensures AllIn(a, among) && AllIn(b, among)
  {
    assert forall i :: 0 <= i < |a| ==> (a + b)[i] == a[i];
    assert forall i :: 0 <= i < |b| ==> (a + b)[|a| + i] == b[i];
  }

  lemma TakenStep(taken: seq<Member>, level: Level)
    requires TakenFrom(taken, level) && taken != []
    ensures TakenFrom(taken[1..], level) && taken[0] in WriterMembers(level.members)
    ensures NoDuplicates(WrittenTags(taken[0])) && AllIn(WrittenTags(taken[0]), AllWrittenTags(WriterMembers(level.members)))
  {
    SplitTags(WrittenTags(taken[0]), AllWrittenTags(taken[1..]));
    SplitAllIn(WrittenTags(taken[0]), AllWrittenTags(taken[1..]), AllWrittenTags(WriterMembers(level.members)));
  }

  lemma AllTaken(level: Level)
    requires WfLevel(level)
    ensures TakenFrom(WriterMembers(level.members), level)
  {
  }

  /** A field is never written under the count tag of a group of its level. */
  lemma FieldIsNoGroup(level: Level, member: Member, k: nat)
    requires WfLevel(level) && member in WriterMembers(level.members) && member.FieldM? && k < |WrittenTags(member)|
    ensures WrittenTags(member)[k] !in GroupTags(level.groups)
  {
    var tag := WrittenTags(member)[k];
    if tag in GroupTags(level.groups) {
      var i :| 0 <= i < |level.groups| && GroupTags(level.groups)[i] == tag;
      assert level.groups[i] in level.groups;
      TwoMembersTwoTags(WriterMembers(level.members), member, GroupM(level.groups[i]), k, 0);
    }
  }

  lemma {:induction false} TwoMembersTwoTags(taken: seq<Member>, a: Member, b: Member, i: nat, j: nat)
    requires a in taken && b in taken && a != b && NoDuplicates(AllWrittenTags(taken))
    requires i < |WrittenTags(a)| && j < |WrittenTags(b)|
    ensures WrittenTags(a)[i] != WrittenTags(b)[j]
  {
    SplitTags(WrittenTags(taken[0]), AllWrittenTags(taken[1..]));
    if a == taken[0] {
      WrittenMember(taken[1..], b);
    } else if b == taken[0] {
      WrittenMember(taken[1..], a);
    } else {
      TwoMembersTwoTags(taken[1..], a, b, i, j);
    }
  }

  lemma {:induction false} MembersMatch(inputs: seq<Input>, taken: seq<Member>, level: Level, specs: seq<Spec>, depth: nat,
                                        grammar: (Tag, seq<Byte>) -> bool)
    requires TakenFrom(taken, level) && TypedInputs(inputs, taken) && CheckMembers(inputs, taken, level, grammar).None?
    requires Describes(specs, level) && PlainElsewhere(specs, level)
    requires forall i :: 0 <= i < |level.groups| ==> Shallow(level.groups[i], depth)
    ensures MatchItems(MemberItems(inputs, taken), specs, depth)
    decreases inputs, 1
  {
    if inputs != [] {
      TakenStep(taken, level);
      assert CheckMember(inputs[0], taken[0], level, grammar).None?;
      InputMatches(inputs[0], taken[0], level, specs, depth, grammar);
      MembersMatch(inputs[1..], taken[1..], level, specs, depth, grammar);
      MatchItemsConcat(InputItems(inputs[0], taken[0]), MemberItems(inputs[1..], taken[1..]), specs, depth);
    }
  }

  lemma {:induction false} InputMatches(input: Input, member: Member, level: Level, specs: seq<Spec>, depth: nat,
                                        grammar: (Tag, seq<Byte>) -> bool)
    requires WfLevel(level) && member in WriterMembers(level.members)
    requires TypedInput(input, member) && CheckMember(input, member, level, grammar).None?
    requires Describes(specs, level) && PlainElsewhere(specs, level)
    requires forall i :: 0 <= i < |level.groups| ==> Shallow(level.groups[i], depth)
    ensures MatchItems(InputItems(input, member), specs, depth)
    decreases input, 1
  {
    match member
    case FieldM(field) =>
      FieldMatches(input, member, level, specs, depth);
    case GroupM(group) =>
      assert group in level.groups;
      var i :| 0 <= i < |level.groups| && level.groups[i] == group;
      RunIsWellFormed(input, group, depth, grammar);
      OneMatches(Nested(WrittenRun(group, input.records)), specs, depth);
  }

  lemma OneMatches(item: Item, specs: seq<Spec>, depth: nat)
    ensures MatchItems([item], specs, depth) <==> MatchItem(item, specs, depth)
  {
    assert [item][1..] == [];
  }

  lemma OneFits(item: Item, g: Spec, follow: Option<Tag>)
    ensures FitItems([item], g, follow) <==> FitItem(item, g, follow)
  {
    assert [item][1..] == [];
  }

  lemma FieldMatches(input: Input, member: Member, level: Level, specs: seq<Spec>, depth: nat)
    requires WfLevel(level) && member in WriterMembers(level.members) && member.FieldM?
    requires Describes(specs, level) && PlainElsewhere(specs, level)
    ensures MatchItems(InputItems(input, member), specs, depth)
  {
    var items := InputItems(input, member);
    FieldItemsArePlain(input, member);
    forall k | 0 <= k < |items| ensures Lookup(specs, items[k].Tag()) == None {
      FieldTagIsPlain(level, specs, member, items[k].Tag());
    }
    PlainMatch(items, specs, depth);
  }

  lemma FieldItemsArePlain(input: Input, member: Member)
    requires member.FieldM?
    ensures forall k :: 0 <= k < |InputItems(input, member)| ==>
              InputItems(input, member)[k].Plain? && InputItems(input, member)[k].Tag() in WrittenTags(member)
  {
  }

  /** A tag a field is written under opens no group. */
  lemma FieldTagIsPlain(level: Level, specs: seq<Spec>, member: Member, tag: Tag)
    requires WfLevel(level) && member in WriterMembers(level.members) && member.FieldM?
    requires PlainElsewhere(specs, level) && tag in WrittenTags(member)
    ensures Lookup(specs, tag) == None
  {
    var k :| 0 <= k < |WrittenTags(member)| && WrittenTags(member)[k] == tag;
    FieldIsNoGroup(level, member, k);
    WrittenMember(WriterMembers(level.members), member);
  }

  /** Fields under tags that open no group match. */
  lemma PlainMatch(items: seq<Item>, specs: seq<Spec>, depth: nat)
    requires forall k :: 0 <= k < |items| ==> items[k].Plain? && Lookup(specs, items[k].Tag()) == None
    ensures MatchItems(items, specs, depth)
  {
    if items != [] {
      assert forall k :: 0 <= k < |items[1..]| ==> items[1..][k] == items[k + 1];
      PlainMatch(items[1..], specs, depth);
    }
  }

  lemma {:induction false} RunIsWellFormed(input: Input, group: GroupMember, depth: nat, grammar: (Tag, seq<Byte>) -> bool)
    requires WfGroup(group) && Shallow(group, depth)
    requires input.Records? && |input.records| <= U64_MAX && TypedRecords(input.records, group.entry)
    requires CheckRecords(input.records, group.entry, grammar).None?
    ensures WellFormed(WrittenRun(group, input.records), SpecOf(group), depth)
    decreases input, 0
  {
    DecimalRoundTrip(|input.records|);
    EntriesAreWellFormed(input.records, group, depth, grammar);
  }

  lemma {:induction false} EntriesAreWellFormed(records: seq<Record>, group: GroupMember, depth: nat,
                                                grammar: (Tag, seq<Byte>) -> bool)
    requires WfGroup(group) && Shallow(group, depth)
    requires TypedRecords(records, group.entry) && CheckRecords(records, group.entry, grammar).None?
    ensures WellFormedEntries(WrittenEntries(records, group.entry), SpecOf(group), depth)
    decreases records, 1
  {
    if records != [] {
      assert Typed(records[0], group.entry) && Check(records[0], group.entry, grammar).None?;
      EntryIsWellFormed(records[0], group, depth, grammar);
      EntriesAreWellFormed(records[1..], group, depth, grammar);
      var entries := [Entry(WrittenItems(records[0], group.entry))] + WrittenEntries(records[1..], group.entry);
      assert entries[1..] == WrittenEntries(records[1..], group.entry);
    }
  }

  lemma {:induction false} EntryIsWellFormed(record: Record, group: GroupMember, depth: nat, grammar: (Tag, seq<Byte>) -> bool)
    requires WfGroup(group) && Shallow(group, depth)
    requires Typed(record, group.entry) && Check(record, group.entry, grammar).None?
    ensures WellFormedEntry(Entry(WrittenItems(record, group.entry)), SpecOf(group), depth)
    decreases record, 1
  {
    var level := group.entry;
    assert WfLevel(level);
    var taken := WriterMembers(level.members);
    AllTaken(level);
    OwnTables(level);
    MembersMatch(record.inputs, taken, level, SpecsOf(level.groups), depth + 1, grammar);
    MemberTags(record.inputs, taken);
    var items := WrittenItems(record, level);
    forall i | 0 <= i < |items| ensures items[i].Tag() in level.tags {
      AllInMember(AllWrittenTags(taken), level.tags, items[i].Tag());
    }
    MatchMakesWellFormed(items, SpecOf(group), depth);
    EntryIsLedByDelimiter(record, group, grammar);
  }

  lemma OwnTables(level: Level)
    requires WfLevel(level)
    ensures Describes(SpecsOf(level.groups), level) && PlainElsewhere(SpecsOf(level.groups), level)
  {
    forall i | 0 <= i < |level.groups|
      ensures Lookup(SpecsOf(level.groups), level.groups[i].countTag) == Some(SpecOf(level.groups[i]))
    {
      LookupMember(level, level.groups[i].countTag);
    }
    forall tag | tag in AllWrittenTags(WriterMembers(level.members)) && tag !in GroupTags(level.groups)
      ensures Lookup(SpecsOf(level.groups), tag) == None
    {
      assert forall i :: 0 <= i < |level.groups| ==> GroupTags(level.groups)[i] != tag;
      LookupMember(level, tag);
    }
  }

  /** The check forces the mandatory first member, so the delimiter opens the entry. */
  lemma EntryIsLedByDelimiter(record: Record, group: GroupMember, grammar: (Tag, seq<Byte>) -> bool)
    requires WfGroup(group) && Typed(record, group.entry) && Check(record, group.entry, grammar).None?
    ensures LedByDelimiter(Entry(WrittenItems(record, group.entry)), SpecOf(group))
  {
    var taken := WriterMembers(group.entry.members);
    assert Opens(group.entry, group.delimiter);
    assert TypedInput(record.inputs[0], taken[0]);
    assert CheckMember(record.inputs[0], taken[0], group.entry, grammar).None?;
    assert Mandatory(group.entry, taken[0]);
    var input := record.inputs[0];
    var first := InputItems(input, taken[0]);
    match taken[0] {
      case FieldM(field) => assert Present(input);
      case GroupM(inner) => assert first == [Nested(WrittenRun(inner, input.records))];
    }
    assert first != [] && first[0].Tag() == WrittenTags(taken[0])[0];
    assert WrittenItems(record, group.entry) == first + MemberItems(record.inputs[1..], taken[1..]);
  }

  // ----- what follows a written group is never one of its own tags -----

  predicate Within(follow: Option<Tag>, outer: set<Tag>) {
    follow.Some? ==> follow.value in outer
  }

  lemma {:induction false} RunFits(input: Input, group: GroupMember, outer: set<Tag>, enclosing: seq<Tag>, follow: Option<Tag>,
                                   grammar: (Tag, seq<Byte>) -> bool)
    requires WfGroup(group) && Clear(group, outer) && Within(follow, outer)
    requires input.Records? && TypedRecords(input.records, group.entry) && CheckRecords(input.records, group.entry, grammar).None?
    ensures Fits(WrittenRun(group, input.records), SpecOf(group), enclosing, follow)
    decreases input, 0
  {
    RecordsFit(input.records, group, outer, follow, grammar);
  }

  lemma {:induction false} RecordsFit(records: seq<Record>, group: GroupMember, outer: set<Tag>, follow: Option<Tag>,
                                      grammar: (Tag, seq<Byte>) -> bool)
    requires WfGroup(group) && Clear(group, outer) && Within(follow, outer)
    requires TypedRecords(records, group.entry) && CheckRecords(records, group.entry, grammar).None?
    ensures FitEntries(WrittenEntries(records, group.entry), SpecOf(group), follow)
    decreases records, 1
  {
    if records != [] {
      var rest := WrittenEntries(records[1..], group.entry);
      assert Typed(records[0], group.entry) && Check(records[0], group.entry, grammar).None?;
      RecordsFit(records[1..], group, outer, follow, grammar);
      if records[1..] != [] {
        assert Typed(records[1..][0], group.entry) && Check(records[1..][0], group.entry, grammar).None?;
        EntryIsLedByDelimiter(records[1..][0], group, grammar);
        assert FlatEntries(rest)[0].tag == group.delimiter;
      }
      DelimiterIsMember(group);
      RecordFits(records[0], group, outer, LeadingTag(FlatEntries(rest), follow), grammar);
      FitEntriesCons(Entry(WrittenItems(records[0], group.entry)), rest, SpecOf(group), follow);
    }
  }

  lemma DelimiterIsMember(group: GroupMember)
    requires WfGroup(group)
    ensures group.delimiter in TagSet(group.entry.tags)
  {
    SpecIsValid(group);
    var i :| 0 <= i < |group.entry.tags| && group.entry.tags[i] == group.delimiter;
  }

  lemma {:induction false} RecordFits(record: Record, group: GroupMember, outer: set<Tag>, follow: Option<Tag>,
                                      grammar: (Tag, seq<Byte>) -> bool)
    requires WfGroup(group) && Clear(group, outer) && Within(follow, outer + TagSet(group.entry.tags))
    requires Typed(record, group.entry) && Check(record, group.entry, grammar).None?
    ensures FitItems(WrittenItems(record, group.entry), SpecOf(group), follow)
    decreases record, 1
  {
    var level := group.entry;
    assert WfLevel(level);
    AllTaken(level);
    OwnTables(level);
    forall tag | tag in AllWrittenTags(WriterMembers(level.members)) ensures tag in TagSet(level.tags) {
      AllInMember(AllWrittenTags(WriterMembers(level.members)), level.tags, tag);
    }
    MembersFit(record.inputs, WriterMembers(level.members), level, SpecOf(group), outer + TagSet(level.tags), follow, grammar);
  }

  lemma {:induction false} MembersFit(inputs: seq<Input>, taken: seq<Member>, level: Level, g: Spec, outer: set<Tag>,
                                      follow: Option<Tag>, grammar: (Tag, seq<Byte>) -> bool)
    requires TakenFrom(taken, level) && TypedInputs(inputs, taken) && CheckMembers(inputs, taken, level, grammar).None?
    requires Describes(g.nested, level) && Within(follow, outer)
    requires forall tag :: tag in AllWrittenTags(WriterMembers(level.members)) ==> tag in outer
    requires forall i :: 0 <= i < |level.groups| ==> Clear(level.groups[i], outer)
    ensures FitItems(MemberItems(inputs, taken), g, follow)
    decreases inputs, 1
  {
    if inputs != [] {
      TakenStep(taken, level);
      var rest := MemberItems(inputs[1..], taken[1..]);
      MembersFit(inputs[1..], taken[1..], level, g, outer, follow, grammar);
      MemberTags(inputs[1..], taken[1..]);
      if rest != [] {
        AllInMember(AllWrittenTags(taken[1..]), AllWrittenTags(WriterMembers(level.members)), rest[0].Tag());
      }
      var next := LeadingTag(FlatItems(rest), follow);
      assert CheckMember(inputs[0], taken[0], level, grammar).None?;
      InputFits(inputs[0], taken[0], level, g, outer, next, grammar);
      FitItemsConcat(InputItems(inputs[0], taken[0]), rest, g, follow);
    }
  }

  lemma {:induction false} InputFits(input: Input, member: Member, level: Level, g: Spec, outer: set<Tag>, follow: Option<Tag>,
                                     grammar: (Tag, seq<Byte>) -> bool)
    requires WfLevel(level) && member in WriterMembers(level.members)
    requires TypedInput(input, member) && CheckMember(input, member, level, grammar).None?
    requires Describes(g.nested, level) && Within(follow, outer)
    requires forall i :: 0 <= i < |level.groups| ==> Clear(level.groups[i], outer)
    ensures FitItems(InputItems(input, member), g, follow)
    decreases input, 1
  {
    match member
    case FieldM(field) => FieldItemsFit(input, member, g, follow);
    case GroupM(group) =>
      assert group in level.groups;
      GroupInList(level.groups, group, outer);
      RunFits(input, group, outer, g.members, follow, grammar);
      OneFits(Nested(WrittenRun(group, input.records)), g, follow);
  }

  lemma GroupInList(groups: seq<GroupMember>, group: GroupMember, outer: set<Tag>)
    requires group in groups && forall i :: 0 <= i < |groups| ==> Clear(groups[i], outer)
    ensures Clear(group, outer)
  {
  }

  /** Plain fields leave nothing open. */
  lemma FieldItemsFit(input: Input, member: Member, g: Spec, follow: Option<Tag>)
    requires member.FieldM?
    ensures FitItems(InputItems(input, member), g, follow)
  {
    var items := InputItems(input, member);
    assert |items| == 2 ==> items[1..] == [items[1]] && [items[1]][1..] == [];
    assert |items| == 1 ==> items[1..] == [];
  }

  // ----- main results -----

  function PlainItems(fields: seq<Field>): (items: seq<Item>)
    ensures |items| == |fields| && forall i :: 0 <= i < |fields| ==> items[i] == Plain(fields[i])
  {
    if fields == [] then [] else [Plain(fields[0])] + PlainItems(fields[1..])
  }

  lemma {:induction false} PlainItemsStand(fields: seq<Field>, groups: GroupSet, follow: Option<Tag>)
    requires forall i :: 0 <= i < |fields| ==> Lookup(groups.groups, fields[i].tag) == None
    ensures FlatItems(PlainItems(fields)) == fields
    ensures MatchItems(PlainItems(fields), groups.groups, 0)
    ensures FitItems(PlainItems(fields), TopScope(groups), follow)
  {
    if fields != [] {
      PlainItemsStand(fields[1..], groups, follow);
      assert PlainItems(fields)[1..] == PlainItems(fields[1..]);
    }
  }

  /**
   What stands around a body: well-formed fields and groups of the set, none followed by a tag it would
   take for its own, the trailer beginning with a tag no group of the body takes.
   */
  ghost predicate Surround(header: seq<Item>, written: seq<Item>, trailer: seq<Item>, groups: GroupSet, outer: set<Tag>)
    requires ValidSet(groups)
  {
    && MatchItems(header, groups.groups, 0) && MatchItems(trailer, groups.groups, 0)
    && FitItems(header, TopScope(groups), LeadingTag(FlatItems(written + trailer), None))
    && FitItems(trailer, TopScope(groups), None)
    && (trailer != [] ==> trailer[0].Tag() in outer)
  }

  /** Plain fields that open no group always stand around a body so. */
  lemma FieldsSurround(header: seq<Field>, written: seq<Item>, trailer: seq<Field>, groups: GroupSet, outer: set<Tag>)
    requires ValidSet(groups)
    requires forall i :: 0 <= i < |header| ==> Lookup(groups.groups, header[i].tag) == None
    requires forall i :: 0 <= i < |trailer| ==> Lookup(groups.groups, trailer[i].tag) == None && trailer[i].tag in outer
    ensures Surround(PlainItems(header), written, PlainItems(trailer), groups, outer)
    ensures FlatItems(PlainItems(header)) == header && FlatItems(PlainItems(trailer)) == trailer
  {
    PlainItemsStand(header, groups, LeadingTag(FlatItems(written + PlainItems(trailer)), None));
    PlainItemsStand(trailer, groups, None);
  }

  /** The schema conditions of the round trip, and the tables the reader was given. */
  ghost predicate ReadableLevel(body: Level, groups: GroupSet, outer: set<Tag>) {
    && WfLevel(body) && ValidSet(groups)
    && Describes(groups.groups, body) && PlainElsewhere(groups.groups, body)
    && (forall tag :: tag in AllWrittenTags(WriterMembers(body.members)) ==> tag in outer)
    && forall i :: 0 <= i < |body.groups| ==> Shallow(body.groups[i], 0) && Clear(body.groups[i], outer)
  }

  /** The fields sent: the header, what the writer wrote, the trailer. */
  ghost function Sent(header: seq<Item>, record: Record, body: Level, trailer: seq<Item>): seq<Field> {
    FlatItems(header) + Emit(record, body).fields + FlatItems(trailer)
  }

  /**
   A message whose body a writer wrote, between header and trailer, is read back as the tree the record
   stands for: the same groups, the same entries, the same values, nested groups included.
   */
  lemma WrittenMessageReadsBack(header: seq<Item>, record: Record, trailer: seq<Item>, body: Level, groups: GroupSet,
                                outer: set<Tag>, grammar: (Tag, seq<Byte>) -> bool)
    requires ReadableLevel(body, groups, outer)
    requires Typed(record, body) && Check(record, body, grammar).None? && Emit(record, body).error.None?
    requires Surround(header, WrittenItems(record, body), trailer, groups, outer)
    requires |Sent(header, record, body, trailer)| <= U64_MAX
    ensures MessageItems(Sent(header, record, body, trailer), 0, groups) == header + WrittenItems(record, body) + trailer
    ensures BodyReadsBack(MessageItems(Sent(header, record, body, trailer), 0, groups), header, record, trailer, body, grammar)
    ensures MatchItems(header + WrittenItems(record, body) + trailer, groups.groups, 0)
  {
    var taken, items := WriterMembers(body.members), WrittenItems(record, body);
    var scope := TopScope(groups);
    EmitWritesItems(record, body);
    AllTaken(body);
    MembersMatch(record.inputs, taken, body, groups.groups, 0, grammar);
    MembersFit(record.inputs, taken, body, scope, outer, LeadingTag(FlatItems(trailer), None), grammar);
    SurroundedFits(header, items, trailer, groups, outer);
    FlatItemsConcat(header, items);
    FlatItemsConcat(header + items, trailer);
    var fields := Sent(header, record, body, trailer);
    assert fields[0..] == fields;
    MessageFound(fields, 0, header + items + trailer, groups);
    RecordIsRecovered(record, body, grammar);
    WrittenConforms(record, body, grammar);
    BodyBetween(header, items, trailer);
  }

  /** Between header and trailer stands what the record is got again from, in order, complete and legal. */
  ghost predicate BodyReadsBack(items: seq<Item>, header: seq<Item>, record: Record, trailer: seq<Item>, body: Level,
                                grammar: (Tag, seq<Byte>) -> bool)
  {
    && |header| + |trailer| <= |items|
    && items[..|header|] == header && items[|items| - |trailer|..] == trailer
    && var written := items[|header|..|items| - |trailer|];
       Recover(written, body) == record && Conforms(written, body, grammar)
  }

  lemma BodyBetween(header: seq<Item>, written: seq<Item>, trailer: seq<Item>)
    ensures var items := header + written + trailer;
            && items[..|header|] == header && items[|items| - |trailer|..] == trailer
            && items[|header|..|items| - |trailer|] == written
  {
  }

  lemma SurroundedFits(header: seq<Item>, items: seq<Item>, trailer: seq<Item>, groups: GroupSet, outer: set<Tag>)
    requires ValidSet(groups) && Surround(header, items, trailer, groups, outer)
    requires MatchItems(items, groups.groups, 0) && FitItems(items, TopScope(groups), LeadingTag(FlatItems(trailer), None))
    ensures MatchItems(header + items + trailer, groups.groups, 0) && FitItems(header + items + trailer, TopScope(groups), None)
  {
    MatchItemsConcat(header, items, groups.groups, 0);
    MatchItemsConcat(header + items, trailer, groups.groups, 0);
    FitItemsConcat(items, trailer, TopScope(groups), None);
    FitItemsConcat(header, items + trailer, TopScope(groups), None);
    Regroup(header, items, trailer);
  }

  /** Whether a group is written at all: an optional group without entries is left out. */
  predicate IsWritten(input: Input, group: GroupMember) {
    input.Records? && (group.required || input.records != [])
  }

  /**
   Reading one group of a written message gives back its records: the instance with the written
   count and entries when the group was written, and no instance when it was left out.
   */
  lemma WrittenGroupReadsBack(header: seq<Item>, record: Record, trailer: seq<Item>, body: Level, groups: GroupSet,
                              outer: set<Tag>, grammar: (Tag, seq<Byte>) -> bool, m: nat)
    requires ReadableLevel(body, groups, outer)
    requires Typed(record, body) && Check(record, body, grammar).None? && Emit(record, body).error.None?
    requires Surround(header, WrittenItems(record, body), trailer, groups, outer)
    requires |Sent(header, record, body, trailer)| <= U64_MAX
    requires m < |WriterMembers(body.members)| == |record.inputs| && WriterMembers(body.members)[m].GroupM?
    requires Without(header, WriterMembers(body.members)[m].Tag()) && Without(trailer, WriterMembers(body.members)[m].Tag())
    ensures GroupReadsBack(record, body, groups, m, MessageItems(Sent(header, record, body, trailer), 0, groups), grammar)
  {
    WrittenMessageReadsBack(header, record, trailer, body, groups, outer, grammar);
    var taken := WriterMembers(body.members);
    MemberIsChecked(record.inputs, taken, body, grammar, m);
    GroupIsLookedUp(body, groups, taken[m].group);
    if IsWritten(record.inputs[m], taken[m].group) {
      WrittenGroupIsRead(header, record, trailer, body, groups, m);
      GroupIsRecovered(record.inputs[m], body, taken[m].group, grammar);
    } else {
      AbsentGroupIsNotRead(header, record, trailer, body, groups, m);
    }
  }

  lemma WrittenGroupIsRead(header: seq<Item>, record: Record, trailer: seq<Item>, body: Level, groups: GroupSet, m: nat)
    requires m < |WriterMembers(body.members)| == |record.inputs| && WriterMembers(body.members)[m].GroupM?
    requires IsWritten(record.inputs[m], WriterMembers(body.members)[m].group) && WfLevel(body)
    requires Without(header, WriterMembers(body.members)[m].Tag()) && Without(trailer, WriterMembers(body.members)[m].Tag())
    requires MatchItems(header + WrittenItems(record, body) + trailer, groups.groups, 0)
    ensures var group := WriterMembers(body.members)[m].group;
            var read := ReadItems(header + WrittenItems(record, body) + trailer, 0, groups, group.countTag, None);
            read.Ok? && read.value.Some? && read.value.value.run == WrittenRun(group, record.inputs[m].records)
  {
    var taken, written := WriterMembers(body.members), WrittenItems(record, body);
    var k := MemberStands(record.inputs, taken, m);
    MemberTags(record.inputs, taken);
    StandingIsRead(header, written, trailer, groups, k, taken[m].group.countTag);
  }

  lemma StandingIsRead(header: seq<Item>, written: seq<Item>, trailer: seq<Item>, groups: GroupSet, k: nat, tag: Tag)
    requires MatchItems(header + written + trailer, groups.groups, 0) && Distinct(written) && Without(header, tag) && Without(trailer, tag)
    requires k < |written| && written[k].Nested? && written[k].Tag() == tag
    ensures var read := ReadItems(header + written + trailer, 0, groups, tag, None);
            read.Ok? && read.value.Some? && read.value.value.run == written[k].run
  {
    OnlyOneStands(header, written, trailer, tag, k);
    ReadFindsItem(header + written + trailer, 0, groups, |header| + k);
  }

  lemma AbsentGroupIsNotRead(header: seq<Item>, record: Record, trailer: seq<Item>, body: Level, groups: GroupSet, m: nat)
    requires m < |WriterMembers(body.members)| == |record.inputs| && WriterMembers(body.members)[m].GroupM?
    requires !IsWritten(record.inputs[m], WriterMembers(body.members)[m].group) && WfLevel(body)
    requires Without(header, WriterMembers(body.members)[m].Tag()) && Without(trailer, WriterMembers(body.members)[m].Tag())
    requires MatchItems(header + WrittenItems(record, body) + trailer, groups.groups, 0)
    ensures var items := header + WrittenItems(record, body) + trailer;
            ReadItems(items, 0, groups, WriterMembers(body.members)[m].group.countTag, None) == Ok(None)
  {
    var taken, written := WriterMembers(body.members), WrittenItems(record, body);
    var tag := taken[m].group.countTag;
    forall i | 0 <= i < |written| ensures written[i].Tag() != tag {
      AbsentMember(record.inputs, taken, m, i);
    }
    NoneStands(header, written, trailer, tag);
    ReadFindsNothing(header + written + trailer, 0, groups, tag, None);
  }

  /** Reading the group of member `m` among these items gives the records it was written with, or nothing. */
  ghost predicate GroupReadsBack(record: Record, body: Level, groups: GroupSet, m: nat, items: seq<Item>,
                                 grammar: (Tag, seq<Byte>) -> bool)
    requires m < |WriterMembers(body.members)| == |record.inputs| && WriterMembers(body.members)[m].GroupM?
  {
    var group := WriterMembers(body.members)[m].group;
    var read := ReadItems(items, 0, groups, group.countTag, None);
    Lookup(groups.groups, group.countTag) == Some(SpecOf(group)) &&
    if record.inputs[m].Records? && (group.required || record.inputs[m].records != []) then
      && read.Ok? && read.value.Some?
      && var run := read.value.value.run;
         && run == WrittenRun(group, record.inputs[m].records) && Announces(run.count.value, |run.entries|)
         && RecoverEntries(run.entries, group.entry) == record.inputs[m].records
         && EntriesConform(run.entries, group.entry, grammar)
    else read == Ok(None)
  }

  /** The records of a written group are got again from its run. */
  lemma GroupIsRecovered(input: Input, level: Level, group: GroupMember, grammar: (Tag, seq<Byte>) -> bool)
    requires WfLevel(level) && GroupM(group) in level.members && input.Records?
    requires TypedInput(input, GroupM(group)) && CheckMember(input, GroupM(group), level, grammar).None?
    ensures var run := WrittenRun(group, input.records);
            && Announces(run.count.value, |run.entries|)
            && RecoverEntries(run.entries, group.entry) == input.records
            && EntriesConform(run.entries, group.entry, grammar)
  {
    assert group in level.groups;
    DecimalRoundTrip(|input.records|);
    RecordsAreRecovered(input.records, group, grammar);
    RecordsConform(input.records, group, grammar);
  }

  /** No item stands under this tag. */
  predicate Without(items: seq<Item>, tag: Tag) {
    forall i :: 0 <= i < |items| ==> items[i].Tag() != tag
  }

  lemma GroupIsLookedUp(body: Level, groups: GroupSet, group: GroupMember)
    requires WfLevel(body) && Describes(groups.groups, body) && GroupM(group) in body.members
    ensures Lookup(groups.groups, group.countTag) == Some(SpecOf(group))
  {
    assert group in body.groups;
    var g :| 0 <= g < |body.groups| && body.groups[g] == group;
  }

  lemma OnlyOneStands(header: seq<Item>, written: seq<Item>, trailer: seq<Item>, tag: Tag, k: nat)
    requires Without(header, tag) && Without(trailer, tag)
    requires Distinct(written) && k < |written| && written[k].Tag() == tag
    ensures var items := header + written + trailer;
            && items[|header| + k] == written[k]
            && forall i :: 0 <= i < |items| && i != |header| + k ==> items[i].Tag() != tag
  {
    var items := header + written + trailer;
    forall i | 0 <= i < |items| && i != |header| + k ensures items[i].Tag() != tag {
      if i < |header| {
        assert items[i] == header[i];
      } else if i < |header| + |written| {
        assert items[i] == written[i - |header|];
      } else {
        assert items[i] == trailer[i - |header| - |written|];
      }
    }
  }

  lemma NoneStands(header: seq<Item>, written: seq<Item>, trailer: seq<Item>, tag: Tag)
    requires Without(header, tag) && Without(written, tag) && Without(trailer, tag)
    ensures Without(header + written + trailer, tag)
  {
    var items := header + written + trailer;
    forall i | 0 <= i < |items| ensures items[i].Tag() != tag {
      if i < |header| {
        assert items[i] == header[i];
      } else if i < |header| + |written| {
        assert items[i] == written[i - |header|];
      } else {
        assert items[i] == trailer[i - |header| - |written|];
      }
    }
  }

  /** A written group stands as one item among those of its record. */
  lemma {:induction false} MemberStands(inputs: seq<Input>, taken: seq<Member>, m: nat) returns (k: nat)
    requires |inputs| == |taken| && m < |taken| && taken[m].GroupM? && inputs[m].Records?
    requires taken[m].group.required || inputs[m].records != []
    ensures k < |MemberItems(inputs, taken)|
    ensures MemberItems(inputs, taken)[k] == Nested(WrittenRun(taken[m].group, inputs[m].records))
    decreases inputs
  {
    if m == 0 {
      k := 0;
    } else {
      k := MemberStands(inputs[1..], taken[1..], m - 1);
      k := k + |InputItems(inputs[0], taken[0])|;
    }
  }

  /** A member that writes nothing leaves no item under its tag. */
  lemma {:induction false} AbsentMember(inputs: seq<Input>, taken: seq<Member>, m: nat, i: nat)
    requires |inputs| == |taken| && m < |taken| && taken[m].GroupM? && InputItems(inputs[m], taken[m]) == []
    requires NoDuplicates(AllWrittenTags(taken)) && i < |MemberItems(inputs, taken)|
    ensures MemberItems(inputs, taken)[i].Tag() != taken[m].Tag()
    decreases inputs
  {
    var first, rest := InputItems(inputs[0], taken[0]), MemberItems(inputs[1..], taken[1..]);
    SplitTags(WrittenTags(taken[0]), AllWrittenTags(taken[1..]));
    InputTags(inputs[0], taken[0]);
    MemberTags(inputs[1..], taken[1..]);
    if m == 0 {
      assert rest[i].Tag() in AllWrittenTags(taken[1..]);
      assert WrittenTags(taken[0])[0] == taken[0].Tag();
    } else if i < |first| {
      assert first[i].Tag() in WrittenTags(taken[0]);
      WrittenMember(taken[1..], taken[m]);
      assert taken[1..][m - 1] == taken[m];
      assert WrittenTags(taken[m])[0] == taken[m].Tag();
    } else {
      AbsentMember(inputs[1..], taken[1..], m - 1, i - |first|);
    }
  }
}
