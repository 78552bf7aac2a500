/**
 What a reader can tell from the items of a written level: the inputs, member by member, and that the items
 are in order, complete and legal. Stated on the items and the level alone.
 */
module Recovery {
  import opened Wire
  import opened GroupSpecs
  import opened GroupTree
  import opened Grammar
  import opened Levels
  import opened Writer

  // ----- the inputs, got again from the items -----

  /** The first item under a tag. */
  function ItemUnder(items: seq<Item>, tag: Tag): (found: Option<Item>)
    ensures found.Some? ==> found.value in items && found.value.Tag() == tag
  {
    if items == [] then None else if items[0].Tag() == tag then Some(items[0]) else ItemUnder(items[1..], tag)
  }

  /** The tokens a text holds between its spaces. */
  function Split(text: seq<Byte>): (tokens: seq<seq<Byte>>)
    ensures tokens != []
  {
    if text == [] then [[]]
    else
      var rest := Split(text[1..]);
      if text[0] == SPACE then [[]] + rest else [[text[0]] + rest[0]] + rest[1..]
  }

  function Recover(items: seq<Item>, level: Level): Record
    decreases items, 2
  {
    Record(RecoverMembers(items, WriterMembers(level.members)))
  }

  function RecoverMembers(items: seq<Item>, taken: seq<Member>): (inputs: seq<Input>)
    ensures |inputs| == |taken|
    ensures forall m :: 0 <= m < |taken| ==> inputs[m] == RecoverMember(items, taken[m])
    decreases items, 1, |taken|
  {
    if taken == [] then [] else [RecoverMember(items, taken[0])] + RecoverMembers(items, taken[1..])
  }

  /** What was set for a member: what the first item under its tag tells, or nothing. */
  function RecoverMember(items: seq<Item>, member: Member): (input: Input)
    ensures input == match ItemUnder(items, member.Tag()) case None => Unset(member) case Some(item) => RecoverItem(item, member)
    decreases items, 0, |items|
  {
    if items == [] then Unset(member)
    else if items[0].Tag() == member.Tag() then RecoverItem(items[0], member)
    else RecoverMember(items[1..], member)
  }

  function Unset(member: Member): Input {
    if member.GroupM? then Records([]) else if member.field.kind.Tokens? then TokenList([]) else Absent
  }

  /** The value of a field, its tokens, or the records of a run. */
  function RecoverItem(item: Item, member: Member): Input
    decreases item, 4
  {
    match item
    case Plain(field) => if member.FieldM? && member.field.kind.Tokens? then TokenList(Split(field.value)) else Text(field.value)
    case Nested(run) => if member.GroupM? then Records(RecoverEntries(run.entries, member.group.entry)) else Absent
  }

  function RecoverEntries(entries: seq<Entry>, level: Level): (records: seq<Record>)
    ensures |records| == |entries|
    decreases entries, 3
  {
    if entries == [] then [] else [Recover(entries[0].items, level)] + RecoverEntries(entries[1..], level)
  }

  // ----- the tags a record is written under -----

  predicate TagsWithin(items: seq<Item>, tags: seq<Tag>) {
    forall i :: 0 <= i < |items| ==> items[i].Tag() in tags
  }

  lemma InputTags(input: Input, member: Member)
    requires NoDuplicates(WrittenTags(member))
    ensures TagsWithin(InputItems(input, member), WrittenTags(member)) && Distinct(InputItems(input, member))
  {
    var tags := WrittenTags(member);
    assert |tags| == 2 ==> tags[0] != tags[1];
  }

  lemma SplitTags(a: seq<Tag>, b: seq<Tag>)
    requires NoDuplicates(a + b)
    ensures NoDuplicates(a) && NoDuplicates(b)
    ensures forall i, j :: 0 <= i < |a| && 0 <= j < |b| ==> a[i] != b[j]
  {
    assert forall i :: 0 <= i < |a| ==> (a + b)[i] == a[i];
    assert forall i :: 0 <= i < |b| ==> (a + b)[|a| + i] == b[i];
  }

  /** The items of a record stand under the written tags of its level, each at most once. */
  lemma {:induction false} MemberTags(inputs: seq<Input>, taken: seq<Member>)
    requires NoDuplicates(AllWrittenTags(taken))
    ensures TagsWithin(MemberItems(inputs, taken), AllWrittenTags(taken)) && Distinct(MemberItems(inputs, taken))
    decreases inputs
  {
    if inputs != [] && taken != [] {
      var a, b := WrittenTags(taken[0]), AllWrittenTags(taken[1..]);
      var first, rest := InputItems(inputs[0], taken[0]), MemberItems(inputs[1..], taken[1..]);
      assert forall i :: 0 <= i < |a| ==> (a + b)[i] == a[i];
      assert forall i :: 0 <= i < |b| ==> (a + b)[|a| + i] == b[i];
      InputTags(inputs[0], taken[0]);
      MemberTags(inputs[1..], taken[1..]);
      forall i, j | 0 <= i < |first| && 0 <= j < |rest| ensures first[i].Tag() != rest[j].Tag() {
        assert first[i].Tag() in a && rest[j].Tag() in b;
      }
      assert forall i :: 0 <= i < |first| ==> first[i].Tag() in a;
    }
  }

  // ----- a checked record is recovered -----

  lemma UnderConcat(a: seq<Item>, b: seq<Item>, tag: Tag)
    ensures ItemUnder(a + b, tag) == if ItemUnder(a, tag).Some? then ItemUnder(a, tag) else ItemUnder(b, tag)
  {
    if a == [] {
      assert a + b == b;
    } else {
      assert (a + b)[0] == a[0] && (a + b)[1..] == a[1..] + b;
      UnderConcat(a[1..], b, tag);
    }
  }

  lemma NoneUnder(items: seq<Item>, tags: seq<Tag>, tag: Tag)
    requires TagsWithin(items, tags) && tag !in tags
    ensures ItemUnder(items, tag) == None
  {
  }

  /** Under the tag of a member stands what its input wrote last, if it wrote anything. */
  lemma {:induction false} MemberUnder(inputs: seq<Input>, taken: seq<Member>, m: nat)
    requires |inputs| == |taken| && m < |taken| && NoDuplicates(AllWrittenTags(taken))
    ensures ItemUnder(MemberItems(inputs, taken), taken[m].Tag()) == LastOf(InputItems(inputs[m], taken[m]))
    decreases m
  {
    var first, rest := InputItems(inputs[0], taken[0]), MemberItems(inputs[1..], taken[1..]);
    TagsApart(inputs, taken, m);
    UnderConcat(first, rest, taken[m].Tag());
    if m == 0 {
      OwnUnder(inputs[0], taken[0]);
      NoneUnder(rest, AllWrittenTags(taken[1..]), taken[0].Tag());
    } else {
      MemberUnder(inputs[1..], taken[1..], m - 1);
      assert taken[1..][m - 1] == taken[m] && inputs[1..][m - 1] == inputs[m];
      NoneUnder(first, WrittenTags(taken[0]), taken[m].Tag());
    }
  }

  function LastOf(items: seq<Item>): Option<Item> {
    if items == [] then None else Some(items[|items| - 1])
  }

  /** The first member's items and the others' stand under different tags. */
  lemma TagsApart(inputs: seq<Input>, taken: seq<Member>, m: nat)
    requires |inputs| == |taken| && m < |taken| && NoDuplicates(AllWrittenTags(taken))
    ensures TagsWithin(InputItems(inputs[0], taken[0]), WrittenTags(taken[0]))
    ensures TagsWithin(MemberItems(inputs[1..], taken[1..]), AllWrittenTags(taken[1..]))
    ensures NoDuplicates(WrittenTags(taken[0])) && NoDuplicates(AllWrittenTags(taken[1..]))
    ensures m == 0 ==> taken[m].Tag() !in AllWrittenTags(taken[1..])
    ensures m > 0 ==> taken[m].Tag() !in WrittenTags(taken[0])
  {
    SplitTags(WrittenTags(taken[0]), AllWrittenTags(taken[1..]));
    InputTags(inputs[0], taken[0]);
    MemberTags(inputs[1..], taken[1..]);
    TagIsWritten(taken[m]);
    if m > 0 {
      assert taken[1..][m - 1] == taken[m];
      WrittenMember(taken[1..], taken[m]);
    }
  }

  lemma TagIsWritten(member: Member)
    ensures member.Tag() in WrittenTags(member)
  {
  }

  lemma OwnUnder(input: Input, member: Member)
    requires NoDuplicates(WrittenTags(member))
    ensures ItemUnder(InputItems(input, member), member.Tag()) == LastOf(InputItems(input, member))
  {
    var written, tags := InputItems(input, member), WrittenTags(member);
    if |written| == 2 {
      assert tags[0] != tags[1];
      assert written[1..] == [written[1]];
    }
  }

  lemma {:induction false} SplitToken(token: seq<Byte>)
    requires SPACE !in token
    ensures Split(token) == [token]
  {
    if token != [] {
      assert token[0] != SPACE && SPACE !in token[1..];
      SplitToken(token[1..]);
      assert [token[0]] + token[1..] == token;
    }
  }

  lemma {:induction false} SplitFirst(token: seq<Byte>, rest: seq<Byte>)
    requires SPACE !in token
    ensures Split(token + [SPACE] + rest) == [token] + Split(rest)
  {
    var text := token + [SPACE] + rest;
    if token == [] {
      assert text[0] == SPACE && text[1..] == rest;
    } else {
      assert token[0] != SPACE && SPACE !in token[1..];
      assert text[0] == token[0] && text[1..] == token[1..] + [SPACE] + rest;
      SplitFirst(token[1..], rest);
      assert [token[0]] + token[1..] == token;
      assert ([token[1..]] + Split(rest))[1..] == Split(rest);
    }
  }

  /** Tokens without spaces, joined, are split into the same tokens. */
  lemma {:induction false} SplitJoined(tokens: seq<seq<Byte>>)
    requires tokens != [] && forall i :: 0 <= i < |tokens| ==> SPACE !in tokens[i]
    ensures Split(Join(tokens)) == tokens
  {
    if |tokens| == 1 {
      SplitToken(tokens[0]);
      assert tokens == [tokens[0]];
    } else {
      assert forall i :: 0 <= i < |tokens[1..]| ==> tokens[1..][i] == tokens[i + 1];
      SplitFirst(tokens[0], Join(tokens[1..]));
      SplitJoined(tokens[1..]);
      assert [tokens[0]] + tokens[1..] == tokens;
    }
  }

  /** The writer's record is got again from the items it wrote. */
  lemma {:induction false} RecordIsRecovered(record: Record, level: Level, grammar: (Tag, seq<Byte>) -> bool)
    requires WfLevel(level) && Typed(record, level) && Check(record, level, grammar).None?
    ensures Recover(WrittenItems(record, level), level) == record
    decreases record, 2
  {
    var taken, items := WriterMembers(level.members), WrittenItems(record, level);
    forall m | 0 <= m < |taken| ensures RecoverMember(items, taken[m]) == record.inputs[m] {
      MemberUnder(record.inputs, taken, m);
      MemberIsChecked(record.inputs, taken, level, grammar, m);
      MemberIsRecovered(record.inputs[m], taken[m], level, items, grammar);
    }
    assert RecoverMembers(items, taken) == record.inputs;
  }

  lemma {:induction false} MemberIsChecked(inputs: seq<Input>, taken: seq<Member>, level: Level, grammar: (Tag, seq<Byte>) -> bool, m: nat)
    requires TypedInputs(inputs, taken) && CheckMembers(inputs, taken, level, grammar).None? && m < |taken|
    ensures TypedInput(inputs[m], taken[m]) && CheckMember(inputs[m], taken[m], level, grammar).None?
    decreases m
  {
    if m > 0 {
      MemberIsChecked(inputs[1..], taken[1..], level, grammar, m - 1);
    }
  }

  lemma {:induction false} MemberIsRecovered(input: Input, member: Member, level: Level, items: seq<Item>, grammar: (Tag, seq<Byte>) -> bool)
    requires WfLevel(level) && member in WriterMembers(level.members)
    requires TypedInput(input, member) && CheckMember(input, member, level, grammar).None?
    requires ItemUnder(items, member.Tag()) == LastOf(InputItems(input, member))
    ensures RecoverMember(items, member) == input
    decreases input, 1
  {
    match member
    case FieldM(field) =>
      if field.kind.Tokens? && input.tokens != [] {
        assert ValidValue(input, field, grammar);
        SplitJoined(input.tokens);
      }
    case GroupM(group) =>
      assert group in level.groups;
      RecordsAreRecovered(input.records, group, grammar);
  }

  lemma {:induction false} RecordsAreRecovered(records: seq<Record>, group: GroupMember, grammar: (Tag, seq<Byte>) -> bool)
    requires WfGroup(group) && TypedRecords(records, group.entry) && CheckRecords(records, group.entry, grammar).None?
    ensures RecoverEntries(WrittenEntries(records, group.entry), group.entry) == records
    decreases records, 3
  {
    if records != [] {
      assert Typed(records[0], group.entry) && Check(records[0], group.entry, grammar).None?;
      RecordIsRecovered(records[0], group.entry, grammar);
      RecordsAreRecovered(records[1..], group, grammar);
      var entries := [Entry(WrittenItems(records[0], group.entry))] + WrittenEntries(records[1..], group.entry);
      assert entries[1..] == WrittenEntries(records[1..], group.entry);
      assert [records[0]] + records[1..] == records;
    }
  }
}
