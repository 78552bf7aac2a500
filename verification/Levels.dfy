/** The levels the view generator builds: the members of a message body or of a group entry, in write order. */
module Levels {
  import opened Wire
  import opened GroupSpecs

  /** How a writer takes a field. */
  datatype Kind = Str | Bytes | Char | Bool | Int | UInt | DecimalNumber | Enum | Tokens

  /** Half of a LENGTH/DATA pair, naming the other half. */
  datatype Pair = Unpaired | LengthOf(data: Tag) | DataOf(length: Tag)

  /** `oneChar`: an enumeration or token list whose values must each be one printable ASCII character. */
  datatype FieldMember = FieldMember(tag: Tag, required: bool, kind: Kind, pair: Pair, oneChar: bool)

  datatype GroupMember = GroupMember(countTag: Tag, required: bool, delimiter: Tag, entry: Level)

  datatype Member = FieldM(field: FieldMember) | GroupM(group: GroupMember)
  {
    function Tag(): Tag {
      match this
      case FieldM(field) => field.tag
      case GroupM(group) => group.countTag
    }

    function SetRequired(): Member {
      match this
      case FieldM(field) => FieldM(field.(required := true))
      case GroupM(group) => GroupM(group.(required := true))
    }
  }

  /** Members in write order, the sorted tags the level accepts, and its groups sorted by count tag. */
  datatype Level = Level(members: seq<Member>, tags: seq<Tag>, groups: seq<GroupMember>)

  // ----- what a writer writes of a level -----

  /** The members a writer takes: all but the `Length` halves, which it derives. */
  function WriterMembers(members: seq<Member>): (taken: seq<Member>)
    ensures forall m :: m in taken ==> m in members && !IsLength(m)
    ensures forall m :: m in members && !IsLength(m) ==> m in taken
  {
    if members == [] then []
    else (if IsLength(members[0]) then [] else [members[0]]) + WriterMembers(members[1..])
  }

  /** The members a writer takes stand in the order of the level, each as often as there. */
  lemma {:induction false} WriterMembersConcat(a: seq<Member>, b: seq<Member>)
    ensures WriterMembers(a + b) == WriterMembers(a) + WriterMembers(b)
  {
    if a == [] {
      assert a + b == b;
    } else {
      assert (a + b)[0] == a[0] && (a + b)[1..] == a[1..] + b;
      WriterMembersConcat(a[1..], b);
      Regroup(if IsLength(a[0]) then [] else [a[0]], WriterMembers(a[1..]), WriterMembers(b));
    }
  }

  lemma WriterMembersSingle(m: Member)
    ensures WriterMembers([m]) == if IsLength(m) then [] else [m]
  {
    assert [m][1..] == [];
  }

  predicate IsLength(member: Member) {
    member.FieldM? && member.field.pair.LengthOf?
  }

  /** The tags a member is written under: a data field brings its length along, ahead of it. */
  function WrittenTags(member: Member): (tags: seq<Tag>)
    ensures tags != [] && tags[|tags| - 1] == member.Tag()
  {
    match member
    case FieldM(field) =>
      if field.kind.Bytes? && field.pair.DataOf? then [field.pair.length, field.tag] else [field.tag]
    case GroupM(group) => [group.countTag]
  }

  function AllWrittenTags(members: seq<Member>): seq<Tag> {
    if members == [] then [] else WrittenTags(members[0]) + AllWrittenTags(members[1..])
  }

  predicate NoDuplicates(tags: seq<Tag>) {
    forall i, j :: 0 <= i < j < |tags| ==> tags[i] != tags[j]
  }

  /** Whether a writer must be given this member. */
  predicate Mandatory(level: Level, member: Member) {
    match member
    case GroupM(group) => group.required
    case FieldM(field) =>
      field.required
      || (field.pair.DataOf?
          && exists i :: 0 <= i < |level.members| && level.members[i].FieldM?
                         && level.members[i].field.tag == field.pair.length && level.members[i].field.required)
  }

  function GroupTags(groups: seq<GroupMember>): (tags: seq<Tag>)
    ensures |tags| == |groups|
    ensures forall i :: 0 <= i < |groups| ==> tags[i] == groups[i].countTag
  {
    if groups == [] then [] else [groups[0].countTag] + GroupTags(groups[1..])
  }

  // ----- well-formed levels -----

  ghost predicate WfLevel(level: Level) {
    && NoDuplicates(AllWrittenTags(WriterMembers(level.members)))
    && AllIn(AllWrittenTags(WriterMembers(level.members)), level.tags)
    && Ascending(level.tags)
    && Ascending(GroupTags(level.groups))
    && (forall g :: g in level.groups <==> GroupM(g) in level.members)
    && forall i :: 0 <= i < |level.groups| ==> WfGroup(level.groups[i])
  }

  /** A group whose every written entry opens with the delimiter. */
  ghost predicate WfGroup(group: GroupMember) {
    && WfLevel(group.entry)
    && Opens(group.entry, group.delimiter)
  }

  /** The first thing a writer writes of the level is mandatory and starts with `tag`. */
  predicate Opens(level: Level, tag: Tag) {
    var taken := WriterMembers(level.members);
    taken != [] && WrittenTags(taken[0])[0] == tag && Mandatory(level, taken[0])
  }

  // ----- the static layout generated beside the writers -----

  function SpecOf(group: GroupMember): Spec {
    Spec(group.countTag, group.delimiter, group.entry.tags, SpecsOf(group.entry.groups))
  }

  function SpecsOf(groups: seq<GroupMember>): (specs: seq<Spec>)
    ensures |specs| == |groups|
    ensures forall i :: 0 <= i < |groups| ==> specs[i] == SpecOf(groups[i])
  {
    if groups == [] then [] else [SpecOf(groups[0])] + SpecsOf(groups[1..])
  }

  lemma SpecTags(groups: seq<GroupMember>)
    ensures CountTags(SpecsOf(groups)) == GroupTags(groups)
  {
  }

  /** Group members are written under their count tags. */
  lemma WrittenMember(members: seq<Member>, member: Member)
    requires member in members
    ensures forall i :: 0 <= i < |WrittenTags(member)| ==> WrittenTags(member)[i] in AllWrittenTags(members)
  {
    if member != members[0] {
      WrittenMember(members[1..], member);
    }
  }

  lemma AllInMember(tags: seq<Tag>, among: seq<Tag>, tag: Tag)
    requires AllIn(tags, among) && tag in tags
    ensures tag in among
  {
  }

  /** The generated tables pass the constructor's checks. */
  lemma {:induction false} SpecIsValid(group: GroupMember)
    requires WfGroup(group)
    ensures ValidSpec(SpecOf(group))
    decreases group
  {
    var level, taken := group.entry, WriterMembers(group.entry.members);
    assert WfLevel(level);
    WrittenMember(taken, taken[0]);
    AllInMember(AllWrittenTags(taken), level.tags, group.delimiter);
    SpecTags(level.groups);
    forall i | 0 <= i < |level.groups|
      ensures level.groups[i].countTag in level.tags && ValidSpec(SpecOf(level.groups[i]))
    {
      var member := GroupM(level.groups[i]);
      assert level.groups[i] in level.groups;
      assert member in taken;
      WrittenMember(taken, member);
      AllInMember(AllWrittenTags(taken), level.tags, WrittenTags(member)[0]);
      SpecIsValid(level.groups[i]);
    }
  }

  /** Of a well-formed level, exactly the group members are looked up as groups. */
  lemma LookupMember(level: Level, tag: Tag)
    requires WfLevel(level)
    ensures forall i :: 0 <= i < |level.groups| && level.groups[i].countTag == tag ==>
              Lookup(SpecsOf(level.groups), tag) == Some(SpecOf(level.groups[i]))
    ensures (forall i :: 0 <= i < |level.groups| ==> level.groups[i].countTag != tag) ==>
              Lookup(SpecsOf(level.groups), tag) == None
  {
    SpecTags(level.groups);
    forall i | 0 <= i < |level.groups| && level.groups[i].countTag == tag
      ensures Lookup(SpecsOf(level.groups), tag) == Some(SpecOf(level.groups[i]))
    {
      LookupIsUnique(SpecsOf(level.groups), i);
    }
  }
}
