/**
 The order of a view's members and the pairing of its data fields, stated on the references a definition
 expands to in document order, each field with the field listed right before it.
 */
module ViewOrder {
  import opened Wire
  import opened Schema
  import opened Layout
  import opened ViewLevels
  import opened ViewEntries
  import Levels

  /** A reference met in document order. */
  datatype Ref = FieldAt(tag: Tag, before: Option<Tag>) | GroupAt(countTag: Tag, at: Address)

  /** The field listed right before a member in its own definition, if a field is. */
  function Before(ms: seq<Member>, i: nat): Option<Tag>
    requires i <= |ms|
  {
    if 0 < i && ms[i - 1].FieldRef? then Some(ms[i - 1].tag) else None
  }

  /** The references from member `i` on, each component in its place unless it is being expanded. */
  function Refs(d: Dictionary, part: Part, path: set<Name>, i: nat): seq<Ref>
    requires i <= |part.members|
    decreases Unvisited(d, path), 1, |part.members| - i
  {
    if i == |part.members| then [] else StepRefs(d, part, path, i) + Refs(d, part, path, i + 1)
  }

  function StepRefs(d: Dictionary, part: Part, path: set<Name>, i: nat): seq<Ref>
    requires i < |part.members|
    decreases Unvisited(d, path), 0, 0
  {
    match part.members[i]
    case FieldRef(tag, _) => [FieldAt(tag, Before(part.members, i))]
    case GroupRef(def) => [GroupAt(def.countTag, Address(part.at.owner, part.at.path + [i]))]
    case ComponentRef(name, _) =>
      if name in d.components && name !in path then
        EnteringShrinks(d, name, path);
        Refs(d, Part(Address(Component(name), []), d.components[name]), path + {name}, 0)
      else []
  }

  // ----- what the references say of a member -----

  predicate Meets(r: Ref, m: ViewMember, chosen: map<Tag, Address>) {
    match m
    case FieldM(field) => r.FieldAt? && r.tag == field.tag
    case GroupM(ct, _, _) => r.GroupAt? && r.countTag == ct && ct in chosen && r.at == chosen[ct]
  }

  /** Where the member is first referred to; behind all references when it is not. */
  function Place(refs: seq<Ref>, m: ViewMember, chosen: map<Tag, Address>): (place: nat)
    ensures place <= |refs| && (place < |refs| ==> Meets(refs[place], m, chosen))
  {
    if refs == [] then 0 else if Meets(refs[0], m, chosen) then 0 else 1 + Place(refs[1..], m, chosen)
  }

  predicate HasField(refs: seq<Ref>, tag: Tag) {
    exists k :: 0 <= k < |refs| && refs[k].FieldAt? && refs[k].tag == tag
  }

  predicate IsData(d: Dictionary, tag: Tag) {
    tag in d.fields && d.fields[tag].kind == Levels.Bytes
  }

  /** The first reference to the field. */
  function FirstField(refs: seq<Ref>, tag: Tag): Option<Ref> {
    if refs == [] then None else if refs[0].FieldAt? && refs[0].tag == tag then Some(refs[0]) else FirstField(refs[1..], tag)
  }

  /** The first data field listed right behind the field. */
  function FirstBehind(d: Dictionary, refs: seq<Ref>, tag: Tag): Option<Tag> {
    if refs == [] then None
    else if refs[0].FieldAt? && refs[0].before == Some(tag) && IsData(d, refs[0].tag) then Some(refs[0].tag)
    else FirstBehind(d, refs[1..], tag)
  }

  /** A data field is framed by what is listed before it where it is met first, a length by the first data behind it. */
  function PairOf(d: Dictionary, refs: seq<Ref>, tag: Tag): Levels.Pair {
    if IsData(d, tag) then
      match FirstField(refs, tag)
      case Some(FieldAt(_, Some(length))) => Levels.DataOf(length)
      case _ => Levels.Unpaired
    else
      match FirstBehind(d, refs, tag)
      case Some(data) => Levels.LengthOf(data)
      case None => Levels.Unpaired
  }

  ghost predicate InOrder(refs: seq<Ref>, members: seq<ViewMember>, chosen: map<Tag, Address>) {
    && (forall i :: 0 <= i < |members| ==> Place(refs, members[i], chosen) < |refs|)
    && forall i, j :: 0 <= i < j < |members| ==> Place(refs, members[i], chosen) < Place(refs, members[j], chosen)
  }

  ghost predicate Paired(d: Dictionary, refs: seq<Ref>, members: seq<ViewMember>) {
    forall i :: 0 <= i < |members| && members[i].FieldM? ==> members[i].field.pair == PairOf(d, refs, members[i].field.tag)
  }

  /** Every data field is listed behind a field of type `Length`. */
  ghost predicate Framed(d: Dictionary, refs: seq<Ref>) {
    forall k :: 0 <= k < |refs| && refs[k].FieldAt? && IsData(d, refs[k].tag) ==>
      && refs[k].before.Some? && refs[k].before.value in d.fields && d.fields[refs[k].before.value].isLength
      && HasField(refs, refs[k].before.value)
  }

  /** The members of a level stand in the order they are first referred to, and are paired as listed. */
  ghost predicate LaidOut(d: Dictionary, part: Part, path: set<Name>, members: seq<ViewMember>) {
    var refs := Refs(d, part, path, 0);
    && Framed(d, refs) && Paired(d, refs, members)
    && exists chosen :: Picks(chosen, LayoutItems(d, part, true, path)) && InOrder(refs, members, chosen)
  }

  // ----- one more reference -----

  /** The fields and the groups a level holds are those referred to so far. */
  ghost predicate Keyed(refs: seq<Ref>, fields: map<Tag, nat>, groupTags: set<Tag>, chosen: map<Tag, Address>) {
    && (forall t :: t in fields <==> HasField(refs, t))
    && forall ct :: ct in groupTags <==> ct in chosen && GroupAt(ct, chosen[ct]) in refs
  }

  /** Every field member is recorded where it stands. */
  ghost predicate Positions(members: seq<ViewMember>, fields: map<Tag, nat>) {
    forall i :: 0 <= i < |members| && members[i].FieldM? ==> members[i].field.tag in fields && fields[members[i].field.tag] == i
  }

  /** What a level under construction holds of the references met so far. */
  ghost predicate Laid(d: Dictionary, refs: seq<Ref>, members: seq<ViewMember>, fields: map<Tag, nat>, groupTags: set<Tag>,
                       chosen: map<Tag, Address>)
  {
    && InPlace(members, fields) && Positions(members, fields) && Keyed(refs, fields, groupTags, chosen)
    && Framed(d, refs) && InOrder(refs, members, chosen) && Paired(d, refs, members)
  }

  lemma NothingLaid(d: Dictionary, chosen: map<Tag, Address>)
    ensures Laid(d, [], [], map[], {}, chosen)
  {
  }

  lemma {:induction false} PlaceNext(refs: seq<Ref>, r: Ref, m: ViewMember, chosen: map<Tag, Address>)
    ensures Place(refs + [r], m, chosen)
            == if Place(refs, m, chosen) < |refs| then Place(refs, m, chosen)
               else if Meets(r, m, chosen) then |refs| else |refs| + 1
  {
    if refs == [] {
      assert [] + [r] == [r] && [r][1..] == [];
    } else {
      assert (refs + [r])[0] == refs[0] && (refs + [r])[1..] == refs[1..] + [r];
      PlaceNext(refs[1..], r, m, chosen);
    }
  }

  lemma {:induction false} FirstFieldNext(refs: seq<Ref>, r: Ref, tag: Tag)
    ensures FirstField(refs + [r], tag)
            == if FirstField(refs, tag).Some? then FirstField(refs, tag)
               else if r.FieldAt? && r.tag == tag then Some(r) else None
    ensures FirstField(refs, tag).Some? <==> HasField(refs, tag)
    ensures FirstField(refs, tag).Some? ==> FirstField(refs, tag).value in refs
  {
    if refs == [] {
      assert [] + [r] == [r] && [r][1..] == [];
    } else {
      assert (refs + [r])[0] == refs[0] && (refs + [r])[1..] == refs[1..] + [r];
      FirstFieldNext(refs[1..], r, tag);
      HasFieldSplit(refs, tag);
    }
  }

  lemma HasFieldSplit(refs: seq<Ref>, tag: Tag)
    requires refs != []
    ensures HasField(refs, tag) <==> (refs[0].FieldAt? && refs[0].tag == tag) || HasField(refs[1..], tag)
  {
    if HasField(refs[1..], tag) {
      var k :| 0 <= k < |refs[1..]| && refs[1..][k].FieldAt? && refs[1..][k].tag == tag;
      assert refs[k + 1].tag == tag;
    }
    if HasField(refs, tag) {
      var k :| 0 <= k < |refs| && refs[k].FieldAt? && refs[k].tag == tag;
      assert k > 0 ==> refs[1..][k - 1] == refs[k];
    }
  }

  lemma HasFieldNext(refs: seq<Ref>, r: Ref, tag: Tag)
    ensures HasField(refs + [r], tag) <==> HasField(refs, tag) || (r.FieldAt? && r.tag == tag)
  {
    if HasField(refs, tag) {
      var k :| 0 <= k < |refs| && refs[k].FieldAt? && refs[k].tag == tag;
      assert (refs + [r])[k].tag == tag;
    }
    if r.FieldAt? && r.tag == tag {
      assert (refs + [r])[|refs|].tag == tag;
    }
  }

  lemma {:induction false} FirstBehindNext(d: Dictionary, refs: seq<Ref>, r: Ref, tag: Tag)
    ensures FirstBehind(d, refs + [r], tag)
            == if FirstBehind(d, refs, tag).Some? then FirstBehind(d, refs, tag)
               else if r.FieldAt? && r.before == Some(tag) && IsData(d, r.tag) then Some(r.tag) else None
    ensures FirstBehind(d, refs, tag).Some? && Framed(d, refs) ==> HasField(refs, tag)
  {
    if refs == [] {
      assert [] + [r] == [r] && [r][1..] == [];
    } else {
      assert (refs + [r])[0] == refs[0] && (refs + [r])[1..] == refs[1..] + [r];
      FirstBehindNext(d, refs[1..], r, tag);
      BehindIsListed(d, refs, tag);
    }
  }

  lemma BehindIsListed(d: Dictionary, refs: seq<Ref>, tag: Tag)
    ensures FirstBehind(d, refs, tag).Some? ==>
              exists k :: 0 <= k < |refs| && refs[k].FieldAt? && refs[k].before == Some(tag) && IsData(d, refs[k].tag)
  {
    if refs != [] && FirstBehind(d, refs, tag).Some? {
      if !(refs[0].FieldAt? && refs[0].before == Some(tag) && IsData(d, refs[0].tag)) {
        BehindIsListed(d, refs[1..], tag);
        var k :| 0 <= k < |refs[1..]| && refs[1..][k].FieldAt? && refs[1..][k].before == Some(tag) && IsData(d, refs[1..][k].tag);
        assert refs[k + 1].before == Some(tag);
      }
    }
  }

  lemma FramedNext(d: Dictionary, refs: seq<Ref>, r: Ref)
    requires Framed(d, refs)
    requires r.FieldAt? && IsData(d, r.tag) ==>
               r.before.Some? && r.before.value in d.fields && d.fields[r.before.value].isLength && HasField(refs, r.before.value)
    ensures Framed(d, refs + [r])
  {
    var all := refs + [r];
    forall k | 0 <= k < |all| && all[k].FieldAt? && IsData(d, all[k].tag)
      ensures all[k].before.Some? && all[k].before.value in d.fields && d.fields[all[k].before.value].isLength
      ensures HasField(all, all[k].before.value)
    {
      assert k < |refs| ==> all[k] == refs[k];
      HasFieldNext(refs, r, all[k].before.value);
    }
  }

  /** Members that were there keep their places; one added stands last. */
  lemma OrderNext(refs: seq<Ref>, r: Ref, members: seq<ViewMember>, after: seq<ViewMember>, chosen: map<Tag, Address>)
    requires InOrder(refs, members, chosen)
    requires |members| <= |after| <= |members| + 1
    requires forall i :: 0 <= i < |members| ==> SamePlace(members[i], after[i])
    requires |after| > |members| ==> Meets(r, after[|members|], chosen) && Place(refs, after[|members|], chosen) == |refs|
    ensures InOrder(refs + [r], after, chosen)
  {
    forall i | 0 <= i < |after| ensures Place(refs + [r], after[i], chosen) == if i < |members| then Place(refs, members[i], chosen) else |refs| {
      PlaceNext(refs, r, after[i], chosen);
      if i < |members| {
        PlaceIsSame(refs, members[i], after[i], chosen);
      }
    }
  }

  predicate SamePlace(a: ViewMember, b: ViewMember) {
    a.FieldM? == b.FieldM? && a.Tag() == b.Tag()
  }

  lemma PlaceIsSame(refs: seq<Ref>, a: ViewMember, b: ViewMember, chosen: map<Tag, Address>)
    requires SamePlace(a, b)
    ensures Place(refs, a, chosen) == Place(refs, b, chosen)
  {
    if refs != [] {
      PlaceIsSame(refs[1..], a, b, chosen);
    }
  }

  // ----- a level under construction takes one more reference -----

  /** The field is joined into its member, or added as the last one. */
  ghost predicate Added(before: seq<ViewMember>, known: map<Tag, nat>, after: seq<ViewMember>, fields: map<Tag, nat>,
                        member: Levels.FieldMember)
    requires InPlace(before, known)
  {
    if member.tag in known then
      fields == known && after == before[known[member.tag] := FieldM(Merged(before[known[member.tag]].field, member))]
    else fields == known[member.tag := |before|] && after == before + [FieldM(member)]
  }

  /** How a reference changes what a field is paired with. */
  lemma PairNext(d: Dictionary, refs: seq<Ref>, r: Ref, tag: Tag)
    requires Framed(d, refs)
    ensures HasField(refs, tag) && IsData(d, tag) ==> PairOf(d, refs + [r], tag) == PairOf(d, refs, tag)
    ensures HasField(refs, tag) && IsData(d, tag) ==> PairOf(d, refs, tag).DataOf?
    ensures !HasField(refs, tag) ==> PairOf(d, refs, tag) == Levels.Unpaired
    ensures !HasField(refs, tag) && r.FieldAt? && r.tag == tag && IsData(d, tag) ==>
              PairOf(d, refs + [r], tag) == match r.before case Some(length) => Levels.DataOf(length) case None => Levels.Unpaired
    ensures !IsData(d, tag) ==>
              PairOf(d, refs + [r], tag)
              == if PairOf(d, refs, tag).Unpaired? && r.FieldAt? && r.before == Some(tag) && IsData(d, r.tag) then Levels.LengthOf(r.tag)
                 else PairOf(d, refs, tag)
  {
    FirstFieldNext(refs, r, tag);
    FirstBehindNext(d, refs, r, tag);
    if HasField(refs, tag) {
      FirstFieldIs(refs, tag);
    }
  }

  lemma FirstFieldIs(refs: seq<Ref>, tag: Tag)
    requires HasField(refs, tag)
    ensures FirstField(refs, tag).Some? && FirstField(refs, tag).value.FieldAt? && FirstField(refs, tag).value.tag == tag
    ensures FirstField(refs, tag).value in refs
  {
    HasFieldSplit(refs, tag);
    if !(refs[0].FieldAt? && refs[0].tag == tag) {
      FirstFieldIs(refs[1..], tag);
    }
  }

  /** A member of a field not referred to yet has no place. */
  lemma NoPlace(refs: seq<Ref>, m: ViewMember, chosen: map<Tag, Address>)
    requires m.FieldM? ==> !HasField(refs, m.field.tag)
    requires m.GroupM? && m.countTag in chosen ==> GroupAt(m.countTag, chosen[m.countTag]) !in refs
    ensures Place(refs, m, chosen) == |refs|
  {
  }

  /** The member at `i` once a field has been added. */
  function AddedAt(before: seq<ViewMember>, known: map<Tag, nat>, member: Levels.FieldMember, i: nat): ViewMember
    requires InPlace(before, known)
  {
    if i >= |before| then FieldM(member)
    else if member.tag in known && known[member.tag] == i then FieldM(Merged(before[i].field, member))
    else before[i]
  }

  lemma AddedIsAt(before: seq<ViewMember>, known: map<Tag, nat>, after: seq<ViewMember>, fields: map<Tag, nat>, member: Levels.FieldMember)
    requires InPlace(before, known) && Added(before, known, after, fields, member)
    ensures |after| == if member.tag in known then |before| else |before| + 1
    ensures forall i :: 0 <= i < |after| ==> after[i] == AddedAt(before, known, member, i)
  {
  }

  lemma AddedKeepsOrder(refs: seq<Ref>, r: Ref, before: seq<ViewMember>, known: map<Tag, nat>, after: seq<ViewMember>,
                        fields: map<Tag, nat>, chosen: map<Tag, Address>, member: Levels.FieldMember)
    requires InOrder(refs, before, chosen) && InPlace(before, known) && Added(before, known, after, fields, member)
    requires r.FieldAt? && r.tag == member.tag && (member.tag !in known ==> !HasField(refs, member.tag))
    ensures InOrder(refs + [r], after, chosen)
  {
    AddedIsAt(before, known, after, fields, member);
    if member.tag !in known {
      NoPlace(refs, FieldM(member), chosen);
    }
    OrderNext(refs, r, before, after, chosen);
  }

  lemma AddedKeepsPositions(before: seq<ViewMember>, known: map<Tag, nat>, after: seq<ViewMember>, fields: map<Tag, nat>,
                            member: Levels.FieldMember)
    requires InPlace(before, known) && Positions(before, known) && Added(before, known, after, fields, member)
    ensures Positions(after, fields)
  {
    AddedIsAt(before, known, after, fields, member);
  }

  /** A field that is not data pairs no field, and is paired as it was. */
  lemma PlainPairs(d: Dictionary, refs: seq<Ref>, before: seq<ViewMember>, known: map<Tag, nat>, after: seq<ViewMember>,
                   fields: map<Tag, nat>, member: Levels.FieldMember, previous: Option<Tag>)
    requires Framed(d, refs) && Paired(d, refs, before) && InPlace(before, known) && Positions(before, known)
    requires Added(before, known, after, fields, member) && !IsData(d, member.tag) && member.pair.Unpaired?
    requires forall t :: t in known <==> HasField(refs, t)
    ensures Paired(d, refs + [FieldAt(member.tag, previous)], after)
  {
    var r := FieldAt(member.tag, previous);
    AddedIsAt(before, known, after, fields, member);
    forall i | 0 <= i < |after| && after[i].FieldM? ensures after[i].field.pair == PairOf(d, refs + [r], after[i].field.tag) {
      assert after[i] == AddedAt(before, known, member, i);
      PairNext(d, refs, r, after[i].field.tag);
    }
  }

  lemma LaidField(d: Dictionary, refs: seq<Ref>, members: seq<ViewMember>, fields: map<Tag, nat>, groupTags: set<Tag>,
                  chosen: map<Tag, Address>, after: seq<ViewMember>, placed: map<Tag, nat>, member: Levels.FieldMember, previous: Option<Tag>)
    requires Laid(d, refs, members, fields, groupTags, chosen) && InPlace(after, placed)
    requires !IsData(d, member.tag) && member.pair.Unpaired? && Added(members, fields, after, placed, member)
    ensures Laid(d, refs + [FieldAt(member.tag, previous)], after, placed, groupTags, chosen)
  {
    var r := FieldAt(member.tag, previous);
    FramedNext(d, refs, r);
    KeysNext(refs, r, fields, placed, groupTags, chosen, member.tag);
    AddedKeepsPositions(members, fields, after, placed, member);
    AddedKeepsOrder(refs, r, members, fields, after, placed, chosen, member);
    PlainPairs(d, refs, members, fields, after, placed, member, previous);
  }

  /** What is known of the references, once one to a field is added. */
  lemma KeysNext(refs: seq<Ref>, r: Ref, fields: map<Tag, nat>, placed: map<Tag, nat>, groupTags: set<Tag>, chosen: map<Tag, Address>, tag: Tag)
    requires r.FieldAt? && r.tag == tag && placed.Keys == fields.Keys + {tag}
    requires Keyed(refs, fields, groupTags, chosen)
    ensures Keyed(refs + [r], placed, groupTags, chosen)
  {
    forall t ensures t in placed <==> HasField(refs + [r], t) {
      HasFieldNext(refs, r, t);
    }
  }

  /** The length, when it has no pair yet, becomes that of the data. */
  function LengthPaired(members: seq<ViewMember>, fields: map<Tag, nat>, length: Tag, data: Tag): seq<ViewMember>
    requires InPlace(members, fields)
  {
    if length in fields && members[fields[length]].field.pair.Unpaired? then
      members[fields[length] := FieldM(members[fields[length]].field.(pair := Levels.LengthOf(data)))]
    else members
  }

  /** Pairing the length is what the reference to the data, listed behind it, says. */
  lemma LengthPairs(d: Dictionary, refs: seq<Ref>, members: seq<ViewMember>, fields: map<Tag, nat>, data: Tag, length: Tag, i: nat)
    requires Framed(d, refs) && Paired(d, refs, members) && InPlace(members, fields) && Positions(members, fields)
    requires forall t :: t in fields <==> HasField(refs, t)
    requires IsData(d, data) && i < |members| && members[i].FieldM?
    ensures LengthPaired(members, fields, length, data)[i].FieldM?
    ensures var field := LengthPaired(members, fields, length, data)[i].field;
            && field.tag == members[i].field.tag
            && field.pair == PairOf(d, refs + [FieldAt(data, Some(length))], field.tag)
  {
    PairNext(d, refs, FieldAt(data, Some(length)), members[i].field.tag);
  }

  lemma DataPairs(d: Dictionary, refs: seq<Ref>, members: seq<ViewMember>, fields: map<Tag, nat>, mid: seq<ViewMember>,
                  after: seq<ViewMember>, placed: map<Tag, nat>, member: Levels.FieldMember, length: Tag)
    requires Framed(d, refs) && Paired(d, refs, members) && InPlace(members, fields) && Positions(members, fields)
    requires forall t :: t in fields <==> HasField(refs, t)
    requires IsData(d, member.tag) && member.pair == Levels.DataOf(length)
    requires mid == LengthPaired(members, fields, length, member.tag) && InPlace(mid, fields) && Added(mid, fields, after, placed, member)
    ensures Paired(d, refs + [FieldAt(member.tag, Some(length))], after)
  {
    var r := FieldAt(member.tag, Some(length));
    AddedIsAt(mid, fields, after, placed, member);
    forall i | 0 <= i < |after| && after[i].FieldM? ensures after[i].field.pair == PairOf(d, refs + [r], after[i].field.tag) {
      assert after[i] == AddedAt(mid, fields, member, i);
      PairNext(d, refs, r, member.tag);
      if i < |members| {
        LengthPairs(d, refs, members, fields, member.tag, length, i);
      }
    }
  }

  lemma LaidData(d: Dictionary, refs: seq<Ref>, members: seq<ViewMember>, fields: map<Tag, nat>, groupTags: set<Tag>,
                 chosen: map<Tag, Address>, mid: seq<ViewMember>, after: seq<ViewMember>, placed: map<Tag, nat>,
                 member: Levels.FieldMember, length: Tag)
    requires Laid(d, refs, members, fields, groupTags, chosen) && InPlace(after, placed)
    requires IsData(d, member.tag) && member.pair == Levels.DataOf(length)
    requires length in d.fields && d.fields[length].isLength && length in fields
    requires mid == LengthPaired(members, fields, length, member.tag) && InPlace(mid, fields) && Added(mid, fields, after, placed, member)
    ensures Laid(d, refs + [FieldAt(member.tag, Some(length))], after, placed, groupTags, chosen)
  {
    var r := FieldAt(member.tag, Some(length));
    FramedNext(d, refs, r);
    KeysNext(refs, r, fields, placed, groupTags, chosen, member.tag);
    PairingKeepsOrder(refs, members, fields, chosen, length, member.tag);
    AddedKeepsPositions(mid, fields, after, placed, member);
    AddedKeepsOrder(refs, r, mid, fields, after, placed, chosen, member);
    DataPairs(d, refs, members, fields, mid, after, placed, member, length);
  }

  /** Pairing a length moves no member. */
  lemma PairingKeepsOrder(refs: seq<Ref>, members: seq<ViewMember>, fields: map<Tag, nat>, chosen: map<Tag, Address>, length: Tag, data: Tag)
    requires InOrder(refs, members, chosen) && InPlace(members, fields) && Positions(members, fields)
    ensures var mid := LengthPaired(members, fields, length, data); InOrder(refs, mid, chosen) && Positions(mid, fields)
  {
    var mid := LengthPaired(members, fields, length, data);
    forall i | 0 <= i < |members| ensures Place(refs, mid[i], chosen) == Place(refs, members[i], chosen) {
      PlaceIsSame(refs, members[i], mid[i], chosen);
    }
  }

  lemma LaidGroup(d: Dictionary, refs: seq<Ref>, members: seq<ViewMember>, fields: map<Tag, nat>, groupTags: set<Tag>,
                  chosen: map<Tag, Address>, group: ViewMember)
    requires Laid(d, refs, members, fields, groupTags, chosen) && group.GroupM?
    requires group.countTag in chosen && group.countTag !in groupTags
    ensures Laid(d, refs + [GroupAt(group.countTag, chosen[group.countTag])], members + [group], fields, groupTags + {group.countTag}, chosen)
  {
    var r, after := GroupAt(group.countTag, chosen[group.countTag]), members + [group];
    GroupKeys(d, refs, r, fields);
    NoPlace(refs, group, chosen);
    OrderNext(refs, r, members, after, chosen);
    forall i | 0 <= i < |after| && after[i].FieldM?
      ensures after[i].field.pair == PairOf(d, refs + [r], after[i].field.tag) && after[i] == members[i]
    {
      assert after[i] == members[i];
    }
  }

  lemma LaidPass(d: Dictionary, refs: seq<Ref>, members: seq<ViewMember>, fields: map<Tag, nat>, groupTags: set<Tag>,
                 chosen: map<Tag, Address>, ct: Tag, at: Address)
    requires Laid(d, refs, members, fields, groupTags, chosen)
    requires ct in groupTags || ct !in chosen || chosen[ct] != at
    ensures Laid(d, refs + [GroupAt(ct, at)], members, fields, groupTags, chosen)
  {
    GroupKeys(d, refs, GroupAt(ct, at), fields);
    OrderNext(refs, GroupAt(ct, at), members, members, chosen);
  }

  /** A reference to a group tells nothing new of the fields. */
  lemma GroupKeys(d: Dictionary, refs: seq<Ref>, r: Ref, fields: map<Tag, nat>)
    requires r.GroupAt? && Framed(d, refs) && forall t :: t in fields <==> HasField(refs, t)
    ensures Framed(d, refs + [r]) && forall t :: t in fields <==> HasField(refs + [r], t)
    ensures forall t :: PairOf(d, refs + [r], t) == PairOf(d, refs, t)
  {
    FramedNext(d, refs, r);
    forall t ensures t in fields <==> HasField(refs + [r], t)
    ensures PairOf(d, refs + [r], t) == PairOf(d, refs, t)
    {
      HasFieldNext(refs, r, t);
      FirstFieldNext(refs, r, t);
      FirstBehindNext(d, refs, r, t);
    }
  }

  lemma {:induction false} RefsFrom(d: Dictionary, part: Part, path: set<Name>, i: nat, before: seq<Ref>)
    requires i < |part.members|
    ensures before + StepRefs(d, part, path, i) + Refs(d, part, path, i + 1) == before + Refs(d, part, path, i)
  {
    Regroup(before, StepRefs(d, part, path, i), Refs(d, part, path, i + 1));
  }

  /** Every field referred to is contributed. */
  lemma {:induction false} ReferredIsItem(d: Dictionary, part: Part, required: bool, path: set<Name>, i: nat, t: Tag)
    requires i <= |part.members| && HasField(Refs(d, part, path, i), t)
    ensures t in FieldTags(ViewItems(d, part, required, path, i))
    decreases Unvisited(d, path), 1, |part.members| - i
  {
    var first, rest := StepRefs(d, part, path, i), Refs(d, part, path, i + 1);
    var refs: seq<Ref> := first + rest;
    var k :| 0 <= k < |refs| && refs[k].FieldAt? && refs[k].tag == t;
    FieldTagsConcat(StepItems(d, part, required, path, i), ViewItems(d, part, required, path, i + 1));
    if k < |first| {
      assert first[k].tag == t;
      StepIsItem(d, part, required, path, i, t);
    } else {
      assert rest[k - |first|].tag == t;
      ReferredIsItem(d, part, required, path, i + 1, t);
    }
  }

  lemma {:induction false} StepIsItem(d: Dictionary, part: Part, required: bool, path: set<Name>, i: nat, t: Tag)
    requires i < |part.members| && HasField(StepRefs(d, part, path, i), t)
    ensures t in FieldTags(StepItems(d, part, required, path, i))
    decreases Unvisited(d, path), 0, 0
  {
    if part.members[i].ComponentRef? {
      var name := part.members[i].name;
      EnteringShrinks(d, name, path);
      ReferredIsItem(d, ComponentPart(d, name), required && part.members[i].required, path + {name}, 0, t);
    }
  }

  lemma ReferredAreThere(d: Dictionary, part: Part, path: set<Name>, members: seq<ViewMember>)
    requires FieldsMatch(members, LayoutItems(d, part, true, path))
    ensures forall t :: HasField(Refs(d, part, path, 0), t) ==> HasTag(members, t)
  {
    forall t | HasField(Refs(d, part, path, 0), t) ensures HasTag(members, t) {
      ReferredIsItem(d, part, true, path, 0, t);
      SameContributions(d, part, true, path, t);
    }
  }

  // ----- a finished level -----

  lemma InOrderBefore(refs: seq<Ref>, all: seq<ViewMember>, rest: seq<ViewMember>, chosen: map<Tag, Address>)
    requires InOrder(refs, rest, chosen) && all != [] && all[1..] == rest && Place(refs, all[0], chosen) < |refs|
    requires forall x :: x in rest ==> Place(refs, all[0], chosen) < Place(refs, x, chosen)
    ensures InOrder(refs, all, chosen)
  {
    forall i | 0 < i < |all| ensures Place(refs, all[0], chosen) < Place(refs, all[i], chosen) < |refs| {
      assert all[i] == rest[i - 1] && rest[i - 1] in rest;
    }
    forall i, j | 0 < i < j < |all| ensures Place(refs, all[i], chosen) < Place(refs, all[j], chosen) {
      assert all[i] == rest[i - 1] && all[j] == rest[j - 1];
    }
  }

  lemma InOrderBehind(refs: seq<Ref>, members: seq<ViewMember>, chosen: map<Tag, Address>)
    requires InOrder(refs, members, chosen) && members != []
    ensures InOrder(refs, members[1..], chosen) && Place(refs, members[0], chosen) < |refs|
    ensures forall x :: x in members[1..] ==> Place(refs, members[0], chosen) < Place(refs, x, chosen)
  {
  }

  /** Dropping members keeps the order of the others. */
  lemma {:induction false} KeptInOrder(refs: seq<Ref>, members: seq<ViewMember>, groupTags: set<Tag>, chosen: map<Tag, Address>)
    requires InOrder(refs, members, chosen)
    ensures InOrder(refs, Unsuperseded(members, groupTags), chosen)
  {
    if members != [] {
      InOrderBehind(refs, members, chosen);
      KeptInOrder(refs, members[1..], groupTags, chosen);
      if !(members[0].FieldM? && members[0].field.tag in groupTags) {
        InOrderBefore(refs, Unsuperseded(members, groupTags), Unsuperseded(members[1..], groupTags), chosen);
      }
    }
  }

  lemma {:induction false} RestInOrder(refs: seq<Ref>, members: seq<ViewMember>, tag: Tag, chosen: map<Tag, Address>)
    requires InOrder(refs, members, chosen)
    ensures InOrder(refs, Without(members, tag), chosen)
  {
    if members != [] {
      InOrderBehind(refs, members, chosen);
      RestInOrder(refs, members[1..], tag, chosen);
      if members[0].Tag() != tag {
        InOrderBefore(refs, Without(members, tag), Without(members[1..], tag), chosen);
      }
    }
  }

  /** Members of a paired list, some made required, are paired. */
  lemma StillPaired(d: Dictionary, refs: seq<Ref>, members: seq<ViewMember>, after: seq<ViewMember>)
    requires Paired(d, refs, members)
    requires forall m :: m in after ==> m in members || exists b :: b in members && m == b.SetRequired()
    ensures Paired(d, refs, after)
  {
    forall i | 0 <= i < |after| && after[i].FieldM? ensures after[i].field.pair == PairOf(d, refs, after[i].field.tag) {
      assert after[i] in after;
      var m := after[i];
      if m !in members {
        m :| m in members && after[i] == m.SetRequired();
      }
      var k :| 0 <= k < |members| && members[k] == m;
    }
  }

  lemma LevelIsLaidOut(d: Dictionary, part: Part, path: set<Name>, members: seq<ViewMember>, fields: map<Tag, nat>, groupTags: set<Tag>,
                       chosen: map<Tag, Address>)
    requires Laid(d, Refs(d, part, path, 0), members, fields, groupTags, chosen)
    requires Picks(chosen, LayoutItems(d, part, true, path))
    ensures LaidOut(d, part, path, Unsuperseded(members, groupTags))
  {
    var refs := Refs(d, part, path, 0);
    KeptInOrder(refs, members, groupTags, chosen);
    StillPaired(d, refs, members, Unsuperseded(members, groupTags));
  }

  // ----- a finished entry -----

  /** The members behind the delimiter and, when it is a length, its data. */
  function Behind(members: seq<ViewMember>): seq<ViewMember>
    requires members != []
  {
    if |members| > 1 && PairedData(members[0]) == Some(members[1].Tag()) then members[2..] else members[1..]
  }

  /** An entry is laid out as its definition is, but for the delimiter and its data, which lead it. */
  ghost predicate EntryLaidOut(d: Dictionary, part: Part, path: set<Name>, members: seq<ViewMember>)
    requires members != []
  {
    var refs := Refs(d, part, path, 0);
    && Framed(d, refs) && Paired(d, refs, members)
    && exists chosen :: Picks(chosen, LayoutItems(d, part, true, path)) && InOrder(refs, Behind(members), chosen)
  }

  lemma BehindIs(opener: ViewMember, rest: seq<ViewMember>)
    requires DistinctTags(rest)
    ensures Behind(Reordered(opener, rest)) == match PairedData(opener) case Some(data) => Without(rest, data) case None => rest
  {
    var after := Reordered(opener, rest);
    assert after[1..] == Following(opener, rest);
    if PairedData(opener).Some? {
      PairIsFirst(rest, PairedData(opener).value, AllRequired(Having(rest, PairedData(opener).value)) + Without(rest, PairedData(opener).value));
    }
  }

  lemma PairIsFirst(rest: seq<ViewMember>, data: Tag, following: seq<ViewMember>)
    requires DistinctTags(rest) && following == AllRequired(Having(rest, data)) + Without(rest, data)
    ensures if following != [] && following[0].Tag() == data then following[1..] == Without(rest, data) else following == Without(rest, data)
  {
    var found, others := Having(rest, data), Without(rest, data);
    PartitionIsDistinct(rest, data);
    if found == [] {
      assert forall i :: 0 <= i < |others| ==> others[i] in others;
    } else {
      assert found[0] in found;
    }
  }

  lemma EntryIsLaidOut(d: Dictionary, part: Part, path: set<Name>, members: seq<ViewMember>, delimiter: Tag)
    requires LaidOut(d, part, path, members) && DistinctTags(members)
    requires HasField(Refs(d, part, path, 0), delimiter) ==> HasTag(members, delimiter)
    requires Opener(d, members, delimiter).Ok? && !LoneData(Opener(d, members, delimiter).value)
    ensures EntryLaidOut(d, part, path, Reordered(Opener(d, members, delimiter).value, Without(members, delimiter)))
  {
    var refs, opener, rest := Refs(d, part, path, 0), Opener(d, members, delimiter).value, Without(members, delimiter);
    var chosen :| Picks(chosen, LayoutItems(d, part, true, path)) && InOrder(refs, members, chosen);
    PartitionIsDistinct(members, delimiter);
    BehindIs(opener, rest);
    RestInOrder(refs, members, delimiter, chosen);
    if PairedData(opener).Some? {
      RestInOrder(refs, rest, PairedData(opener).value, chosen);
    }
    EntryIsPaired(d, refs, members, delimiter);
  }

  lemma EntryIsPaired(d: Dictionary, refs: seq<Ref>, members: seq<ViewMember>, delimiter: Tag)
    requires Framed(d, refs) && Paired(d, refs, members) && DistinctTags(members)
    requires HasField(refs, delimiter) ==> HasTag(members, delimiter)
    requires Opener(d, members, delimiter).Ok? && !LoneData(Opener(d, members, delimiter).value)
    ensures Paired(d, refs, Reordered(Opener(d, members, delimiter).value, Without(members, delimiter)))
  {
    var opener, rest := Opener(d, members, delimiter).value, Without(members, delimiter);
    var after := Reordered(opener, rest);
    PartitionIsDistinct(members, delimiter);
    FollowingIs(opener, rest);
    StillPaired(d, refs, members, Following(opener, rest));
    if Having(members, delimiter) != [] {
      assert Having(members, delimiter)[0] in Having(members, delimiter);
      StillPaired(d, refs, members, [opener]);
      assert [opener][0] == opener;
    } else {
      NotListed(members, delimiter);
      PairNext(d, refs, FieldAt(delimiter, None), delimiter);
    }
    forall i | 0 <= i < |after| && after[i].FieldM? ensures after[i].field.pair == PairOf(d, refs, after[i].field.tag) {
      assert i > 0 ==> after[i] == Following(opener, rest)[i - 1];
    }
  }

  lemma NotListed(members: seq<ViewMember>, tag: Tag)
    requires Having(members, tag) == []
    ensures !HasTag(members, tag)
  {
    assert forall m :: m in members ==> m in Having(members, tag) || m.Tag() != tag;
  }
}
