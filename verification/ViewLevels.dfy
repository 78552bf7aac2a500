/**
 The view generator's expansion: document order, one site per group definition however often it is
 reached, and of two groups sharing a count tag the one a layout would keep.
 */
module ViewLevels {
  import opened Wire
  import opened GroupSpecs
  import opened Sorting
  import opened Schema
  import opened Layout
  import opened Paths
  import opened FirstRefs
  import opened References
  import Levels

  datatype ViewMember =
    | FieldM(field: Levels.FieldMember)
    | GroupM(countTag: Tag, site: nat, required: bool)
  {
    function Tag(): Tag {
      match this
      case FieldM(field) => field.tag
      case GroupM(countTag, _, _) => countTag
    }

    function SetRequired(): ViewMember {
      match this
      case FieldM(field) => FieldM(field.(required := true))
      case GroupM(countTag, site, _) => GroupM(countTag, site, true)
    }
  }

  /** A group of a finished level: its count tag and the site of its definition. */
  datatype Slot = Slot(countTag: Tag, site: nat)

  /** Members in write order, the sorted tags the level accepts, its groups sorted by count tag. */
  datatype ViewLevel = ViewLevel(members: seq<ViewMember>, tags: seq<Tag>, groups: seq<Slot>)

  /** One group definition, standing at `at`. */
  datatype Site = Site(at: Address, countTag: Tag, delimiter: Tag, entry: ViewLevel)

  function SlotKey(slot: Slot): Tag {
    slot.countTag
  }

  // ----- definitions by address -----

  function OwnerMembers(d: Dictionary, owner: Owner): Option<seq<Member>> {
    match owner
    case Header => Some(d.header)
    case Trailer => Some(d.trailer)
    case Body(name) => if name in d.messages then Some(d.messages[name]) else None
    case Component(name) => if name in d.components then Some(d.components[name]) else None
  }

  /** The group definition standing at an address. */
  function DefAt(d: Dictionary, at: Address): Option<GroupDef>
    decreases |at.path|
  {
    if at.path == [] then None
    else
      var last := at.path[|at.path| - 1];
      var above := Address(at.owner, at.path[..|at.path| - 1]);
      var ms := if above.path == [] then OwnerMembers(d, at.owner)
                else match DefAt(d, above) case Some(def) => Some(def.members) case None => None;
      if ms.Some? && last < |ms.value| && ms.value[last].GroupRef? then Some(ms.value[last].def) else None
  }

  predicate Stands(d: Dictionary, part: Part) {
    if part.at.path == [] then OwnerMembers(d, part.at.owner) == Some(part.members)
    else DefAt(d, part.at).Some? && DefAt(d, part.at).value.members == part.members
  }

  lemma GroupStands(d: Dictionary, part: Part, i: nat)
    requires Stands(d, part) && i < |part.members| && part.members[i].GroupRef?
    ensures DefAt(d, GroupAddress(part, i)) == Some(part.members[i].def)
    ensures Stands(d, Part(GroupAddress(part, i), part.members[i].def.members))
  {
    var at := GroupAddress(part, i);
    assert at.path[..|at.path| - 1] == part.at.path;
    assert Address(at.owner, part.at.path) == part.at;
  }

  // ----- which definition a count tag keeps -----

  /** `chosen` holds, for every count tag, where the first of its groups stands. */
  ghost predicate Picks(chosen: map<Tag, Address>, items: seq<Item>) {
    forall ct: Tag :: if ct in chosen then FirstGroup(items, ct).Some? && FirstGroup(items, ct).value.at == chosen[ct]
                 else FirstGroup(items, ct) == None
  }

  function Pick(chosen: map<Tag, Address>, countTag: Tag, at: Address): map<Tag, Address> {
    if countTag in chosen then chosen else chosen[countTag := at]
  }

  lemma PickExtends(chosen: map<Tag, Address>, items: seq<Item>, item: Item)
    requires Picks(chosen, items) && item.GroupItem?
    ensures Picks(Pick(chosen, item.def.countTag, item.at), items + [item])
  {
    forall ct: Tag ensures FirstGroup(items + [item], ct) == if FirstGroup(items, ct).Some? then FirstGroup(items, ct)
                                                  else if ct == item.def.countTag then Some(item) else None {
      FirstGroupConcat(items, [item], ct);
      assert [item][1..] == [];
    }
  }

  lemma PicksNoField(chosen: map<Tag, Address>, items: seq<Item>, fields: seq<Item>)
    requires Picks(chosen, items) && forall k :: 0 <= k < |fields| ==> fields[k].FieldItem?
    ensures Picks(chosen, items + fields)
  {
    forall ct: Tag ensures FirstGroup(items + fields, ct) == FirstGroup(items, ct) {
      FirstGroupConcat(items, fields, ct);
    }
  }

  /** The components being expanded. */
  function Names(stack: seq<Name>): (names: set<Name>) {
    set name | name in stack
  }

  lemma NamesPush(stack: seq<Name>, name: Name)
    ensures Names(stack + [name]) == Names(stack) + {name}
  {
  }

  /** The components below `ms` resolve within the depth limit, none inside itself or one of `path`. */
  ghost predicate Fits(d: Dictionary, ms: seq<Member>, depth: nat, path: set<Name>)
    decreases Room(depth), 1
  {
    depth <= MAX_NESTING_DEPTH && forall i :: 0 <= i < |ms| && ms[i].ComponentRef? ==> FitsBelow(d, ms[i].name, depth, path)
  }

  ghost predicate FitsBelow(d: Dictionary, name: Name, depth: nat, path: set<Name>)
    requires depth <= MAX_NESTING_DEPTH
    decreases Room(depth), 0
  {
    Enterable(d, name, path) && Fits(d, d.components[name], depth + 1, path + {name})
  }

  /** What fits the depth limit does not meet the path guard. */
  lemma {:induction false} FitsIsUnguarded(d: Dictionary, ms: seq<Member>, depth: nat, path: set<Name>)
    requires Fits(d, ms, depth, path)
    ensures Unguarded(d, ms, path)
    decreases Room(depth)
  {
    forall i | 0 <= i < |ms| && ms[i].ComponentRef? ensures Entered(d, ms[i].name, path) {
      assert FitsBelow(d, ms[i].name, depth, path);
      FitsIsUnguarded(d, d.components[ms[i].name], depth + 1, path + {ms[i].name});
    }
  }

  method ChooseGroups(part: Part, before: map<Tag, Address>, ghost required: bool, ghost path: set<Name>, ghost seen: seq<Item>)
    returns (chosen: map<Tag, Address>)
    ensures Picks(before, seen) ==> Picks(chosen, seen + GroupItems(part, required, path, 0))
  {
    chosen := before;
    ghost var soFar, total := seen, seen + GroupItems(part, required, path, 0);
    for i := 0 to |part.members|
      invariant soFar + GroupItems(part, required, path, i) == total
      invariant Picks(before, seen) ==> Picks(chosen, soFar)
    {
      if part.members[i].GroupRef? {
        ghost var item := OwnItem(part, i, required, path);
        if Picks(before, seen) {
          PickExtends(chosen, soFar, item);
        }
        Regroup(soFar, [item], GroupItems(part, required, path, i + 1));
        chosen := Pick(chosen, part.members[i].def.countTag, GroupAddress(part, i));
        soFar := soFar + [item];
      } else {
        assert [] + GroupItems(part, required, path, i + 1) == GroupItems(part, required, path, i + 1);
      }
    }
    assert soFar == total;
  }

  /**
   The layout's choice of a group for each count tag: the level's own groups, then each component's.
   Problems are left for the expansion to report.
   */
  method Choose(d: Dictionary, part: Part, depth: nat, stack: seq<Name>, before: map<Tag, Address>,
                ghost required: bool, ghost seen: seq<Item>)
    returns (chosen: map<Tag, Address>)
    ensures Fits(d, part.members, depth, Names(stack)) && Picks(before, seen) ==>
              Picks(chosen, seen + LayoutItems(d, part, required, Names(stack)))
    decreases Room(depth), 3
  {
    chosen := before;
    if depth > MAX_NESTING_DEPTH {
      return;
    }
    ghost var path := Names(stack);
    ghost var fields, groups := FieldItems(part, required, 0), GroupItems(part, required, path, 0);
    if Picks(before, seen) {
      FieldsAreNoGroups(part, required, 0);
      PicksNoField(before, seen, fields);
    }
    chosen := ChooseGroups(part, before, required, path, seen + fields);
    chosen := ChooseComponents(d, part, depth, stack, chosen, required, seen + fields + groups);
    ghost var components := ComponentItems(d, part, required, path, 0);
    Regroup(seen, fields, groups);
    Regroup(seen, fields + groups, components);
  }

  method ChooseComponents(d: Dictionary, part: Part, depth: nat, stack: seq<Name>, before: map<Tag, Address>,
                          ghost required: bool, ghost seen: seq<Item>)
    returns (chosen: map<Tag, Address>)
    requires depth <= MAX_NESTING_DEPTH
    ensures Fits(d, part.members, depth, Names(stack)) && Picks(before, seen) ==>
              Picks(chosen, seen + ComponentItems(d, part, required, Names(stack), 0))
    decreases Room(depth), 2
  {
    chosen := before;
    ghost var path := Names(stack);
    ghost var soFar, total := seen, seen + ComponentItems(d, part, required, path, 0);
    for i := 0 to |part.members|
      invariant soFar + ComponentItems(d, part, required, path, i) == total
      invariant Fits(d, part.members, depth, path) && Picks(before, seen) ==> Picks(chosen, soFar)
    {
      chosen := ChooseAt(d, part, i, depth, stack, chosen, required, soFar);
      Regroup(soFar, ReferencedAt(d, part, required, path, i), ComponentItems(d, part, required, path, i + 1));
      soFar := soFar + ReferencedAt(d, part, required, path, i);
    }
    assert soFar == total;
  }

  /** What member `i` contributes when it is a component. */
  ghost function ReferencedAt(d: Dictionary, part: Part, required: bool, path: set<Name>, i: nat): seq<Item>
    requires i < |part.members|
  {
    match part.members[i]
    case ComponentRef(name, req) => ReferenceItems(d, name, required && req, path)
    case _ => []
  }

  method ChooseAt(d: Dictionary, part: Part, i: nat, depth: nat, stack: seq<Name>, before: map<Tag, Address>,
                  ghost required: bool, ghost seen: seq<Item>)
    returns (chosen: map<Tag, Address>)
    requires depth <= MAX_NESTING_DEPTH && i < |part.members|
    ensures Fits(d, part.members, depth, Names(stack)) && Picks(before, seen) ==>
              Picks(chosen, seen + ReferencedAt(d, part, required, Names(stack), i))
    decreases Room(depth), 1
  {
    chosen := before;
    if part.members[i].ComponentRef? {
      var name := part.members[i].name;
      assert Fits(d, part.members, depth, Names(stack)) ==> FitsBelow(d, name, depth, Names(stack));
      if name !in stack && name in d.components {
        NamesPush(stack, name);
        chosen := Choose(d, ComponentPart(d, name), depth + 1, stack + [name], chosen, required && part.members[i].required, seen);
      }
    } else {
      assert seen + [] == seen;
    }
  }

  // ----- a level under construction -----

  function FieldTags(items: seq<Item>): seq<Tag> {
    if items == [] then []
    else (if items[0].FieldItem? then [items[0].tag] else []) + FieldTags(items[1..])
  }

  lemma FieldTagsConcat(a: seq<Item>, b: seq<Item>)
    ensures FieldTags(a + b) == FieldTags(a) + FieldTags(b)
  {
    if a == [] {
      assert a + b == b;
    } else {
      assert (a + b)[0] == a[0] && (a + b)[1..] == a[1..] + b;
      FieldTagsConcat(a[1..], b);
    }
  }

  /** One member for every field reached, required when any reference to it is. */
  ghost predicate FieldsMirror(members: seq<ViewMember>, fields: map<Tag, nat>, items: seq<Item>) {
    && (forall t :: t in fields <==> t in FieldTags(items))
    && (forall t :: t in fields ==> FieldMirror(members, fields, items, t))
    && forall i :: 0 <= i < |members| && members[i].FieldM? ==>
         members[i].field.tag in fields && fields[members[i].field.tag] == i
  }

  predicate FieldMirror(members: seq<ViewMember>, fields: map<Tag, nat>, items: seq<Item>, t: Tag)
    requires t in fields
  {
    && fields[t] < |members| && members[fields[t]].FieldM? && members[fields[t]].field.tag == t
    && (members[fields[t]].field.required <==> t in RequiredOf(items))
  }

  /** The chosen definition of the count tag has been reached. */
  predicate Reached(items: seq<Item>, chosen: map<Tag, Address>, countTag: Tag) {
    countTag in chosen && FirstRef(items, countTag, chosen[countTag]).Some?
  }

  /**
   One member for every count tag whose chosen definition was reached, naming that definition's site,
   and required as the first reference to it is.
   */
  ghost predicate GroupsMirror(members: seq<ViewMember>, groupTags: set<Tag>, chosen: map<Tag, Address>,
                               index: map<Address, nat>, items: seq<Item>) {
    && (forall ct :: ct in groupTags <==> Reached(items, chosen, ct))
    && (forall ct :: ct in groupTags ==> HasGroup(members, ct))
    && (forall i :: 0 <= i < |members| && members[i].GroupM? ==>
          members[i].countTag in groupTags && MirrorsFirst(members[i], chosen, index, items))
    && forall i, j :: 0 <= i < j < |members| && members[i].GroupM? && members[j].GroupM? ==>
         members[i].countTag != members[j].countTag
  }

  predicate HasGroup(members: seq<ViewMember>, countTag: Tag) {
    exists i :: 0 <= i < |members| && members[i].GroupM? && members[i].countTag == countTag
  }

  predicate HasTag(members: seq<ViewMember>, tag: Tag) {
    exists i :: 0 <= i < |members| && members[i].Tag() == tag
  }

  /** The member names the chosen definition's site, and is required as the first reference to it is. */
  predicate MirrorsFirst(member: ViewMember, chosen: map<Tag, Address>, index: map<Address, nat>, items: seq<Item>)
    requires member.GroupM?
  {
    && Reached(items, chosen, member.countTag)
    && chosen[member.countTag] in index && index[chosen[member.countTag]] == member.site
    && FirstRef(items, member.countTag, chosen[member.countTag]).value.required == member.required
  }

  ghost predicate Grows(a: map<Address, nat>, b: map<Address, nat>) {
    forall at :: at in a ==> at in b && b[at] == a[at]
  }

  /** One more contribution changes the first reference only where there was none. */
  lemma FirstRefNext(items: seq<Item>, item: Item, ct: Tag, at: Address)
    ensures FirstRef(items + [item], ct, at)
            == if FirstRef(items, ct, at).Some? then FirstRef(items, ct, at)
               else if item.GroupItem? && item.def.countTag == ct && item.at == at then Some(item) else None
  {
    FirstRefConcat(items, [item], ct, at);
    assert [item][1..] == [];
  }

  /** A contribution that is not the first reference to a chosen definition leaves the groups as they are. */
  lemma GroupsStayMirrored(members: seq<ViewMember>, groupTags: set<Tag>, chosen: map<Tag, Address>, index: map<Address, nat>,
                           items: seq<Item>, item: Item)
    requires GroupsMirror(members, groupTags, chosen, index, items)
    requires item.FieldItem? || item.def.countTag in groupTags
             || item.def.countTag !in chosen || chosen[item.def.countTag] != item.at
    ensures GroupsMirror(members, groupTags, chosen, index, items + [item])
  {
    forall ct | ct in chosen ensures FirstRef(items + [item], ct, chosen[ct]) == FirstRef(items, ct, chosen[ct]) {
      FirstRefNext(items, item, ct, chosen[ct]);
      assert ct in groupTags <==> Reached(items, chosen, ct);
    }
    forall ct ensures ct in groupTags <==> Reached(items + [item], chosen, ct) {
    }
    forall i | 0 <= i < |members| && members[i].GroupM? ensures MirrorsFirst(members[i], chosen, index, items + [item]) {
      assert MirrorsFirst(members[i], chosen, index, items);
    }
  }

  function Placed(members: seq<ViewMember>, fields: map<Tag, nat>, tag: Tag): map<Tag, nat> {
    if tag in fields then fields else fields[tag := |members|]
  }

  /** `after` has the field `tag` joined into its member, or as a new last member. */
  ghost predicate Joined(members: seq<ViewMember>, fields: map<Tag, nat>, after: seq<ViewMember>, tag: Tag, required: bool) {
    if tag in fields then
      && fields[tag] < |members| == |after| && members[fields[tag]].FieldM?
      && (forall i :: 0 <= i < |members| && i != fields[tag] ==> after[i] == members[i])
      && after[fields[tag]].FieldM? && after[fields[tag]].field.tag == tag
      && after[fields[tag]].field.required == (members[fields[tag]].field.required || required)
    else
      && |after| == |members| + 1 && after[..|members|] == members
      && after[|members|].FieldM? && after[|members|].field.tag == tag && after[|members|].field.required == required
  }

  lemma NextFieldTags(items: seq<Item>, tag: Tag, required: bool, t: Tag)
    ensures t in FieldTags(items + [FieldItem(tag, required)]) <==> t in FieldTags(items) || t == tag
    ensures t in RequiredOf(items + [FieldItem(tag, required)]) <==> t in RequiredOf(items) || (t == tag && required)
    ensures t in RequiredOf(items) ==> t in FieldTags(items)
  {
    var item := FieldItem(tag, required);
    FieldTagsConcat(items, [item]);
    TagsConcat(items, [item]);
    assert [item][1..] == [];
    assert FieldTags([item]) == [tag] && RequiredOf([item]) == if required then [tag] else [];
    if t in RequiredOf(items) {
      RequiredIsField(items, t);
    }
  }

  /** Joining a field keeps the mirror. */
  lemma FieldMirrored(members: seq<ViewMember>, fields: map<Tag, nat>, items: seq<Item>, after: seq<ViewMember>,
                      tag: Tag, required: bool)
    requires FieldsMirror(members, fields, items) && Joined(members, fields, after, tag, required)
    ensures FieldsMirror(after, Placed(members, fields, tag), items + [FieldItem(tag, required)])
  {
    var placed, next := Placed(members, fields, tag), items + [FieldItem(tag, required)];
    forall t ensures t in placed <==> t in FieldTags(next) {
      NextFieldTags(items, tag, required, t);
    }
    forall t | t in placed ensures FieldMirror(after, placed, next, t) {
      FieldMirroredAt(members, fields, items, after, tag, required, t);
    }
    forall i | 0 <= i < |after| && after[i].FieldM? ensures after[i].field.tag in placed && placed[after[i].field.tag] == i {
      FieldPlaced(members, fields, items, after, tag, required, i);
    }
  }

  lemma FieldMirroredAt(members: seq<ViewMember>, fields: map<Tag, nat>, items: seq<Item>, after: seq<ViewMember>,
                        tag: Tag, required: bool, t: Tag)
    requires FieldsMirror(members, fields, items) && Joined(members, fields, after, tag, required)
    requires t in Placed(members, fields, tag)
    ensures FieldMirror(after, Placed(members, fields, tag), items + [FieldItem(tag, required)], t)
  {
    NextFieldTags(items, tag, required, t);
    if t in fields {
      assert FieldMirror(members, fields, items, t);
      if tag !in fields {
        assert after[fields[t]] == after[..|members|][fields[t]];
      }
    }
  }

  lemma FieldPlaced(members: seq<ViewMember>, fields: map<Tag, nat>, items: seq<Item>, after: seq<ViewMember>,
                    tag: Tag, required: bool, i: nat)
    requires FieldsMirror(members, fields, items) && Joined(members, fields, after, tag, required)
    requires i < |after| && after[i].FieldM?
    ensures var placed := Placed(members, fields, tag); after[i].field.tag in placed && placed[after[i].field.tag] == i
  {
    if tag !in fields && i < |members| {
      assert after[i] == after[..|members|][i];
    }
  }

  lemma RequiredIsField(items: seq<Item>, tag: Tag)
    requires tag in RequiredOf(items)
    ensures tag in FieldTags(items)
  {
    if !(items[0].FieldItem? && items[0].required && items[0].tag == tag) {
      RequiredIsField(items[1..], tag);
    }
  }

  /** Joining a field does not touch the groups. */
  lemma GroupsUntouched(members: seq<ViewMember>, fields: map<Tag, nat>, groupTags: set<Tag>, chosen: map<Tag, Address>,
                        index: map<Address, nat>, items: seq<Item>, after: seq<ViewMember>, item: Item)
    requires GroupsMirror(members, groupTags, chosen, index, items)
    requires item.FieldItem? && Joined(members, fields, after, item.tag, item.required)
    ensures GroupsMirror(after, groupTags, chosen, index, items + [item])
  {
    if item.tag !in fields {
      assert forall i :: 0 <= i < |members| ==> after[i] == members[i];
    }
    GroupsStayMirrored(members, groupTags, chosen, index, items, item);
    forall ct | ct in groupTags ensures HasGroup(after, ct) {
      var i :| 0 <= i < |members| && members[i].GroupM? && members[i].countTag == ct;
      assert after[i].GroupM?;
    }
  }

  /** Every recorded position holds the field it is recorded for. */
  ghost predicate InPlace(members: seq<ViewMember>, fields: map<Tag, nat>) {
    forall t :: t in fields ==> fields[t] < |members| && members[fields[t]].FieldM? && members[fields[t]].field.tag == t
  }

  lemma FieldInPlace(members: seq<ViewMember>, fields: map<Tag, nat>, after: seq<ViewMember>, tag: Tag, required: bool)
    requires InPlace(members, fields) && Joined(members, fields, after, tag, required)
    ensures InPlace(after, Placed(members, fields, tag))
  {
    if tag !in fields {
      assert forall i :: 0 <= i < |members| ==> after[i] == members[i];
    }
  }

  /** What a level holds once `items` have been expanded into it. */
  ghost predicate LevelMirrors(members: seq<ViewMember>, fields: map<Tag, nat>, groupTags: set<Tag>, tags: seq<Tag>,
                               chosen: map<Tag, Address>, items: seq<Item>, index: map<Address, nat>)
  {
    && tags == TagsOf(items)
    && FieldsMirror(members, fields, items)
    && GroupsMirror(members, groupTags, chosen, index, items)
  }

  lemma LevelTakesField(members: seq<ViewMember>, fields: map<Tag, nat>, groupTags: set<Tag>, tags: seq<Tag>,
                        chosen: map<Tag, Address>, items: seq<Item>, index: map<Address, nat>, after: seq<ViewMember>, item: Item)
    requires LevelMirrors(members, fields, groupTags, tags, chosen, items, index)
    requires item.FieldItem? && Joined(members, fields, after, item.tag, item.required)
    ensures LevelMirrors(after, Placed(members, fields, item.tag), groupTags, tags + [item.tag], chosen, items + [item], index)
  {
    FieldMirrored(members, fields, items, after, item.tag, item.required);
    GroupsUntouched(members, fields, groupTags, chosen, index, items, after, item);
    TagsConcat(items, [item]);
  }

  lemma GroupMirrored(members: seq<ViewMember>, groupTags: set<Tag>, chosen: map<Tag, Address>, index: map<Address, nat>,
                      items: seq<Item>, after: seq<ViewMember>, item: Item)
    requires GroupsMirror(members, groupTags, chosen, index, items)
    requires item.GroupItem? && item.def.countTag in chosen && item.def.countTag !in groupTags
    requires chosen[item.def.countTag] == item.at && item.at in index
    requires |after| == |members| + 1 && after[..|members|] == members
    requires after[|members|].GroupM? && after[|members|].countTag == item.def.countTag && after[|members|].site == index[item.at]
    requires after[|members|].required == item.required
    ensures GroupsMirror(after, groupTags + {item.def.countTag}, chosen, index, items + [item])
  {
    assert forall i :: 0 <= i < |members| ==> after[i] == members[i];
    forall ct ensures ct in groupTags + {item.def.countTag} <==> Reached(items + [item], chosen, ct) {
      if ct in chosen {
        FirstRefNext(items, item, ct, chosen[ct]);
      }
    }
    forall i | 0 <= i < |after| && after[i].GroupM? ensures MirrorsFirst(after[i], chosen, index, items + [item]) {
      if i < |members| {
        assert MirrorsFirst(members[i], chosen, index, items);
      }
      FirstRefNext(items, item, after[i].countTag, chosen[after[i].countTag]);
    }
    forall ct | ct in groupTags + {item.def.countTag}
      ensures HasGroup(after, ct)
    {
      if ct != item.def.countTag {
        var i :| 0 <= i < |members| && members[i].GroupM? && members[i].countTag == ct;
        assert after[i].GroupM?;
      }
    }
  }

  lemma LevelTakesGroup(members: seq<ViewMember>, fields: map<Tag, nat>, groupTags: set<Tag>, tags: seq<Tag>,
                        chosen: map<Tag, Address>, items: seq<Item>, index: map<Address, nat>, after: seq<ViewMember>, item: Item)
    requires LevelMirrors(members, fields, groupTags, tags, chosen, items, index)
    requires item.GroupItem? && item.def.countTag in chosen && item.def.countTag !in groupTags
    requires chosen[item.def.countTag] == item.at && item.at in index
    requires |after| == |members| + 1 && after[..|members|] == members
    requires after[|members|].GroupM? && after[|members|].countTag == item.def.countTag && after[|members|].site == index[item.at]
    requires after[|members|].required == item.required
    ensures LevelMirrors(after, fields, groupTags + {item.def.countTag}, tags + [item.def.countTag], chosen, items + [item], index)
  {
    TagsConcat(items, [item]);
    GroupMirrored(members, groupTags, chosen, index, items, after, item);
    GroupKeepsFields(members, fields, items, after, item);
  }

  lemma GroupKeepsFields(members: seq<ViewMember>, fields: map<Tag, nat>, items: seq<Item>, after: seq<ViewMember>, item: Item)
    requires FieldsMirror(members, fields, items) && item.GroupItem?
    requires |after| == |members| + 1 && after[..|members|] == members && after[|members|].GroupM?
    ensures FieldsMirror(after, fields, items + [item])
  {
    FieldsStayMirrored(members, fields, items, item);
    assert forall i :: 0 <= i < |members| ==> after[i] == members[i];
    forall t | t in fields ensures FieldMirror(after, fields, items + [item], t) {
      assert FieldMirror(members, fields, items + [item], t);
    }
  }

  /** A group does not touch the fields. */
  lemma FieldsStayMirrored(members: seq<ViewMember>, fields: map<Tag, nat>, items: seq<Item>, item: Item)
    requires FieldsMirror(members, fields, items) && item.GroupItem?
    ensures FieldsMirror(members, fields, items + [item])
  {
    TagsConcat(items, [item]);
    FieldTagsConcat(items, [item]);
    assert [item][1..] == [];
    assert FieldTags([item]) == [] && RequiredOf([item]) == [];
    assert FieldTags(items + [item]) == FieldTags(items) && RequiredOf(items + [item]) == RequiredOf(items);
    forall t | t in fields ensures FieldMirror(members, fields, items + [item], t) {
      assert FieldMirror(members, fields, items, t);
    }
  }

  lemma LevelPassesGroup(members: seq<ViewMember>, fields: map<Tag, nat>, groupTags: set<Tag>, tags: seq<Tag>,
                         chosen: map<Tag, Address>, items: seq<Item>, index: map<Address, nat>, item: Item)
    requires LevelMirrors(members, fields, groupTags, tags, chosen, items, index) && item.GroupItem?
    requires item.def.countTag in groupTags || item.def.countTag !in chosen || chosen[item.def.countTag] != item.at
    ensures LevelMirrors(members, fields, groupTags, tags + [item.def.countTag], chosen, items + [item], index)
  {
    TagsConcat(items, [item]);
    assert TagsOf([item]) == [item.def.countTag];
    FieldsStayMirrored(members, fields, items, item);
    GroupsStayMirrored(members, groupTags, chosen, index, items, item);
  }

  /** A field listed again: required when either listing is, paired as the first pairing says. */
  function Merged(existing: Levels.FieldMember, again: Levels.FieldMember): Levels.FieldMember {
    existing.(required := existing.required || again.required, pair := if existing.pair.Unpaired? then again.pair else existing.pair)
  }

  /** Every field member is of the kind its definition gives it. */
  ghost predicate Typed(d: Dictionary, members: seq<ViewMember>) {
    forall i :: 0 <= i < |members| && members[i].FieldM? ==> TypedField(d, members[i].field)
  }

  predicate TypedField(d: Dictionary, field: Levels.FieldMember) {
    field.tag in d.fields && field.kind == d.fields[field.tag].kind && field.oneChar == d.fields[field.tag].oneChar
  }

  class LevelBuilder {
    var members: seq<ViewMember>
    /** Position of each field member. */
    var fields: map<Tag, nat>
    /** Count tags of the group members. */
    var groupTags: set<Tag>
    /** Every tag reached, count tags included. */
    var tags: seq<Tag>
    /** Where the group kept for each count tag stands. */
    const chosen: map<Tag, Address>

    /** What the level holds once `items` have been expanded into it. */
    ghost predicate Mirrors(items: seq<Item>, index: map<Address, nat>)
      reads this
    {
      LevelMirrors(members, fields, groupTags, tags, chosen, items, index)
    }

    constructor (picks: map<Tag, Address>)
      ensures chosen == picks && members == [] && fields == map[] && groupTags == {}
      ensures InPlace(members, fields) && forall index :: Mirrors([], index)
    {
      chosen := picks;
      members, fields, groupTags, tags := [], map[], {}, [];
    }

    method AddField(member: Levels.FieldMember, ghost items: seq<Item>, ghost index: map<Address, nat>)
      requires InPlace(members, fields)
      modifies this
      ensures InPlace(members, fields) && member.tag in fields && groupTags == old(groupTags)
      ensures if member.tag in old(fields) then
                && fields == old(fields)
                && members == old(members)[fields[member.tag] := FieldM(Merged(old(members[fields[member.tag]].field), member))]
              else
                fields == old(fields)[member.tag := |old(members)|] && members == old(members) + [FieldM(member)]
      ensures old(Mirrors(items, index)) ==> Mirrors(items + [FieldItem(member.tag, member.required)], index)
    {
      ghost var before, known, total := members, fields, tags;
      tags := tags + [member.tag];
      if member.tag in fields {
        var at := fields[member.tag];
        var existing := members[at].field;
        existing := existing.(required := existing.required || member.required);
        if existing.pair.Unpaired? {
          existing := existing.(pair := member.pair);
        }
        members := members[at := FieldM(existing)];
      } else {
        fields := fields[member.tag := |members|];
        members := members + [FieldM(member)];
      }
      assert Joined(before, known, members, member.tag, member.required);
      FieldInPlace(before, known, members, member.tag, member.required);
      if LevelMirrors(before, known, groupTags, total, chosen, items, index) {
        LevelTakesField(before, known, groupTags, total, chosen, items, index, members, FieldItem(member.tag, member.required));
      }
    }

    /** Marks the field `tag`, already added, as the length of `data`. */
    method PairLength(tag: Tag, data: Tag, ghost items: seq<Item>, ghost index: map<Address, nat>)
      requires InPlace(members, fields)
      modifies this`members
      ensures InPlace(members, fields)
      ensures members == if tag in fields && old(members[fields[tag]].field.pair).Unpaired? then
                           old(members)[fields[tag] := FieldM(old(members[fields[tag]].field).(pair := Levels.LengthOf(data)))]
                         else old(members)
      ensures old(Mirrors(items, index)) ==> Mirrors(items, index)
    {
      if tag in fields {
        var at := fields[tag];
        if members[at].field.pair.Unpaired? {
          ghost var before := members;
          members := members[at := FieldM(members[at].field.(pair := Levels.LengthOf(data)))];
          if old(Mirrors(items, index)) {
            SameGroups(before, groupTags, chosen, index, items, members);
          }
        }
      }
    }

    /** Adds a group whose definition is the one chosen for its count tag. */
    method AddGroup(countTag: Tag, site: nat, required: bool, ghost item: Item, ghost items: seq<Item>, ghost index: map<Address, nat>)
      requires InPlace(members, fields) && countTag in chosen && countTag !in groupTags
      requires item.GroupItem? && item.def.countTag == countTag && item.at == chosen[countTag]
      requires item.at in index && index[item.at] == site && item.required == required
      modifies this
      ensures members == old(members) + [GroupM(countTag, site, required)]
      ensures InPlace(members, fields) && fields == old(fields) && groupTags == old(groupTags) + {countTag}
      ensures old(Mirrors(items, index)) ==> Mirrors(items + [item], index)
    {
      ghost var before, known, total := members, groupTags, tags;
      tags := tags + [countTag];
      groupTags := groupTags + {countTag};
      members := members + [GroupM(countTag, site, required)];
      if LevelMirrors(before, fields, known, total, chosen, items, index) {
        LevelTakesGroup(before, fields, known, total, chosen, items, index, members, item);
      }
    }

    /** Passes over a group of a count tag that is already a member, or for which another definition is kept. */
    method PassGroup(countTag: Tag, ghost item: Item, ghost items: seq<Item>, ghost index: map<Address, nat>)
      requires item.GroupItem? && item.def.countTag == countTag
      requires countTag in groupTags || countTag !in chosen || chosen[countTag] != item.at
      modifies this`tags
      ensures old(Mirrors(items, index)) ==> Mirrors(items + [item], index)
    {
      ghost var total := tags;
      tags := tags + [countTag];
      if LevelMirrors(members, fields, groupTags, total, chosen, items, index) {
        LevelPassesGroup(members, fields, groupTags, total, chosen, items, index, item);
      }
    }

    /** Drops the plain fields a group supersedes and sorts the lists; a delimiter joins the tags. */
    method Finish(delimiter: Option<Tag>, ghost d: Dictionary, ghost part: Part, ghost path: set<Name>, ghost index: map<Address, nat>)
      returns (level: ViewLevel)
      ensures forall m :: m in level.members <==> m in members && !(m.FieldM? && m.field.tag in groupTags)
      ensures level.members == Unsuperseded(members, groupTags)
      ensures Ascending(level.tags) && forall t :: t in level.tags <==> t in tags || delimiter == Some(t)
      ensures Homed(part.at, path) && Picks(chosen, LayoutItems(d, part, true, path)) && Mirrors(ViewItems(d, part, true, path, 0), index) ==>
                LevelIsRight(level, delimiter, LayoutItems(d, part, true, path), index)
    {
      var kept := Unsuperseded(members, groupTags);
      level := ViewLevel(kept, SortedTags(tags + ListOf(delimiter)), SortBy(SlotsOf(kept), SlotKey));
      SortedTagsAre(tags + ListOf(delimiter));
      if Homed(part.at, path) && Picks(chosen, LayoutItems(d, part, true, path)) && Mirrors(ViewItems(d, part, true, path, 0), index) {
        FinishedIsRight(d, part, path, members, fields, groupTags, tags, chosen, index, delimiter);
      }
    }
  }

  lemma SameGroups(members: seq<ViewMember>, groupTags: set<Tag>, chosen: map<Tag, Address>, index: map<Address, nat>,
                   items: seq<Item>, after: seq<ViewMember>)
    requires GroupsMirror(members, groupTags, chosen, index, items)
    requires |after| == |members|
    requires forall i :: 0 <= i < |members| ==> after[i] == members[i] || (after[i].FieldM? && members[i].FieldM?)
    ensures GroupsMirror(after, groupTags, chosen, index, items)
  {
    forall ct | ct in groupTags ensures HasGroup(after, ct) {
      var i :| 0 <= i < |members| && members[i].GroupM? && members[i].countTag == ct;
      assert after[i].GroupM?;
    }
  }

  // ----- a finished level -----

  function ListOf(tag: Option<Tag>): seq<Tag> {
    match tag case None => [] case Some(t) => [t]
  }

  function Unsuperseded(members: seq<ViewMember>, groupTags: set<Tag>): (kept: seq<ViewMember>)
    ensures forall m :: m in kept <==> m in members && !(m.FieldM? && m.field.tag in groupTags)
  {
    if members == [] then []
    else (if members[0].FieldM? && members[0].field.tag in groupTags then [] else [members[0]])
         + Unsuperseded(members[1..], groupTags)
  }

  function SlotsOf(members: seq<ViewMember>): (slots: seq<Slot>)
    ensures forall slot :: slot in slots <==> HasSlot(members, slot)
  {
    if members == [] then []
    else
      assert forall slot :: HasSlot(members, slot) <==> IsSlot(members[0], slot) || HasSlot(members[1..], slot) by {
        assert forall i :: 0 < i < |members| ==> members[i] == members[1..][i - 1];
        assert forall i :: 0 <= i < |members[1..]| ==> members[1..][i] == members[i + 1];
      }
      (if members[0].GroupM? then [Slot(members[0].countTag, members[0].site)] else []) + SlotsOf(members[1..])
  }

  predicate HasSlot(members: seq<ViewMember>, slot: Slot) {
    exists i :: 0 <= i < |members| && IsSlot(members[i], slot)
  }

  predicate IsSlot(member: ViewMember, slot: Slot) {
    member.GroupM? && slot == Slot(member.countTag, member.site)
  }

  function Finished(members: seq<ViewMember>, groupTags: set<Tag>, tags: seq<Tag>, delimiter: Option<Tag>): ViewLevel {
    var kept := Unsuperseded(members, groupTags);
    ViewLevel(kept, SortedTags(tags + ListOf(delimiter)), SortBy(SlotsOf(kept), SlotKey))
  }

  predicate DistinctTags(members: seq<ViewMember>) {
    forall i, j :: 0 <= i < j < |members| ==> members[i].Tag() != members[j].Tag()
  }

  lemma {:induction false} KeptAreDistinct(members: seq<ViewMember>, groupTags: set<Tag>)
    requires forall i, j :: 0 <= i < j < |members| && members[i].Tag() == members[j].Tag() ==>
               members[i].FieldM? != members[j].FieldM?
    requires forall i :: 0 <= i < |members| && members[i].GroupM? ==> members[i].countTag in groupTags
    ensures DistinctTags(Unsuperseded(members, groupTags))
  {
    if members != [] {
      var rest := Unsuperseded(members[1..], groupTags);
      assert forall i :: 0 <= i < |members[1..]| ==> members[1..][i] == members[i + 1];
      KeptAreDistinct(members[1..], groupTags);
      if members[0].GroupM? || members[0].field.tag !in groupTags {
        forall j | 0 <= j < |rest| ensures rest[j].Tag() != members[0].Tag() {
          assert rest[j] in rest;
          assert rest[j] in members[1..];
          var k :| 0 <= k < |members[1..]| && members[1..][k] == rest[j];
          assert members[k + 1] == rest[j];
        }
      }
    }
  }

  /** The groups of the level are the first ones in layout order, each under its definition's site. */
  ghost predicate SlotsMatch(groups: seq<Slot>, items: seq<Item>, index: map<Address, nat>) {
    && AscendingBy(groups, SlotKey)
    && forall ct: Tag :: match FirstGroup(items, ct)
                    case None => FirstBy(groups, SlotKey, ct) == None
                    case Some(item) => item.at in index && FirstBy(groups, SlotKey, ct) == Some(Slot(ct, index[item.at]))
  }

  ghost predicate SlotsAre(groups: seq<Slot>, members: seq<ViewMember>) {
    forall slot :: slot in groups <==> HasSlot(members, slot)
  }

  /** One member per tag; the group members are the level's groups. */
  ghost predicate Shape(level: ViewLevel) {
    && DistinctTags(level.members)
    && (forall i :: 0 <= i < |level.members| ==> level.members[i].Tag() in level.tags)
    && SlotsAre(level.groups, level.members)
  }

  /** The field members, and which of them are required. */
  ghost predicate FieldsMatch(members: seq<ViewMember>, items: seq<Item>) {
    && (forall i :: 0 <= i < |members| && members[i].FieldM? ==>
          && members[i].field.tag in FieldTags(items)
          && (members[i].field.required <==> members[i].field.tag in RequiredOf(items)))
    && forall t :: t in FieldTags(items) ==> HasTag(members, t)
  }

  /** A group member stands for the group a layout keeps for its count tag, and is required when that one is. */
  ghost predicate GroupMatches(member: ViewMember, items: seq<Item>, index: map<Address, nat>) {
    member.GroupM? ==>
      match FirstGroup(items, member.countTag)
      case None => false
      case Some(item) => item.at in index && index[item.at] == member.site && item.required == member.required
  }

  ghost predicate GroupsMatch(members: seq<ViewMember>, items: seq<Item>, index: map<Address, nat>) {
    forall m :: m in members ==> GroupMatches(m, items, index)
  }

  lemma GroupMatchesStill(member: ViewMember, items: seq<Item>, a: map<Address, nat>, b: map<Address, nat>)
    requires GroupMatches(member, items, a) && Grows(a, b)
    ensures GroupMatches(member, items, b)
  {
  }

  /** The level is what a layout makes of the same definition. */
  ghost predicate LevelIsRight(level: ViewLevel, delimiter: Option<Tag>, items: seq<Item>, index: map<Address, nat>) {
    && level.tags == SortedTags(TagsOf(items) + ListOf(delimiter))
    && SlotsMatch(level.groups, items, index)
    && Shape(level)
    && FieldsMatch(level.members, items)
    && GroupsMatch(level.members, items, index)
  }

  lemma {:induction false} FieldTagIn(items: seq<Item>, t: Tag)
    ensures t in FieldTags(items) <==> FieldItem(t, true) in items || FieldItem(t, false) in items
    ensures t in RequiredOf(items) <==> FieldItem(t, true) in items
  {
    if items != [] {
      FieldTagIn(items[1..], t);
    }
  }

  /** Both orders reach the same tags and the same required fields. */
  lemma SameContributions(d: Dictionary, part: Part, required: bool, path: set<Name>, t: Tag)
    ensures var view, layout := ViewItems(d, part, required, path, 0), LayoutItems(d, part, required, path);
            && (t in TagsOf(view) <==> t in TagsOf(layout))
            && (t in FieldTags(view) <==> t in FieldTags(layout))
            && (t in RequiredOf(view) <==> t in RequiredOf(layout))
  {
    var view, layout := ViewItems(d, part, required, path, 0), LayoutItems(d, part, required, path);
    FieldTagIn(view, t);
    FieldTagIn(layout, t);
    SameTags(d, part, required, path, FieldItem(t, true));
    SameTags(d, part, required, path, FieldItem(t, false));
    if t in TagsOf(view) {
      var i :| 0 <= i < |view| && TagsOf(view)[i] == t;
      SameTags(d, part, required, path, view[i]);
      var j :| 0 <= j < |layout| && layout[j] == view[i];
      assert TagsOf(layout)[j] == t;
    }
    if t in TagsOf(layout) {
      var i :| 0 <= i < |layout| && TagsOf(layout)[i] == t;
      SameTags(d, part, required, path, layout[i]);
      var j :| 0 <= j < |view| && view[j] == layout[i];
      assert TagsOf(view)[j] == t;
    }
  }

  /** A chosen definition is reached, and the first reference to it is the one a layout keeps. */
  lemma ChosenIsFirst(d: Dictionary, part: Part, path: set<Name>, chosen: map<Tag, Address>, ct: Tag)
    requires Homed(part.at, path) && Picks(chosen, LayoutItems(d, part, true, path))
    ensures ct in chosen <==> Reached(ViewItems(d, part, true, path, 0), chosen, ct)
    ensures ct in chosen <==> FirstGroup(LayoutItems(d, part, true, path), ct).Some?
    ensures ct in chosen ==>
              FirstRef(ViewItems(d, part, true, path, 0), ct, chosen[ct]) == FirstGroup(LayoutItems(d, part, true, path), ct)
  {
    if ct in chosen {
      SameRefs(d, part, true, path, ct, chosen[ct]);
      FirstGroupIsFirstRef(LayoutItems(d, part, true, path), ct);
    }
  }

  /** Of the members kept, exactly the reached groups fill a slot. */
  lemma SlotFound(members: seq<ViewMember>, groupTags: set<Tag>, chosen: map<Tag, Address>, index: map<Address, nat>,
                  items: seq<Item>, ct: Tag)
    requires GroupsMirror(members, groupTags, chosen, index, items)
    ensures ct in groupTags ==> ct in chosen && chosen[ct] in index
    ensures FirstBy(SlotsOf(Unsuperseded(members, groupTags)), SlotKey, ct)
            == if ct in groupTags then Some(Slot(ct, index[chosen[ct]])) else None
  {
    var kept := Unsuperseded(members, groupTags);
    var slots := SlotsOf(kept);
    FirstIsIn(slots, SlotKey, ct);
    if FirstBy(slots, SlotKey, ct).Some? {
      var slot := FirstBy(slots, SlotKey, ct).value;
      var i :| 0 <= i < |kept| && IsSlot(kept[i], slot);
      assert kept[i] in members;
    }
    if ct in groupTags {
      var i :| 0 <= i < |members| && members[i].GroupM? && members[i].countTag == ct;
      assert members[i] in kept;
      var k :| 0 <= k < |kept| && kept[k] == members[i];
      assert IsSlot(kept[k], Slot(ct, members[i].site));
      assert Slot(ct, members[i].site) in slots;
    }
  }

  lemma FinishedGroups(d: Dictionary, part: Part, path: set<Name>, members: seq<ViewMember>, groupTags: set<Tag>,
                       chosen: map<Tag, Address>, index: map<Address, nat>)
    requires Homed(part.at, path) && Picks(chosen, LayoutItems(d, part, true, path))
    requires GroupsMirror(members, groupTags, chosen, index, ViewItems(d, part, true, path, 0))
    ensures SlotsMatch(SortBy(SlotsOf(Unsuperseded(members, groupTags)), SlotKey), LayoutItems(d, part, true, path), index)
  {
    var slots := SlotsOf(Unsuperseded(members, groupTags));
    SortByKeepsFirst(slots, SlotKey);
    forall ct: Tag ensures FirstBy(SortBy(slots, SlotKey), SlotKey, ct)
                      == if ct in chosen && chosen[ct] in index then Some(Slot(ct, index[chosen[ct]])) else None
    ensures ct in chosen ==> chosen[ct] in index
    {
      ChosenIsFirst(d, part, path, chosen, ct);
      SlotFound(members, groupTags, chosen, index, ViewItems(d, part, true, path, 0), ct);
    }
  }

  lemma FinishedFields(members: seq<ViewMember>, fields: map<Tag, nat>, groupTags: set<Tag>, chosen: map<Tag, Address>,
                       index: map<Address, nat>, items: seq<Item>, t: Tag)
    requires FieldsMirror(members, fields, items) && GroupsMirror(members, groupTags, chosen, index, items)
    requires t in FieldTags(items)
    ensures exists m :: m in Unsuperseded(members, groupTags) && m.Tag() == t
  {
    if t in groupTags {
      var i :| 0 <= i < |members| && members[i].GroupM? && members[i].countTag == t;
      assert members[i] in Unsuperseded(members, groupTags);
    } else {
      assert members[fields[t]] in Unsuperseded(members, groupTags);
    }
  }

  lemma FinishedShape(members: seq<ViewMember>, fields: map<Tag, nat>, groupTags: set<Tag>, tags: seq<Tag>,
                      chosen: map<Tag, Address>, items: seq<Item>, index: map<Address, nat>, delimiter: Option<Tag>)
    requires LevelMirrors(members, fields, groupTags, tags, chosen, items, index)
    ensures Shape(Finished(members, groupTags, tags, delimiter))
  {
    var level := Finished(members, groupTags, tags, delimiter);
    KeptAreDistinct(members, groupTags);
    SortedTagsAre(tags + ListOf(delimiter));
    forall i | 0 <= i < |level.members| ensures level.members[i].Tag() in level.tags {
      assert level.members[i] in members;
      MemberWasReached(members, fields, groupTags, chosen, index, items, level.members[i]);
      assert level.members[i].Tag() in tags;
    }
    SlotsAreKept(members, groupTags, chosen, index, items);
  }

  /** No slot is lost in sorting. */
  lemma SlotsAreKept(members: seq<ViewMember>, groupTags: set<Tag>, chosen: map<Tag, Address>, index: map<Address, nat>,
                     items: seq<Item>)
    requires GroupsMirror(members, groupTags, chosen, index, items)
    ensures var kept := Unsuperseded(members, groupTags);
            SlotsAre(SortBy(SlotsOf(kept), SlotKey), kept)
  {
    var kept := Unsuperseded(members, groupTags);
    var slots := SlotsOf(kept);
    var sorted := SortBy(slots, SlotKey);
    SortByKeepsFirst(slots, SlotKey);
    forall slot ensures slot in sorted <==> HasSlot(kept, slot) {
      assert slot in slots <==> HasSlot(kept, slot);
      if HasSlot(kept, slot) {
        SlotIsKept(members, groupTags, chosen, index, items, slot);
      }
    }
  }

  lemma SlotIsKept(members: seq<ViewMember>, groupTags: set<Tag>, chosen: map<Tag, Address>, index: map<Address, nat>,
                   items: seq<Item>, slot: Slot)
    requires GroupsMirror(members, groupTags, chosen, index, items) && HasSlot(Unsuperseded(members, groupTags), slot)
    ensures slot in SortBy(SlotsOf(Unsuperseded(members, groupTags)), SlotKey)
  {
    var kept := Unsuperseded(members, groupTags);
    var slots := SlotsOf(kept);
    var i :| 0 <= i < |kept| && IsSlot(kept[i], slot);
    assert kept[i] in members;
    assert MirrorsFirst(kept[i], chosen, index, items);
    SlotFound(members, groupTags, chosen, index, items, slot.countTag);
    SortByKeepsFirst(slots, SlotKey);
    FirstIsIn(SortBy(slots, SlotKey), SlotKey, slot.countTag);
  }

  lemma MemberWasReached(members: seq<ViewMember>, fields: map<Tag, nat>, groupTags: set<Tag>, chosen: map<Tag, Address>,
                         index: map<Address, nat>, items: seq<Item>, member: ViewMember)
    requires FieldsMirror(members, fields, items) && GroupsMirror(members, groupTags, chosen, index, items)
    requires member in members
    ensures member.Tag() in TagsOf(items)
  {
    var i :| 0 <= i < |members| && members[i] == member;
    if member.FieldM? {
      FieldTagIn(items, member.field.tag);
      var k :| 0 <= k < |items| && items[k].FieldItem? && items[k].tag == member.field.tag;
      assert TagsOf(items)[k] == member.Tag();
    } else {
      assert MirrorsFirst(member, chosen, index, items);
      var k :| 0 <= k < |items| && items[k] == FirstRef(items, member.countTag, chosen[member.countTag]).value;
      assert TagsOf(items)[k] == member.Tag();
    }
  }

  lemma MemberIsKept(d: Dictionary, part: Part, path: set<Name>, members: seq<ViewMember>, groupTags: set<Tag>,
                     chosen: map<Tag, Address>, index: map<Address, nat>, m: ViewMember)
    requires Homed(part.at, path) && Picks(chosen, LayoutItems(d, part, true, path)) && m in members
    requires GroupsMirror(members, groupTags, chosen, index, ViewItems(d, part, true, path, 0))
    ensures GroupMatches(m, LayoutItems(d, part, true, path), index)
  {
    if m.GroupM? {
      assert MirrorsFirst(m, chosen, index, ViewItems(d, part, true, path, 0));
      ChosenIsFirst(d, part, path, chosen, m.countTag);
    }
  }

  lemma FinishedFieldsMatch(d: Dictionary, part: Part, path: set<Name>, members: seq<ViewMember>, fields: map<Tag, nat>,
                            groupTags: set<Tag>, chosen: map<Tag, Address>, index: map<Address, nat>)
    requires FieldsMirror(members, fields, ViewItems(d, part, true, path, 0))
    requires GroupsMirror(members, groupTags, chosen, index, ViewItems(d, part, true, path, 0))
    ensures FieldsMatch(Unsuperseded(members, groupTags), LayoutItems(d, part, true, path))
  {
    var kept, view, layout := Unsuperseded(members, groupTags), ViewItems(d, part, true, path, 0), LayoutItems(d, part, true, path);
    forall i | 0 <= i < |kept| && kept[i].FieldM?
      ensures kept[i].field.tag in FieldTags(layout)
      ensures kept[i].field.required <==> kept[i].field.tag in RequiredOf(layout)
    {
      assert kept[i] in members;
      MirroredField(members, fields, view, kept[i]);
      SameContributions(d, part, true, path, kept[i].field.tag);
    }
    forall t | t in FieldTags(layout) ensures HasTag(kept, t) {
      SameContributions(d, part, true, path, t);
      FinishedFields(members, fields, groupTags, chosen, index, view, t);
      var m :| m in kept && m.Tag() == t;
    }
  }

  lemma MirroredField(members: seq<ViewMember>, fields: map<Tag, nat>, items: seq<Item>, m: ViewMember)
    requires FieldsMirror(members, fields, items) && m in members && m.FieldM?
    ensures m.field.tag in FieldTags(items) && (m.field.required <==> m.field.tag in RequiredOf(items))
  {
    var i :| 0 <= i < |members| && members[i] == m;
    assert FieldMirror(members, fields, items, m.field.tag);
  }

  lemma SameSortedTags(d: Dictionary, part: Part, path: set<Name>, more: seq<Tag>)
    ensures SortedTags(TagsOf(ViewItems(d, part, true, path, 0)) + more) == SortedTags(TagsOf(LayoutItems(d, part, true, path)) + more)
  {
    var view, layout := ViewItems(d, part, true, path, 0), LayoutItems(d, part, true, path);
    forall t ensures t in TagsOf(view) + more <==> t in TagsOf(layout) + more {
      SameContributions(d, part, true, path, t);
    }
    SameTagsSortAlike(TagsOf(view) + more, TagsOf(layout) + more);
  }

  /** The document-order expansion finishes into the level a layout makes. */
  lemma FinishedIsRight(d: Dictionary, part: Part, path: set<Name>, members: seq<ViewMember>, fields: map<Tag, nat>,
                        groupTags: set<Tag>, tags: seq<Tag>, chosen: map<Tag, Address>, index: map<Address, nat>, delimiter: Option<Tag>)
    requires Homed(part.at, path) && Picks(chosen, LayoutItems(d, part, true, path))
    requires LevelMirrors(members, fields, groupTags, tags, chosen, ViewItems(d, part, true, path, 0), index)
    ensures LevelIsRight(Finished(members, groupTags, tags, delimiter), delimiter, LayoutItems(d, part, true, path), index)
  {
    SameSortedTags(d, part, path, ListOf(delimiter));
    FinishedGroups(d, part, path, members, groupTags, chosen, index);
    forall m | m in Unsuperseded(members, groupTags) ensures GroupMatches(m, LayoutItems(d, part, true, path), index) {
      MemberIsKept(d, part, path, members, groupTags, chosen, index, m);
    }
    FinishedShape(members, fields, groupTags, tags, chosen, ViewItems(d, part, true, path, 0), index, delimiter);
    FinishedFieldsMatch(d, part, path, members, fields, groupTags, chosen, index);
  }
}
