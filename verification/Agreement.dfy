/**
 The two expansions agree: the sites the view generator builds describe, group for group, the level
 trees a layout builds from the same dictionary.
 */
module Agreement {
  import opened Wire
  import opened GroupSpecs
  import opened Sorting
  import opened Schema
  import opened Layout
  import opened Paths
  import opened Scope
  import opened Required
  import References
  import ViewLevels
  import ViewEntries
  import Sites
  import Views

  /** The table of a group, as the walk searches it. */
  function TableOf(group: LayoutGroup): Spec
    decreases group
  {
    Spec(group.countTag, group.delimiter, group.entry.members, TablesIn(group.entry))
  }

  function TablesIn(level: FinishedLevel): seq<Spec>
    decreases level
  {
    TablesOf(level.groups)
  }

  function TablesOf(groups: seq<LayoutGroup>): (tables: seq<Spec>)
    ensures |tables| == |groups| && forall i :: 0 <= i < |groups| ==> tables[i] == TableOf(groups[i])
    decreases groups
  {
    if groups == [] then [] else [TableOf(groups[0])] + TablesOf(groups[1..])
  }

  // ----- a site and a group of a layout -----

  /** The site, nested sites included, is this group: the same tags, the same groups, the same members required. */
  ghost predicate Describes(sites: seq<ViewLevels.Site>, site: nat, group: LayoutGroup)
    decreases group, 1
  {
    && site < |sites|
    && sites[site].countTag == group.countTag && sites[site].delimiter == group.delimiter
    && sites[site].entry.tags == group.entry.members
    && EntryAlike(sites[site].entry.members, group.entry)
    && DescribesAll(sites, sites[site].entry.groups, group.entry)
  }

  ghost predicate DescribesAll(sites: seq<ViewLevels.Site>, slots: seq<ViewLevels.Slot>, level: FinishedLevel)
    decreases level, 0
  {
    && |slots| == |level.groups|
    && forall k :: 0 <= k < |slots| ==> slots[k].countTag == level.groups[k].countTag && Describes(sites, slots[k].site, level.groups[k])
  }

  /**
   The members of an entry are required as in the layout, but for the one that opens it, which every entry
   has, and the data field that one is the length of.
   */
  ghost predicate EntryAlike(members: seq<ViewLevels.ViewMember>, level: FinishedLevel) {
    && members != [] && members[0].SetRequired() == members[0]
    && forall i :: 0 < i < |members| && ViewEntries.PairedData(members[0]) != Some(members[i].Tag()) ==>
         MemberAlike(members[i], level.required, level.groups)
  }

  /** A field is required when it is among these tags, a group when the group of its count tag is. */
  ghost predicate MemberAlike(member: ViewLevels.ViewMember, required: seq<Tag>, groups: seq<LayoutGroup>) {
    match member
    case FieldM(field) => field.required <==> field.tag in required
    case GroupM(countTag, _, isRequired) =>
      match FirstBy(groups, KeyOf, countTag)
      case None => false
      case Some(group) => isRequired == group.required
  }

  /** Two ascending lists with the same keys line up. */
  lemma {:induction false} LinesUp(slots: seq<ViewLevels.Slot>, groups: seq<LayoutGroup>)
    requires AscendingBy(slots, ViewLevels.SlotKey) && AscendingBy(groups, KeyOf)
    requires forall ct: Tag :: FirstBy(slots, ViewLevels.SlotKey, ct).Some? <==> FirstBy(groups, KeyOf, ct).Some?
    ensures |slots| == |groups|
    ensures forall k :: 0 <= k < |slots| ==> slots[k].countTag == groups[k].countTag
  {
    var a, b := Map(ViewLevels.SlotKey, slots), Map(KeyOf, groups);
    forall t: Tag ensures FirstBy(a, Self, t) == FirstBy(b, Self, t) {
      FirstIsIn(slots, ViewLevels.SlotKey, t);
      FirstIsIn(groups, KeyOf, t);
      FirstIsIn(a, Self, t);
      FirstIsIn(b, Self, t);
      assert FirstBy(slots, ViewLevels.SlotKey, t).Some? <==> FirstBy(groups, KeyOf, t).Some?;
    }
    AscendingIsUnique(a, b, Self);
    assert forall k :: 0 <= k < |slots| ==> a[k] == slots[k].countTag && b[k] == groups[k].countTag;
  }

  /** Every group item stands at its address. */
  ghost predicate AllStand(d: Dictionary, items: seq<Item>) {
    forall k :: 0 <= k < |items| && items[k].GroupItem? ==> ViewLevels.DefAt(d, items[k].at) == Some(items[k].def)
  }

  lemma StandConcat(d: Dictionary, a: seq<Item>, b: seq<Item>)
    requires AllStand(d, a) && AllStand(d, b)
    ensures AllStand(d, a + b)
  {
    assert forall k :: 0 <= k < |a + b| ==> (a + b)[k] == if k < |a| then a[k] else b[k - |a|];
  }

  lemma OwnGroupsStand(d: Dictionary, part: Part, required: bool, path: set<Name>, i: nat)
    requires ViewLevels.Stands(d, part) && i <= |part.members|
    ensures AllStand(d, GroupItems(part, required, path, i))
    decreases |part.members| - i
  {
    if i < |part.members| {
      OwnGroupsStand(d, part, required, path, i + 1);
      if part.members[i].GroupRef? {
        ViewLevels.GroupStands(d, part, i);
        StandConcat(d, [OwnItem(part, i, required, path)], GroupItems(part, required, path, i + 1));
      }
    }
  }

  lemma {:induction false} LayoutItemsStand(d: Dictionary, part: Part, required: bool, path: set<Name>)
    requires ViewLevels.Stands(d, part)
    ensures AllStand(d, LayoutItems(d, part, required, path))
    decreases Unvisited(d, path), 2, 0
  {
    var fields, groups := FieldItems(part, required, 0), GroupItems(part, required, path, 0);
    FieldsAreNoGroups(part, required, 0);
    OwnGroupsStand(d, part, required, path, 0);
    ComponentItemsStand(d, part, required, path, 0);
    StandConcat(d, fields, groups);
    StandConcat(d, fields + groups, ComponentItems(d, part, required, path, 0));
  }

  lemma {:induction false} ComponentItemsStand(d: Dictionary, part: Part, required: bool, path: set<Name>, i: nat)
    requires i <= |part.members|
    ensures AllStand(d, ComponentItems(d, part, required, path, i))
    decreases Unvisited(d, path), 1, |part.members| - i
  {
    if i < |part.members| {
      ComponentItemsStand(d, part, required, path, i + 1);
      if part.members[i].ComponentRef? && Enterable(d, part.members[i].name, path) {
        var name, req := part.members[i].name, required && part.members[i].required;
        EnteringShrinks(d, name, path);
        LayoutItemsStand(d, ComponentPart(d, name), req, path + {name});
        StandConcat(d, ReferenceItems(d, name, req, path), ComponentItems(d, part, required, path, i + 1));
      }
    }
  }

  /** The groups a level keeps, in both expansions. */
  lemma LevelsLineUp(d: Dictionary, items: seq<Item>, slots: seq<ViewLevels.Slot>, index: map<Address, nat>)
    requires ViewLevels.SlotsMatch(slots, items, index)
    ensures var groups := SortBy(LayoutGroups(d, items), KeyOf);
            && |slots| == |groups|
            && forall k :: 0 <= k < |slots| ==> slots[k].countTag == groups[k].countTag
  {
    var raw := LayoutGroups(d, items);
    SortByKeepsFirst(raw, KeyOf);
    forall ct: Tag ensures FirstBy(slots, ViewLevels.SlotKey, ct).Some? <==> FirstBy(SortBy(raw, KeyOf), KeyOf, ct).Some? {
      FirstLayoutGroup(d, items, ct);
    }
    LinesUp(slots, SortBy(raw, KeyOf));
  }

  /** The item a slot, and the layout's group in the same place, stand for. */
  lemma SlotIs(d: Dictionary, items: seq<Item>, slots: seq<ViewLevels.Slot>, index: map<Address, nat>, k: nat) returns (item: Item)
    requires ViewLevels.SlotsMatch(slots, items, index) && k < |slots|
    requires |slots| == |SortBy(LayoutGroups(d, items), KeyOf)|
    requires slots[k].countTag == SortBy(LayoutGroups(d, items), KeyOf)[k].countTag
    ensures FirstGroup(items, slots[k].countTag) == Some(item) && item.GroupItem? && item.def.countTag == slots[k].countTag
    ensures item.at in index && slots[k].site == index[item.at]
    ensures SortBy(LayoutGroups(d, items), KeyOf)[k] == GroupOf(d, item)
  {
    var raw, ct := LayoutGroups(d, items), slots[k].countTag;
    SortByKeepsFirst(raw, KeyOf);
    FirstInAscending(slots, ViewLevels.SlotKey, k);
    FirstInAscending(SortBy(raw, KeyOf), KeyOf, k);
    FirstLayoutGroup(d, items, ct);
    item := FirstGroup(items, ct).value;
  }

  // ----- a site seen from where a layout meets its definition -----

  lemma SlotsMatchAlike(slots: seq<ViewLevels.Slot>, a: seq<Item>, b: seq<Item>, index: map<Address, nat>)
    requires ViewLevels.SlotsMatch(slots, a, index) && AllAlike(a, b)
    ensures ViewLevels.SlotsMatch(slots, b, index)
  {
    forall ct: Tag ensures match FirstGroup(b, ct)
                           case None => FirstBy(slots, ViewLevels.SlotKey, ct) == None
                           case Some(item) =>
                             item.at in index && FirstBy(slots, ViewLevels.SlotKey, ct) == Some(ViewLevels.Slot(ct, index[item.at]))
    {
      AlikeFirst(a, b, ct);
    }
  }

  lemma FieldTagsAlike(a: seq<Item>, b: seq<Item>)
    requires AllAlike(a, b)
    ensures ViewLevels.FieldTags(a) == ViewLevels.FieldTags(b)
  {
    if a != [] {
      assert forall k :: 0 <= k < |a[1..]| ==> a[1..][k] == a[k + 1] && b[1..][k] == b[k + 1];
      assert Alike(a[0], b[0]);
      FieldTagsAlike(a[1..], b[1..]);
    }
  }

  lemma EntryRightAlike(entry: ViewLevels.ViewLevel, delimiter: Tag, a: seq<Item>, b: seq<Item>, index: map<Address, nat>)
    requires ViewEntries.EntryIsRight(entry, delimiter, a, index) && AllAlike(a, b)
    ensures ViewEntries.EntryIsRight(entry, delimiter, b, index)
  {
    AlikeLists(a, b);
    FieldTagsAlike(a, b);
    SlotsMatchAlike(entry.groups, a, b, index);
    forall i | 0 < i < |entry.members| && ViewEntries.PairedData(entry.members[0]) != Some(entry.members[i].Tag())
      ensures ViewLevels.GroupMatches(entry.members[i], b, index)
    {
      assert ViewLevels.GroupMatches(entry.members[i], a, index);
      AlikeFirst(a, b, entry.members[i].Tag());
    }
  }

  /** Wherever a definition is met without the path guard being met, its site is right. */
  lemma SiteRightThere(d: Dictionary, sites: seq<ViewLevels.Site>, paths: seq<set<Name>>, index: map<Address, nat>, item: Item)
    requires Sites.SitesAreRight(d, sites, paths, index, {}) && item.GroupItem? && item.at in index
    requires ViewLevels.DefAt(d, item.at) == Some(item.def) && Unguarded(d, item.def.members, item.path)
    ensures var site := sites[index[item.at]];
            && site.countTag == item.def.countTag && site.delimiter == item.def.delimiter
            && ViewEntries.EntryIsRight(site.entry, item.def.delimiter, EntryItems(d, item), index)
  {
    var i, part := index[item.at], Part(item.at, item.def.members);
    assert Sites.SiteStands(d, sites[i]) && Sites.SiteIsRight(d, sites[i], paths[i], index);
    LayoutAlike(d, part, true, paths[i], item.path);
    EntryRightAlike(sites[i].entry, item.def.delimiter, LayoutItems(d, part, true, paths[i]), EntryItems(d, item), index);
  }

  lemma EntryRequiresAlike(d: Dictionary, item: Item, entry: ViewLevels.ViewLevel, index: map<Address, nat>)
    requires item.GroupItem? && ViewEntries.EntryIsRight(entry, item.def.delimiter, EntryItems(d, item), index)
    ensures EntryAlike(entry.members, GroupOf(d, item).entry)
  {
    var items, level := EntryItems(d, item), GroupOf(d, item).entry;
    EntryIs(d, item.at, item.def, item.path);
    RetainKeepsEachOnce(RequiredOf(items), item.def.delimiter, {});
    SortByKeepsFirst(LayoutGroups(d, items), KeyOf);
    forall i | 0 < i < |entry.members| && ViewEntries.PairedData(entry.members[0]) != Some(entry.members[i].Tag())
      ensures MemberAlike(entry.members[i], level.required, level.groups)
    {
      assert entry.members[0].Tag() != entry.members[i].Tag();
      if entry.members[i].GroupM? {
        assert ViewLevels.GroupMatches(entry.members[i], items, index);
        FirstLayoutGroup(d, items, entry.members[i].countTag);
      }
    }
  }

  /** A site describes the layout's group, all the way down. */
  lemma {:induction false} SiteDescribed(d: Dictionary, sites: seq<ViewLevels.Site>, paths: seq<set<Name>>, index: map<Address, nat>,
                                         item: Item)
    requires Sites.SitesAreRight(d, sites, paths, index, {}) && item.GroupItem? && item.at in index
    requires ViewLevels.DefAt(d, item.at) == Some(item.def) && EntryUnguarded(d, item)
    ensures Describes(sites, index[item.at], GroupOf(d, item))
    decreases Unvisited(d, item.path), Size(item.def.members), 1
  {
    var site, items, group := sites[index[item.at]], EntryItems(d, item), GroupOf(d, item);
    SiteRightThere(d, sites, paths, index, item);
    EntryRequiresAlike(d, item, site.entry, index);
    EntryIs(d, item.at, item.def, item.path);
    SameTagsSortAlike(TagsOf(items) + [item.def.delimiter], [item.def.delimiter] + TagsOf(items));
    LevelsLineUp(d, items, site.entry.groups, index);
    forall k | 0 <= k < |site.entry.groups| ensures Describes(sites, site.entry.groups[k].site, group.entry.groups[k]) {
      SlotDescribed(d, sites, paths, index, item, site.entry.groups, k);
    }
    assert DescribesAll(sites, site.entry.groups, group.entry);
  }

  lemma {:induction false} SlotDescribed(d: Dictionary, sites: seq<ViewLevels.Site>, paths: seq<set<Name>>, index: map<Address, nat>,
                                         item: Item, slots: seq<ViewLevels.Slot>, k: nat)
    requires Sites.SitesAreRight(d, sites, paths, index, {}) && item.GroupItem?
    requires ViewLevels.DefAt(d, item.at) == Some(item.def) && EntryUnguarded(d, item)
    requires ViewLevels.SlotsMatch(slots, EntryItems(d, item), index) && k < |slots|
    ensures |slots| == |SortBy(LayoutGroups(d, EntryItems(d, item)), KeyOf)|
    ensures Describes(sites, slots[k].site, SortBy(LayoutGroups(d, EntryItems(d, item)), KeyOf)[k])
    decreases Unvisited(d, item.path), Size(item.def.members), 0
  {
    var items := EntryItems(d, item);
    LayoutItemsStand(d, Part(item.at, item.def.members), true, item.path);
    ItemsAreBelow(d, Part(item.at, item.def.members), true, item.path);
    LevelsLineUp(d, items, slots, index);
    var inner := SlotIs(d, items, slots, index, k);
    assert KeptBelow(d, item, items);
    SiteDescribed(d, sites, paths, index, inner);
  }

  /** A level's groups describe the layout's. */
  lemma LevelDescribed(d: Dictionary, sites: seq<ViewLevels.Site>, paths: seq<set<Name>>, index: map<Address, nat>, items: seq<Item>,
                       slots: seq<ViewLevels.Slot>, k: nat)
    requires Sites.SitesAreRight(d, sites, paths, index, {}) && KeptUnguarded(d, items) && AllStand(d, items)
    requires ViewLevels.SlotsMatch(slots, items, index)
    ensures |slots| == |SortBy(LayoutGroups(d, items), KeyOf)|
    ensures k < |slots| ==>
              && slots[k].countTag == SortBy(LayoutGroups(d, items), KeyOf)[k].countTag
              && Describes(sites, slots[k].site, SortBy(LayoutGroups(d, items), KeyOf)[k])
  {
    LevelsLineUp(d, items, slots, index);
    if k < |slots| {
      var item := SlotIs(d, items, slots, index, k);
      SiteDescribed(d, sites, paths, index, item);
    }
  }

  // ----- messages -----

  function MessageItems(d: Dictionary, name: Name): seq<Item>
    requires name in d.messages
  {
    Views.EnvelopeGroups(d) + Views.BodyItems(d, name)
  }

  /** Expanding the groups the message's layout keeps, at any level, never meets the path guard. */
  ghost predicate MessageIsUnguarded(d: Dictionary, name: Name) {
    name in d.messages && KeptUnguarded(d, MessageItems(d, name))
  }

  /** So it is when the header, the trailer and the message resolve without a cycle. */
  lemma GroundedIsUnguarded(d: Dictionary, name: Name)
    requires name in d.messages && Grounded(d, d.header) && Grounded(d, d.trailer) && Grounded(d, d.messages[name])
    ensures MessageIsUnguarded(d, name) && KeptUnguarded(d, Views.BodyItems(d, name))
  {
    var header, trailer, body := Part(Address(Header, []), d.header), Part(Address(Trailer, []), d.trailer),
                                 Part(Address(Body(name), []), d.messages[name]);
    var h: nat :| Done(d, d.header, h);
    var t: nat :| Done(d, d.trailer, t);
    var b: nat :| Done(d, d.messages[name], b);
    assert Lower(d, d.header, {}, h) && Lower(d, d.trailer, {}, t) && Lower(d, d.messages[name], {}, b);
    OwnGroupsAreFree(d, header, true, {}, h, 0);
    OwnGroupsAreFree(d, trailer, true, {}, t, 0);
    ItemsAreFree(d, body, true, {}, b);
    AllFreeConcat(d, GroupItems(header, true, {}, 0), GroupItems(trailer, true, {}, 0));
    AllFreeConcat(d, Views.EnvelopeGroups(d), Views.BodyItems(d, name));
    FreeItemsAreUnguarded(d, MessageItems(d, name));
    FreeItemsAreUnguarded(d, Views.BodyItems(d, name));
  }

  lemma RawEnvelopeIs(d: Dictionary)
    ensures RawEnvelope(d).groups == LayoutGroups(d, Views.EnvelopeGroups(d))
  {
    var header := GroupItems(Part(Address(Header, []), d.header), true, {}, 0);
    var trailer := GroupItems(Part(Address(Trailer, []), d.trailer), true, {}, 0);
    LayoutGroupsConcat(d, header, trailer);
    assert RawOwn(d, Header, d.header).groups == [] + LayoutGroups(d, header) == LayoutGroups(d, header);
    assert RawOwn(d, Trailer, d.trailer).groups == [] + LayoutGroups(d, trailer) == LayoutGroups(d, trailer);
    assert [] + LayoutGroups(d, header) == LayoutGroups(d, header);
  }

  /** The layout's message-level groups, as the groups of one list of items. */
  lemma MessageGroupsAre(d: Dictionary, name: Name)
    requires name in d.messages
    ensures AllStand(d, MessageItems(d, name))
    ensures MessageLevel(d, d, name, d.messages[name]).groups == SortBy(LayoutGroups(d, MessageItems(d, name)), KeyOf)
  {
    RawEnvelopeIs(d);
    LayoutGroupsConcat(d, Views.EnvelopeGroups(d), Views.BodyItems(d, name));
    Views.EnvelopeStands(d);
    LayoutItemsStand(d, Part(Address(Body(name), []), d.messages[name]), true, {});
    StandConcat(d, Views.EnvelopeGroups(d), Views.BodyItems(d, name));
  }

  lemma MessageTagsAre(d: Dictionary, name: Name, message: Views.MessageModel, index: map<Address, nat>)
    requires name in d.messages && Views.MessageIsRight(d, name, message, index)
    ensures message.tags == MessageLevel(d, d, name, d.messages[name]).members
  {
    var part := Part(Address(Body(name), []), d.messages[name]);
    var header, trailer := Part(Address(Header, []), d.header), Part(Address(Trailer, []), d.trailer);
    var items := Views.BodyItems(d, name);
    TagsConcat(GroupItems(header, true, {}, 0), GroupItems(trailer, true, {}, 0));
    SortedTagsAre(TagsOf(items) + []);
    var mine := TagsOf(FieldItems(header, true, 0)) + TagsOf(FieldItems(trailer, true, 0))
                + TagsOf(Views.EnvelopeGroups(d)) + message.body.tags;
    var raw := Plus(RawEnvelope(d), RawPart(d, part, true, {}));
    assert raw.members == [] + (TagsOf(FieldItems(header, true, 0)) + TagsOf(GroupItems(header, true, {}, 0)))
                          + (TagsOf(FieldItems(trailer, true, 0)) + TagsOf(GroupItems(trailer, true, {}, 0))) + TagsOf(items);
    SameTagsSortAlike(mine, raw.members);
  }

  /**
   The body's members are required as in the layout's own expansion of the body, header and trailer left
   aside.
   */
  ghost predicate BodyAlike(d: Dictionary, name: Name, members: seq<ViewLevels.ViewMember>)
    requires name in d.messages
  {
    var raw := RawPart(d, Part(Address(Body(name), []), d.messages[name]), true, {});
    forall m :: m in members ==> MemberAlike(m, raw.required, raw.groups)
  }

  lemma BodyRequiresAlike(d: Dictionary, name: Name, message: Views.MessageModel, index: map<Address, nat>)
    requires name in d.messages && Views.MessageIsRight(d, name, message, index)
    ensures BodyAlike(d, name, message.body.members)
  {
    var items := Views.BodyItems(d, name);
    forall m | m in message.body.members ensures MemberAlike(m, RequiredOf(items), LayoutGroups(d, items)) {
      if m.GroupM? {
        assert ViewLevels.GroupMatches(m, items, index);
        FirstLayoutGroup(d, items, m.countTag);
      }
    }
  }

  /** What the generator made of a message agrees with its layout, at the message level and in its `k`th group. */
  ghost predicate Agrees(d: Dictionary, name: Name, message: Views.MessageModel, sites: seq<ViewLevels.Site>, k: nat)
    requires name in d.messages
  {
    var level := MessageLevel(d, d, name, d.messages[name]);
    && message.tags == level.members && BodyAlike(d, name, message.body.members)
    && |message.top| == |level.groups|
    && (k < |message.top| ==> message.top[k].countTag == level.groups[k].countTag && Describes(sites, message.top[k].site, level.groups[k]))
  }

  /**
   What the generator makes of a message agrees with its layout: the same sorted tags at the message
   level, and at that level and in every entry below it the same group definition for every count tag and
   the same members required.
   */
  lemma ExpansionsAgree(d: Dictionary, name: Name, message: Views.MessageModel, sites: seq<ViewLevels.Site>, paths: seq<set<Name>>,
                        index: map<Address, nat>, k: nat)
    requires MessageIsUnguarded(d, name) && Sites.SitesAreRight(d, sites, paths, index, {})
    requires Views.MessageIsRight(d, name, message, index)
    ensures Agrees(d, name, message, sites, k)
  {
    MessageGroupsAre(d, name);
    MessageTagsAre(d, name, message, index);
    BodyRequiresAlike(d, name, message, index);
    LevelDescribed(d, sites, paths, index, MessageItems(d, name), message.top, k);
  }

  /** A writer requires a field of the body exactly when a chain of required references leads to it. */
  lemma WriterRequiresByPaths(d: Dictionary, name: Name, message: Views.MessageModel, index: map<Address, nat>, i: nat)
    requires name in d.messages && Views.MessageIsRight(d, name, message, index)
    requires i < |message.body.members| && message.body.members[i].FieldM?
    ensures message.body.members[i].field.required <==> IsRequired(d, d.messages[name], message.body.members[i].field.tag)
  {
    var tag := message.body.members[i].field.tag;
    RequiredByPaths(d, Part(Address(Body(name), []), d.messages[name]), true, {}, tag);
    LeadsFromOutside(d, d.messages[name], Holding(tag), true);
  }

  /** The error is a fault of the header, of the trailer, or of one of the messages. */
  ghost predicate Blames(d: Dictionary, names: seq<Name>, error: References.GeneratorError)
    requires forall n :: n in names ==> n in d.messages
  {
    || References.Justified(d, d.header, error) || References.Justified(d, d.trailer, error)
    || exists n :: 0 <= n < |names| && References.Justified(d, d.messages[names[n]], error)
  }

  /** Every message is what its layout makes of it, its fields of their definitions' kinds. */
  ghost predicate AllMade(d: Dictionary, names: seq<Name>, messages: seq<Views.MessageModel>, index: map<Address, nat>) {
    && |messages| <= |names|
    && forall n :: 0 <= n < |messages| ==>
         && names[n] in d.messages
         && Views.MessageIsRight(d, names[n], messages[n], index) && ViewLevels.Typed(d, messages[n].body.members)
  }

  lemma AllMadeNext(d: Dictionary, names: seq<Name>, messages: seq<Views.MessageModel>, message: Views.MessageModel,
                    a: map<Address, nat>, b: map<Address, nat>)
    requires AllMade(d, names, messages, a) && ViewLevels.Grows(a, b) && |messages| < |names| && names[|messages|] in d.messages
    requires Views.MessageIsRight(d, names[|messages|], message, b) && ViewLevels.Typed(d, message.body.members)
    ensures AllMade(d, names, messages + [message], b)
  {
    forall n | 0 <= n < |messages| ensures Views.MessageIsRight(d, names[n], messages[n], b) {
      RightGrows(d, names[n], messages[n], a, b);
    }
  }

  lemma RightGrows(d: Dictionary, name: Name, message: Views.MessageModel, a: map<Address, nat>, b: map<Address, nat>)
    requires name in d.messages && Views.MessageIsRight(d, name, message, a) && ViewLevels.Grows(a, b)
    ensures Views.MessageIsRight(d, name, message, b)
  {
    Sites.LevelGrows(message.body, None, Views.BodyItems(d, name), a, b);
    Sites.SlotsMatchGrows(message.top, MessageItems(d, name), a, b);
  }

  lemma AllAgree(d: Dictionary, names: seq<Name>, messages: seq<Views.MessageModel>, sites: seq<ViewLevels.Site>,
                 paths: seq<set<Name>>, index: map<Address, nat>)
    requires AllMade(d, names, messages, index) && Sites.SitesAreRight(d, sites, paths, index, {})
    ensures forall n, k :: 0 <= n < |messages| && MessageIsUnguarded(d, names[n]) ==> Agrees(d, names[n], messages[n], sites, k)
  {
    forall n, k | 0 <= n < |messages| && MessageIsUnguarded(d, names[n]) ensures Agrees(d, names[n], messages[n], sites, k) {
      ExpansionsAgree(d, names[n], messages[n], sites, paths, index, k);
    }
  }

  /** Generates every message, one after another, over one set of sites. */
  method Generate(d: Dictionary, names: seq<Name>)
    returns (error: Option<References.GeneratorError>, messages: seq<Views.MessageModel>, sites: seq<ViewLevels.Site>,
             ghost paths: seq<set<Name>>, ghost index: map<Address, nat>)
    requires forall n :: n in names ==> n in d.messages
    ensures error.None? ==> |messages| == |names| && AllMade(d, names, messages, index)
    ensures error.None? ==> Sites.SitesAreRight(d, sites, paths, index, {})
    ensures error.None? ==> forall n, k :: 0 <= n < |names| && MessageIsUnguarded(d, names[n]) ==>
              Agrees(d, names[n], messages[n], sites, k)
    ensures error.Some? ==> Blames(d, names, error.value)
  {
    var builder := new Views.Builder(d);
    sites, messages, paths, index := [], [], [], map[];
    var envelope;
    error, envelope := builder.Envelope();
    if error.Some? {
      return;
    }
    for n := 0 to |names|
      invariant builder.Valid() && builder.open == {} && builder.dict == d && |messages| == n
      invariant Views.ListMatches(envelope, Views.EnvelopeGroups(d), builder.siteIndex)
      invariant AllMade(d, names, messages, builder.siteIndex)
    {
      ghost var before := builder.siteIndex;
      var message := builder.Message(names[n], envelope);
      if message.Err? {
        return Some(message.error), messages, [], [], map[];
      }
      AllMadeNext(d, names, messages, message.value, before, builder.siteIndex);
      messages := messages + [message.value];
    }
    AllAgree(d, names, messages, builder.sites, builder.paths, builder.siteIndex);
    return None, messages, builder.sites, builder.paths, builder.siteIndex;
  }
}
