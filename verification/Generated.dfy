/**
 From the view generator to its writers: the levels it builds, read as trees, are the well-formed
 levels the round trip is proved for, and their tables are the layout's.
 */
module Generated {
  import opened Wire
  import opened GroupSpecs
  import opened Levels
  import S = Schema
  import Sorting
  import Layout
  import Paths
  import ViewLevels
  import ViewEntries
  import Sites
  import Views
  import Agreement

  // ----- sites read as trees -----

  /** The tree is the level with every group replaced by what its site holds. */
  ghost predicate Unfolds(sites: seq<ViewLevels.Site>, level: ViewLevels.ViewLevel, tree: Level)
    decreases tree, 2
  {
    && tree.tags == level.tags
    && UnfoldsMembers(sites, level.members, tree.members)
    && |tree.groups| == |level.groups|
    && forall k :: 0 <= k < |tree.groups| ==>
         tree.groups[k].countTag == level.groups[k].countTag && GroupM(tree.groups[k]) in tree.members
  }

  ghost predicate UnfoldsMembers(sites: seq<ViewLevels.Site>, members: seq<ViewLevels.ViewMember>, tree: seq<Member>)
    decreases tree, 1
  {
    |tree| == |members| && forall i :: 0 <= i < |members| ==> UnfoldsMember(sites, members[i], tree[i])
  }

  ghost predicate UnfoldsMember(sites: seq<ViewLevels.Site>, member: ViewLevels.ViewMember, tree: Member)
    decreases tree, 0
  {
    match member
    case FieldM(field) => tree == FieldM(field)
    case GroupM(countTag, site, required) =>
      && tree.GroupM? && tree.group.countTag == countTag && tree.group.required == required
      && UnfoldsGroup(sites, site, tree.group)
  }

  ghost predicate UnfoldsGroup(sites: seq<ViewLevels.Site>, site: nat, group: GroupMember)
    decreases group, 0
  {
    site < |sites| && group.countTag == sites[site].countTag && group.delimiter == sites[site].delimiter
    && UnfoldsEntry(sites, sites[site].entry, group.entry)
  }

  ghost predicate UnfoldsEntry(sites: seq<ViewLevels.Site>, level: ViewLevels.ViewLevel, tree: Level)
    decreases tree, 3
  {
    Unfolds(sites, level, tree)
  }

  // ----- paired fields -----

  /** Every length frames one data field of its level, and every data field is framed by one length. */
  predicate PairsMatch(members: seq<Member>) {
    LengthsFrame(members) && DataIsFramed(members)
  }

  predicate LengthsFrame(members: seq<Member>) {
    forall i :: 0 <= i < |members| && IsLength(members[i]) ==> exists j :: 0 <= j < |members| && Frames(members[i], members[j])
  }

  predicate DataIsFramed(members: seq<Member>) {
    forall j :: 0 <= j < |members| && IsData(members[j]) ==> exists i :: 0 <= i < |members| && Frames(members[i], members[j])
  }

  predicate IsData(member: Member) {
    member.FieldM? && member.field.kind.Bytes? && member.field.pair.DataOf?
  }

  predicate Frames(length: Member, data: Member) {
    && IsLength(length) && IsData(data)
    && length.field.pair.data == data.field.tag && data.field.pair.length == length.field.tag
  }

  ghost predicate PairsMatchThroughout(tree: Level)
    decreases tree, 1
  {
    PairsMatch(tree.members) && PairsMatchBelow(tree.groups)
  }

  ghost predicate PairsMatchBelow(groups: seq<GroupMember>)
    decreases groups, 0
  {
    forall k :: 0 <= k < |groups| ==> PairsMatchInGroup(groups[k])
  }

  ghost predicate PairsMatchInGroup(group: GroupMember)
    decreases group, 0
  {
    PairsMatchThroughout(group.entry)
  }

  // ----- what a writer writes of distinct, matching members -----

  predicate DistinctMembers(members: seq<Member>) {
    forall i, j :: 0 <= i < j < |members| ==> members[i].Tag() != members[j].Tag()
  }

  lemma SameTagSameMember(members: seq<Member>, a: Member, b: Member)
    requires DistinctMembers(members) && a in members && b in members && a.Tag() == b.Tag()
    ensures a == b
  {
  }

  lemma {:induction false} TakenAreDistinct(members: seq<Member>)
    requires DistinctMembers(members)
    ensures DistinctMembers(WriterMembers(members))
  {
    if members != [] {
      var rest := WriterMembers(members[1..]);
      assert forall i :: 0 <= i < |members[1..]| ==> members[1..][i] == members[i + 1];
      TakenAreDistinct(members[1..]);
      forall j | 0 <= j < |rest| ensures rest[j].Tag() != members[0].Tag() {
        assert rest[j] in rest;
        var k :| 0 <= k < |members[1..]| && members[1..][k] == rest[j];
        assert members[k + 1] == rest[j];
      }
    }
  }

  /** The length written ahead of a data field is a member of the level that the writer does not take. */
  lemma LengthIsNotTaken(members: seq<Member>, data: Member)
    requires DistinctMembers(members) && DataIsFramed(members) && data in members && IsData(data)
    ensures exists l :: l in members && Frames(l, data)
    ensures forall m :: m in WriterMembers(members) ==> m.Tag() != data.field.pair.length
  {
    var j :| 0 <= j < |members| && members[j] == data;
    var i :| 0 <= i < |members| && Frames(members[i], members[j]);
    var l := members[i];
    assert l !in WriterMembers(members);
    forall m | m in WriterMembers(members) ensures m.Tag() != l.Tag() {
      if m.Tag() == l.Tag() {
        SameTagSameMember(members, m, l);
      }
    }
  }

  lemma OneLengthEach(members: seq<Member>, a: Member, b: Member)
    requires DistinctMembers(members) && DataIsFramed(members)
    requires a in members && b in members && IsData(a) && IsData(b) && a.field.pair.length == b.field.pair.length
    ensures a == b
  {
    LengthIsNotTaken(members, a);
    LengthIsNotTaken(members, b);
    var la :| la in members && Frames(la, a);
    var lb :| lb in members && Frames(lb, b);
    SameTagSameMember(members, la, lb);
    SameTagSameMember(members, a, b);
  }

  /** Two different members taken are written under different tags. */
  lemma WrittenApart(members: seq<Member>, a: Member, b: Member, s: nat, t: nat)
    requires DistinctMembers(members) && DataIsFramed(members)
    requires a in WriterMembers(members) && b in WriterMembers(members) && a.Tag() != b.Tag()
    requires s < |WrittenTags(a)| && t < |WrittenTags(b)|
    ensures WrittenTags(a)[s] != WrittenTags(b)[t]
  {
    WrittenIs(a, s);
    WrittenIs(b, t);
    if IsData(a) {
      LengthIsNotTaken(members, a);
    }
    if IsData(b) {
      LengthIsNotTaken(members, b);
    }
    if IsData(a) && IsData(b) && a.field.pair.length == b.field.pair.length {
      OneLengthEach(members, a, b);
    }
  }

  /** A member is written under its own tag, a data field under its length's too. */
  lemma WrittenIs(m: Member, s: nat)
    requires s < |WrittenTags(m)|
    ensures WrittenTags(m)[s] == m.Tag() || (IsData(m) && WrittenTags(m)[s] == m.field.pair.length)
  {
  }

  lemma OwnTagsApart(members: seq<Member>, a: Member)
    requires DistinctMembers(members) && DataIsFramed(members) && a in WriterMembers(members)
    ensures NoDuplicates(WrittenTags(a))
  {
    if IsData(a) {
      LengthIsNotTaken(members, a);
    }
  }

  lemma {:induction false} WrittenOnce(members: seq<Member>, taken: seq<Member>)
    requires DistinctMembers(members) && DataIsFramed(members) && DistinctMembers(taken)
    requires forall m :: m in taken ==> m in WriterMembers(members)
    ensures NoDuplicates(AllWrittenTags(taken))
  {
    if taken != [] {
      var a, rest := taken[0], taken[1..];
      assert forall i :: 0 <= i < |rest| ==> rest[i] == taken[i + 1];
      WrittenOnce(members, rest);
      OwnTagsApart(members, a);
      forall s, t | 0 <= s < |WrittenTags(a)| && 0 <= t < |AllWrittenTags(rest)|
        ensures WrittenTags(a)[s] != AllWrittenTags(rest)[t]
      {
        var k, u := WrittenBy(rest, t);
        WrittenApart(members, a, rest[k], s, u);
      }
    }
  }

  /** Which member a written tag belongs to. */
  lemma {:induction false} WrittenBy(taken: seq<Member>, t: nat) returns (k: nat, u: nat)
    requires t < |AllWrittenTags(taken)|
    ensures k < |taken| && u < |WrittenTags(taken[k])| && AllWrittenTags(taken)[t] == WrittenTags(taken[k])[u]
  {
    var first := WrittenTags(taken[0]);
    if t < |first| {
      k, u := 0, t;
    } else {
      k, u := WrittenBy(taken[1..], t - |first|);
      k := k + 1;
    }
  }

  lemma WrittenTagIsMembers(members: seq<Member>, tags: seq<Tag>, m: Member, u: nat)
    requires DistinctMembers(members) && DataIsFramed(members) && m in members
    requires forall n :: n in members ==> n.Tag() in tags
    requires u < |WrittenTags(m)|
    ensures WrittenTags(m)[u] in tags
  {
    if IsData(m) {
      LengthIsNotTaken(members, m);
      var l :| l in members && Frames(l, m);
      assert l.Tag() in tags;
    }
  }

  lemma WrittenWithin(members: seq<Member>, tags: seq<Tag>)
    requires DistinctMembers(members) && DataIsFramed(members)
    requires forall i :: 0 <= i < |members| ==> members[i].Tag() in tags
    ensures AllIn(AllWrittenTags(WriterMembers(members)), tags)
  {
    var taken := WriterMembers(members);
    forall t | 0 <= t < |AllWrittenTags(taken)| ensures AllWrittenTags(taken)[t] in tags {
      var k, u := WrittenBy(taken, t);
      assert taken[k] in taken;
      WrittenTagIsMembers(members, tags, taken[k], u);
    }
  }

  // ----- the trees are well-formed -----

  lemma UnfoldedTags(sites: seq<ViewLevels.Site>, level: ViewLevels.ViewLevel, tree: Level)
    requires Unfolds(sites, level, tree)
    ensures |tree.members| == |level.members|
    ensures forall i :: 0 <= i < |tree.members| ==> tree.members[i].Tag() == level.members[i].Tag()
  {
    assert UnfoldsMembers(sites, level.members, tree.members);
    forall i | 0 <= i < |tree.members| ensures tree.members[i].Tag() == level.members[i].Tag() {
      assert UnfoldsMember(sites, level.members[i], tree.members[i]);
    }
  }

  /** Group members and groups of the tree are the same ones. */
  lemma UnfoldedGroups(sites: seq<ViewLevels.Site>, level: ViewLevels.ViewLevel, tree: Level, g: GroupMember)
    requires Unfolds(sites, level, tree) && ViewLevels.Shape(level)
    ensures g in tree.groups <==> GroupM(g) in tree.members
  {
    UnfoldedTags(sites, level, tree);
    if GroupM(g) in tree.members {
      var i :| 0 <= i < |tree.members| && tree.members[i] == GroupM(g);
      assert UnfoldsMembers(sites, level.members, tree.members) && UnfoldsMember(sites, level.members[i], tree.members[i]);
      var slot := ViewLevels.Slot(g.countTag, level.members[i].site);
      assert ViewLevels.IsSlot(level.members[i], slot);
      assert ViewLevels.HasSlot(level.members, slot) && slot in level.groups;
      var k :| 0 <= k < |level.groups| && level.groups[k] == slot;
      SameTagSameMember(tree.members, GroupM(tree.groups[k]), GroupM(g));
    }
  }

  /** The shape of a level, and its matching pairs, make what a writer writes of it distinct. */
  lemma UnfoldedIsLocallyWellFormed(sites: seq<ViewLevels.Site>, level: ViewLevels.ViewLevel, tree: Level)
    requires Unfolds(sites, level, tree) && ViewLevels.Shape(level) && PairsMatch(tree.members)
    requires Ascending(level.tags) && Sorting.AscendingBy(level.groups, ViewLevels.SlotKey)
    ensures NoDuplicates(AllWrittenTags(WriterMembers(tree.members)))
    ensures AllIn(AllWrittenTags(WriterMembers(tree.members)), tree.tags)
    ensures Ascending(tree.tags) && Ascending(GroupTags(tree.groups))
    ensures forall g :: g in tree.groups <==> GroupM(g) in tree.members
  {
    UnfoldedTags(sites, level, tree);
    TakenAreDistinct(tree.members);
    WrittenOnce(tree.members, WriterMembers(tree.members));
    WrittenWithin(tree.members, tree.tags);
    forall g ensures g in tree.groups <==> GroupM(g) in tree.members {
      UnfoldedGroups(sites, level, tree, g);
    }
  }

  /** The first thing written of an entry is its delimiter, whatever carries it. */
  lemma EntryOpens(sites: seq<ViewLevels.Site>, entry: ViewLevels.ViewLevel, tree: Level, delimiter: Tag, items: seq<S.Item>,
                   index: map<S.Address, nat>)
    requires Unfolds(sites, entry, tree) && PairsMatch(tree.members)
    requires ViewEntries.EntryIsRight(entry, delimiter, items, index)
    ensures Opens(tree, delimiter)
  {
    UnfoldedTags(sites, entry, tree);
    assert UnfoldsMembers(sites, entry.members, tree.members) && UnfoldsMember(sites, entry.members[0], tree.members[0]);
    var first := tree.members[0];
    if IsLength(first) {
      DataIsWrittenFirst(sites, entry, tree, items);
    } else {
      assert WriterMembers(tree.members)[0] == first;
    }
  }

  lemma DataIsWrittenFirst(sites: seq<ViewLevels.Site>, entry: ViewLevels.ViewLevel, tree: Level, items: seq<S.Item>)
    requires Unfolds(sites, entry, tree) && LengthsFrame(tree.members) && entry.members != []
    requires ViewEntries.EntryFields(entry.members, items)
    requires |tree.members| == |entry.members| && IsLength(tree.members[0])
    ensures Opens(tree, tree.members[0].Tag())
  {
    assert UnfoldsMembers(sites, entry.members, tree.members) && UnfoldsMember(sites, entry.members[0], tree.members[0]);
    var j :| 0 <= j < |tree.members| && Frames(tree.members[0], tree.members[j]);
    assert UnfoldsMember(sites, entry.members[j], tree.members[j]);
    assert j == 1 && tree.members[1].field.required;
    var taken := WriterMembers(tree.members);
    assert WriterMembers(tree.members[1..])[0] == tree.members[1];
    assert taken[0] == tree.members[1];
  }

  /** Every group the sites describe is well-formed, all the way down. */
  lemma {:induction false} GeneratedGroupIsWellFormed(d: S.Dictionary, sites: seq<ViewLevels.Site>, paths: seq<set<S.Name>>,
                                                      index: map<S.Address, nat>, at: S.Address, def: S.GroupDef, group: GroupMember)
    requires Sites.SitesAreRight(d, sites, paths, index, {}) && at in index && ViewLevels.DefAt(d, at) == Some(def)
    requires UnfoldsGroup(sites, index[at], group) && PairsMatchThroughout(group.entry)
    ensures WfGroup(group)
    decreases group, 0
  {
    var site, path, part := sites[index[at]], paths[index[at]], S.Part(at, def.members);
    var items := S.LayoutItems(d, part, true, path);
    assert Sites.SiteStands(d, site) && Sites.SiteIsRight(d, site, path, index);
    assert UnfoldsEntry(sites, site.entry, group.entry) && Unfolds(sites, site.entry, group.entry);
    Sorting.SortedTagsAre(Layout.TagsOf(items) + [site.delimiter]);
    GeneratedLevelIsWellFormed(d, sites, paths, index, part, path, site.entry, group.entry);
    EntryOpens(sites, site.entry, group.entry, site.delimiter, items, index);
  }

  /** A level with a layout's groups unfolds into a well-formed tree wherever its lengths and data match. */
  lemma {:induction false} GeneratedLevelIsWellFormed(d: S.Dictionary, sites: seq<ViewLevels.Site>, paths: seq<set<S.Name>>,
                                                      index: map<S.Address, nat>, part: S.Part, path: set<S.Name>,
                                                      level: ViewLevels.ViewLevel, tree: Level)
    requires Sites.SitesAreRight(d, sites, paths, index, {}) && ViewLevels.Stands(d, part)
    requires ViewLevels.Shape(level) && ViewLevels.SlotsMatch(level.groups, S.LayoutItems(d, part, true, path), index)
    requires Ascending(level.tags) && Unfolds(sites, level, tree) && PairsMatchThroughout(tree)
    ensures WfLevel(tree)
    decreases tree, 0
  {
    UnfoldedIsLocallyWellFormed(sites, level, tree);
    forall k | 0 <= k < |tree.groups| ensures WfGroup(tree.groups[k]) {
      NestedIsWellFormed(d, sites, paths, index, part, path, level, tree, k);
    }
  }

  lemma {:induction false} NestedIsWellFormed(d: S.Dictionary, sites: seq<ViewLevels.Site>, paths: seq<set<S.Name>>,
                                              index: map<S.Address, nat>, part: S.Part, path: set<S.Name>,
                                              level: ViewLevels.ViewLevel, tree: Level, k: nat)
    requires Sites.SitesAreRight(d, sites, paths, index, {}) && ViewLevels.Stands(d, part)
    requires ViewLevels.Shape(level) && ViewLevels.SlotsMatch(level.groups, S.LayoutItems(d, part, true, path), index)
    requires Unfolds(sites, level, tree) && PairsMatchThroughout(tree) && k < |tree.groups|
    ensures WfGroup(tree.groups[k])
    decreases tree.groups[k], 1
  {
    var items := S.LayoutItems(d, part, true, path);
    Agreement.LayoutItemsStand(d, part, true, path);
    Agreement.LevelsLineUp(d, items, level.groups, index);
    var item := Agreement.SlotIs(d, items, level.groups, index, k);
    NestedUnfolds(sites, level, tree, k);
    assert PairsMatchBelow(tree.groups) && PairsMatchInGroup(tree.groups[k]);
    GeneratedGroupIsWellFormed(d, sites, paths, index, item.at, item.def, tree.groups[k]);
  }

  lemma NestedUnfolds(sites: seq<ViewLevels.Site>, level: ViewLevels.ViewLevel, tree: Level, k: nat)
    requires ViewLevels.Shape(level) && Unfolds(sites, level, tree) && k < |tree.groups|
    ensures UnfoldsGroup(sites, level.groups[k].site, tree.groups[k])
  {
    var i :| 0 <= i < |tree.members| && tree.members[i] == GroupM(tree.groups[k]);
    assert UnfoldsMembers(sites, level.members, tree.members) && UnfoldsMember(sites, level.members[i], tree.members[i]);
    SlotOfMember(level, i, level.groups[k]);
  }

  /** A group member's site is that of the level's slot with its count tag. */
  lemma SlotOfMember(level: ViewLevels.ViewLevel, i: nat, slot: ViewLevels.Slot)
    requires ViewLevels.Shape(level) && slot in level.groups
    requires i < |level.members| && level.members[i].GroupM? && level.members[i].countTag == slot.countTag
    ensures level.members[i].site == slot.site
  {
    assert ViewLevels.HasSlot(level.members, slot);
    var j :| 0 <= j < |level.members| && ViewLevels.IsSlot(level.members[j], slot);
  }

  /**
   The body level generated for a message is well-formed wherever its lengths and data match: the
   condition on levels under which written messages are read back.
   */
  lemma GeneratedBodyIsWellFormed(d: S.Dictionary, name: S.Name, message: Views.MessageModel, sites: seq<ViewLevels.Site>,
                                  paths: seq<set<S.Name>>, index: map<S.Address, nat>, tree: Level)
    requires name in d.messages && Sites.SitesAreRight(d, sites, paths, index, {})
    requires Views.MessageIsRight(d, name, message, index)
    requires Unfolds(sites, message.body, tree) && PairsMatchThroughout(tree)
    ensures WfLevel(tree)
  {
    Sorting.SortedTagsAre(Layout.TagsOf(Views.BodyItems(d, name)) + []);
    GeneratedLevelIsWellFormed(d, sites, paths, index, BodyPart(d, name), {}, message.body, tree);
  }

  function BodyPart(d: S.Dictionary, name: S.Name): S.Part
    requires name in d.messages
  {
    S.Part(S.Address(S.Body(name), []), d.messages[name])
  }

  /** The table generated for a group is the layout's, all the way down. */
  lemma {:induction false} GeneratedTableIsTheLayouts(d: S.Dictionary, sites: seq<ViewLevels.Site>, paths: seq<set<S.Name>>,
                                                      index: map<S.Address, nat>, item: S.Item, group: GroupMember)
    requires Sites.SitesAreRight(d, sites, paths, index, {}) && item.GroupItem? && item.at in index
    requires ViewLevels.DefAt(d, item.at) == Some(item.def) && Paths.EntryUnguarded(d, item)
    requires UnfoldsGroup(sites, index[item.at], group)
    ensures SpecOf(group) == Agreement.TableOf(Layout.GroupOf(d, item))
    decreases group
  {
    var site, part, tree := sites[index[item.at]], S.Part(item.at, item.def.members), group.entry;
    var items := Paths.EntryItems(d, item);
    Agreement.SiteRightThere(d, sites, paths, index, item);
    assert UnfoldsEntry(sites, site.entry, tree) && Unfolds(sites, site.entry, tree);
    Agreement.LayoutItemsStand(d, part, true, item.path);
    Agreement.LevelsLineUp(d, items, site.entry.groups, index);
    var groups := Sorting.SortBy(Layout.LayoutGroups(d, items), Layout.KeyOf);
    forall k | 0 <= k < |tree.groups| ensures SpecOf(tree.groups[k]) == Agreement.TableOf(groups[k]) {
      var inner := Agreement.SlotIs(d, items, site.entry.groups, index, k);
      assert Paths.KeptBelow(d, item, items);
      NestedUnfolds(sites, site.entry, tree, k);
      GeneratedTableIsTheLayouts(d, sites, paths, index, inner, tree.groups[k]);
    }
    assert SpecsOf(tree.groups) == Agreement.TablesOf(groups);
    Layout.EntryIs(d, item.at, item.def, item.path);
    assert Agreement.TablesIn(Layout.GroupOf(d, item).entry) == Agreement.TablesOf(groups);
    Sorting.SameTagsSortAlike(Layout.TagsOf(items) + [item.def.delimiter], [item.def.delimiter] + Layout.TagsOf(items));
  }

  // ----- there is such a tree -----

  /** The sites of a definition that a layout expands without meeting the path guard unfold into a tree. */
  lemma {:induction false} GroupUnfolds(d: S.Dictionary, sites: seq<ViewLevels.Site>, paths: seq<set<S.Name>>,
                                        index: map<S.Address, nat>, item: S.Item) returns (group: GroupMember)
    requires Sites.SitesAreRight(d, sites, paths, index, {}) && item.GroupItem? && item.at in index
    requires ViewLevels.DefAt(d, item.at) == Some(item.def) && Paths.EntryUnguarded(d, item)
    ensures UnfoldsGroup(sites, index[item.at], group)
    decreases S.Unvisited(d, item.path), S.Size(item.def.members), 2
  {
    var site, part := sites[index[item.at]], S.Part(item.at, item.def.members);
    Agreement.SiteRightThere(d, sites, paths, index, item);
    S.ItemsAreBelow(d, part, true, item.path);
    Agreement.LayoutItemsStand(d, part, true, item.path);
    assert Paths.KeptBelow(d, item, Paths.EntryItems(d, item));
    var tree := LevelUnfolds(d, sites, paths, index, Paths.EntryItems(d, item), item.path, item.def.members, site.entry);
    assert UnfoldsEntry(sites, site.entry, tree);
    group := GroupMember(site.countTag, false, site.delimiter, tree);
  }

  /** What is needed of a level's items for its groups to unfold: they are smaller, and the kept ones unguarded. */
  ghost predicate Unfoldable(d: S.Dictionary, items: seq<S.Item>, path: set<S.Name>, ms: seq<S.Member>) {
    S.AllBelow(d, items, path, ms) && Agreement.AllStand(d, items) && Paths.KeptUnguarded(d, items)
  }

  /** A level with these groups unfolds into a tree; `path` and `ms` only bound their size. */
  lemma {:induction false} LevelUnfolds(d: S.Dictionary, sites: seq<ViewLevels.Site>, paths: seq<set<S.Name>>,
                                        index: map<S.Address, nat>, items: seq<S.Item>, path: set<S.Name>, ms: seq<S.Member>,
                                        level: ViewLevels.ViewLevel) returns (tree: Level)
    requires Sites.SitesAreRight(d, sites, paths, index, {}) && Unfoldable(d, items, path, ms)
    requires ViewLevels.Shape(level) && ViewLevels.SlotsMatch(level.groups, items, index)
    ensures Unfolds(sites, level, tree)
    decreases S.Unvisited(d, path), S.Size(ms), 1
  {
    var members: seq<Member> := [];
    for i := 0 to |level.members|
      invariant UnfoldsMembers(sites, level.members[..i], members)
    {
      var member := MemberUnfolds(d, sites, paths, index, items, path, ms, level, i);
      members := members + [member];
      assert level.members[..i + 1] == level.members[..i] + [level.members[i]];
    }
    assert level.members[..|level.members|] == level.members;
    var groups := TreeGroups(sites, level, members);
    tree := Level(members, level.tags, groups);
    assert UnfoldsMembers(sites, level.members, tree.members);
  }

  /** The groups of the tree, in the order of the level's slots. */
  lemma TreeGroups(sites: seq<ViewLevels.Site>, level: ViewLevels.ViewLevel, members: seq<Member>) returns (groups: seq<GroupMember>)
    requires ViewLevels.Shape(level) && UnfoldsMembers(sites, level.members, members)
    ensures |groups| == |level.groups|
    ensures forall j :: 0 <= j < |groups| ==> groups[j].countTag == level.groups[j].countTag && GroupM(groups[j]) in members
  {
    groups := [];
    for k := 0 to |level.groups|
      invariant |groups| == k
      invariant forall j :: 0 <= j < k ==> groups[j].countTag == level.groups[j].countTag && GroupM(groups[j]) in members
    {
      assert level.groups[k] in level.groups;
      assert ViewLevels.HasSlot(level.members, level.groups[k]);
      var i :| 0 <= i < |level.members| && ViewLevels.IsSlot(level.members[i], level.groups[k]);
      assert UnfoldsMember(sites, level.members[i], members[i]);
      assert members[i] in members;
      groups := groups + [members[i].group];
    }
  }

  lemma {:induction false} MemberUnfolds(d: S.Dictionary, sites: seq<ViewLevels.Site>, paths: seq<set<S.Name>>,
                                         index: map<S.Address, nat>, items: seq<S.Item>, path: set<S.Name>, ms: seq<S.Member>,
                                         level: ViewLevels.ViewLevel, i: nat) returns (member: Member)
    requires Sites.SitesAreRight(d, sites, paths, index, {}) && Unfoldable(d, items, path, ms)
    requires ViewLevels.Shape(level) && ViewLevels.SlotsMatch(level.groups, items, index)
    requires i < |level.members|
    ensures UnfoldsMember(sites, level.members[i], member)
    decreases S.Unvisited(d, path), S.Size(ms), 0
  {
    match level.members[i]
    case FieldM(field) => member := FieldM(field);
    case GroupM(countTag, site, required) =>
      var k := SlotAt(level, i);
      Agreement.LevelsLineUp(d, items, level.groups, index);
      var item := Agreement.SlotIs(d, items, level.groups, index, k);
      assert Paths.EntryUnguarded(d, item) && S.Below(d, item, path, ms);
      var group := GroupUnfolds(d, sites, paths, index, item);
      MemberOf(sites, site, group, required);
      member := GroupM(group.(required := required));
  }

  /** The slot of a group member. */
  lemma SlotAt(level: ViewLevels.ViewLevel, i: nat) returns (k: nat)
    requires ViewLevels.Shape(level) && i < |level.members| && level.members[i].GroupM?
    ensures k < |level.groups| && level.groups[k] == ViewLevels.Slot(level.members[i].countTag, level.members[i].site)
  {
    var slot := ViewLevels.Slot(level.members[i].countTag, level.members[i].site);
    assert ViewLevels.IsSlot(level.members[i], slot);
    assert ViewLevels.HasSlot(level.members, slot) && slot in level.groups;
    k :| 0 <= k < |level.groups| && level.groups[k] == slot;
  }

  /** Whether a group is required does not show in what its site unfolds into. */
  lemma MemberOf(sites: seq<ViewLevels.Site>, site: nat, group: GroupMember, required: bool)
    requires UnfoldsGroup(sites, site, group)
    ensures UnfoldsMember(sites, ViewLevels.GroupM(group.countTag, site, required), GroupM(group.(required := required)))
  {
    assert UnfoldsEntry(sites, sites[site].entry, group.entry);
  }

  /** The body generated for a message unfolds into a tree. */
  lemma BodyUnfolds(d: S.Dictionary, name: S.Name, message: Views.MessageModel, sites: seq<ViewLevels.Site>,
                    paths: seq<set<S.Name>>, index: map<S.Address, nat>) returns (tree: Level)
    requires name in d.messages && Sites.SitesAreRight(d, sites, paths, index, {}) && Views.MessageIsRight(d, name, message, index)
    requires Paths.KeptUnguarded(d, Views.BodyItems(d, name))
    ensures Unfolds(sites, message.body, tree)
  {
    S.ItemsAreBelow(d, BodyPart(d, name), true, {});
    Agreement.LayoutItemsStand(d, BodyPart(d, name), true, {});
    tree := LevelUnfolds(d, sites, paths, index, Views.BodyItems(d, name), {}, d.messages[name], message.body);
  }
}
