/** The tables a layout hands the walk always satisfy what the table constructors check. */
module Tables {
  import opened Wire
  import opened GroupSpecs
  import opened Sorting
  import opened Schema
  import opened Layout
  import opened Paths
  import opened Scope
  import opened Agreement
  import ViewLevels
  import Views

  /** The group a finished level keeps at position `k`, as an item. */
  lemma GroupIs(d: Dictionary, items: seq<Item>, k: nat) returns (item: Item)
    requires k < |SortBy(LayoutGroups(d, items), KeyOf)|
    ensures item in items && item.GroupItem? && SortBy(LayoutGroups(d, items), KeyOf)[k] == GroupOf(d, item)
  {
    var raw := LayoutGroups(d, items);
    var group := SortBy(raw, KeyOf)[k];
    SortByKeepsFirst(raw, KeyOf);
    FirstInAscending(SortBy(raw, KeyOf), KeyOf, k);
    assert FirstBy(SortBy(raw, KeyOf), KeyOf, group.countTag) == FirstBy(raw, KeyOf, group.countTag);
    FirstLayoutGroup(d, items, group.countTag);
    item := FirstGroup(items, group.countTag).value;
  }

  /** The count tags of the groups kept ascend, and are among the tags of the items. */
  lemma KeptTags(d: Dictionary, items: seq<Item>)
    ensures var tables := TablesOf(SortBy(LayoutGroups(d, items), KeyOf));
            Ascending(CountTags(tables)) && AllIn(CountTags(tables), TagsOf(items))
  {
    var groups := SortBy(LayoutGroups(d, items), KeyOf);
    SortByKeepsFirst(LayoutGroups(d, items), KeyOf);
    var tags := CountTags(TablesOf(groups));
    assert forall k :: 0 <= k < |groups| ==> tags[k] == KeyOf(groups[k]);
    forall k | 0 <= k < |tags| ensures tags[k] in TagsOf(items) {
      var item := GroupIs(d, items, k);
      var n :| 0 <= n < |items| && items[n] == item;
      assert TagsOf(items)[n] == tags[k];
    }
  }

  lemma AllInSorted(tags: seq<Tag>, among: seq<Tag>, sorted: seq<Tag>)
    requires AllIn(tags, among) && forall t :: t in among ==> t in sorted
    ensures AllIn(tags, sorted)
  {
  }

  /** The table of a group is valid, nested tables included, whatever the dictionary. */
  lemma {:induction false} LayoutTableIsValid(d: Dictionary, item: Item)
    requires item.GroupItem?
    ensures ValidSpec(TableOf(GroupOf(d, item)))
    decreases Unvisited(d, item.path), Size(item.def.members)
  {
    var items, entry := EntryItems(d, item), GroupOf(d, item).entry;
    EntryIs(d, item.at, item.def, item.path);
    ItemsAreBelow(d, Part(item.at, item.def.members), true, item.path);
    SortedTagsAre([item.def.delimiter] + TagsOf(items));
    KeptTags(d, items);
    var tables := TablesOf(SortBy(LayoutGroups(d, items), KeyOf));
    assert TablesIn(entry) == tables;
    AllInSorted(CountTags(tables), TagsOf(items), entry.members);
    forall k | 0 <= k < |tables| ensures ValidSpec(tables[k]) {
      var inner := GroupIs(d, items, k);
      LayoutTableIsValid(d, inner);
    }
  }

  /** The groups and level tags of a layout make a valid set, so the reader may search it. */
  lemma LayoutSetIsValid(d: Dictionary, name: Name)
    requires name in d.messages
    ensures var level := MessageLevel(d, d, name, d.messages[name]);
            ValidSet(GroupSet(TablesOf(level.groups), level.members))
  {
    var level, items := MessageLevel(d, d, name, d.messages[name]), Agreement.MessageItems(d, name);
    MessageGroupsAre(d, name);
    KeptTags(d, items);
    MessageLevelLists(d, name);
    AllInSorted(CountTags(TablesOf(level.groups)), TagsOf(items), level.members);
    forall k | 0 <= k < |level.groups| ensures ValidSpec(TablesOf(level.groups)[k]) {
      var item := GroupIs(d, items, k);
      LayoutTableIsValid(d, item);
    }
  }

  lemma MessageLevelLists(d: Dictionary, name: Name)
    requires name in d.messages
    ensures var level := MessageLevel(d, d, name, d.messages[name]);
            Ascending(level.members) && forall t :: t in TagsOf(Agreement.MessageItems(d, name)) ==> t in level.members
  {
    var part := Part(Address(Body(name), []), d.messages[name]);
    var header := GroupItems(Part(Address(Header, []), d.header), true, {}, 0);
    var trailer := GroupItems(Part(Address(Trailer, []), d.trailer), true, {}, 0);
    var raw := Plus(RawEnvelope(d), RawPart(d, part, true, {}));
    TagsConcat(header, trailer);
    TagsConcat(header + trailer, Views.BodyItems(d, name));
    SortedTagsAre(raw.members);
    assert raw.members == RawEnvelope(d).members + TagsOf(Views.BodyItems(d, name));
  }
}
