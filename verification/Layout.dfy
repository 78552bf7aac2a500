/** The level tree of a definition, as a function of the dictionary alone. */
module Layout {
  import opened Wire
  import opened GroupSpecs
  import opened Sorting
  import opened Schema

  /** A repeating group and the level formed by one of its entries. */
  datatype LayoutGroup = LayoutGroup(countTag: Tag, delimiter: Tag, required: bool, entry: FinishedLevel)

  /** A finished level: sorted tags, required tags in schema order, groups sorted by count tag. */
  datatype FinishedLevel = FinishedLevel(members: seq<Tag>, required: seq<Tag>, groups: seq<LayoutGroup>)

  function KeyOf(group: LayoutGroup): Tag {
    group.countTag
  }

  function TagsOf(items: seq<Item>): (tags: seq<Tag>)
    ensures |tags| == |items| && forall i :: 0 <= i < |items| ==> tags[i] == items[i].Tag()
  {
    if items == [] then [] else [items[0].Tag()] + TagsOf(items[1..])
  }

  function RequiredOf(items: seq<Item>): seq<Tag> {
    if items == [] then []
    else (if items[0].FieldItem? && items[0].required then [items[0].tag] else []) + RequiredOf(items[1..])
  }

  /** Each required tag once, at its first position, and never the delimiter. */
  function Retain(tags: seq<Tag>, delimiter: Tag, seen: set<Tag>): seq<Tag> {
    if tags == [] then []
    else if tags[0] == delimiter || tags[0] in seen then Retain(tags[1..], delimiter, seen)
    else [tags[0]] + Retain(tags[1..], delimiter, seen + {tags[0]})
  }

  lemma {:induction false} RetainKeepsEachOnce(tags: seq<Tag>, delimiter: Tag, seen: set<Tag>)
    ensures forall t :: t in Retain(tags, delimiter, seen) <==> t in tags && t != delimiter && t !in seen
    ensures forall i, j :: 0 <= i < j < |Retain(tags, delimiter, seen)| ==>
              Retain(tags, delimiter, seen)[i] != Retain(tags, delimiter, seen)[j]
  {
    if tags != [] {
      assert forall t :: t in tags <==> t == tags[0] || t in tags[1..];
      if tags[0] == delimiter || tags[0] in seen {
        RetainKeepsEachOnce(tags[1..], delimiter, seen);
      } else {
        RetainKeepsEachOnce(tags[1..], delimiter, seen + {tags[0]});
        var rest := Retain(tags[1..], delimiter, seen + {tags[0]});
        assert forall i :: 0 <= i < |rest| ==> rest[i] in rest;
      }
    }
  }

  /** The level formed by one entry of a group met with `path` being expanded. */
  function PureEntry(d: Dictionary, at: Address, def: GroupDef, path: set<Name>): FinishedLevel
    decreases Unvisited(d, path), Size(def.members), 1, 0
  {
    var items := LayoutItems(d, Part(at, def.members), true, path);
    ItemsAreBelow(d, Part(at, def.members), true, path);
    FinishedLevel(SortedTags([def.delimiter] + TagsOf(items)),
                  Retain(RequiredOf(items), def.delimiter, {}),
                  SortBy(PureGroups(d, items, path, def.members), KeyOf))
  }

  /** The groups among the items, each with its entry level; `path` and `ms` only bound their size. */
  function PureGroups(d: Dictionary, items: seq<Item>, path: set<Name>, ms: seq<Member>): seq<LayoutGroup>
    requires AllBelow(d, items, path, ms)
    decreases Unvisited(d, path), Size(ms), 0, |items|
  {
    if items == [] then []
    else
      TailIsBelow(d, items, path, ms);
      (match items[0]
       case FieldItem(_, _) => []
       case GroupItem(at, def, required, inner) =>
         assert Below(d, items[0], path, ms);
         [LayoutGroup(def.countTag, def.delimiter, required, PureEntry(d, at, def, inner))])
      + PureGroups(d, items[1..], path, ms)
  }

  lemma TailIsBelow(d: Dictionary, items: seq<Item>, path: set<Name>, ms: seq<Member>)
    requires AllBelow(d, items, path, ms) && items != []
    ensures AllBelow(d, items[1..], path, ms)
  {
    assert forall k :: 0 <= k < |items[1..]| ==> items[1..][k] == items[k + 1];
  }

  /** The group of a level that an item stands for. */
  function GroupOf(d: Dictionary, item: Item): LayoutGroup
    requires item.GroupItem?
  {
    LayoutGroup(item.def.countTag, item.def.delimiter, item.required, PureEntry(d, item.at, item.def, item.path))
  }

  /** The groups among the items. */
  function LayoutGroups(d: Dictionary, items: seq<Item>): seq<LayoutGroup> {
    if items == [] then [] else (if items[0].GroupItem? then [GroupOf(d, items[0])] else []) + LayoutGroups(d, items[1..])
  }

  lemma {:induction false} PureGroupsAre(d: Dictionary, items: seq<Item>, path: set<Name>, ms: seq<Member>)
    requires AllBelow(d, items, path, ms)
    ensures PureGroups(d, items, path, ms) == LayoutGroups(d, items)
    decreases |items|
  {
    if items != [] {
      TailIsBelow(d, items, path, ms);
      PureGroupsAre(d, items[1..], path, ms);
    }
  }

  /** An entry level, by the items of its group. */
  lemma EntryIs(d: Dictionary, at: Address, def: GroupDef, path: set<Name>)
    ensures var items := LayoutItems(d, Part(at, def.members), true, path);
            PureEntry(d, at, def, path)
            == FinishedLevel(SortedTags([def.delimiter] + TagsOf(items)), Retain(RequiredOf(items), def.delimiter, {}),
                             SortBy(LayoutGroups(d, items), KeyOf))
  {
    var items := LayoutItems(d, Part(at, def.members), true, path);
    ItemsAreBelow(d, Part(at, def.members), true, path);
    PureGroupsAre(d, items, path, def.members);
  }

  lemma LayoutGroupsConcat(d: Dictionary, a: seq<Item>, b: seq<Item>)
    ensures LayoutGroups(d, a + b) == LayoutGroups(d, a) + LayoutGroups(d, b)
  {
    if a == [] {
      assert a + b == b;
    } else {
      assert (a + b)[0] == a[0] && (a + b)[1..] == a[1..] + b;
      LayoutGroupsConcat(d, a[1..], b);
      Regroup(if a[0].GroupItem? then [GroupOf(d, a[0])] else [], LayoutGroups(d, a[1..]), LayoutGroups(d, b));
    }
  }

  // ----- which definition a count tag keeps -----

  /** The first group with this count tag. */
  function FirstGroup(items: seq<Item>, countTag: Tag): (first: Option<Item>)
    ensures first.Some? ==> first.value in items && first.value.GroupItem? && first.value.def.countTag == countTag
  {
    if items == [] then None
    else if items[0].GroupItem? && items[0].def.countTag == countTag then Some(items[0])
    else FirstGroup(items[1..], countTag)
  }

  lemma FirstGroupConcat(a: seq<Item>, b: seq<Item>, countTag: Tag)
    ensures FirstGroup(a + b, countTag)
            == if FirstGroup(a, countTag).Some? then FirstGroup(a, countTag) else FirstGroup(b, countTag)
  {
    if a == [] {
      assert a + b == b;
    } else {
      assert (a + b)[0] == a[0] && (a + b)[1..] == a[1..] + b;
      FirstGroupConcat(a[1..], b, countTag);
    }
  }

  /** The first group of a count tag is the one a layout keeps. */
  lemma FirstLayoutGroup(d: Dictionary, items: seq<Item>, ct: Tag)
    ensures FirstBy(LayoutGroups(d, items), KeyOf, ct)
            == match FirstGroup(items, ct) case None => None case Some(item) => Some(GroupOf(d, item))
  {
    if items != [] {
      FirstLayoutGroup(d, items[1..], ct);
      var rest := LayoutGroups(d, items[1..]);
      if items[0].GroupItem? {
        assert ([GroupOf(d, items[0])] + rest)[1..] == rest;
      } else {
        assert [] + rest == rest;
      }
    }
  }

  lemma TagsConcat(a: seq<Item>, b: seq<Item>)
    ensures TagsOf(a + b) == TagsOf(a) + TagsOf(b) && RequiredOf(a + b) == RequiredOf(a) + RequiredOf(b)
  {
    if a == [] {
      assert a + b == b;
    } else {
      assert (a + b)[0] == a[0] && (a + b)[1..] == a[1..] + b;
      TagsConcat(a[1..], b);
      Regroup([a[0].Tag()], TagsOf(a[1..]), TagsOf(b));
      Regroup(if a[0].FieldItem? && a[0].required then [a[0].tag] else [], RequiredOf(a[1..]), RequiredOf(b));
    }
  }

  /** The lists of a level under construction. */
  datatype RawLevel = RawLevel(members: seq<Tag>, required: seq<Tag>, groups: seq<LayoutGroup>)

  function Plus(a: RawLevel, b: RawLevel): RawLevel {
    RawLevel(a.members + b.members, a.required + b.required, a.groups + b.groups)
  }

  /** What the items add to a level. */
  function Raw(d: Dictionary, items: seq<Item>): RawLevel {
    RawLevel(TagsOf(items), RequiredOf(items), LayoutGroups(d, items))
  }

  lemma RawConcat(d: Dictionary, a: seq<Item>, b: seq<Item>)
    ensures Raw(d, a + b) == Plus(Raw(d, a), Raw(d, b))
  {
    LayoutGroupsConcat(d, a, b);
    TagsConcat(a, b);
  }

  lemma PlusIsAssociative(a: RawLevel, b: RawLevel, c: RawLevel)
    ensures Plus(Plus(a, b), c) == Plus(a, Plus(b, c))
  {
  }

  /** What a whole definition adds to the level that takes it in. */
  function RawPart(d: Dictionary, part: Part, required: bool, path: set<Name>): RawLevel {
    Raw(d, LayoutItems(d, part, required, path))
  }

  // ----- soundness of a level tree -----

  /** Sorted tags and groups, and in every group the delimiter among the tags of an entry. */
  ghost predicate Sound(level: FinishedLevel) {
    Ascending(level.members) && AscendingBy(level.groups, KeyOf) && SoundGroups(level.groups)
  }

  ghost predicate SoundGroups(groups: seq<LayoutGroup>) {
    forall i :: 0 <= i < |groups| ==> SoundGroup(groups[i])
  }

  ghost predicate SoundGroup(group: LayoutGroup) {
    && Sound(group.entry)
    && group.delimiter in group.entry.members
    && (forall i, j :: 0 <= i < j < |group.entry.required| ==> group.entry.required[i] != group.entry.required[j])
    && group.delimiter !in group.entry.required
  }

  /** Groups in a tree. */
  function Nodes(groups: seq<LayoutGroup>): nat
    decreases groups
  {
    if groups == [] then 0 else GroupNodes(groups[0]) + Nodes(groups[1..])
  }

  function GroupNodes(group: LayoutGroup): nat
    decreases group
  {
    1 + LevelNodes(group.entry)
  }

  function LevelNodes(level: FinishedLevel): nat
    decreases level
  {
    Nodes(level.groups)
  }

  lemma NodesAppend(groups: seq<LayoutGroup>, group: LayoutGroup)
    ensures Nodes(groups + [group]) == Nodes(groups) + GroupNodes(group)
  {
    if groups == [] {
      assert [group][1..] == [];
    } else {
      assert (groups + [group])[1..] == groups[1..] + [group];
      NodesAppend(groups[1..], group);
    }
  }

  /** Finishing a level drops groups and never adds one. */
  lemma {:induction false} SortDropsNodes(groups: seq<LayoutGroup>)
    ensures Nodes(SortBy(groups, KeyOf)) <= Nodes(groups)
  {
    if groups != [] {
      SortDropsNodes(groups[1..]);
      InsertAddsNodes(groups[0], SortBy(groups[1..], KeyOf));
    }
  }

  lemma {:induction false} InsertAddsNodes(group: LayoutGroup, sorted: seq<LayoutGroup>)
    ensures Nodes(InsertBy(group, sorted, KeyOf)) <= GroupNodes(group) + Nodes(sorted)
  {
    if sorted != [] {
      if KeyOf(group) <= KeyOf(sorted[0]) {
        assert ([group] + sorted)[1..] == sorted && ([group] + sorted[1..])[1..] == sorted[1..];
      } else {
        InsertAddsNodes(group, sorted[1..]);
        var rest := InsertBy(group, sorted[1..], KeyOf);
        assert ([sorted[0]] + rest)[1..] == rest;
      }
    } else {
      assert [group][1..] == [];
    }
  }
}
