/**
 One site stands for a definition wherever it is met, where a layout expands it anew each time. On a
 dictionary with cycles, which the loader refuses but a hand-built one may have, the two can differ: a
 layout's path guard skips what the shared site, first reached another way, holds.
 */
module SharedSites {
  import opened Wire
  import opened GroupSpecs
  import opened Sorting
  import opened Schema
  import opened Layout
  import opened Paths
  import opened Required
  import Levels
  import opened ViewLevels
  import opened ViewEntries
  import opened ViewOrder
  import opened Sites
  import opened Views

  /** No chain of an expansion that does not meet the guard ends at a reference to what is being expanded. */
  lemma {:induction false} UnguardedSkipsNothing(d: Dictionary, ms: seq<Member>, need: bool, path: set<Name>, name: Name, chain: seq<Name>)
    requires Unguarded(d, ms, path) && name in path
    ensures !Avoiding(d, ms, Naming(name), need, path, chain)
    decreases chain
  {
    if Avoiding(d, ms, Naming(name), need, path, chain) {
      var next := if chain == [] then name else chain[0];
      var req := ComponentRef(next, true) in ms;
      var i :| 0 <= i < |ms| && ms[i] == ComponentRef(next, req);
      assert Entered(d, ms[i].name, path);
      if chain != [] {
        UnguardedSkipsNothing(d, d.components[next], need, path + {next}, name, chain[1..]);
      }
    }
  }

  /** An expansion that does not meet the guard reaches all that any chain leads to. */
  lemma UnguardedReachesAll(d: Dictionary, ms: seq<Member>, need: bool, path: set<Name>, tag: Tag)
    requires Unguarded(d, ms, path)
    ensures LeadsAvoiding(d, ms, Holding(tag), need, path) <==> Leads(d, ms, Holding(tag), need)
  {
    if LeadsAvoiding(d, ms, Holding(tag), need, path) {
      var chain :| Avoiding(d, ms, Holding(tag), need, path, chain);
      AvoidingIsVia(d, ms, Holding(tag), need, path, chain);
    } else if Leads(d, ms, Holding(tag), need) {
      BehindASkip(d, ms, tag, need, path);
      var name :| Skips(d, ms, need, path, name);
      var chain :| Avoiding(d, ms, Naming(name), need, path, chain);
      UnguardedSkipsNothing(d, ms, need, path, name, chain);
    }
  }

  /** A site accepts its delimiter and every tag that some chain from its definition leads to. */
  lemma SiteListsAll(d: Dictionary, sites: seq<Site>, paths: seq<set<Name>>, index: map<Address, nat>,
                     at: Address, def: GroupDef, tag: Tag)
    requires SitesAreRight(d, sites, paths, index, {}) && at in index && DefAt(d, at) == Some(def)
    ensures tag in sites[index[at]].entry.tags <==> tag == def.delimiter || Leads(d, def.members, Holding(tag), false)
  {
    var i, part := index[at], Part(at, def.members);
    assert SiteStands(d, sites[i]) && SiteIsRight(d, sites[i], paths[i], index);
    SortedTagsAre(TagsOf(LayoutItems(d, part, true, paths[i])) + [def.delimiter]);
    ShownByChains(d, part, true, paths[i], tag, false);
    UnguardedReachesAll(d, def.members, false, paths[i], tag);
  }

  /**
   A site accepts the same tags as a layout's entry of its definition, met with `path` being expanded,
   exactly when what lies behind each reference the path guard skips there is listed by another chain too.
   */
  lemma SiteTagsAgreeExactly(d: Dictionary, sites: seq<Site>, paths: seq<set<Name>>, index: map<Address, nat>,
                             at: Address, def: GroupDef, path: set<Name>)
    requires SitesAreRight(d, sites, paths, index, {}) && at in index && DefAt(d, at) == Some(def)
    ensures sites[index[at]].entry.tags == PureEntry(d, at, def, path).members <==>
              NothingLost(d, def.members, false, path, def.delimiter)
  {
    var mine, layout := sites[index[at]].entry.tags, PureEntry(d, at, def, path).members;
    forall tag ensures tag in mine <==> tag == def.delimiter || Leads(d, def.members, Holding(tag), false)
    ensures tag in layout <==> tag == def.delimiter || LeadsAvoiding(d, def.members, Holding(tag), false, path)
    ensures LeadsAvoiding(d, def.members, Holding(tag), false, path) ==> Leads(d, def.members, Holding(tag), false)
    {
      SiteListsAll(d, sites, paths, index, at, def, tag);
      EntryListsByPaths(d, at, def, path, tag);
      if LeadsAvoiding(d, def.members, Holding(tag), false, path) {
        var chain :| Avoiding(d, def.members, Holding(tag), false, path, chain);
        AvoidingIsVia(d, def.members, Holding(tag), false, path, chain);
      }
    }
    LostExactly(d, def.members, false, path, def.delimiter);
    SameWhenSameTags(d, sites, paths, index, at, def, path);
  }

  /** Both lists ascend, so they are the same list exactly when they hold the same tags. */
  lemma SameWhenSameTags(d: Dictionary, sites: seq<Site>, paths: seq<set<Name>>, index: map<Address, nat>,
                         at: Address, def: GroupDef, path: set<Name>)
    requires SitesAreRight(d, sites, paths, index, {}) && at in index && DefAt(d, at) == Some(def)
    ensures sites[index[at]].entry.tags == PureEntry(d, at, def, path).members <==>
              forall tag :: tag in sites[index[at]].entry.tags <==> tag in PureEntry(d, at, def, path).members
  {
    var i, part := index[at], Part(at, def.members);
    assert SiteStands(d, sites[i]) && SiteIsRight(d, sites[i], paths[i], index);
    EntryIs(d, at, def, path);
    var mine, layout := sites[i].entry.tags, PureEntry(d, at, def, path).members;
    SortedTagsAre(TagsOf(LayoutItems(d, part, true, paths[i])) + [def.delimiter]);
    SortedTagsAre([def.delimiter] + TagsOf(LayoutItems(d, part, true, path)));
    if forall tag :: tag in mine <==> tag in layout {
      SortedTagsIsOnly(mine, layout);
      SortedTagsIsOnly(layout, layout);
    }
  }

  // ----- a dictionary on which they differ -----

  /** Component B holds the group `Outer`; its entries hold `Shadow`, and component C, whose group `Inner` leads back to B. */
  function Shadow(): GroupDef {
    GroupDef(5, 6, false, [FieldRef(6, false)])
  }

  function Inner(): GroupDef {
    GroupDef(5, 4, false, [FieldRef(4, false), ComponentRef("B", false)])
  }

  function Outer(): GroupDef {
    GroupDef(7, 8, false, [FieldRef(8, false), GroupRef(Shadow()), ComponentRef("C", false)])
  }

  function OuterAt(): Address {
    Address(Component("B"), [0])
  }

  function InnerAt(): Address {
    Address(Component("C"), [1])
  }

  function Text(): FieldDef {
    FieldDef(Levels.Str, false, false)
  }

  function Circular(): Dictionary {
    Dictionary(map[4 := Text(), 6 := Text(), 8 := Text(), 9 := Text()],
               map["B" := [GroupRef(Outer())], "C" := [FieldRef(9, false), GroupRef(Inner())]],
               map["First" := [ComponentRef("B", false)], "Second" := [ComponentRef("C", false)]], [], [])
  }

  /**
   Every expansion the generator makes of the two messages avoids the guard: `Outer` is first reached in
   `First` inside B alone, where C's group is shadowed, and in `Second` it is only looked up. A layout of
   `Second` meets it inside C and B, where C is skipped, and field 9 with it.
   */
  lemma SharedSiteDiffers(sites: seq<Site>, paths: seq<set<Name>>, index: map<Address, nat>)
    requires SitesAreRight(Circular(), sites, paths, index, {}) && OuterAt() in index
    ensures var d := Circular();
            && Unguarded(d, d.messages["First"], {}) && Unguarded(d, Outer().members, {"B"}) && Unguarded(d, Shadow().members, {"B"})
            && Unguarded(d, d.messages["Second"], {}) && Unguarded(d, Inner().members, {"C"})
    ensures var d, at := Circular(), OuterAt();
            && GroupItem(at, Outer(), false, {"C", "B"}) in LayoutItems(d, Part(InnerAt(), Inner().members), true, {"C"})
            && 9 in sites[index[at]].entry.tags && 9 !in PureEntry(d, at, Outer(), {"C", "B"}).members
  {
    var d, at := Circular(), OuterAt();
    CircularIsUnguarded();
    CircularMeetsOuter();
    OuterStands();
    OuterLeadsToNine();
    SiteListsAll(d, sites, paths, index, at, Outer(), 9);
    EntryListsByPaths(d, at, Outer(), {"C", "B"}, 9);
  }

  lemma OuterStands()
    ensures DefAt(Circular(), OuterAt()) == Some(Outer())
  {
    var at := OuterAt();
    assert at.path[..0] == [];
  }

  lemma OuterLeadsToNine()
    ensures Leads(Circular(), Outer().members, Holding(9), false)
    ensures !LeadsAvoiding(Circular(), Outer().members, Holding(9), false, {"C", "B"})
  {
    var d, ms := Circular(), Outer().members;
    var c := d.components["C"];
    assert Lists(c[0], 9, false) && Ends(c, Holding(9), false) && Via(d, c, Holding(9), false, []);
    assert ms[2] == ComponentRef("C", false) && ["C"][1..] == [];
    assert Via(d, ms, Holding(9), false, ["C"]);
    assert forall name, req :: ComponentRef(name, req) in ms ==> name == "C";
  }

  lemma CircularIsUnguarded()
    ensures var d := Circular();
            && Unguarded(d, d.messages["First"], {}) && Unguarded(d, Outer().members, {"B"}) && Unguarded(d, Shadow().members, {"B"})
            && Unguarded(d, d.messages["Second"], {}) && Unguarded(d, Inner().members, {"C"})
  {
    var d := Circular();
    assert Unguarded(d, d.components["B"], {} + {"B"}) && Unguarded(d, d.components["B"], {"C"} + {"B"});
    assert Unguarded(d, d.components["C"], {} + {"C"}) && Unguarded(d, d.components["C"], {"B"} + {"C"});
    assert Entered(d, "B", {}) && Entered(d, "C", {}) && Entered(d, "C", {"B"}) && Entered(d, "B", {"C"});
  }

  lemma CircularMeetsOuter()
    ensures var d := Circular();
            GroupItem(OuterAt(), Outer(), false, {"C", "B"})
            in LayoutItems(d, Part(InnerAt(), Inner().members), true, {"C"})
  {
    var d := Circular();
    var part, b := Part(InnerAt(), Inner().members), ComponentPart(d, "B");
    var item := OwnItem(b, 0, false, {"C", "B"});
    assert {"C"} + {"B"} == {"C", "B"} && [] + [0] == [0];
    assert item in GroupItems(b, false, {"C", "B"}, 0);
    assert item in LayoutItems(d, b, false, {"C", "B"});
    assert Enterable(d, "B", {"C"}) && ReferenceItems(d, "B", false, {"C"}) == LayoutItems(d, b, false, {"C", "B"});
    assert part.members[1] == ComponentRef("B", false);
    assert item in ComponentItems(d, part, true, {"C"}, 1);
    assert item in ComponentItems(d, part, true, {"C"}, 0);
  }

  // ----- its sites: the generator has nothing to refuse -----

  function ShadowAt(): Address {
    Address(Component("B"), [0, 1])
  }

  function Plain(tag: Tag, required: bool): ViewMember {
    FieldM(Levels.FieldMember(tag, required, Levels.Str, Levels.Unpaired, false))
  }

  /** Each definition has its place. */
  predicate Indexed(index: map<Address, nat>) {
    index.Keys == {OuterAt(), ShadowAt(), InnerAt()} && index[OuterAt()] == 0 && index[ShadowAt()] == 1 && index[InnerAt()] == 2
  }

  function OuterItems(): seq<Item> {
    [FieldItem(8, false), GroupItem(ShadowAt(), Shadow(), false, {"B"}), FieldItem(9, false), GroupItem(InnerAt(), Inner(), false, {"B", "C"})]
  }

  function ShadowItems(): seq<Item> {
    [FieldItem(6, false)]
  }

  function InnerItems(): seq<Item> {
    [FieldItem(4, false), GroupItem(OuterAt(), Outer(), false, {"C", "B"})]
  }

  lemma OuterExpands()
    ensures LayoutItems(Circular(), Part(OuterAt(), Outer().members), true, {"B"}) == OuterItems()
  {
    var d := Circular();
    var part, c := Part(OuterAt(), Outer().members), ComponentPart(d, "C");
    var path := {"B"} + {"C"};
    assert path == {"B", "C"} && [] + [1] == [1] && [0] + [1] == [0, 1];
    assert FieldItems(c, false, 0) == [FieldItem(9, false)] by { assert FieldItems(c, false, 1) == []; }
    assert GroupItems(c, false, path, 0) == [GroupItem(InnerAt(), Inner(), false, path)] by { assert GroupItems(c, false, path, 2) == []; }
    assert ComponentItems(d, c, false, path, 0) == [] by { assert ComponentItems(d, c, false, path, 1) == []; }
    assert ReferenceItems(d, "C", false, {"B"}) == LayoutItems(d, c, false, path);
    assert FieldItems(part, true, 0) == [FieldItem(8, false)] by { assert FieldItems(part, true, 1) == FieldItems(part, true, 2) == []; }
    assert GroupItems(part, true, {"B"}, 0) == [GroupItem(ShadowAt(), Shadow(), false, {"B"})] by {
      assert GroupItems(part, true, {"B"}, 2) == [];
    }
    assert ComponentItems(d, part, true, {"B"}, 0) == LayoutItems(d, c, false, path) by {
      assert ComponentItems(d, part, true, {"B"}, 3) == [];
      assert ComponentItems(d, part, true, {"B"}, 2) == LayoutItems(d, c, false, path) + [];
    }
  }

  lemma ShadowExpands()
    ensures LayoutItems(Circular(), Part(ShadowAt(), Shadow().members), true, {"B"}) == ShadowItems()
  {
    var d, part := Circular(), Part(ShadowAt(), Shadow().members);
    assert FieldItems(part, true, 0) == ShadowItems() && GroupItems(part, true, {"B"}, 0) == [];
    assert ComponentItems(d, part, true, {"B"}, 0) == [];
  }

  lemma InnerExpands()
    ensures LayoutItems(Circular(), Part(InnerAt(), Inner().members), true, {"C"}) == InnerItems()
  {
    var d := Circular();
    var part, b := Part(InnerAt(), Inner().members), ComponentPart(d, "B");
    var path := {"C"} + {"B"};
    assert path == {"C", "B"} && [] + [0] == [0];
    assert GroupItems(b, false, path, 0) == [GroupItem(OuterAt(), Outer(), false, path)];
    assert FieldItems(b, false, 0) == [] && ComponentItems(d, b, false, path, 0) == [];
    assert ReferenceItems(d, "B", false, {"C"}) == LayoutItems(d, b, false, path);
    assert FieldItems(part, true, 0) == [FieldItem(4, false)] by { assert FieldItems(part, true, 1) == []; }
    assert GroupItems(part, true, {"C"}, 0) == [];
    assert ComponentItems(d, part, true, {"C"}, 0) == LayoutItems(d, b, false, path) by {
      assert ComponentItems(d, part, true, {"C"}, 1) == LayoutItems(d, b, false, path) + [];
    }
  }

  lemma OuterRefers()
    ensures RefersTo(Refs(Circular(), Part(OuterAt(), Outer().members), {"B"}, 0), 8, OuterItems()[1], [9])
  {
    var d := Circular();
    var part, c := Part(OuterAt(), Outer().members), ComponentPart(d, "C");
    var path := {"B"} + {"C"};
    assert [0] + [1] == [0, 1];
    assert Refs(d, c, path, 0) == [FieldAt(9, None), GroupAt(5, InnerAt())] by {
      assert [] + [1] == [1] && Refs(d, c, path, 2) == [];
      assert Refs(d, c, path, 1) == [GroupAt(5, InnerAt())];
    }
    assert Refs(d, part, {"B"}, 2) == Refs(d, c, path, 0) + [] by { assert Refs(d, part, {"B"}, 3) == []; }
    assert Refs(d, part, {"B"}, 1) == [GroupAt(5, ShadowAt())] + Refs(d, part, {"B"}, 2);
    assert Refs(d, part, {"B"}, 0) == [FieldAt(8, None)] + Refs(d, part, {"B"}, 1);
  }

  lemma ShadowRefers()
    ensures Refs(Circular(), Part(ShadowAt(), Shadow().members), {"B"}, 0) == [FieldAt(6, None)]
  {
    assert Refs(Circular(), Part(ShadowAt(), Shadow().members), {"B"}, 1) == [];
  }

  lemma InnerRefers()
    ensures RefersTo(Refs(Circular(), Part(InnerAt(), Inner().members), {"C"}, 0), 4, InnerItems()[1], [])
  {
    var d := Circular();
    var part, b := Part(InnerAt(), Inner().members), ComponentPart(d, "B");
    var path := {"C"} + {"B"};
    assert Refs(d, b, path, 0) == [GroupAt(7, OuterAt())] by { assert [] + [0] == [0] && Refs(d, b, path, 1) == []; }
    assert Refs(d, part, {"C"}, 1) == Refs(d, b, path, 0) + [] by { assert Refs(d, part, {"C"}, 2) == []; }
    assert Refs(d, part, {"C"}, 0) == [FieldAt(4, None)] + Refs(d, part, {"C"}, 1);
  }

  /** What these levels have in common: one field that opens them, none required otherwise. */
  lemma EntryIsPlain(entry: ViewLevel, items: seq<Item>, delimiter: Tag, index: map<Address, nat>)
    requires entry.tags == SortedTags(TagsOf(items) + [delimiter])
    requires SlotsMatch(entry.groups, items, index) && Shape(entry)
    requires entry.members != [] && entry.members[0] == Plain(delimiter, true)
    requires EntryFields(entry.members, items) && GroupsMatch(entry.members, items, index)
    ensures EntryIsRight(entry, delimiter, items, index)
  {
    assert entry.members[0].SetRequired() == entry.members[0];
    forall i | 0 < i < |entry.members| ensures GroupMatches(entry.members[i], items, index) {
      assert entry.members[i] in entry.members;
    }
  }

  lemma OuterLists()
    ensures TagsOf(OuterItems()) == [8, 5, 9, 5] && FieldTags(OuterItems()) == [8, 9] && RequiredOf(OuterItems()) == []
    ensures forall ct: Tag :: FirstGroup(OuterItems(), ct) == if ct == 5 then Some(OuterItems()[1]) else None
  {
    var items := OuterItems();
    assert items[1..] == [items[1], items[2], items[3]] && items[1..][1..] == [items[2], items[3]];
    assert [items[2], items[3]][1..] == [items[3]] && [items[3]][1..] == [];
  }

  lemma ShadowLists()
    ensures TagsOf(ShadowItems()) == [6] && FieldTags(ShadowItems()) == [6] && RequiredOf(ShadowItems()) == []
    ensures forall ct: Tag :: FirstGroup(ShadowItems(), ct) == None
  {
    assert ShadowItems()[1..] == [];
  }

  lemma InnerLists()
    ensures TagsOf(InnerItems()) == [4, 7] && FieldTags(InnerItems()) == [4] && RequiredOf(InnerItems()) == []
    ensures forall ct: Tag :: FirstGroup(InnerItems(), ct) == if ct == 7 then Some(InnerItems()[1]) else None
  {
    var items := InnerItems();
    assert items[1..] == [items[1]] && [items[1]][1..] == [];
  }

  /** There is a site for the definition standing at `at`, expanded with `path` without meeting the guard. */
  ghost predicate HasSite(d: Dictionary, at: Address, path: set<Name>, index: map<Address, nat>) {
    exists site: Site :: site.at == at && SiteStands(d, site) && SiteIsRight(d, site, path, index)
  }

  lemma SiteOfEntry(d: Dictionary, at: Address, def: GroupDef, path: set<Name>, items: seq<Item>, entry: ViewLevel, index: map<Address, nat>)
    requires DefAt(d, at) == Some(def) && Unguarded(d, def.members, path)
    requires LayoutItems(d, Part(at, def.members), true, path) == items
    requires EntryIsRight(entry, def.delimiter, items, index) && Typed(d, entry.members)
    requires EntryLaidOut(d, Part(at, def.members), path, entry.members)
    ensures HasSite(d, at, path, index)
  {
    var site := Site(at, def.countTag, def.delimiter, entry);
    assert SiteStands(d, site) && SiteIsRight(d, site, path, index);
  }

  /** The slots of a level that keeps one group. */
  lemma OneSlot(items: seq<Item>, group: Item, n: nat, index: map<Address, nat>)
    requires group.GroupItem? && group.at in index && index[group.at] == n
    requires forall ct: Tag :: FirstGroup(items, ct) == if ct == group.Tag() then Some(group) else None
    ensures SlotsMatch([Slot(group.Tag(), n)], items, index)
  {
    var slots := [Slot(group.Tag(), n)];
    assert slots[1..] == [];
  }

  function Plains(tags: seq<Tag>): (members: seq<ViewMember>)
    ensures |members| == |tags| && forall i :: 0 <= i < |tags| ==> members[i] == Plain(tags[i], false)
  {
    if tags == [] then [] else [Plain(tags[0], false)] + Plains(tags[1..])
  }

  /** A field that opens the level, the group, and at most one more field. */
  function Members(delimiter: Tag, group: Item, n: nat, more: seq<Tag>): seq<ViewMember>
    requires group.GroupItem?
  {
    [Plain(delimiter, true), GroupM(group.Tag(), n, group.required)] + Plains(more)
  }

  lemma MembersShape(tags: seq<Tag>, delimiter: Tag, group: Item, n: nat, more: seq<Tag>)
    requires group.GroupItem? && |more| <= 1 && delimiter != group.Tag() && delimiter !in more && group.Tag() !in more
    requires delimiter in tags && group.Tag() in tags && forall t :: t in more ==> t in tags
    ensures Shape(ViewLevel(Members(delimiter, group, n, more), tags, [Slot(group.Tag(), n)]))
  {
    var members := Members(delimiter, group, n, more);
    assert IsSlot(members[1], Slot(group.Tag(), n)) && HasSlot(members, Slot(group.Tag(), n));
  }

  lemma MembersFields(items: seq<Item>, delimiter: Tag, group: Item, n: nat, more: seq<Tag>)
    requires group.GroupItem? && |more| <= 1 && RequiredOf(items) == [] && FieldTags(items) == [delimiter] + more
    ensures EntryFields(Members(delimiter, group, n, more), items)
  {
    var members := Members(delimiter, group, n, more);
    assert members[0].Tag() == delimiter && HasTag(members, delimiter);
    if more != [] {
      assert members[2].Tag() == more[0] && HasTag(members, more[0]);
    }
  }

  lemma MembersMatch(d: Dictionary, items: seq<Item>, delimiter: Tag, group: Item, n: nat, more: seq<Tag>, index: map<Address, nat>)
    requires group.GroupItem? && group.at in index && index[group.at] == n && FirstGroup(items, group.Tag()) == Some(group)
    requires forall t :: t in [delimiter] + more ==> t in d.fields && d.fields[t] == Text()
    ensures Typed(d, Members(delimiter, group, n, more)) && GroupsMatch(Members(delimiter, group, n, more), items, index)
  {
    var members := Members(delimiter, group, n, more);
    forall i | 0 <= i < |members| && members[i].FieldM? ensures TypedField(d, members[i].field) {
      assert members[i].field.tag in [delimiter] + more;
    }
    forall m | m in members ensures GroupMatches(m, items, index) {
      var i :| 0 <= i < |members| && members[i] == m;
    }
  }

  /** The references of a level that keeps one group: its delimiter, the group, and at most one more field. */
  predicate RefersTo(refs: seq<Ref>, delimiter: Tag, group: Item, more: seq<Tag>) {
    && group.GroupItem? && |more| <= 1 && |refs| >= 2 + |more|
    && refs[0] == FieldAt(delimiter, None) && refs[1] == GroupAt(group.Tag(), group.at)
    && (more != [] ==> refs[2] == FieldAt(more[0], None))
    && forall k :: 2 + |more| <= k < |refs| ==> refs[k].GroupAt?
  }

  /** Where no data is listed nothing is paired. */
  lemma {:induction false} NothingPaired(d: Dictionary, refs: seq<Ref>, tag: Tag)
    requires !IsData(d, tag) && forall k :: 0 <= k < |refs| && refs[k].FieldAt? ==> !IsData(d, refs[k].tag)
    ensures PairOf(d, refs, tag) == Levels.Unpaired
  {
    if refs != [] {
      NothingPaired(d, refs[1..], tag);
    }
  }

  lemma MembersInOrder(refs: seq<Ref>, delimiter: Tag, group: Item, n: nat, more: seq<Tag>, chosen: map<Tag, Address>)
    requires RefersTo(refs, delimiter, group, more) && group.Tag() in chosen && chosen[group.Tag()] == group.at
    requires delimiter !in more
    ensures InOrder(refs, Behind(Members(delimiter, group, n, more)), chosen)
  {
    var rest := Behind(Members(delimiter, group, n, more));
    assert rest == [GroupM(group.Tag(), n, group.required)] + Plains(more);
    assert Place(refs, rest[0], chosen) == 1 by { assert refs[1..][0] == refs[1]; }
    if more != [] {
      assert refs[1..][0] == refs[1] && refs[1..][1..] == refs[2..] && refs[2..][0] == refs[2];
      assert rest[1] == Plain(more[0], false);
      assert Place(refs[2..], rest[1], chosen) == 0;
      assert Place(refs[1..], rest[1], chosen) == 1;
      assert Place(refs, rest[1], chosen) == 2;
    }
  }

  lemma MembersLaidOut(d: Dictionary, part: Part, path: set<Name>, delimiter: Tag, group: Item, n: nat, more: seq<Tag>)
    requires RefersTo(Refs(d, part, path, 0), delimiter, group, more) && delimiter !in more
    requires forall ct: Tag :: FirstGroup(LayoutItems(d, part, true, path), ct) == if ct == group.Tag() then Some(group) else None
    requires forall t :: t in [delimiter] + more ==> t in d.fields && d.fields[t] == Text()
    ensures EntryLaidOut(d, part, path, Members(delimiter, group, n, more))
  {
    var refs, members, chosen := Refs(d, part, path, 0), Members(delimiter, group, n, more), map[group.Tag() := group.at];
    assert forall t :: t in [delimiter] + more ==> !IsData(d, t);
    forall k | 0 <= k < |refs| && refs[k].FieldAt? ensures !IsData(d, refs[k].tag) {
      assert refs[k].tag in [delimiter] + more;
    }
    forall i | 0 <= i < |members| && members[i].FieldM? ensures members[i].field.pair == PairOf(d, refs, members[i].field.tag) {
      assert members[i].field.tag in [delimiter] + more;
      NothingPaired(d, refs, members[i].field.tag);
    }
    MembersInOrder(refs, delimiter, group, n, more, chosen);
    assert Picks(chosen, LayoutItems(d, part, true, path));
  }

  lemma LoneFieldLaidOut(d: Dictionary, part: Part, path: set<Name>, delimiter: Tag)
    requires Refs(d, part, path, 0) == [FieldAt(delimiter, None)]
    requires forall ct: Tag :: FirstGroup(LayoutItems(d, part, true, path), ct) == None
    requires delimiter in d.fields && d.fields[delimiter] == Text()
    ensures EntryLaidOut(d, part, path, [Plain(delimiter, true)])
  {
    var refs, members, chosen: map<Tag, Address> := Refs(d, part, path, 0), [Plain(delimiter, true)], map[];
    NothingPaired(d, refs, delimiter);
    assert InOrder(refs, Behind(members), chosen) && Picks(chosen, LayoutItems(d, part, true, path));
  }

  lemma FieldsAreTags(items: seq<Item>, t: Tag)
    ensures t in FieldTags(items) ==> t in TagsOf(items)
  {
  }

  lemma OneGroupHasSite(d: Dictionary, at: Address, def: GroupDef, path: set<Name>, items: seq<Item>, group: Item, n: nat,
                        more: seq<Tag>, index: map<Address, nat>)
    requires DefAt(d, at) == Some(def) && Unguarded(d, def.members, path)
    requires LayoutItems(d, Part(at, def.members), true, path) == items
    requires group.GroupItem? && group in items && group.at in index && index[group.at] == n
    requires forall ct: Tag :: FirstGroup(items, ct) == if ct == group.Tag() then Some(group) else None
    requires |more| <= 1 && RequiredOf(items) == [] && FieldTags(items) == [def.delimiter] + more
    requires def.delimiter != group.Tag() && def.delimiter !in more && group.Tag() !in more
    requires forall t :: t in [def.delimiter] + more ==> t in d.fields && d.fields[t] == Text()
    requires RefersTo(Refs(d, Part(at, def.members), path, 0), def.delimiter, group, more)
    ensures HasSite(d, at, path, index)
  {
    var members, tags := Members(def.delimiter, group, n, more), SortedTags(TagsOf(items) + [def.delimiter]);
    var entry := ViewLevel(members, tags, [Slot(group.Tag(), n)]);
    SortedTagsAre(TagsOf(items) + [def.delimiter]);
    var k :| 0 <= k < |items| && items[k] == group;
    assert TagsOf(items)[k] == group.Tag();
    forall t | t in more ensures t in tags {
      FieldTagIn(items, t);
      FieldsAreTags(items, t);
    }
    OneSlot(items, group, n, index);
    MembersShape(tags, def.delimiter, group, n, more);
    MembersFields(items, def.delimiter, group, n, more);
    MembersMatch(d, items, def.delimiter, group, n, more, index);
    EntryIsPlain(entry, items, def.delimiter, index);
    MembersLaidOut(d, Part(at, def.members), path, def.delimiter, group, n, more);
    SiteOfEntry(d, at, def, path, items, entry, index);
  }

  lemma LoneFieldIsRight(items: seq<Item>, delimiter: Tag, tags: seq<Tag>, index: map<Address, nat>)
    requires TagsOf(items) == FieldTags(items) == [delimiter] && forall ct: Tag :: FirstGroup(items, ct) == None
    requires tags == SortedTags(TagsOf(items) + [delimiter]) && delimiter in tags
    ensures EntryIsRight(ViewLevel([Plain(delimiter, true)], tags, []), delimiter, items, index)
  {
    var members := [Plain(delimiter, true)];
    assert members[0].Tag() == delimiter && HasTag(members, delimiter);
    assert SlotsMatch([], items, index) && GroupsMatch(members, items, index) && EntryFields(members, items);
    assert Shape(ViewLevel(members, tags, []));
    EntryIsPlain(ViewLevel(members, tags, []), items, delimiter, index);
  }

  lemma LoneFieldHasSite(d: Dictionary, at: Address, def: GroupDef, path: set<Name>, items: seq<Item>, index: map<Address, nat>)
    requires DefAt(d, at) == Some(def) && Unguarded(d, def.members, path)
    requires LayoutItems(d, Part(at, def.members), true, path) == items
    requires TagsOf(items) == FieldTags(items) == [def.delimiter] && forall ct: Tag :: FirstGroup(items, ct) == None
    requires def.delimiter in d.fields && d.fields[def.delimiter] == Text()
    requires Refs(d, Part(at, def.members), path, 0) == [FieldAt(def.delimiter, None)]
    ensures HasSite(d, at, path, index)
  {
    var tags := SortedTags(TagsOf(items) + [def.delimiter]);
    SortedTagsAre(TagsOf(items) + [def.delimiter]);
    LoneFieldIsRight(items, def.delimiter, tags, index);
    LoneFieldLaidOut(d, Part(at, def.members), path, def.delimiter);
    SiteOfEntry(d, at, def, path, items, ViewLevel([Plain(def.delimiter, true)], tags, []), index);
  }

  lemma CircularStands()
    ensures var d := Circular();
            DefAt(d, OuterAt()) == Some(Outer()) && DefAt(d, ShadowAt()) == Some(Shadow()) && DefAt(d, InnerAt()) == Some(Inner())
  {
    OuterStands();
    assert InnerAt().path[..0] == [] && ShadowAt().path[..1] == OuterAt().path;
  }

  lemma OuterHasSite(index: map<Address, nat>)
    requires Indexed(index)
    ensures HasSite(Circular(), OuterAt(), {"B"}, index)
  {
    CircularStands();
    CircularIsUnguarded();
    OuterExpands();
    OuterLists();
    OuterRefers();
    OneGroupHasSite(Circular(), OuterAt(), Outer(), {"B"}, OuterItems(), OuterItems()[1], 1, [9], index);
  }

  lemma ShadowHasSite(index: map<Address, nat>)
    ensures HasSite(Circular(), ShadowAt(), {"B"}, index)
  {
    CircularStands();
    CircularIsUnguarded();
    ShadowExpands();
    ShadowLists();
    ShadowRefers();
    LoneFieldHasSite(Circular(), ShadowAt(), Shadow(), {"B"}, ShadowItems(), index);
  }

  lemma InnerHasSite(index: map<Address, nat>)
    requires Indexed(index)
    ensures HasSite(Circular(), InnerAt(), {"C"}, index)
  {
    CircularStands();
    CircularIsUnguarded();
    InnerExpands();
    InnerLists();
    InnerRefers();
    OneGroupHasSite(Circular(), InnerAt(), Inner(), {"C"}, InnerItems(), InnerItems()[1], 0, [], index);
  }

  ghost predicate HaveSites(d: Dictionary, index: map<Address, nat>) {
    exists sites, paths :: SitesAreRight(d, sites, paths, index, {})
  }

  ghost function SiteFor(d: Dictionary, at: Address, path: set<Name>, index: map<Address, nat>): (site: Site)
    requires HasSite(d, at, path, index)
    ensures site.at == at && SiteStands(d, site) && SiteIsRight(d, site, path, index)
  {
    var site: Site :| site.at == at && SiteStands(d, site) && SiteIsRight(d, site, path, index); site
  }

  lemma HavingSites(d: Dictionary, ats: seq<Address>, paths: seq<set<Name>>, index: map<Address, nat>)
    requires |ats| == |paths| && forall at :: at in index ==> index[at] < |ats| && ats[index[at]] == at
    requires forall i :: 0 <= i < |ats| ==> HasSite(d, ats[i], paths[i], index)
    ensures HaveSites(d, index)
  {
    var sites := seq(|ats|, i requires 0 <= i < |ats| => SiteFor(d, ats[i], paths[i], index));
    assert SitesAreRight(d, sites, paths, index, {});
  }

  lemma ThreeSites(d: Dictionary, a: Address, b: Address, c: Address, p: set<Name>, q: set<Name>, r: set<Name>, index: map<Address, nat>)
    requires index == map[a := 0, b := 1, c := 2] && a != b && b != c && c != a
    requires HasSite(d, a, p, index) && HasSite(d, b, q, index) && HasSite(d, c, r, index)
    ensures HaveSites(d, index)
  {
    var ats, paths := [a, b, c], [p, q, r];
    ThreePlaces(a, b, c, ats, index);
    assert HasSite(d, ats[0], paths[0], index) && HasSite(d, ats[1], paths[1], index) && HasSite(d, ats[2], paths[2], index);
    HavingSites(d, ats, paths, index);
  }

  lemma ThreePlaces(a: Address, b: Address, c: Address, ats: seq<Address>, index: map<Address, nat>)
    requires index == map[a := 0, b := 1, c := 2] && a != b && b != c && c != a && ats == [a, b, c]
    ensures forall at :: at in index ==> index[at] < |ats| && ats[index[at]] == at
  {
    forall at | at in index ensures index[at] < |ats| && ats[index[at]] == at {
      assert at == a || at == b || at == c;
    }
  }

  /** Sites for every group of the dictionary, each expanded without meeting the guard. */
  lemma CircularHasSites() returns (index: map<Address, nat>)
    ensures HaveSites(Circular(), index) && Indexed(index)
  {
    index := map[OuterAt() := 0, ShadowAt() := 1, InnerAt() := 2];
    OuterHasSite(index);
    ShadowHasSite(index);
    InnerHasSite(index);
    ThreeSites(Circular(), OuterAt(), ShadowAt(), InnerAt(), {"B"}, {"B"}, {"C"}, index);
  }
}
