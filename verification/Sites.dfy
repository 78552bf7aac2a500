/** What is known of the sites of an expansion, and of where the expansion stands. */
module Sites {
  import opened Wire
  import opened GroupSpecs
  import opened Schema
  import opened Layout
  import opened Paths
  import opened FirstRefs
  import opened References
  import opened ViewLevels
  import opened ViewEntries
  import opened ViewOrder
  import Levels

  // ----- what holds of the sites -----

  /** The site describes the definition standing at its address. */
  ghost predicate SiteStands(d: Dictionary, site: Site) {
    var def := DefAt(d, site.at);
    def.Some? && site.countTag == def.value.countTag && site.delimiter == def.value.delimiter
  }

  /** Its entry, met with `path` being expanded, did not meet the path guard and is the layout's entry level. */
  ghost predicate SiteIsRight(d: Dictionary, site: Site, path: set<Name>, index: map<Address, nat>)
    requires SiteStands(d, site)
  {
    EntryOfPart(d, site.entry, Part(site.at, DefAt(d, site.at).value.members), site.delimiter, path, index)
  }

  ghost predicate EntryOfPart(d: Dictionary, entry: ViewLevel, part: Part, delimiter: Tag, path: set<Name>, index: map<Address, nat>) {
    && Typed(d, entry.members) && Unguarded(d, part.members, path)
    && EntryIsRight(entry, delimiter, LayoutItems(d, part, true, path), index)
    && EntryLaidOut(d, part, path, entry.members)
  }

  /** Every site is found under its address, and right unless it is still being expanded. */
  ghost predicate SitesAreRight(d: Dictionary, sites: seq<Site>, paths: seq<set<Name>>, index: map<Address, nat>, open: set<nat>) {
    && |paths| == |sites|
    && (forall at :: at in index ==> index[at] < |sites| && sites[index[at]].at == at)
    && (forall i :: i in open ==> i < |sites|)
    && forall i :: 0 <= i < |sites| ==> SiteStands(d, sites[i]) && (i !in open ==> SiteIsRight(d, sites[i], paths[i], index))
  }

  lemma SlotsMatchGrows(groups: seq<Slot>, items: seq<Item>, a: map<Address, nat>, b: map<Address, nat>)
    requires SlotsMatch(groups, items, a) && Grows(a, b)
    ensures SlotsMatch(groups, items, b)
  {
  }

  lemma EntryGrows(entry: ViewLevel, delimiter: Tag, items: seq<Item>, a: map<Address, nat>, b: map<Address, nat>)
    requires EntryIsRight(entry, delimiter, items, a) && Grows(a, b)
    ensures EntryIsRight(entry, delimiter, items, b)
  {
    SlotsMatchGrows(entry.groups, items, a, b);
    forall i | 0 < i < |entry.members| && PairedData(entry.members[0]) != Some(entry.members[i].Tag())
      ensures GroupMatches(entry.members[i], items, b)
    {
      GroupMatchesStill(entry.members[i], items, a, b);
    }
  }

  lemma LevelGrows(level: ViewLevel, delimiter: Option<Tag>, items: seq<Item>, a: map<Address, nat>, b: map<Address, nat>)
    requires LevelIsRight(level, delimiter, items, a) && Grows(a, b)
    ensures LevelIsRight(level, delimiter, items, b)
  {
    SlotsMatchGrows(level.groups, items, a, b);
    forall m | m in level.members ensures GroupMatches(m, items, b) {
      GroupMatchesStill(m, items, a, b);
    }
  }

  lemma SitesGrow(d: Dictionary, sites: seq<Site>, paths: seq<set<Name>>, index: map<Address, nat>, open: set<nat>,
                  site: Site, path: set<Name>)
    requires SitesAreRight(d, sites, paths, index, open) && site.at !in index && SiteStands(d, site)
    ensures SitesAreRight(d, sites + [site], paths + [path], index[site.at := |sites|], open + {|sites|})
    ensures Grows(index, index[site.at := |sites|])
  {
    var grown := index[site.at := |sites|];
    forall i | 0 <= i < |sites| && i !in open ensures SiteIsRight(d, sites[i], paths[i], grown) {
      var members := DefAt(d, sites[i].at).value.members;
      EntryGrows(sites[i].entry, sites[i].delimiter, LayoutItems(d, Part(sites[i].at, members), true, paths[i]), index, grown);
    }
  }

  lemma SiteCloses(d: Dictionary, sites: seq<Site>, paths: seq<set<Name>>, index: map<Address, nat>, open: set<nat>, i: nat,
                   entry: ViewLevel)
    requires SitesAreRight(d, sites, paths, index, open + {i}) && i < |sites| && i !in open
    requires SiteIsRight(d, sites[i].(entry := entry), paths[i], index)
    ensures SitesAreRight(d, sites[i := sites[i].(entry := entry)], paths, index, open)
  {
  }

  lemma MirrorsGrow(level: LevelBuilder, items: seq<Item>, a: map<Address, nat>, b: map<Address, nat>)
    requires level.Mirrors(items, a) && Grows(a, b)
    ensures level.Mirrors(items, b)
  {
  }

  // ----- where an expansion stands -----

  /** `part` stands in the dictionary, reached from `root` by `depth` steps through the components of `stack`. */
  ghost predicate StandsAt(d: Dictionary, part: Part, depth: nat, stack: seq<Name>, root: seq<Member>, steps: seq<nat>) {
    && Stands(d, part) && Homed(part.at, Names(stack)) && OnStack(d, stack, part.members)
    && Follow(d, root, steps) == Some(part.members) && |steps| == depth
  }

  function EntryPart(part: Part, i: nat): Part
    requires i < |part.members| && part.members[i].GroupRef?
  {
    Part(GroupAddress(part, i), part.members[i].def.members)
  }

  lemma EntryStandsAt(d: Dictionary, part: Part, i: nat, depth: nat, stack: seq<Name>, root: seq<Member>, steps: seq<nat>)
    requires StandsAt(d, part, depth, stack, root, steps) && i < |part.members| && part.members[i].GroupRef?
    ensures StandsAt(d, EntryPart(part, i), depth + 1, stack, root, steps + [i])
    ensures DefAt(d, GroupAddress(part, i)) == Some(part.members[i].def)
    ensures Mentions(d, root, part.members[i].def.delimiter)
  {
    GroupStands(d, part, i);
    StepFollows(d, root, steps, part.members, i, part.members[i].def.members);
    StackFollows(d, stack, part.members, i, part.members[i].def.members);
    MentionIsReached(d, root, steps, part.members, i);
  }

  lemma ComponentStandsAt(d: Dictionary, part: Part, i: nat, depth: nat, stack: seq<Name>, root: seq<Member>, steps: seq<nat>)
    requires StandsAt(d, part, depth, stack, root, steps) && i < |part.members| && part.members[i].ComponentRef?
    requires part.members[i].name in d.components
    ensures var name := part.members[i].name;
            StandsAt(d, ComponentPart(d, name), depth + 1, stack + [name], root, steps + [i])
  {
    StackGrows(d, stack, part.members, i);
    StepFollows(d, root, steps, part.members, i, d.components[part.members[i].name]);
    NamesPush(stack, part.members[i].name);
  }

  lemma RootStandsAt(d: Dictionary, part: Part)
    requires Stands(d, part) && !part.at.owner.Component?
    ensures StandsAt(d, part, 0, [], part.members, [])
  {
  }

  /** What a builder knows of its sites: where they are, on which path each was reached, which are open. */
  datatype Knowledge = Knowledge(index: map<Address, nat>, paths: seq<set<Name>>, open: set<nat>)

  /** Sites are only added, and those opened since have been closed. */
  ghost predicate Learns(a: Knowledge, b: Knowledge) {
    Grows(a.index, b.index) && a.paths <= b.paths && b.open == a.open
  }

  lemma LearnsMore(a: Knowledge, b: Knowledge, c: Knowledge)
    requires Learns(a, b) && Learns(b, c)
    ensures Learns(a, c)
  {
  }

  /** A site opened, built and closed leaves what was known, and its own path. */
  lemma LearnsOne(a: Knowledge, mid: Knowledge, b: Knowledge, path: set<Name>, site: nat)
    requires Grows(a.index, mid.index) && mid.paths == a.paths + [path] && mid.open == a.open + {site} && site !in a.open
    requires Learns(mid, b.(open := b.open + {site})) && site !in b.open
    ensures Learns(a, b) && |a.paths| < |b.paths| && b.paths[|a.paths|] == path
  {
    assert b.paths[|a.paths|] == mid.paths[|a.paths|];
    assert forall i :: 0 <= i < |a.paths| ==> b.paths[i] == mid.paths[i];
  }

  /** The components among the first `i` members fit. */
  ghost predicate FirstFit(d: Dictionary, ms: seq<Member>, i: nat, depth: nat, path: set<Name>)
    requires depth <= MAX_NESTING_DEPTH && i <= |ms|
  {
    forall j :: 0 <= j < i && ms[j].ComponentRef? ==> FitsBelow(d, ms[j].name, depth, path)
  }

  /** The level is laid out as the references met so far say, each field of its definition's kind. */
  ghost predicate ReadyLevel(d: Dictionary, refs: seq<Ref>, members: seq<ViewMember>, fields: map<Tag, nat>, groupTags: set<Tag>,
                             chosen: map<Tag, Address>)
  {
    InPlace(members, fields) && Typed(d, members) && Laid(d, refs, members, fields, groupTags, chosen)
  }

  /** `previous` is the field listed right before member `i`, and has been added. */
  ghost predicate Follows(previous: Option<Tag>, ms: seq<Member>, i: nat, fields: map<Tag, nat>)
    requires i <= |ms|
  {
    previous == Before(ms, i) && (previous.Some? ==> previous.value in fields)
  }

  /** The member recorded for the field is paired so. */
  predicate PairedWith(members: seq<ViewMember>, fields: map<Tag, nat>, tag: Tag, pair: Levels.Pair) {
    tag in fields && fields[tag] < |members| && members[fields[tag]].FieldM? && members[fields[tag]].field.pair == pair
  }

  lemma AddedIsTyped(d: Dictionary, before: seq<ViewMember>, known: map<Tag, nat>, after: seq<ViewMember>, fields: map<Tag, nat>,
                     member: Levels.FieldMember)
    requires InPlace(before, known) && Typed(d, before) && TypedField(d, member) && Added(before, known, after, fields, member)
    ensures Typed(d, after)
  {
  }

  lemma FirstFitNext(d: Dictionary, ms: seq<Member>, i: nat, depth: nat, path: set<Name>)
    requires depth <= MAX_NESTING_DEPTH && i < |ms| && FirstFit(d, ms, i, depth, path)
    requires ms[i].ComponentRef? ==> FitsBelow(d, ms[i].name, depth, path)
    ensures FirstFit(d, ms, i + 1, depth, path)
  {
  }

  lemma ViewStep(d: Dictionary, part: Part, required: bool, path: set<Name>, i: nat, before: seq<Item>)
    requires i < |part.members|
    ensures before + StepItems(d, part, required, path, i) + ViewItems(d, part, required, path, i + 1)
            == before + ViewItems(d, part, required, path, i)
  {
    Regroup(before, StepItems(d, part, required, path, i), ViewItems(d, part, required, path, i + 1));
  }

  /** The first `i` members have been expanded, and the rest completes the whole. */
  ghost predicate Expanded(d: Dictionary, part: Part, required: bool, depth: nat, path: set<Name>, i: nat, soFar: seq<Item>, total: seq<Item>,
                           met: seq<Ref>, all: seq<Ref>)
    requires depth <= MAX_NESTING_DEPTH && i <= |part.members|
  {
    && FirstFit(d, part.members, i, depth, path)
    && soFar + ViewItems(d, part, required, path, i) == total
    && met + Refs(d, part, path, i) == all
  }

  lemma ExpandedNext(d: Dictionary, part: Part, required: bool, depth: nat, path: set<Name>, i: nat, soFar: seq<Item>, total: seq<Item>,
                     met: seq<Ref>, all: seq<Ref>)
    requires depth <= MAX_NESTING_DEPTH && i < |part.members|
    requires Expanded(d, part, required, depth, path, i, soFar, total, met, all)
    requires part.members[i].ComponentRef? ==> FitsBelow(d, part.members[i].name, depth, path)
    ensures Expanded(d, part, required, depth, path, i + 1, soFar + StepItems(d, part, required, path, i), total,
                     met + StepRefs(d, part, path, i), all)
  {
    FirstFitNext(d, part.members, i, depth, path);
    ViewStep(d, part, required, path, i, soFar);
    RefsFrom(d, part, path, i, met);
  }

  lemma AllExpanded(d: Dictionary, part: Part, required: bool, depth: nat, path: set<Name>, soFar: seq<Item>, total: seq<Item>,
                    met: seq<Ref>, all: seq<Ref>)
    requires depth <= MAX_NESTING_DEPTH && Expanded(d, part, required, depth, path, |part.members|, soFar, total, met, all)
    ensures Fits(d, part.members, depth, path) && soFar == total && met == all
  {
  }
}
