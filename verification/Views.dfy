/** The view generator's builder: one site per group definition, and the levels of messages. */
module Views {
  import opened Wire
  import opened GroupSpecs
  import opened Sorting
  import opened Schema
  import opened Layout
  import opened Paths
  import opened FirstRefs
  import opened References
  import opened ViewLevels
  import opened ViewEntries
  import opened ViewOrder
  import opened Sites
  import Levels

  class Builder {
    const dict: Dictionary
    var sites: seq<Site>
    /** Site of each group definition already reached, by where it stands. */
    var siteIndex: map<Address, nat>
    /** The components being expanded where each site was first reached. */
    ghost var paths: seq<set<Name>>
    /** Sites whose entries are still being expanded. */
    ghost var open: set<nat>

    ghost predicate Valid()
      reads this
    {
      SitesAreRight(dict, sites, paths, siteIndex, open)
    }

    ghost function Known(): Knowledge
      reads this
    {
      Knowledge(siteIndex, paths, open)
    }

    /** A level laid out as the references met so far say, each field of its definition's kind. */
    ghost predicate Ready(level: LevelBuilder, refs: seq<Ref>)
      reads level
    {
      ReadyLevel(dict, refs, level.members, level.fields, level.groupTags, level.chosen)
    }

    constructor (dictionary: Dictionary)
      ensures dict == dictionary && Valid() && open == {} && siteIndex == map[]
    {
      dict := dictionary;
      sites, siteIndex, paths, open := [], map[], [], {};
    }

    /** Adds a field; one of type data is paired with the length listed right before it. */
    method TakeField(level: LevelBuilder, tag: Tag, required: bool, previous: Option<Tag>, ghost root: seq<Member>, ghost seen: seq<Item>,
                     ghost refs: seq<Ref>)
      returns (error: Option<GeneratorError>)
      requires Ready(level, refs) && Mentions(dict, root, tag) && (previous.Some? ==> previous.value in level.fields)
      modifies level
      ensures error.None? ==> tag in dict.fields && Ready(level, refs + [FieldAt(tag, previous)]) && tag in level.fields
      ensures error.None? && dict.fields[tag].kind.Bytes? ==>
                previous.Some? && previous.value in dict.fields && dict.fields[previous.value].isLength
      ensures error.None? && dict.fields[tag].kind.Bytes? && tag !in old(level.fields) ==>
                && PairedWith(level.members, level.fields, tag, Levels.DataOf(previous.value))
                && (old(level.members[level.fields[previous.value]].field.pair).Unpaired? ==>
                      PairedWith(level.members, level.fields, previous.value, Levels.LengthOf(tag)))
      ensures error.None? && old(level.Mirrors(seen, siteIndex)) ==> level.Mirrors(seen + [FieldItem(tag, required)], siteIndex)
      ensures error.Some? ==> Justified(dict, root, error.value)
    {
      if tag !in dict.fields {
        return Some(UnknownField(tag));
      }
      var member := NewField(tag, dict.fields[tag], required);
      if member.kind.Bytes? {
        if previous.None? || previous.value !in dict.fields || !dict.fields[previous.value].isLength {
          return Some(UnpairedDataField(tag));
        }
        TakeData(level, member.(pair := Levels.DataOf(previous.value)), previous.value, seen, refs);
      } else {
        ghost var before, known := level.members, level.fields;
        AddTyped(level, member, seen);
        LaidField(dict, refs, before, known, level.groupTags, level.chosen, level.members, level.fields, member, previous);
      }
      return None;
    }

    method AddTyped(level: LevelBuilder, member: Levels.FieldMember, ghost seen: seq<Item>)
      requires InPlace(level.members, level.fields) && Typed(dict, level.members) && TypedField(dict, member)
      modifies level
      ensures InPlace(level.members, level.fields) && Typed(dict, level.members)
      ensures Added(old(level.members), old(level.fields), level.members, level.fields, member)
      ensures level.groupTags == old(level.groupTags)
      ensures old(level.Mirrors(seen, siteIndex)) ==> level.Mirrors(seen + [FieldItem(member.tag, member.required)], siteIndex)
    {
      ghost var before, known := level.members, level.fields;
      level.AddField(member, seen, siteIndex);
      AddedIsTyped(dict, before, known, level.members, level.fields, member);
    }

    /** Adds a data field, framed by the length taken right before it. */
    method TakeData(level: LevelBuilder, member: Levels.FieldMember, length: Tag, ghost seen: seq<Item>, ghost refs: seq<Ref>)
      requires Ready(level, refs) && TypedField(dict, member) && member.pair == Levels.DataOf(length) && member.kind.Bytes?
      requires length in level.fields && length in dict.fields && dict.fields[length].isLength
      modifies level
      ensures Ready(level, refs + [FieldAt(member.tag, Some(length))]) && member.tag in level.fields
      ensures member.tag !in old(level.fields) ==> PairedWith(level.members, level.fields, member.tag, member.pair)
      ensures member.tag !in old(level.fields) && old(level.members[level.fields[length]].field.pair).Unpaired? ==>
                PairedWith(level.members, level.fields, length, Levels.LengthOf(member.tag))
      ensures old(level.Mirrors(seen, siteIndex)) ==> level.Mirrors(seen + [FieldItem(member.tag, member.required)], siteIndex)
    {
      ghost var before, known := level.members, level.fields;
      level.PairLength(length, member.tag, seen, siteIndex);
      ghost var mid := level.members;
      AddTyped(level, member, seen);
      LaidData(dict, refs, before, known, level.groupTags, level.chosen, mid, level.members, level.fields, member, length);
    }

    /** Adds a group unless another definition of its count tag is kept. */
    method TakeGroup(level: LevelBuilder, part: Part, i: nat, required: bool, depth: nat, stack: seq<Name>,
                     ghost root: seq<Member>, ghost steps: seq<nat>, ghost seen: seq<Item>, ghost refs: seq<Ref>)
      returns (error: Option<GeneratorError>)
      requires Valid() && StandsAt(dict, part, depth, stack, root, steps) && depth <= MAX_NESTING_DEPTH
      requires i < |part.members| && part.members[i].GroupRef? && Ready(level, refs)
      modifies this, level
      ensures error.None? ==> Valid() && Learns(old(Known()), Known())
      ensures error.None? ==> Ready(level, refs + StepRefs(dict, part, Names(stack), i))
      ensures error.None? && old(level.Mirrors(seen, siteIndex)) ==>
                level.Mirrors(seen + [OwnItem(part, i, required, Names(stack))], siteIndex)
      ensures error.Some? ==> Justified(dict, root, error.value)
      decreases Room(depth), 2
    {
      var def, at := part.members[i].def, GroupAddress(part, i);
      ghost var item, before := OwnItem(part, i, required, Names(stack)), siteIndex;
      if def.countTag !in level.chosen || level.chosen[def.countTag] != at || def.countTag in level.groupTags {
        level.PassGroup(def.countTag, item, seen, siteIndex);
        LaidPass(dict, refs, level.members, level.fields, level.groupTags, level.chosen, def.countTag, at);
        return None;
      }
      var site;
      error, site := SiteOf(part, i, depth, stack, root, steps);
      if error.Some? {
        return;
      }
      if level.Mirrors(seen, before) {
        MirrorsGrow(level, seen, before, siteIndex);
      }
      LaidGroup(dict, refs, level.members, level.fields, level.groupTags, level.chosen, GroupM(def.countTag, site, required && def.required));
      level.AddGroup(def.countTag, site, required && def.required, item, seen, siteIndex);
    }

    /** Expands a component in place; one inside itself is an error. */
    method TakeComponent(level: LevelBuilder, part: Part, i: nat, required: bool, depth: nat, stack: seq<Name>,
                         ghost root: seq<Member>, ghost steps: seq<nat>, ghost seen: seq<Item>, ghost refs: seq<Ref>)
      returns (error: Option<GeneratorError>)
      requires Valid() && StandsAt(dict, part, depth, stack, root, steps) && depth <= MAX_NESTING_DEPTH
      requires i < |part.members| && part.members[i].ComponentRef? && Ready(level, refs)
      modifies this, level
      ensures error.None? ==> Valid() && Learns(old(Known()), Known())
      ensures error.None? ==> Ready(level, refs + StepRefs(dict, part, Names(stack), i))
      ensures error.None? ==> FitsBelow(dict, part.members[i].name, depth, Names(stack))
      ensures error.None? && old(level.Mirrors(seen, siteIndex)) ==>
                level.Mirrors(seen + StepItems(dict, part, required, Names(stack), i), siteIndex)
      ensures error.Some? ==> Justified(dict, root, error.value)
      decreases Room(depth), 2
    {
      var name := part.members[i].name;
      if name in stack {
        CycleIsReal(dict, stack, root, steps, part.members, i);
        return Some(ComponentCycle(name));
      }
      if name !in dict.components {
        ListedIsReached(dict, root, steps, part.members, i);
        return Some(UnknownComponent(name));
      }
      ComponentStandsAt(dict, part, i, depth, stack, root, steps);
      NamesPush(stack, name);
      error := Expand(level, ComponentPart(dict, name), required && part.members[i].required, depth + 1, stack + [name],
                      root, steps + [i], seen, refs);
    }

    /** Takes one member; a field is remembered for a data field listed right behind it. */
    method TakeMember(level: LevelBuilder, part: Part, i: nat, required: bool, depth: nat, stack: seq<Name>, previous: Option<Tag>,
                      ghost root: seq<Member>, ghost steps: seq<nat>, ghost seen: seq<Item>, ghost refs: seq<Ref>)
      returns (error: Option<GeneratorError>, next: Option<Tag>)
      requires Valid() && StandsAt(dict, part, depth, stack, root, steps) && depth <= MAX_NESTING_DEPTH
      requires i < |part.members| && Ready(level, refs)
      requires Follows(previous, part.members, i, level.fields)
      modifies this, level
      ensures error.None? ==> Valid() && Learns(old(Known()), Known())
      ensures error.None? ==> Ready(level, refs + StepRefs(dict, part, Names(stack), i))
      ensures error.None? ==> Follows(next, part.members, i + 1, level.fields)
      ensures error.None? && part.members[i].ComponentRef? ==> FitsBelow(dict, part.members[i].name, depth, Names(stack))
      ensures error.None? && old(level.Mirrors(seen, siteIndex)) ==>
                level.Mirrors(seen + StepItems(dict, part, required, Names(stack), i), siteIndex)
      ensures error.Some? ==> Justified(dict, root, error.value)
      decreases Room(depth), 3
    {
      next := None;
      match part.members[i]
      case FieldRef(tag, req) =>
        MentionIsReached(dict, root, steps, part.members, i);
        error := TakeField(level, tag, required && req, previous, root, seen, refs);
        next := Some(tag);
      case GroupRef(_) =>
        error := TakeGroup(level, part, i, required, depth, stack, root, steps, seen, refs);
      case ComponentRef(_, _) =>
        error := TakeComponent(level, part, i, required, depth, stack, root, steps, seen, refs);
    }

    /** Expands a part into `level`, in document order. */
    method Expand(level: LevelBuilder, part: Part, required: bool, depth: nat, stack: seq<Name>,
                  ghost root: seq<Member>, ghost steps: seq<nat>, ghost seen: seq<Item>, ghost refs: seq<Ref>)
      returns (error: Option<GeneratorError>)
      requires Valid() && StandsAt(dict, part, depth, stack, root, steps) && Ready(level, refs)
      modifies this, level
      ensures error.None? ==> Valid() && Learns(old(Known()), Known())
      ensures error.None? ==> Ready(level, refs + Refs(dict, part, Names(stack), 0))
      ensures error.None? ==> Fits(dict, part.members, depth, Names(stack))
      ensures error.None? && old(level.Mirrors(seen, siteIndex)) ==>
                level.Mirrors(seen + ViewItems(dict, part, required, Names(stack), 0), siteIndex)
      ensures error.Some? ==> Justified(dict, root, error.value)
      decreases Room(depth), 5
    {
      if depth > MAX_NESTING_DEPTH {
        return Some(MaxDepthExceeded);
      }
      ghost var path, mirrored := Names(stack), level.Mirrors(seen, siteIndex);
      ghost var start, soFar, met := Known(), seen, refs;
      ghost var total, all := seen + ViewItems(dict, part, required, path, 0), refs + Refs(dict, part, path, 0);
      var previous: Option<Tag> := None;
      for i := 0 to |part.members|
        invariant Valid() && Learns(start, Known()) && Ready(level, met)
        invariant Expanded(dict, part, required, depth, path, i, soFar, total, met, all)
        invariant mirrored ==> level.Mirrors(soFar, siteIndex)
        invariant Follows(previous, part.members, i, level.fields)
      {
        error, previous, soFar, met := ExpandMember(level, part, i, required, depth, stack, previous, root, steps, soFar, total, met, all, start);
        if error.Some? {
          return;
        }
      }
      AllExpanded(dict, part, required, depth, path, soFar, total, met, all);
      return None;
    }

    method ExpandMember(level: LevelBuilder, part: Part, i: nat, required: bool, depth: nat, stack: seq<Name>, previous: Option<Tag>,
                        ghost root: seq<Member>, ghost steps: seq<nat>, ghost seen: seq<Item>, ghost total: seq<Item>,
                        ghost refs: seq<Ref>, ghost all: seq<Ref>, ghost start: Knowledge)
      returns (error: Option<GeneratorError>, next: Option<Tag>, ghost items: seq<Item>, ghost met: seq<Ref>)
      requires Valid() && StandsAt(dict, part, depth, stack, root, steps) && depth <= MAX_NESTING_DEPTH
      requires i < |part.members| && Ready(level, refs) && Learns(start, Known())
      requires Expanded(dict, part, required, depth, Names(stack), i, seen, total, refs, all)
      requires Follows(previous, part.members, i, level.fields)
      modifies this, level
      ensures error.None? ==> Valid() && Learns(start, Known()) && Ready(level, met)
      ensures error.None? ==> Follows(next, part.members, i + 1, level.fields)
      ensures error.None? ==> Expanded(dict, part, required, depth, Names(stack), i + 1, items, total, met, all)
      ensures error.None? && old(level.Mirrors(seen, siteIndex)) ==> level.Mirrors(items, siteIndex)
      ensures error.Some? ==> Justified(dict, root, error.value)
      decreases Room(depth), 4
    {
      ghost var before := Known();
      error, next := TakeMember(level, part, i, required, depth, stack, previous, root, steps, seen, refs);
      if error.None? {
        LearnsMore(start, before, Known());
        ExpandedNext(dict, part, required, depth, Names(stack), i, seen, total, refs, all);
      }
      items, met := seen + StepItems(dict, part, required, Names(stack), i), refs + StepRefs(dict, part, Names(stack), i);
    }

    /** The site of a group definition, built on first reach. */
    method SiteOf(part: Part, i: nat, depth: nat, stack: seq<Name>, ghost root: seq<Member>, ghost steps: seq<nat>)
      returns (error: Option<GeneratorError>, site: nat)
      requires Valid() && StandsAt(dict, part, depth, stack, root, steps) && depth <= MAX_NESTING_DEPTH
      requires i < |part.members| && part.members[i].GroupRef?
      modifies this
      ensures error.None? ==> Valid() && Learns(old(Known()), Known())
      ensures error.None? ==> GroupAddress(part, i) in siteIndex && siteIndex[GroupAddress(part, i)] == site
      ensures error.Some? ==> Justified(dict, root, error.value)
      decreases Room(depth), 1
    {
      if GroupAddress(part, i) in siteIndex {
        return None, siteIndex[GroupAddress(part, i)];
      }
      error, site := NewSite(part, i, depth, stack, root, steps);
    }

    /** Builds the site of a group definition reached for the first time. */
    method NewSite(part: Part, i: nat, depth: nat, stack: seq<Name>, ghost root: seq<Member>, ghost steps: seq<nat>)
      returns (error: Option<GeneratorError>, site: nat)
      requires Valid() && StandsAt(dict, part, depth, stack, root, steps) && depth <= MAX_NESTING_DEPTH
      requires i < |part.members| && part.members[i].GroupRef? && GroupAddress(part, i) !in siteIndex
      modifies this
      ensures error.None? ==> Valid() && Learns(old(Known()), Known())
      ensures error.None? ==> GroupAddress(part, i) in siteIndex && siteIndex[GroupAddress(part, i)] == site
      ensures error.Some? ==> Justified(dict, root, error.value)
      decreases Room(depth), 0
    {
      var def := part.members[i].def;
      ghost var before := Known();
      EntryStandsAt(dict, part, i, depth, stack, root, steps);
      site := OpenSite(GroupAddress(part, i), def, Names(stack));
      ghost var mid := Known();
      var entry := BuildEntry(EntryPart(part, i), def.delimiter, depth + 1, stack, root, steps + [i]);
      if entry.Err? {
        return Some(entry.error), site;
      }
      LearnsOne(before, mid, Known().(open := open - {site}), Names(stack), site);
      CloseSite(site, entry.value, def, Names(stack));
      error := None;
    }

    /** Reserves the site, its entry still to be built. */
    method OpenSite(at: Address, def: GroupDef, ghost path: set<Name>) returns (site: nat)
      requires Valid() && DefAt(dict, at) == Some(def) && at !in siteIndex
      modifies this
      ensures Valid() && site == |old(paths)| && site !in old(open) && open == old(open) + {site}
      ensures Grows(old(siteIndex), siteIndex) && at in siteIndex && siteIndex[at] == site
      ensures paths == old(paths) + [path]
    {
      site := |sites|;
      var reserved := Site(at, def.countTag, def.delimiter, ViewLevel([], [], []));
      SitesGrow(dict, sites, paths, siteIndex, open, reserved, path);
      sites, paths := sites + [reserved], paths + [path];
      siteIndex := siteIndex[at := site];
      open := open + {site};
    }

    method CloseSite(site: nat, entry: ViewLevel, ghost def: GroupDef, ghost path: set<Name>)
      requires Valid() && site in open && site < |sites| && paths[site] == path && DefAt(dict, sites[site].at) == Some(def)
      requires EntryOfPart(dict, entry, Part(sites[site].at, def.members), def.delimiter, path, siteIndex)
      modifies this`sites, this`open
      ensures Valid() && open == old(open) - {site}
    {
      assert open == open - {site} + {site};
      SiteCloses(dict, sites, paths, siteIndex, open - {site}, site, entry);
      sites := sites[site := sites[site].(entry := entry)];
      open := open - {site};
    }

    /** Expands a group definition into the level formed by one of its entries. */
    method BuildEntry(part: Part, delimiter: Tag, depth: nat, stack: seq<Name>, ghost root: seq<Member>, ghost steps: seq<nat>)
      returns (entry: Result<ViewLevel, GeneratorError>)
      requires Valid() && StandsAt(dict, part, depth, stack, root, steps) && Mentions(dict, root, delimiter)
      modifies this
      ensures entry.Ok? ==> Valid() && Learns(old(Known()), Known())
      ensures entry.Ok? ==> EntryOfPart(dict, entry.value, part, delimiter, Names(stack), siteIndex)
      ensures entry.Err? ==> Justified(dict, root, entry.error)
      decreases Room(depth), 7
    {
      var level := ExpandLevel(part, depth, stack, Some(delimiter), root, steps);
      if level.Err? {
        return Err(level.error);
      }
      entry := FinishEntry(dict, level.value, delimiter);
      if entry.Ok? {
        EntryIsTyped(dict, level.value.members, delimiter);
        EntryIsLaidOut(dict, part, Names(stack), level.value.members, delimiter);
        FinishedEntryIsRight(dict, level.value, delimiter, LayoutItems(dict, part, true, Names(stack)), siteIndex, entry.value);
      } else {
        EntryFails(dict, level.value.members, delimiter);
      }
    }

    /** Expands a part into a level of its own. */
    method ExpandLevel(part: Part, depth: nat, stack: seq<Name>, delimiter: Option<Tag>, ghost root: seq<Member>, ghost steps: seq<nat>)
      returns (level: Result<ViewLevel, GeneratorError>)
      requires Valid() && StandsAt(dict, part, depth, stack, root, steps)
      modifies this
      ensures level.Ok? ==> Valid() && Learns(old(Known()), Known())
      ensures level.Ok? ==> Typed(dict, level.value.members) && Unguarded(dict, part.members, Names(stack))
      ensures level.Ok? ==> LevelIsRight(level.value, delimiter, LayoutItems(dict, part, true, Names(stack)), siteIndex)
      ensures level.Ok? ==> LaidOut(dict, part, Names(stack), level.value.members)
      ensures level.Ok? ==> forall t :: HasField(Refs(dict, part, Names(stack), 0), t) ==> HasTag(level.value.members, t)
      ensures level.Err? ==> Justified(dict, root, level.error)
      decreases Room(depth), 6
    {
      ghost var path := Names(stack);
      var chosen := Choose(dict, part, depth, stack, map[], true, []);
      var builder := new LevelBuilder(chosen);
      NothingLaid(dict, chosen);
      var error := Expand(builder, part, true, depth, stack, root, steps, [], []);
      if error.Some? {
        return Err(error.value);
      }
      FitsIsUnguarded(dict, part.members, depth, path);
      assert [] + LayoutItems(dict, part, true, path) == LayoutItems(dict, part, true, path);
      assert [] + ViewItems(dict, part, true, path, 0) == ViewItems(dict, part, true, path, 0);
      assert [] + Refs(dict, part, path, 0) == Refs(dict, part, path, 0);
      var finished := FinishLevel(builder, part, delimiter, path);
      return Ok(finished);
    }

    /** Finishes the level a part has been expanded into. */
    method FinishLevel(level: LevelBuilder, ghost part: Part, delimiter: Option<Tag>, ghost path: set<Name>) returns (finished: ViewLevel)
      requires Ready(level, Refs(dict, part, path, 0)) && Homed(part.at, path) && Picks(level.chosen, LayoutItems(dict, part, true, path))
      requires level.Mirrors(ViewItems(dict, part, true, path, 0), siteIndex)
      ensures Typed(dict, finished.members) && LevelIsRight(finished, delimiter, LayoutItems(dict, part, true, path), siteIndex)
      ensures LaidOut(dict, part, path, finished.members)
      ensures forall t :: HasField(Refs(dict, part, path, 0), t) ==> HasTag(finished.members, t)
    {
      finished := level.Finish(delimiter, dict, part, path, siteIndex);
      KeptAreTyped(dict, level.members, finished.members);
      LevelIsLaidOut(dict, part, path, level.members, level.fields, level.groupTags, level.chosen);
      ReferredAreThere(dict, part, path, finished.members);
    }

    /** The sites of the groups among `ms`, in order. */
    method GroupSites(at: Address, ms: seq<Member>) returns (error: Option<GeneratorError>, list: seq<nat>)
      requires Valid() && Stands(dict, Part(at, ms)) && !at.owner.Component?
      modifies this
      ensures error.None? ==> Valid() && Learns(old(Known()), Known())
      ensures error.None? ==> ListMatches(list, GroupItems(Part(at, ms), true, {}, 0), siteIndex)
      ensures error.Some? ==> Justified(dict, ms, error.value)
    {
      var part := Part(at, ms);
      RootStandsAt(dict, part);
      list := [];
      ghost var soFar := [];
      for i := 0 to |ms|
        invariant Valid() && Learns(old(Known()), Known())
        invariant ListMatches(list, soFar, siteIndex)
        invariant soFar + GroupItems(part, true, {}, i) == GroupItems(part, true, {}, 0)
      {
        GroupStep(part, i, soFar);
        if ms[i].GroupRef? {
          var site;
          ghost var before := siteIndex;
          error, site := SiteOf(part, i, 0, [], ms, []);
          if error.Some? {
            return;
          }
          ListNext(list, soFar, before, siteIndex, OwnItem(part, i, true, {}));
          list := list + [site];
          soFar := soFar + [OwnItem(part, i, true, {})];
        }
      }
      assert soFar == GroupItems(part, true, {}, 0);
      return None, list;
    }

    /** The sites of the header groups, then of the trailer groups. */
    method Envelope() returns (error: Option<GeneratorError>, list: seq<nat>)
      requires Valid()
      modifies this
      ensures error.None? ==> Valid() && Learns(old(Known()), Known())
      ensures error.None? ==> ListMatches(list, EnvelopeGroups(dict), siteIndex)
      ensures error.Some? ==> Justified(dict, dict.header, error.value) || Justified(dict, dict.trailer, error.value)
    {
      ghost var start := Known();
      error, list := GroupSites(Address(Header, []), dict.header);
      if error.Some? {
        return;
      }
      ghost var between := Known();
      var trailer;
      error, trailer := GroupSites(Address(Trailer, []), dict.trailer);
      if error.Some? {
        return;
      }
      LearnsMore(start, between, Known());
      ListsJoin(list, GroupItems(Part(Address(Header, []), dict.header), true, {}, 0), between.index,
                trailer, GroupItems(Part(Address(Trailer, []), dict.trailer), true, {}, 0), siteIndex);
      list := list + trailer;
    }

    /** The groups of a message: of several with one count tag the first of `list`, sorted. */
    method TopGroups(list: seq<nat>, body: seq<Slot>, ghost items: seq<Item>) returns (top: seq<Slot>)
      requires Valid() && ListMatches(list, items, siteIndex) && GroupsStand(dict, items)
      ensures top == SortBy(SlotsFor(items, siteIndex) + body, SlotKey)
    {
      var seen;
      top, seen := TopOfEnvelope(list, items);
      ghost var envelope := SlotsFor(items, siteIndex);
      assert envelope + body[..0] == envelope;
      for k := 0 to |body|
        invariant FirstsOf(top, seen, envelope + body[..k])
      {
        assert envelope + body[..k + 1] == envelope + body[..k] + [body[k]];
        top, seen := KeepFirst(top, seen, body[k], envelope + body[..k]);
      }
      assert body[..|body|] == body;
      SameFirstsSortAlike(top, envelope + body, SlotKey);
      top := SortBy(top, SlotKey);
    }

    method TopOfEnvelope(list: seq<nat>, ghost items: seq<Item>) returns (top: seq<Slot>, seen: set<Tag>)
      requires Valid() && ListMatches(list, items, siteIndex) && GroupsStand(dict, items)
      ensures FirstsOf(top, seen, SlotsFor(items, siteIndex))
    {
      top, seen := [], {};
      ghost var slots := SlotsFor(items, siteIndex);
      for k := 0 to |list|
        invariant FirstsOf(top, seen, slots[..k])
      {
        var slot := Slot(sites[list[k]].countTag, list[k]);
        assert slots[k] == slot && slots[..k + 1] == slots[..k] + [slot];
        top, seen := KeepFirst(top, seen, slot, slots[..k]);
      }
      assert slots[..|list|] == slots;
    }

    /** The model of one message: its body, the groups that may open at its level, and the tags the level accepts. */
    method Message(name: Name, envelope: seq<nat>) returns (result: Result<MessageModel, GeneratorError>)
      requires Valid() && name in dict.messages && ListMatches(envelope, EnvelopeGroups(dict), siteIndex)
      modifies this
      ensures result.Ok? ==> Valid() && Learns(old(Known()), Known())
      ensures result.Ok? ==> Typed(dict, result.value.body.members) && MessageIsRight(dict, name, result.value, siteIndex)
      ensures result.Err? ==> Justified(dict, dict.messages[name], result.error)
    {
      var part := Part(Address(Body(name), []), dict.messages[name]);
      RootStandsAt(dict, part);
      assert Names([]) == {};
      var level := ExpandLevel(part, 0, [], None, part.members, []);
      if level.Err? {
        return Err(level.error);
      }
      var body := level.value;
      var tags := SortedTags(TagsOf(FieldItems(Part(Address(Header, []), dict.header), true, 0))
                             + TagsOf(FieldItems(Part(Address(Trailer, []), dict.trailer), true, 0))
                             + TagsOf(EnvelopeGroups(dict)) + body.tags);
      EnvelopeStands(dict);
      var top := TopGroups(envelope, body.groups, EnvelopeGroups(dict));
      TopMatches(EnvelopeGroups(dict), BodyItems(dict, name), body.groups, siteIndex);
      return Ok(MessageModel(body, top, tags));
    }
  }

  // ----- messages -----

  /** A message: its body level, the groups of its top level, and every tag that level accepts. */
  datatype MessageModel = MessageModel(body: ViewLevel, top: seq<Slot>, tags: seq<Tag>)

  function EnvelopeGroups(d: Dictionary): seq<Item> {
    GroupItems(Part(Address(Header, []), d.header), true, {}, 0) + GroupItems(Part(Address(Trailer, []), d.trailer), true, {}, 0)
  }

  /** What a message's own definition contributes to its level. */
  function BodyItems(d: Dictionary, name: Name): seq<Item>
    requires name in d.messages
  {
    LayoutItems(d, Part(Address(Body(name), []), d.messages[name]), true, {})
  }

  ghost predicate ListMatches(list: seq<nat>, items: seq<Item>, index: map<Address, nat>) {
    && |list| == |items|
    && forall k :: 0 <= k < |list| ==> items[k].GroupItem? && items[k].at in index && index[items[k].at] == list[k]
  }

  lemma ListNext(list: seq<nat>, items: seq<Item>, a: map<Address, nat>, b: map<Address, nat>, item: Item)
    requires ListMatches(list, items, a) && Grows(a, b) && item.GroupItem? && item.at in b
    ensures ListMatches(list, items, b) && ListMatches(list + [b[item.at]], items + [item], b)
  {
  }

  lemma ListsJoin(list: seq<nat>, items: seq<Item>, a: map<Address, nat>, more: seq<nat>, rest: seq<Item>, b: map<Address, nat>)
    requires ListMatches(list, items, a) && Grows(a, b) && ListMatches(more, rest, b)
    ensures ListMatches(list + more, items + rest, b)
  {
  }

  lemma GroupStep(part: Part, i: nat, before: seq<Item>)
    requires i < |part.members|
    ensures before + GroupItems(part, true, {}, i)
            == (if part.members[i].GroupRef? then before + [OwnItem(part, i, true, {})] else before) + GroupItems(part, true, {}, i + 1)
  {
    var rest := GroupItems(part, true, {}, i + 1);
    if part.members[i].GroupRef? {
      Regroup(before, [OwnItem(part, i, true, {})], rest);
    } else {
      assert [] + rest == rest;
    }
  }

  /** The items are groups, each standing at its address. */
  ghost predicate GroupsStand(d: Dictionary, items: seq<Item>) {
    forall k :: 0 <= k < |items| ==> items[k].GroupItem? && DefAt(d, items[k].at) == Some(items[k].def)
  }

  lemma GroupItemsStand(d: Dictionary, part: Part, i: nat)
    requires Stands(d, part) && i <= |part.members|
    ensures GroupsStand(d, GroupItems(part, true, {}, i))
    decreases |part.members| - i
  {
    if i < |part.members| {
      GroupItemsStand(d, part, i + 1);
      if part.members[i].GroupRef? {
        GroupStands(d, part, i);
      }
    }
  }

  lemma EnvelopeStands(d: Dictionary)
    ensures GroupsStand(d, EnvelopeGroups(d))
  {
    GroupItemsStand(d, Part(Address(Header, []), d.header), 0);
    GroupItemsStand(d, Part(Address(Trailer, []), d.trailer), 0);
  }

  ghost function SlotsFor(items: seq<Item>, index: map<Address, nat>): (slots: seq<Slot>)
    requires forall k :: 0 <= k < |items| ==> items[k].GroupItem? && items[k].at in index
    ensures |slots| == |items|
    ensures forall k :: 0 <= k < |items| ==> slots[k] == Slot(items[k].def.countTag, index[items[k].at])
  {
    if items == [] then [] else [Slot(items[0].def.countTag, index[items[0].at])] + SlotsFor(items[1..], index)
  }

  /** `top` keeps the first slot of every count tag in `all`, and `seen` holds those count tags. */
  ghost predicate FirstsOf(top: seq<Slot>, seen: set<Tag>, all: seq<Slot>) {
    && (forall ct: Tag :: FirstBy(top, SlotKey, ct) == FirstBy(all, SlotKey, ct))
    && forall ct: Tag :: ct in seen <==> FirstBy(top, SlotKey, ct).Some?
  }

  method KeepFirst(top: seq<Slot>, seen: set<Tag>, slot: Slot, ghost all: seq<Slot>) returns (after: seq<Slot>, next: set<Tag>)
    requires FirstsOf(top, seen, all)
    ensures FirstsOf(after, next, all + [slot])
  {
    after, next := top, seen;
    if slot.countTag !in seen {
      after, next := top + [slot], seen + {slot.countTag};
    }
    assert [slot][1..] == [];
    forall ct: Tag ensures FirstBy(after, SlotKey, ct) == FirstBy(all + [slot], SlotKey, ct)
    ensures ct in next <==> FirstBy(after, SlotKey, ct).Some?
    {
      FirstInConcat(all, [slot], SlotKey, ct);
      FirstInConcat(top, [slot], SlotKey, ct);
    }
  }

  lemma FirstSlot(items: seq<Item>, index: map<Address, nat>, ct: Tag)
    requires forall k :: 0 <= k < |items| ==> items[k].GroupItem? && items[k].at in index
    ensures FirstBy(SlotsFor(items, index), SlotKey, ct)
            == match FirstGroup(items, ct) case None => None case Some(item) => Some(Slot(ct, index[item.at]))
  {
    if items != [] {
      FirstSlot(items[1..], index, ct);
    }
  }

  /** Envelope groups first, then the body's: the order in which a layout keeps groups at message level. */
  lemma TopMatches(envelope: seq<Item>, items: seq<Item>, body: seq<Slot>, index: map<Address, nat>)
    requires forall k :: 0 <= k < |envelope| ==> envelope[k].GroupItem? && envelope[k].at in index
    requires SlotsMatch(body, items, index)
    ensures SlotsMatch(SortBy(SlotsFor(envelope, index) + body, SlotKey), envelope + items, index)
  {
    var all := SlotsFor(envelope, index) + body;
    SortByKeepsFirst(all, SlotKey);
    forall ct: Tag ensures match FirstGroup(envelope + items, ct)
                           case None => FirstBy(all, SlotKey, ct) == None
                           case Some(item) => item.at in index && FirstBy(all, SlotKey, ct) == Some(Slot(ct, index[item.at]))
    {
      FirstGroupConcat(envelope, items, ct);
      FirstInConcat(SlotsFor(envelope, index), body, SlotKey, ct);
      FirstSlot(envelope, index, ct);
    }
  }

  /** The message is what a layout makes of it. */
  ghost predicate MessageIsRight(d: Dictionary, name: Name, message: MessageModel, index: map<Address, nat>)
    requires name in d.messages
  {
    && LevelIsRight(message.body, None, BodyItems(d, name), index)
    && LaidOut(d, Part(Address(Body(name), []), d.messages[name]), {}, message.body.members)
    && SlotsMatch(message.top, EnvelopeGroups(d) + BodyItems(d, name), index)
    && message.tags == SortedTags(TagsOf(FieldItems(Part(Address(Header, []), d.header), true, 0))
                                  + TagsOf(FieldItems(Part(Address(Trailer, []), d.trailer), true, 0))
                                  + TagsOf(EnvelopeGroups(d)) + message.body.tags)
  }
}
