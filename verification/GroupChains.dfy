/**
 Which group definition a level keeps under a count tag, and when it is required, stated on the dictionary's
 references alone: chains of positions that lead through component references to a group.
 */
module GroupChains {
  import opened Wire
  import opened Sorting
  import opened Schema
  import opened Layout
  import opened Scope
  import ViewLevels
  import ViewEntries
  import Sites
  import Views

  /** The steps lead from the part through components, none of `path` and none twice, to the definition standing at `at`. */
  predicate Meets(d: Dictionary, part: Part, path: set<Name>, steps: seq<nat>, at: Address, def: GroupDef)
    decreases |steps|
  {
    steps != [] && steps[0] < |part.members| &&
    match part.members[steps[0]]
    case FieldRef(_, _) => false
    case GroupRef(here) => |steps| == 1 && here == def && at == Address(part.at.owner, part.at.path + [steps[0]])
    case ComponentRef(name, _) =>
      && name in d.components && name !in path
      && Meets(d, Part(Address(Component(name), []), d.components[name]), path + {name}, steps[1..], at, def)
  }

  /** Every reference on the way is required, and so is the group at its end. */
  predicate AllRequired(d: Dictionary, ms: seq<Member>, steps: seq<nat>)
    decreases |steps|
  {
    steps != [] && steps[0] < |ms| &&
    match ms[steps[0]]
    case FieldRef(_, _) => false
    case GroupRef(def) => def.required
    case ComponentRef(name, required) => required && name in d.components && AllRequired(d, d.components[name], steps[1..])
  }

  /** The components entered on the way. */
  function Along(d: Dictionary, ms: seq<Member>, path: set<Name>, steps: seq<nat>): set<Name>
    decreases |steps|
  {
    if steps == [] || steps[0] >= |ms| then path
    else match ms[steps[0]]
      case ComponentRef(name, _) => if name in d.components then Along(d, d.components[name], path + {name}, steps[1..]) else path
      case _ => path
  }

  /** Own groups come first, then what the components hold, each in the order it is listed. */
  predicate Earlier(a: seq<nat>, b: seq<nat>) {
    && a != [] && b != []
    && if |a| == 1 && |b| > 1 then true
       else if |a| > 1 && |b| == 1 then false
       else a[0] < b[0] || (a[0] == b[0] && Earlier(a[1..], b[1..]))
  }

  /** Of all chains to a group with this count tag, the steps are the earliest. */
  ghost predicate FirstMet(d: Dictionary, part: Part, path: set<Name>, ct: Tag, steps: seq<nat>, at: Address, def: GroupDef) {
    && Meets(d, part, path, steps, at, def) && def.countTag == ct
    && forall s, a, g :: Meets(d, part, path, s, a, g) && g.countTag == ct ==> s == steps || Earlier(steps, s)
  }

  ghost predicate NoneMet(d: Dictionary, part: Part, path: set<Name>, ct: Tag) {
    forall s, a, g :: Meets(d, part, path, s, a, g) ==> g.countTag != ct
  }

  /** The item stands for the group met first, and is required when every reference to it is. */
  ghost predicate StandsFor(d: Dictionary, part: Part, required: bool, path: set<Name>, ct: Tag, steps: seq<nat>, item: Item) {
    && item.GroupItem? && FirstMet(d, part, path, ct, steps, item.at, item.def)
    && (item.required <==> required && AllRequired(d, part.members, steps))
    && item.path == Along(d, part.members, path, steps)
  }

  // ----- the first group of a level is the one met first -----

  /** The first of the part's own groups with this count tag, from position `i` on. */
  lemma OwnGroup(part: Part, required: bool, path: set<Name>, i: nat, ct: Tag) returns (j: nat)
    requires i <= |part.members|
    ensures i <= j <= |part.members|
    ensures forall k :: i <= k < j && part.members[k].GroupRef? ==> part.members[k].def.countTag != ct
    ensures FirstGroup(GroupItems(part, required, path, i), ct).Some? <==> j < |part.members|
    ensures j < |part.members| ==>
              && part.members[j].GroupRef? && part.members[j].def.countTag == ct
              && FirstGroup(GroupItems(part, required, path, i), ct) == Some(OwnItem(part, j, required, path))
    decreases |part.members| - i
  {
    j := i;
    if i < |part.members| {
      var rest := GroupItems(part, required, path, i + 1);
      if part.members[i].GroupRef? {
        FirstGroupConcat([OwnItem(part, i, required, path)], rest, ct);
        assert [OwnItem(part, i, required, path)][1..] == [];
      } else {
        assert [] + rest == rest;
      }
      if !(part.members[i].GroupRef? && part.members[i].def.countTag == ct) {
        j := OwnGroup(part, required, path, i + 1, ct);
      }
    }
  }

  lemma FieldsHoldNoGroup(part: Part, required: bool, i: nat, ct: Tag)
    requires i <= |part.members|
    ensures FirstGroup(FieldItems(part, required, i), ct) == None
  {
    FieldsAreNoGroups(part, required, i);
    NoGroupHeld(FieldItems(part, required, i), ct);
  }

  lemma NoGroupHeld(items: seq<Item>, ct: Tag)
    requires forall k :: 0 <= k < |items| ==> items[k].FieldItem?
    ensures FirstGroup(items, ct) == None
  {
    if items != [] {
      assert forall k :: 0 <= k < |items[1..]| ==> items[1..][k] == items[k + 1];
      NoGroupHeld(items[1..], ct);
    }
  }

  /** The first group of a count tag in a level's own order, or none when no chain leads to one. */
  lemma {:induction false} KeptIsFirstMet(d: Dictionary, part: Part, required: bool, path: set<Name>, ct: Tag) returns (steps: seq<nat>)
    ensures match FirstGroup(LayoutItems(d, part, required, path), ct)
            case None => NoneMet(d, part, path, ct)
            case Some(item) => StandsFor(d, part, required, path, ct, steps, item)
    decreases Unvisited(d, path), 2, 0
  {
    var fields, groups, components :=
      FieldItems(part, required, 0), GroupItems(part, required, path, 0), ComponentItems(d, part, required, path, 0);
    FieldsHoldNoGroup(part, required, 0, ct);
    FirstGroupConcat(fields, groups, ct);
    FirstGroupConcat(fields + groups, components, ct);
    var j := OwnGroup(part, required, path, 0, ct);
    if j < |part.members| {
      steps := [j];
      OwnIsFirst(d, part, required, path, ct, j);
    } else {
      steps := FirstInComponents(d, part, required, path, ct, 0);
      NoOwnGroup(d, part, path, ct);
    }
  }

  lemma OneStepIsOwn(d: Dictionary, part: Part, path: set<Name>, s: seq<nat>, a: Address, g: GroupDef)
    requires Meets(d, part, path, s, a, g) && |s| == 1
    ensures s == [s[0]] && part.members[s[0]] == GroupRef(g)
  {
    assert s == [s[0]];
  }

  lemma OwnIsFirst(d: Dictionary, part: Part, required: bool, path: set<Name>, ct: Tag, j: nat)
    requires j < |part.members| && part.members[j].GroupRef? && part.members[j].def.countTag == ct
    requires forall k :: 0 <= k < j && part.members[k].GroupRef? ==> part.members[k].def.countTag != ct
    ensures StandsFor(d, part, required, path, ct, [j], OwnItem(part, j, required, path))
  {
    forall s, a, g | Meets(d, part, path, s, a, g) && g.countTag == ct ensures s == [j] || Earlier([j], s) {
      if |s| == 1 {
        OneStepIsOwn(d, part, path, s, a, g);
      }
    }
  }

  /** Some member from position `i` on is a component through which the steps lead. */
  ghost predicate MetFrom(d: Dictionary, part: Part, path: set<Name>, i: nat, steps: seq<nat>, at: Address, def: GroupDef) {
    |steps| > 1 && i <= steps[0] && Meets(d, part, path, steps, at, def)
  }

  /** No own group with the count tag: every chain to one leads through a component. */
  lemma NoOwnGroup(d: Dictionary, part: Part, path: set<Name>, ct: Tag)
    requires forall k :: 0 <= k < |part.members| && part.members[k].GroupRef? ==> part.members[k].def.countTag != ct
    ensures forall s, a, g :: Meets(d, part, path, s, a, g) && g.countTag == ct ==> MetFrom(d, part, path, 0, s, a, g)
  {
  }

  /** The same among the components listed from position `i` on. */
  ghost predicate StandsForFrom(d: Dictionary, part: Part, required: bool, path: set<Name>, ct: Tag, i: nat, steps: seq<nat>, item: Item) {
    && item.GroupItem? && MetFrom(d, part, path, i, steps, item.at, item.def) && item.def.countTag == ct
    && (forall s, a, g :: MetFrom(d, part, path, i, s, a, g) && g.countTag == ct ==> s == steps || Earlier(steps, s))
    && (item.required <==> required && AllRequired(d, part.members, steps))
    && item.path == Along(d, part.members, path, steps)
  }

  lemma {:induction false} FirstInComponents(d: Dictionary, part: Part, required: bool, path: set<Name>, ct: Tag, i: nat) returns (steps: seq<nat>)
    requires i <= |part.members|
    ensures match FirstGroup(ComponentItems(d, part, required, path, i), ct)
            case None => forall s, a, g :: MetFrom(d, part, path, i, s, a, g) ==> g.countTag != ct
            case Some(item) => StandsForFrom(d, part, required, path, ct, i, steps, item)
    decreases Unvisited(d, path), 1, |part.members| - i
  {
    steps := [];
    if i < |part.members| {
      var rest := ComponentItems(d, part, required, path, i + 1);
      match part.members[i]
      case ComponentRef(name, req) =>
        var here := ReferenceItems(d, name, required && req, path);
        FirstGroupConcat(here, rest, ct);
        var inner := FirstInReference(d, name, required && req, path, ct);
        if FirstGroup(here, ct).Some? {
          steps := [i] + inner;
          HereIsFirst(d, part, required, path, ct, i, inner, FirstGroup(here, ct).value);
        } else {
          steps := FirstInComponents(d, part, required, path, ct, i + 1);
          NotHere(d, part, path, ct, i);
        }
      case _ =>
        assert [] + rest == rest;
        steps := FirstInComponents(d, part, required, path, ct, i + 1);
        NotHere(d, part, path, ct, i);
    }
  }

  lemma {:induction false} FirstInReference(d: Dictionary, name: Name, required: bool, path: set<Name>, ct: Tag) returns (steps: seq<nat>)
    ensures match FirstGroup(ReferenceItems(d, name, required, path), ct)
            case None => Enterable(d, name, path) ==> NoneMet(d, ComponentPart(d, name), path + {name}, ct)
            case Some(item) =>
              Enterable(d, name, path) && StandsFor(d, ComponentPart(d, name), required, path + {name}, ct, steps, item)
    decreases Unvisited(d, path), 0, 0
  {
    steps := [];
    if Enterable(d, name, path) {
      EnteringShrinks(d, name, path);
      steps := KeptIsFirstMet(d, ComponentPart(d, name), required, path + {name}, ct);
    }
  }

  /** A chain through the component at position `i` is a chain from that component, one step longer. */
  lemma ThroughHere(d: Dictionary, part: Part, path: set<Name>, i: nat, s: seq<nat>, a: Address, g: GroupDef)
    requires i < |part.members| && part.members[i].ComponentRef? && s != [] && s[0] == i
    ensures Meets(d, part, path, s, a, g) <==>
              Enterable(d, part.members[i].name, path)
              && Meets(d, ComponentPart(d, part.members[i].name), path + {part.members[i].name}, s[1..], a, g)
  {
  }

  lemma HereIsFirst(d: Dictionary, part: Part, required: bool, path: set<Name>, ct: Tag, i: nat, inner: seq<nat>, item: Item)
    requires i < |part.members| && part.members[i].ComponentRef? && Enterable(d, part.members[i].name, path)
    requires var name := part.members[i].name;
             StandsFor(d, ComponentPart(d, name), required && part.members[i].required, path + {name}, ct, inner, item)
    ensures StandsForFrom(d, part, required, path, ct, i, [i] + inner, item)
  {
    var steps := [i] + inner;
    assert steps[1..] == inner;
    ThroughHere(d, part, path, i, steps, item.at, item.def);
    forall s, a, g | MetFrom(d, part, path, i, s, a, g) && g.countTag == ct ensures s == steps || Earlier(steps, s) {
      if s[0] == i {
        ThroughHere(d, part, path, i, s, a, g);
        assert s == [i] + s[1..];
      }
    }
  }

  /** Nothing is met at position `i`: what is met from there on is met behind it. */
  lemma NotHere(d: Dictionary, part: Part, path: set<Name>, ct: Tag, i: nat)
    requires i < |part.members|
    requires part.members[i].ComponentRef? && Enterable(d, part.members[i].name, path) ==>
               NoneMet(d, ComponentPart(d, part.members[i].name), path + {part.members[i].name}, ct)
    ensures forall s, a, g :: MetFrom(d, part, path, i, s, a, g) && g.countTag == ct <==> MetFrom(d, part, path, i + 1, s, a, g) && g.countTag == ct
  {
    forall s, a, g | MetFrom(d, part, path, i, s, a, g) && g.countTag == ct ensures MetFrom(d, part, path, i + 1, s, a, g) {
      if s[0] == i && part.members[i].ComponentRef? {
        ThroughHere(d, part, path, i, s, a, g);
      }
    }
  }

  // ----- main results -----

  /** The layout's group under a count tag is the definition met first, required when every reference to it is. */
  ghost predicate KeepsFirstMet(d: Dictionary, part: Part, path: set<Name>, ct: Tag, kept: Option<LayoutGroup>) {
    match kept
    case None => NoneMet(d, part, path, ct)
    case Some(group) =>
      exists steps, at, def :: FirstMet(d, part, path, ct, steps, at, def)
                               && (group.required <==> AllRequired(d, part.members, steps))
                               && group.countTag == ct && group.delimiter == def.delimiter
                               && group.entry == PureEntry(d, at, def, Along(d, part.members, path, steps))
  }

  lemma LevelKeepsFirstMet(d: Dictionary, part: Part, path: set<Name>, ct: Tag)
    ensures KeepsFirstMet(d, part, path, ct, FirstBy(LayoutGroups(d, LayoutItems(d, part, true, path)), KeyOf, ct))
  {
    var items := LayoutItems(d, part, true, path);
    var steps := KeptIsFirstMet(d, part, true, path, ct);
    FirstLayoutGroup(d, items, ct);
    if FirstGroup(items, ct).Some? {
      var item := FirstGroup(items, ct).value;
      assert FirstMet(d, part, path, ct, steps, item.at, item.def);
    }
  }

  /** So in the entries of every group of a layout. */
  lemma EntryKeepsFirstMet(d: Dictionary, at: Address, def: GroupDef, path: set<Name>, ct: Tag)
    ensures KeepsFirstMet(d, Part(at, def.members), path, ct, FirstBy(PureEntry(d, at, def, path).groups, KeyOf, ct))
  {
    EntryIs(d, at, def, path);
    LevelKeepsFirstMet(d, Part(at, def.members), path, ct);
    SortByKeepsFirst(LayoutGroups(d, LayoutItems(d, Part(at, def.members), true, path)), KeyOf);
  }

  /** The first own group of a definition with this count tag: how header and trailer groups are taken. */
  ghost predicate OwnFirst(ms: seq<Member>, ct: Tag, j: nat) {
    && j < |ms| && ms[j].GroupRef? && ms[j].def.countTag == ct
    && forall k :: 0 <= k < j && ms[k].GroupRef? ==> ms[k].def.countTag != ct
  }

  predicate OwnNone(ms: seq<Member>, ct: Tag) {
    forall k :: 0 <= k < |ms| && ms[k].GroupRef? ==> ms[k].def.countTag != ct
  }

  /** The group is the header's or trailer's own, required as it says itself. */
  ghost predicate KeepsOwn(d: Dictionary, owner: Owner, ms: seq<Member>, ct: Tag, kept: Option<LayoutGroup>) {
    exists j: nat :: OwnFirst(ms, ct, j)
                && kept == Some(LayoutGroup(ct, ms[j].def.delimiter, ms[j].def.required, PureEntry(d, Address(owner, [j]), ms[j].def, {})))
  }

  /** At the message level a header group comes first, then a trailer group, then what the body meets first. */
  ghost predicate MessageKeeps(transport: Dictionary, body: Dictionary, name: Name, ms: seq<Member>, ct: Tag, kept: Option<LayoutGroup>) {
    if !OwnNone(transport.header, ct) then KeepsOwn(transport, Header, transport.header, ct, kept)
    else if !OwnNone(transport.trailer, ct) then KeepsOwn(transport, Trailer, transport.trailer, ct, kept)
    else KeepsFirstMet(body, Part(Address(Body(name), []), ms), {}, ct, kept)
  }

  lemma OwnIsKept(d: Dictionary, owner: Owner, ms: seq<Member>, ct: Tag)
    ensures var kept := FirstBy(RawOwn(d, owner, ms).groups, KeyOf, ct);
            if OwnNone(ms, ct) then kept == None else KeepsOwn(d, owner, ms, ct, kept)
  {
    var part := Part(Address(owner, []), ms);
    var items := GroupItems(part, true, {}, 0);
    assert RawOwn(d, owner, ms).groups == [] + LayoutGroups(d, items) == LayoutGroups(d, items);
    FirstLayoutGroup(d, items, ct);
    var j := OwnGroup(part, true, {}, 0, ct);
    if j < |ms| {
      assert [] + [j] == [j];
      assert OwnFirst(ms, ct, j);
    }
  }

  lemma FirstByConcat<T>(a: seq<T>, b: seq<T>, key: T -> Tag, k: Tag)
    ensures FirstBy(a + b, key, k) == if FirstBy(a, key, k).Some? then FirstBy(a, key, k) else FirstBy(b, key, k)
  {
    if a == [] {
      assert a + b == b;
    } else {
      assert (a + b)[0] == a[0] && (a + b)[1..] == a[1..] + b;
      FirstByConcat(a[1..], b, key, k);
    }
  }

  /** What a message's layout keeps under a count tag, and whether it is required, on any two dictionaries. */
  lemma MessageKeepsFirstMet(transport: Dictionary, body: Dictionary, name: Name, ms: seq<Member>, ct: Tag)
    ensures MessageKeeps(transport, body, name, ms, ct, FirstBy(MessageLevel(transport, body, name, ms).groups, KeyOf, ct))
  {
    var header, trailer := RawOwn(transport, Header, transport.header).groups, RawOwn(transport, Trailer, transport.trailer).groups;
    var part := Part(Address(Body(name), []), ms);
    var own := LayoutGroups(body, LayoutItems(body, part, true, {}));
    OwnIsKept(transport, Header, transport.header, ct);
    OwnIsKept(transport, Trailer, transport.trailer, ct);
    LevelKeepsFirstMet(body, part, {}, ct);
    assert [] + header == header && RawEnvelope(transport).groups == header + trailer;
    FirstByConcat(header, trailer, KeyOf, ct);
    FirstByConcat(header + trailer, own, KeyOf, ct);
    SortByKeepsFirst(header + trailer + own, KeyOf);
  }

  /** A group member of a view stands for the definition met first, required when every reference to it is. */
  lemma ViewKeepsFirstMet(d: Dictionary, part: Part, path: set<Name>, member: ViewLevels.ViewMember, index: map<Address, nat>)
    returns (steps: seq<nat>, at: Address, def: GroupDef)
    requires member.GroupM? && ViewLevels.GroupMatches(member, LayoutItems(d, part, true, path), index)
    ensures FirstMet(d, part, path, member.countTag, steps, at, def)
    ensures member.required <==> AllRequired(d, part.members, steps)
    ensures at in index && index[at] == member.site
  {
    steps := KeptIsFirstMet(d, part, true, path, member.countTag);
    var item := FirstGroup(LayoutItems(d, part, true, path), member.countTag).value;
    at, def := item.at, item.def;
  }

  /** So in the body of every message the generator makes. */
  lemma BodyKeepsFirstMet(d: Dictionary, name: Name, message: Views.MessageModel, index: map<Address, nat>, member: ViewLevels.ViewMember)
    returns (steps: seq<nat>, at: Address, def: GroupDef)
    requires name in d.messages && Views.MessageIsRight(d, name, message, index)
    requires member in message.body.members && member.GroupM?
    ensures FirstMet(d, Part(Address(Body(name), []), d.messages[name]), {}, member.countTag, steps, at, def)
    ensures member.required <==> AllRequired(d, d.messages[name], steps)
    ensures at in index && index[at] == member.site
  {
    var part := Part(Address(Body(name), []), d.messages[name]);
    assert ViewLevels.GroupMatches(member, LayoutItems(d, part, true, {}), index);
    steps, at, def := ViewKeepsFirstMet(d, part, {}, member, index);
  }

  /** And in the entries of every site, but for a member the delimiter puts first and its data. */
  lemma SiteKeepsFirstMet(d: Dictionary, sites: seq<ViewLevels.Site>, paths: seq<set<Name>>, index: map<Address, nat>, i: nat, m: nat)
    returns (steps: seq<nat>, at: Address, def: GroupDef)
    requires Sites.SitesAreRight(d, sites, paths, index, {}) && i < |sites|
    requires 0 < m < |sites[i].entry.members| && sites[i].entry.members[m].GroupM?
    requires ViewEntries.PairedData(sites[i].entry.members[0]) != Some(sites[i].entry.members[m].Tag())
    ensures ViewLevels.DefAt(d, sites[i].at).Some?
    ensures var part, member := Part(sites[i].at, ViewLevels.DefAt(d, sites[i].at).value.members), sites[i].entry.members[m];
            && FirstMet(d, part, paths[i], member.countTag, steps, at, def)
            && (member.required <==> AllRequired(d, part.members, steps))
            && at in index && index[at] == member.site
  {
    assert Sites.SiteStands(d, sites[i]) && Sites.SiteIsRight(d, sites[i], paths[i], index);
    var part := Part(sites[i].at, ViewLevels.DefAt(d, sites[i].at).value.members);
    assert ViewLevels.GroupMatches(sites[i].entry.members[m], LayoutItems(d, part, true, paths[i]), index);
    steps, at, def := ViewKeepsFirstMet(d, part, paths[i], sites[i].entry.members[m], index);
  }
}
