/** Schema expansion: the bounded, mutating builder behind a message layout. */
module Scope {
  import opened Wire
  import opened GroupSpecs
  import opened Sorting
  import opened Schema
  import opened Layout
  import opened Expense

  ghost predicate SizeReportedOnce(errors: seq<SchemaError>) {
    forall i, j :: 0 <= i < j < |errors| ==> !(errors[i].SchemaTooLarge? && errors[j].SchemaTooLarge?)
  }

  function RawFields(part: Part, required: bool, i: nat): RawLevel
    requires i <= |part.members|
  {
    RawLevel(TagsOf(FieldItems(part, required, i)), RequiredOf(FieldItems(part, required, i)), [])
  }

  function RawGroups(d: Dictionary, part: Part, required: bool, path: set<Name>, i: nat): RawLevel
    requires i <= |part.members|
  {
    Raw(d, GroupItems(part, required, path, i))
  }

  function RawComponents(d: Dictionary, part: Part, required: bool, path: set<Name>, i: nat): RawLevel
    requires i <= |part.members|
  {
    Raw(d, ComponentItems(d, part, required, path, i))
  }

  lemma FieldsUnfold(part: Part, required: bool, i: nat)
    requires i < |part.members|
    ensures var field := part.members[i];
            RawFields(part, required, i)
            == if !field.FieldRef? then RawFields(part, required, i + 1)
               else Plus(RawLevel([field.tag], if required && field.required then [field.tag] else [], []),
                         RawFields(part, required, i + 1))
  {
    var rest := FieldItems(part, required, i + 1);
    if part.members[i].FieldRef? {
      assert ([OwnItem(part, i, required, {})] + rest)[1..] == rest;
    } else {
      assert FieldItems(part, required, i) == [] + rest == rest;
    }
  }

  lemma FieldTaken(level: RawLevel, part: Part, required: bool, i: nat, total: RawLevel)
    requires i < |part.members| && part.members[i].FieldRef? && Plus(level, RawFields(part, required, i)) == total
    ensures var tag, isRequired := part.members[i].tag, required && part.members[i].required;
            Plus(RawLevel(level.members + [tag], if isRequired then level.required + [tag] else level.required, level.groups),
                 RawFields(part, required, i + 1)) == total
  {
    var tag, isRequired := part.members[i].tag, required && part.members[i].required;
    var field := RawLevel([tag], if isRequired then [tag] else [], []);
    FieldsUnfold(part, required, i);
    PlusIsAssociative(level, field, RawFields(part, required, i + 1));
    assert level.required + [] == level.required && level.groups + [] == level.groups;
  }

  lemma GroupsUnfold(d: Dictionary, part: Part, required: bool, path: set<Name>, i: nat)
    requires i < |part.members|
    ensures RawGroups(d, part, required, path, i)
            == if !part.members[i].GroupRef? then RawGroups(d, part, required, path, i + 1)
               else Plus(Raw(d, [OwnItem(part, i, required, path)]), RawGroups(d, part, required, path, i + 1))
  {
    var rest := GroupItems(part, required, path, i + 1);
    if part.members[i].GroupRef? {
      RawConcat(d, [OwnItem(part, i, required, path)], rest);
    } else {
      assert GroupItems(part, required, path, i) == [] + rest == rest;
    }
  }

  lemma ComponentsUnfold(d: Dictionary, part: Part, required: bool, path: set<Name>, i: nat)
    requires i < |part.members|
    ensures RawComponents(d, part, required, path, i)
            == match part.members[i]
               case ComponentRef(name, req) =>
                 Plus(Raw(d, ReferenceItems(d, name, required && req, path)), RawComponents(d, part, required, path, i + 1))
               case _ => RawComponents(d, part, required, path, i + 1)
  {
    var rest := ComponentItems(d, part, required, path, i + 1);
    match part.members[i]
    case ComponentRef(name, req) => RawConcat(d, ReferenceItems(d, name, required && req, path), rest);
    case FieldRef(_, _) => assert ComponentItems(d, part, required, path, i) == [] + rest == rest;
    case GroupRef(_) => assert ComponentItems(d, part, required, path, i) == [] + rest == rest;
  }

  /** A group item adds its count tag and the group it stands for. */
  lemma RawOfGroup(d: Dictionary, item: Item)
    requires item.GroupItem?
    ensures Raw(d, [item]) == RawLevel([item.def.countTag], [], [GroupOf(d, item)])
  {
    var none: seq<Item> := [item][1..];
    assert none == [] && [item][0] == item;
    assert LayoutGroups(d, none) == [] && LayoutGroups(d, [item]) == [GroupOf(d, item)] + LayoutGroups(d, none);
    assert TagsOf([item]) == [item.Tag()] && RequiredOf([item]) == [];
  }

  lemma PlusNothing(d: Dictionary, level: RawLevel)
    ensures Plus(level, Raw(d, [])) == level
  {
    var after := Plus(level, Raw(d, []));
    assert after.members == level.members && after.required == level.required && after.groups == level.groups;
  }

  /** Fields, groups and components, one after another, are the whole definition. */
  lemma PartJoins(d: Dictionary, part: Part, required: bool, path: set<Name>, start: RawLevel)
    ensures Plus(Plus(Plus(start, RawFields(part, required, 0)), RawGroups(d, part, required, path, 0)),
                 RawComponents(d, part, required, path, 0))
            == Plus(start, RawPart(d, part, required, path))
  {
    var fields, groups, components :=
      RawFields(part, required, 0), RawGroups(d, part, required, path, 0), RawComponents(d, part, required, path, 0);
    RawPartIs(d, part, required, path);
    PlusIsAssociative(start, fields, groups);
    PlusIsAssociative(start, Plus(fields, groups), components);
  }

  lemma RawPartIs(d: Dictionary, part: Part, required: bool, path: set<Name>)
    ensures RawPart(d, part, required, path)
            == Plus(Plus(RawFields(part, required, 0), RawGroups(d, part, required, path, 0)), RawComponents(d, part, required, path, 0))
  {
    var fields, groups, components :=
      FieldItems(part, required, 0), GroupItems(part, required, path, 0), ComponentItems(d, part, required, path, 0);
    FieldsAreNoGroups(part, required, 0);
    FieldsAddNoGroups(d, fields);
    RawConcat(d, fields, groups);
    RawConcat(d, fields + groups, components);
  }

  lemma FieldsAddNoGroups(d: Dictionary, items: seq<Item>)
    requires forall k :: 0 <= k < |items| ==> items[k].FieldItem?
    ensures LayoutGroups(d, items) == []
  {
    if items != [] {
      assert forall k :: 0 <= k < |items[1..]| ==> items[1..][k] == items[k + 1];
      FieldsAddNoGroups(d, items[1..]);
    }
  }

  /** A finished entry is the pure entry level. */
  lemma EntryIsPure(d: Dictionary, at: Address, def: GroupDef, path: set<Name>)
    ensures var state := Plus(RawLevel([def.delimiter], [], []), RawPart(d, Part(at, def.members), true, path));
            PureEntry(d, at, def, path) == FinishedLevel(SortedTags(state.members), Retain(state.required, def.delimiter, {}),
                                                         SortBy(state.groups, KeyOf))
  {
    var raw := RawPart(d, Part(at, def.members), true, path);
    EntryIs(d, at, def, path);
    assert [] + raw.required == raw.required && [] + raw.groups == raw.groups;
  }

  /** A level under construction. */
  class OpenLevel {
    var members: seq<Tag>
    var required: seq<Tag>
    var groups: seq<LayoutGroup>

    ghost function State(): RawLevel
      reads this
    {
      RawLevel(members, required, groups)
    }

    constructor (tags: seq<Tag>)
      ensures members == tags && required == [] && groups == []
    {
      members, required, groups := tags, [], [];
    }

    method AddField(tag: Tag, isRequired: bool)
      modifies this`members, this`required
      ensures members == old(members) + [tag]
      ensures required == if isRequired then old(required) + [tag] else old(required)
    {
      members := members + [tag];
      if isRequired {
        required := required + [tag];
      }
    }

    /** Sorts the lists; of two groups sharing a count tag the one expanded first is kept. */
    method Finish() returns (level: FinishedLevel)
      requires SoundGroups(groups)
      ensures Sound(level) && level.required == required
      ensures forall t :: t in level.members <==> t in members
      ensures forall ct: Tag :: FirstBy(level.groups, KeyOf, ct) == FirstBy(groups, KeyOf, ct)
      ensures Nodes(level.groups) <= Nodes(groups)
    {
      level := FinishedLevel(SortedTags(members), required, SortBy(groups, KeyOf));
      SortedTagsAre(members);
      SortByKeepsFirst(groups, KeyOf);
      SortDropsNodes(groups);
      forall i | 0 <= i < |level.groups| ensures SoundGroup(level.groups[i]) {
        assert level.groups[i] in groups;
      }
    }
  }

  /** Being sorted, with these tags and the first group of every count tag, says which level it is. */
  lemma FinishedIsUnique(level: FinishedLevel, members: seq<Tag>, groups: seq<LayoutGroup>)
    requires Sound(level) && forall t :: t in level.members <==> t in members
    requires forall ct: Tag :: FirstBy(level.groups, KeyOf, ct) == FirstBy(groups, KeyOf, ct)
    ensures level.members == SortedTags(members) && level.groups == SortBy(groups, KeyOf)
  {
    SortedTagsIsOnly(level.members, members);
    SortByKeepsFirst(groups, KeyOf);
    AscendingIsUnique(level.groups, SortBy(groups, KeyOf), KeyOf);
  }

  /** A builder and the level it works on, at one moment. */
  datatype Progress = Progress(path: set<Name>, budget: nat, errors: seq<SchemaError>, level: RawLevel)

  /** The path is as it was, errors and tags are only added, and no more groups than the budget spent. */
  ghost predicate Advances(a: Progress, b: Progress) {
    && b.path == a.path && b.budget <= a.budget && a.errors <= b.errors
    && (SizeReportedOnce(a.errors) ==> SizeReportedOnce(b.errors))
    && a.level.members <= b.level.members && SoundGroups(b.level.groups)
    && Nodes(b.level.groups) + b.budget <= Nodes(a.level.groups) + a.budget
  }

  lemma AdvancesFurther(a: Progress, b: Progress, c: Progress)
    requires Advances(a, b) && Advances(b, c)
    ensures Advances(a, c)
  {
  }

  /**
   From a budget not yet used up: it is exceeded exactly when the nodes are too many; when it is not, the nodes have been
   paid and exactly the errors to be met have been added. No other error is ever added.
   */
  ghost predicate Paid(before: seq<SchemaError>, budget: nat, errors: seq<SchemaError>, left: nat, cost: Cost) {
    && (forall e :: e in errors ==> e in before || e in cost.faults || e == SchemaTooLarge)
    && (SchemaTooLarge !in before ==> (SchemaTooLarge in errors <==> cost.nodes > budget))
    && (SchemaTooLarge !in errors ==> left == budget - cost.nodes && forall e :: e in cost.faults ==> e in errors)
  }

  ghost predicate Charged(a: Progress, b: Progress, cost: Cost) {
    Paid(a.errors, a.budget, b.errors, b.budget, cost)
  }

  lemma ChargedFurther(a: Progress, b: Progress, c: Progress, x: Cost, y: Cost)
    requires Charged(a, b, x) && Charged(b, c, y) && a.errors <= b.errors <= c.errors
    ensures Charged(a, c, Sum(x, y))
  {
    assert forall e :: e in a.errors ==> e in b.errors;
    assert forall e :: e in b.errors ==> e in c.errors;
  }

  /** Past the depth limit nothing is spent; without budget whatever takes a node is too much. */
  lemma RefusedIsPaid(before: seq<SchemaError>, budget: nat, errors: seq<SchemaError>, depth: nat, cost: Cost)
    requires errors == if depth > MAX_SCOPE_DEPTH then before + [SchemaTooDeep]
                       else if SchemaTooLarge in before then before else before + [SchemaTooLarge]
    requires if depth > MAX_SCOPE_DEPTH then cost == Cost(0, {SchemaTooDeep}) else budget == 0 && cost.nodes > 0
    ensures Paid(before, budget, errors, budget, cost)
  {
  }

  lemma UndefinedIsPaid(before: seq<SchemaError>, budget: nat, name: Name)
    requires budget > 0
    ensures Paid(before, budget, before + [UnknownComponent(name)], budget - 1, Cost(1, {UnknownComponent(name)}))
  {
  }

  /** One node, and then the rest. */
  lemma OneMorePaid(before: seq<SchemaError>, budget: nat, errors: seq<SchemaError>, left: nat, cost: Cost)
    requires budget > 0 && Paid(before, budget - 1, errors, left, cost)
    ensures Paid(before, budget, errors, left, Sum(ONE, cost))
  {
  }

  lemma PaidWithoutError(budget: nat, errors: seq<SchemaError>, left: nat, cost: Cost)
    requires Paid([], budget, errors, left, cost)
    ensures errors == [] <==> cost.faults == {} && cost.nodes <= budget
  {
    if errors != [] {
      assert errors[0] in errors;
    }
  }

  /** One group more, its entry paid for. */
  lemma GroupAdvances(a: Progress, b: Progress, group: LayoutGroup)
    requires b.path == a.path && a.errors <= b.errors && (SizeReportedOnce(a.errors) ==> SizeReportedOnce(b.errors))
    requires SoundGroups(a.level.groups) && SoundGroup(group) && b.budget + GroupNodes(group) <= a.budget
    requires b.level == Plus(a.level, RawLevel([group.countTag], [], [group]))
    ensures Advances(a, b)
  {
    NodesAppend(a.level.groups, group);
  }

  class ScopeBuilder {
    /** The dictionary component references currently resolve against. */
    var dict: Dictionary
    var budget: nat
    var errors: seq<SchemaError>
    /** The components being expanded. */
    var path: set<Name>

    constructor (dictionary: Dictionary)
      ensures dict == dictionary && budget == MAX_SCOPE_NODES && errors == [] && path == {}
    {
      dict, budget, errors, path := dictionary, MAX_SCOPE_NODES, [], {};
    }

    /** Charges one node against the budget and checks the depth ceiling. */
    method Spend(depth: nat) returns (ok: bool)
      modifies this`budget, this`errors
      ensures ok <==> depth <= MAX_SCOPE_DEPTH && 0 < old(budget)
      ensures ok ==> budget == old(budget) - 1 && errors == old(errors)
      ensures !ok ==> budget == old(budget)
      ensures !ok ==> errors == if depth > MAX_SCOPE_DEPTH then old(errors) + [SchemaTooDeep]
                                else if SchemaTooLarge in old(errors) then old(errors) else old(errors) + [SchemaTooLarge]
      ensures SizeReportedOnce(old(errors)) ==> SizeReportedOnce(errors)
    {
      if depth > MAX_SCOPE_DEPTH {
        errors := errors + [SchemaTooDeep];
        return false;
      }
      if budget > 0 {
        budget := budget - 1;
        return true;
      }
      if SchemaTooLarge !in errors {
        errors := errors + [SchemaTooLarge];
      }
      return false;
    }

    ghost function Now(level: OpenLevel): Progress
      reads this, level
    {
      Progress(path, budget, errors, level.State())
    }

    /** Adds a group to `level` and builds the level formed by one entry. */
    method AddGroup(level: OpenLevel, ghost at: Address, def: GroupDef, required: bool, depth: nat)
      requires SoundGroups(level.groups)
      modifies this`budget, this`errors, this`path, level
      ensures Advances(old(Now(level)), Now(level))
      ensures errors == [] ==> level.State() == Plus(old(level.State()), Raw(dict, [GroupItem(at, def, required, path)]))
      ensures Charged(old(Now(level)), Now(level), GroupCost(dict, def, path, depth))
      decreases Room(depth), 1
    {
      ghost var before := Now(level);
      var ok := Spend(depth);
      if !ok {
        RefusedIsPaid(before.errors, before.budget, errors, depth, GroupCost(dict, def, path, depth));
        return;
      }
      level.members := level.members + [def.countTag];
      var entry := BuildEntry(at, def, depth + 1);
      var group := LayoutGroup(def.countTag, def.delimiter, required, entry);
      level.groups := level.groups + [group];
      assert level.required == before.level.required + [];
      GroupAdvances(before, Now(level), group);
      OneMorePaid(before.errors, before.budget, errors, budget, PartCost(dict, def.members, path, depth + 1));
      RawOfGroup(dict, GroupItem(at, def, required, path));
    }

    /** The level formed by one entry of a group: what it requires is kept once, and never the delimiter. */
    method BuildEntry(ghost at: Address, def: GroupDef, depth: nat) returns (level: FinishedLevel)
      modifies this`budget, this`errors, this`path
      ensures path == old(path) && budget <= old(budget) && old(errors) <= errors
      ensures SizeReportedOnce(old(errors)) ==> SizeReportedOnce(errors)
      ensures SoundGroup(LayoutGroup(def.countTag, def.delimiter, true, level)) && Nodes(level.groups) + budget <= old(budget)
      ensures errors == [] ==> level == PureEntry(dict, at, def, path)
      ensures Paid(old(errors), old(budget), errors, budget, PartCost(dict, def.members, path, depth))
      decreases Room(depth), 6
    {
      var entry := new OpenLevel([def.delimiter]);
      AddPart(entry, at, def.members, true, depth);
      ghost var state := entry.State();
      RetainKeepsEachOnce(entry.required, def.delimiter, {});
      entry.required := Retain(entry.required, def.delimiter, {});
      level := entry.Finish();
      FinishedIsUnique(level, entry.members, entry.groups);
      if errors == [] {
        EntryIsPure(dict, at, def, path);
      }
      assert def.delimiter in entry.members;
    }

    /** Expands a component reference into `level`; a component already on the path is not expanded again. */
    method AddComponent(level: OpenLevel, name: Name, required: bool, depth: nat)
      requires SoundGroups(level.groups)
      modifies this`budget, this`errors, this`path, level
      ensures Advances(old(Now(level)), Now(level))
      ensures errors == [] ==> name in dict.components
      ensures errors == [] ==> level.State() == Plus(old(level.State()), Raw(dict, ReferenceItems(dict, name, required, path)))
      ensures Charged(old(Now(level)), Now(level), ComponentCost(dict, name, path, depth))
      decreases Room(depth), 2
    {
      ghost var before := Now(level);
      var ok := Spend(depth);
      if !ok {
        RefusedIsPaid(before.errors, before.budget, errors, depth, ComponentCost(dict, name, path, depth));
        return;
      }
      if name !in dict.components {
        errors := errors + [UnknownComponent(name)];
        UndefinedIsPaid(before.errors, before.budget, name);
        return;
      }
      if name in path {
        PlusNothing(dict, level.State());
        return;
      }
      path := path + {name};
      AddPart(level, Address(Component(name), []), dict.components[name], required, depth + 1);
      OneMorePaid(before.errors, before.budget, errors, budget, PartCost(dict, dict.components[name], path, depth + 1));
      path := path - {name};
    }

    /** Adds the fields, then the groups, then the components of a definition. */
    method AddPart(level: OpenLevel, ghost at: Address, ms: seq<Member>, required: bool, depth: nat)
      requires SoundGroups(level.groups)
      modifies this`budget, this`errors, this`path, level
      ensures Advances(old(Now(level)), Now(level))
      ensures errors == [] ==> level.State() == Plus(old(level.State()), RawPart(dict, Part(at, ms), required, path))
      ensures Charged(old(Now(level)), Now(level), PartCost(dict, ms, path, depth))
      decreases Room(depth), 5
    {
      ghost var part, start := Part(at, ms), level.State();
      ghost var before := Now(level);
      AddFields(level, at, ms, required);
      AddGroups(level, at, ms, required, depth);
      ghost var between := Now(level);
      AddComponents(level, at, ms, required, depth);
      PartJoins(dict, part, required, path, start);
      ChargedFurther(before, between, Now(level), GroupsCost(dict, ms, path, depth, 0), ComponentsCost(dict, ms, path, depth, 0));
    }

    method AddFields(level: OpenLevel, ghost at: Address, ms: seq<Member>, required: bool)
      modifies level
      ensures level.groups == old(level.groups)
      ensures level.State() == Plus(old(level.State()), RawFields(Part(at, ms), required, 0))
    {
      ghost var part := Part(at, ms);
      ghost var total := Plus(level.State(), RawFields(part, required, 0));
      for i := 0 to |ms|
        invariant level.groups == old(level.groups)
        invariant Plus(level.State(), RawFields(part, required, i)) == total
      {
        if ms[i].FieldRef? {
          FieldTaken(level.State(), part, required, i, total);
          level.AddField(ms[i].tag, required && ms[i].required);
        } else {
          FieldsUnfold(part, required, i);
        }
      }
      PlusNothing(dict, level.State());
    }

    method AddGroups(level: OpenLevel, ghost at: Address, ms: seq<Member>, required: bool, depth: nat)
      requires SoundGroups(level.groups)
      modifies this`budget, this`errors, this`path, level
      ensures Advances(old(Now(level)), Now(level))
      ensures errors == [] ==> level.State() == Plus(old(level.State()), RawGroups(dict, Part(at, ms), required, path, 0))
      ensures Charged(old(Now(level)), Now(level), GroupsCost(dict, ms, path, depth, 0))
      decreases Room(depth), 4
    {
      ghost var part, start := Part(at, ms), Now(level);
      ghost var total := Plus(level.State(), RawGroups(dict, part, required, path, 0));
      ghost var spent := FREE;
      for i := 0 to |ms|
        invariant Advances(start, Now(level))
        invariant errors == [] ==> Plus(level.State(), RawGroups(dict, part, required, path, i)) == total
        invariant Charged(start, Now(level), spent)
        invariant Sum(spent, GroupsCost(dict, ms, start.path, depth, i)) == GroupsCost(dict, ms, start.path, depth, 0)
      {
        ghost var before, cost := Now(level), GroupCostAt(dict, ms, path, depth, i);
        GroupLeaves(dict, ms, path, depth, i, spent);
        AddGroupAt(level, at, ms, i, required, depth);
        AdvancesFurther(start, before, Now(level));
        ChargedFurther(start, before, Now(level), spent, cost);
        spent := Sum(spent, cost);
      }
      PlusNothing(dict, level.State());
    }

    method AddGroupAt(level: OpenLevel, ghost at: Address, ms: seq<Member>, i: nat, required: bool, depth: nat)
      requires SoundGroups(level.groups) && i < |ms|
      modifies this`budget, this`errors, this`path, level
      ensures Advances(old(Now(level)), Now(level))
      ensures errors == [] ==> Plus(level.State(), RawGroups(dict, Part(at, ms), required, path, i + 1))
                               == Plus(old(level.State()), RawGroups(dict, Part(at, ms), required, path, i))
      ensures Charged(old(Now(level)), Now(level), GroupCostAt(dict, ms, path, depth, i))
      decreases Room(depth), 3
    {
      ghost var part := Part(at, ms);
      GroupsUnfold(dict, part, required, path, i);
      if ms[i].GroupRef? {
        PlusIsAssociative(level.State(), Raw(dict, [OwnItem(part, i, required, path)]), RawGroups(dict, part, required, path, i + 1));
        AddGroup(level, GroupAddress(part, i), ms[i].def, required && ms[i].def.required, depth);
      }
    }

    method AddComponents(level: OpenLevel, ghost at: Address, ms: seq<Member>, required: bool, depth: nat)
      requires SoundGroups(level.groups)
      modifies this`budget, this`errors, this`path, level
      ensures Advances(old(Now(level)), Now(level))
      ensures errors == [] ==> level.State() == Plus(old(level.State()), RawComponents(dict, Part(at, ms), required, path, 0))
      ensures Charged(old(Now(level)), Now(level), ComponentsCost(dict, ms, path, depth, 0))
      decreases Room(depth), 4
    {
      ghost var part, start := Part(at, ms), Now(level);
      ghost var total := Plus(level.State(), RawComponents(dict, part, required, path, 0));
      ghost var spent := FREE;
      for i := 0 to |ms|
        invariant Advances(start, Now(level))
        invariant errors == [] ==> Plus(level.State(), RawComponents(dict, part, required, path, i)) == total
        invariant Charged(start, Now(level), spent)
        invariant Sum(spent, ComponentsCost(dict, ms, start.path, depth, i)) == ComponentsCost(dict, ms, start.path, depth, 0)
      {
        ghost var before, cost := Now(level), ComponentCostAt(dict, ms, path, depth, i);
        ComponentLeaves(dict, ms, path, depth, i, spent);
        AddComponentAt(level, at, ms, i, required, depth);
        AdvancesFurther(start, before, Now(level));
        ChargedFurther(start, before, Now(level), spent, cost);
        spent := Sum(spent, cost);
      }
      PlusNothing(dict, level.State());
    }

    method AddComponentAt(level: OpenLevel, ghost at: Address, ms: seq<Member>, i: nat, required: bool, depth: nat)
      requires SoundGroups(level.groups) && i < |ms|
      modifies this`budget, this`errors, this`path, level
      ensures Advances(old(Now(level)), Now(level))
      ensures errors == [] ==> Plus(level.State(), RawComponents(dict, Part(at, ms), required, path, i + 1))
                               == Plus(old(level.State()), RawComponents(dict, Part(at, ms), required, path, i))
      ensures Charged(old(Now(level)), Now(level), ComponentCostAt(dict, ms, path, depth, i))
      decreases Room(depth), 3
    {
      ghost var part := Part(at, ms);
      ComponentsUnfold(dict, part, required, path, i);
      if ms[i].ComponentRef? {
        PlusIsAssociative(level.State(), Raw(dict, ReferenceItems(dict, ms[i].name, required && ms[i].required, path)),
                          RawComponents(dict, part, required, path, i + 1));
        AddComponent(level, ms[i].name, required && ms[i].required, depth);
      }
    }

    /** Builds the message level: header and trailer from `transport`, then the body from `body`. */
    method Build(transport: Dictionary, body: Dictionary, name: Name, ms: seq<Member>) returns (level: FinishedLevel)
      requires path == {} && errors == [] && budget == MAX_SCOPE_NODES
      modifies this
      ensures Sound(level) && Nodes(level.groups) + budget <= MAX_SCOPE_NODES && path == {}
      ensures SizeReportedOnce(errors)
      ensures errors == [] ==> level == MessageLevel(transport, body, name, ms)
      ensures Paid([], MAX_SCOPE_NODES, errors, budget, MessageCost(transport, body, ms))
    {
      var open := new OpenLevel([]);
      dict := transport;
      ghost var start := Now(open);
      AddOwn(open, Header, transport.header);
      ghost var headed := Now(open);
      AddOwn(open, Trailer, transport.trailer);
      ghost var enveloped := Now(open);
      dict := body;
      AddPart(open, Address(Body(name), []), ms, true, 0);
      ghost var header, trailer := GroupsCost(transport, transport.header, {}, 0, 0), GroupsCost(transport, transport.trailer, {}, 0, 0);
      ChargedFurther(start, headed, enveloped, header, trailer);
      ChargedFurther(start, enveloped, Now(open), Sum(header, trailer), PartCost(body, ms, {}, 0));
      level := open.Finish();
      FinishedIsUnique(level, open.members, open.groups);
    }

    /** Adds the fields, then the groups, of the header or trailer; their components are not expanded. */
    method AddOwn(open: OpenLevel, ghost owner: Owner, ms: seq<Member>)
      requires path == {} && SoundGroups(open.groups)
      modifies this`budget, this`errors, this`path, open
      ensures Advances(old(Now(open)), Now(open))
      ensures errors == [] ==> open.State() == Plus(old(open.State()), RawOwn(dict, owner, ms))
      ensures Charged(old(Now(open)), Now(open), GroupsCost(dict, ms, path, 0, 0))
    {
      ghost var part, start := Part(Address(owner, []), ms), open.State();
      AddFields(open, Address(owner, []), ms, true);
      AddGroups(open, Address(owner, []), ms, true, 0);
      PlusIsAssociative(start, RawFields(part, true, 0), RawGroups(dict, part, true, {}, 0));
    }
  }

  /** What the header or trailer puts at the message level. */
  function RawOwn(d: Dictionary, owner: Owner, ms: seq<Member>): RawLevel {
    Plus(RawFields(Part(Address(owner, []), ms), true, 0), RawGroups(d, Part(Address(owner, []), ms), true, {}, 0))
  }

  function RawEnvelope(d: Dictionary): RawLevel {
    Plus(Plus(RawLevel([], [], []), RawOwn(d, Header, d.header)), RawOwn(d, Trailer, d.trailer))
  }

  /** The message level: header, trailer and body merged, envelope first. */
  function MessageLevel(transport: Dictionary, body: Dictionary, name: Name, ms: seq<Member>): FinishedLevel {
    var raw := Plus(RawEnvelope(transport), RawPart(body, Part(Address(Body(name), []), ms), true, {}));
    FinishedLevel(SortedTags(raw.members), raw.required, SortBy(raw.groups, KeyOf))
  }

  /** Expands a message, returning its level and every schema error met. */
  method Expand(transport: Dictionary, body: Dictionary, name: Name, ms: seq<Member>)
    returns (level: FinishedLevel, errors: seq<SchemaError>)
    ensures Sound(level) && Nodes(level.groups) <= MAX_SCOPE_NODES && SizeReportedOnce(errors)
    ensures errors == [] ==> level == MessageLevel(transport, body, name, ms)
    ensures errors == [] <==> MessageCost(transport, body, ms).faults == {} && MessageCost(transport, body, ms).nodes <= MAX_SCOPE_NODES
    ensures SchemaTooLarge in errors <==> MessageCost(transport, body, ms).nodes > MAX_SCOPE_NODES
    ensures SchemaTooLarge !in errors ==> forall e :: e in errors <==> e in MessageCost(transport, body, ms).faults
    ensures forall e :: e in errors ==> e in MessageCost(transport, body, ms).faults || e == SchemaTooLarge
  {
    var builder := new ScopeBuilder(transport);
    level := builder.Build(transport, body, name, ms);
    errors := builder.errors;
    PaidWithoutError(MAX_SCOPE_NODES, errors, builder.budget, MessageCost(transport, body, ms));
  }
}
