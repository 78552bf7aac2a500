/**
 Which reference to a group definition is met first: the same one in both expansion orders, so both keep
 the same requiredness for it.
 */
module FirstRefs {
  import opened Wire
  import opened Schema
  import opened Layout

  /** The first reference to the definition with this count tag standing at `at`. */
  function FirstRef(items: seq<Item>, countTag: Tag, at: Address): (first: Option<Item>)
    ensures first.Some? ==>
              first.value in items && first.value.GroupItem? && first.value.def.countTag == countTag && first.value.at == at
  {
    if items == [] then None
    else if items[0].GroupItem? && items[0].def.countTag == countTag && items[0].at == at then Some(items[0])
    else FirstRef(items[1..], countTag, at)
  }

  lemma FirstRefConcat(a: seq<Item>, b: seq<Item>, countTag: Tag, at: Address)
    ensures FirstRef(a + b, countTag, at)
            == if FirstRef(a, countTag, at).Some? then FirstRef(a, countTag, at) else FirstRef(b, countTag, at)
  {
    if a == [] {
      assert a + b == b;
    } else {
      assert (a + b)[0] == a[0] && (a + b)[1..] == a[1..] + b;
      FirstRefConcat(a[1..], b, countTag, at);
    }
  }

  /** The first group of a count tag is the first reference to its definition. */
  lemma FirstGroupIsFirstRef(items: seq<Item>, countTag: Tag)
    ensures FirstGroup(items, countTag).Some? ==>
              FirstRef(items, countTag, FirstGroup(items, countTag).value.at) == FirstGroup(items, countTag)
  {
  }

  lemma NoRef(items: seq<Item>, countTag: Tag, at: Address)
    requires forall k :: 0 <= k < |items| && items[k].GroupItem? ==> items[k].at != at
    ensures FirstRef(items, countTag, at) == None
  {
  }

  /** The definition is that of a message, the header, the trailer, or a component being expanded. */
  predicate Homed(at: Address, path: set<Name>) {
    at.owner.Component? ==> at.owner.name in path
  }

  /** No group among the items stands in a definition with this owner. */
  predicate Elsewhere(items: seq<Item>, owner: Owner) {
    forall k :: 0 <= k < |items| && items[k].GroupItem? ==> items[k].at.owner != owner
  }

  lemma ElsewhereConcat(a: seq<Item>, b: seq<Item>, owner: Owner)
    requires Elsewhere(a, owner) && Elsewhere(b, owner)
    ensures Elsewhere(a + b, owner)
  {
    assert forall k :: 0 <= k < |a + b| ==> (a + b)[k] == if k < |a| then a[k] else b[k - |a|];
  }

  lemma OwnGroupsAreHome(part: Part, required: bool, path: set<Name>, i: nat)
    requires i <= |part.members|
    ensures forall k :: 0 <= k < |GroupItems(part, required, path, i)| ==>
              GroupItems(part, required, path, i)[k].GroupItem? && GroupItems(part, required, path, i)[k].at.owner == part.at.owner
    decreases |part.members| - i
  {
    if i < |part.members| {
      OwnGroupsAreHome(part, required, path, i + 1);
    }
  }

  /** The components entered stand elsewhere than any definition being expanded. */
  lemma {:induction false} ComponentsAreElsewhere(d: Dictionary, part: Part, required: bool, path: set<Name>, i: nat, at: Address)
    requires i <= |part.members| && Homed(at, path)
    ensures Elsewhere(ComponentItems(d, part, required, path, i), at.owner)
    decreases Unvisited(d, path), |part.members| - i
  {
    if i < |part.members| {
      ComponentsAreElsewhere(d, part, required, path, i + 1, at);
      if part.members[i].ComponentRef? && Enterable(d, part.members[i].name, path) {
        var name, req := part.members[i].name, required && part.members[i].required;
        EnteringShrinks(d, name, path);
        LayoutIsElsewhere(d, ComponentPart(d, name), req, path + {name}, at);
        ElsewhereConcat(ReferenceItems(d, name, req, path), ComponentItems(d, part, required, path, i + 1), at.owner);
      }
    }
  }

  lemma {:induction false} LayoutIsElsewhere(d: Dictionary, part: Part, required: bool, path: set<Name>, at: Address)
    requires Homed(at, path) && part.at.owner != at.owner
    ensures Elsewhere(LayoutItems(d, part, required, path), at.owner)
    decreases Unvisited(d, path), |part.members| + 1
  {
    var fields, groups := FieldItems(part, required, 0), GroupItems(part, required, path, 0);
    FieldsAreNoGroups(part, required, 0);
    OwnGroupsAreHome(part, required, path, 0);
    ComponentsAreElsewhere(d, part, required, path, 0, at);
    ElsewhereConcat(fields, groups, at.owner);
    ElsewhereConcat(fields + groups, ComponentItems(d, part, required, path, 0), at.owner);
  }

  /** From member `i` on: a definition of this level is met among the level's own groups, any other in a component. */
  lemma {:induction false} SameRefsFrom(d: Dictionary, part: Part, required: bool, path: set<Name>, i: nat, ct: Tag, at: Address)
    requires Homed(part.at, path) && i <= |part.members|
    ensures FirstRef(ViewItems(d, part, required, path, i), ct, at)
            == if at.owner == part.at.owner then FirstRef(GroupItems(part, required, path, i), ct, at)
               else FirstRef(ComponentItems(d, part, required, path, i), ct, at)
    decreases Unvisited(d, path), 0, |part.members| - i
  {
    if i < |part.members| {
      SameRefsFrom(d, part, required, path, i + 1, ct, at);
      var v, f, g, c := HeadItems(d, part, required, path, i);
      FirstRefConcat(v, ViewItems(d, part, required, path, i + 1), ct, at);
      FirstRefConcat(g, GroupItems(part, required, path, i + 1), ct, at);
      FirstRefConcat(c, ComponentItems(d, part, required, path, i + 1), ct, at);
      match part.members[i] {
        case FieldRef(_, _) => NoRef(v, ct, at);
        case GroupRef(_) => assert g == [OwnItem(part, i, required, path)] && g[1..] == [];
        case ComponentRef(name, req) => SameRefsIn(d, name, required && req, path, part.at, ct, at);
      }
    }
  }

  lemma {:induction false} SameRefsIn(d: Dictionary, name: Name, required: bool, path: set<Name>, home: Address, ct: Tag, at: Address)
    requires Homed(home, path)
    ensures FirstRef(ReferenceView(d, name, required, path), ct, at) == FirstRef(ReferenceItems(d, name, required, path), ct, at)
    ensures at.owner == home.owner ==> FirstRef(ReferenceItems(d, name, required, path), ct, at) == None
    decreases Unvisited(d, path), 0, 0
  {
    if Enterable(d, name, path) {
      EnteringShrinks(d, name, path);
      SameRefs(d, ComponentPart(d, name), required, path + {name}, ct, at);
      LayoutIsElsewhere(d, ComponentPart(d, name), required, path + {name}, home);
      if at.owner == home.owner {
        NoRef(ReferenceItems(d, name, required, path), ct, at);
      }
    }
  }

  /** Both orders meet the same reference to a definition first. */
  lemma {:induction false} SameRefs(d: Dictionary, part: Part, required: bool, path: set<Name>, ct: Tag, at: Address)
    requires Homed(part.at, path)
    ensures FirstRef(ViewItems(d, part, required, path, 0), ct, at) == FirstRef(LayoutItems(d, part, required, path), ct, at)
    decreases Unvisited(d, path), 1, 0
  {
    var fields, groups := FieldItems(part, required, 0), GroupItems(part, required, path, 0);
    SameRefsFrom(d, part, required, path, 0, ct, at);
    FieldsAreNoGroups(part, required, 0);
    NoRef(fields, ct, at);
    OwnGroupsAreHome(part, required, path, 0);
    ComponentsAreElsewhere(d, part, required, path, 0, part.at);
    FirstRefConcat(fields, groups, ct, at);
    FirstRefConcat(fields + groups, ComponentItems(d, part, required, path, 0), ct, at);
    if at.owner == part.at.owner {
      NoRef(ComponentItems(d, part, required, path, 0), ct, at);
    } else {
      NoRef(groups, ct, at);
    }
  }
}
