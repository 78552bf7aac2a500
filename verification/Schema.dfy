/**
 The dictionary: definitions as ordered member lists, where each definition stands, and what
 expanding one contributes to a level, in each of the two orders the repository uses.
 */
module Schema {
  import opened Wire
  import Levels

  type Name = string

  datatype Member =
    | FieldRef(tag: Tag, required: bool)
    | GroupRef(def: GroupDef)
    | ComponentRef(name: Name, required: bool)

  datatype GroupDef = GroupDef(countTag: Tag, delimiter: Tag, required: bool, members: seq<Member>)

  /** A field's type, as far as the view generator tells types apart: the kind of its value (`Bytes` for
      `data`), whether the type is `Length`, and whether its values must each be one printable character. */
  datatype FieldDef = FieldDef(kind: Levels.Kind, isLength: bool, oneChar: bool)

  datatype Dictionary = Dictionary(
    fields: map<Tag, FieldDef>,
    components: map<Name, seq<Member>>,
    messages: map<Name, seq<Member>>,
    header: seq<Member>,
    trailer: seq<Member>)

  /** Where a definition stands: the identity the generator keys group definitions by. */
  datatype Owner = Header | Trailer | Body(name: Name) | Component(name: Name)
  datatype Address = Address(owner: Owner, path: seq<nat>)

  /** A member list and the address of the definition it belongs to. */
  datatype Part = Part(at: Address, members: seq<Member>)

  function ComponentPart(d: Dictionary, name: Name): Part
    requires name in d.components
  {
    Part(Address(Component(name), []), d.components[name])
  }

  function GroupAddress(part: Part, i: nat): Address {
    Address(part.at.owner, part.at.path + [i])
  }

  // ----- what an expansion contributes to a level -----

  /** Components not yet on the path: what makes an expansion finite, whatever refers to what. */
  function Unvisited(d: Dictionary, path: set<Name>): nat {
    |d.components.Keys - path|
  }

  /** A reference is expanded when its component is defined and not being expanded already. */
  predicate Enterable(d: Dictionary, name: Name, path: set<Name>) {
    name in d.components && name !in path
  }

  lemma EnteringShrinks(d: Dictionary, name: Name, path: set<Name>)
    requires Enterable(d, name, path)
    ensures Unvisited(d, path + {name}) < Unvisited(d, path)
  {
    assert d.components.Keys - path == (d.components.Keys - (path + {name})) + {name};
  }

  /** Number of members, nested groups' included. */
  function Size(ms: seq<Member>): nat
    decreases ms
  {
    if ms == [] then 0 else 1 + MemberSize(ms[0]) + Size(ms[1..])
  }

  function MemberSize(member: Member): nat
    decreases member
  {
    match member
    case GroupRef(def) => GroupSize(def)
    case _ => 0
  }

  function GroupSize(def: GroupDef): nat
    decreases def
  {
    Size(def.members)
  }

  lemma SizeOfMember(ms: seq<Member>, i: nat)
    requires i < |ms| && ms[i].GroupRef?
    ensures Size(ms[i].def.members) < Size(ms)
  {
    if i > 0 {
      assert ms[1..][i - 1] == ms[i];
      SizeOfMember(ms[1..], i - 1);
    } else {
      assert MemberSize(ms[0]) == GroupSize(ms[0].def) == Size(ms[0].def.members);
    }
  }

  /** One contribution: a field, or a group definition with the components being expanded where it is met. */
  datatype Item =
    | FieldItem(tag: Tag, required: bool)
    | GroupItem(at: Address, def: GroupDef, required: bool, path: set<Name>)
  {
    function Tag(): Tag {
      match this
      case FieldItem(tag, _) => tag
      case GroupItem(_, def, _, _) => def.countTag
    }
  }

  function OwnItem(part: Part, i: nat, required: bool, path: set<Name>): Item
    requires i < |part.members| && !part.members[i].ComponentRef?
  {
    match part.members[i]
    case FieldRef(tag, req) => FieldItem(tag, required && req)
    case GroupRef(def) => GroupItem(GroupAddress(part, i), def, required && def.required, path)
  }

  function FieldItems(part: Part, required: bool, i: nat): seq<Item>
    requires i <= |part.members|
    decreases |part.members| - i
  {
    if i == |part.members| then []
    else (if part.members[i].FieldRef? then [OwnItem(part, i, required, {})] else []) + FieldItems(part, required, i + 1)
  }

  function GroupItems(part: Part, required: bool, path: set<Name>, i: nat): seq<Item>
    requires i <= |part.members|
    decreases |part.members| - i
  {
    if i == |part.members| then []
    else (if part.members[i].GroupRef? then [OwnItem(part, i, required, path)] else []) + GroupItems(part, required, path, i + 1)
  }

  /** The order a layout expands in: the part's own fields, its own groups, then each component in full. */
  function LayoutItems(d: Dictionary, part: Part, required: bool, path: set<Name>): (items: seq<Item>)
    decreases Unvisited(d, path), 2, 0
  {
    FieldItems(part, required, 0) + GroupItems(part, required, path, 0) + ComponentItems(d, part, required, path, 0)
  }

  function ComponentItems(d: Dictionary, part: Part, required: bool, path: set<Name>, i: nat): (items: seq<Item>)
    requires i <= |part.members|
    decreases Unvisited(d, path), 1, |part.members| - i
  {
    if i == |part.members| then []
    else
      (match part.members[i]
       case ComponentRef(name, req) => ReferenceItems(d, name, required && req, path)
       case _ => [])
      + ComponentItems(d, part, required, path, i + 1)
  }

  /** A component already on the path, or not defined, contributes nothing. */
  function ReferenceItems(d: Dictionary, name: Name, required: bool, path: set<Name>): (items: seq<Item>)
    decreases Unvisited(d, path), 0, 0
  {
    if Enterable(d, name, path) then
      EnteringShrinks(d, name, path);
      LayoutItems(d, ComponentPart(d, name), required, path + {name})
    else []
  }

  /** The order the views list members in: document order, each component in its place. */
  function ViewItems(d: Dictionary, part: Part, required: bool, path: set<Name>, i: nat): (items: seq<Item>)
    requires i <= |part.members|
    decreases Unvisited(d, path), 2, |part.members| - i
  {
    if i == |part.members| then [] else StepItems(d, part, required, path, i) + ViewItems(d, part, required, path, i + 1)
  }

  /** What member `i` contributes, in document order. */
  function StepItems(d: Dictionary, part: Part, required: bool, path: set<Name>, i: nat): (items: seq<Item>)
    requires i < |part.members|
    decreases Unvisited(d, path), 1, 0
  {
    match part.members[i]
    case ComponentRef(name, req) => ReferenceView(d, name, required && req, path)
    case _ => [OwnItem(part, i, required, path)]
  }

  function ReferenceView(d: Dictionary, name: Name, required: bool, path: set<Name>): (items: seq<Item>)
    decreases Unvisited(d, path), 0, 0
  {
    if Enterable(d, name, path) then
      EnteringShrinks(d, name, path);
      ViewItems(d, ComponentPart(d, name), required, path + {name}, 0)
    else []
  }

  /** Both orders list the same contributions. */
  lemma {:induction false} SameItems(d: Dictionary, part: Part, required: bool, path: set<Name>, i: nat)
    requires i <= |part.members|
    ensures multiset(ViewItems(d, part, required, path, i))
            == multiset(FieldItems(part, required, i)) + multiset(GroupItems(part, required, path, i))
               + multiset(ComponentItems(d, part, required, path, i))
    decreases Unvisited(d, path), 1, |part.members| - i
  {
    if i < |part.members| {
      SameItems(d, part, required, path, i + 1);
      var v, f, g, c := HeadItems(d, part, required, path, i);
      if part.members[i].ComponentRef? {
        SameReference(d, part.members[i].name, required && part.members[i].required, path);
      }
      JoinMultisets(v, f, g, c, ViewItems(d, part, required, path, i + 1), FieldItems(part, required, i + 1),
                    GroupItems(part, required, path, i + 1), ComponentItems(d, part, required, path, i + 1));
    }
  }

  /** What member `i` adds to each of the lists. */
  lemma HeadItems(d: Dictionary, part: Part, required: bool, path: set<Name>, i: nat)
    returns (v: seq<Item>, f: seq<Item>, g: seq<Item>, c: seq<Item>)
    requires i < |part.members|
    ensures ViewItems(d, part, required, path, i) == v + ViewItems(d, part, required, path, i + 1)
    ensures FieldItems(part, required, i) == f + FieldItems(part, required, i + 1)
    ensures GroupItems(part, required, path, i) == g + GroupItems(part, required, path, i + 1)
    ensures ComponentItems(d, part, required, path, i) == c + ComponentItems(d, part, required, path, i + 1)
    ensures match part.members[i]
            case FieldRef(_, _) => v == f && g == c == []
            case GroupRef(_) => v == g && f == c == []
            case ComponentRef(name, req) =>
              && f == g == []
              && v == ReferenceView(d, name, required && req, path) && c == ReferenceItems(d, name, required && req, path)
  {
    v, f, g, c := StepItems(d, part, required, path, i), [], [], [];
    match part.members[i]
    case FieldRef(_, _) => f := v;
    case GroupRef(_) => g := v;
    case ComponentRef(name, req) => c := ReferenceItems(d, name, required && req, path);
  }

  lemma JoinMultisets(v: seq<Item>, f: seq<Item>, g: seq<Item>, c: seq<Item>,
                      view: seq<Item>, fields: seq<Item>, groups: seq<Item>, components: seq<Item>)
    requires multiset(v) == multiset(f) + multiset(g) + multiset(c)
    requires multiset(view) == multiset(fields) + multiset(groups) + multiset(components)
    ensures multiset(v + view) == multiset(f + fields) + multiset(g + groups) + multiset(c + components)
  {
  }

  lemma {:induction false} SameReference(d: Dictionary, name: Name, required: bool, path: set<Name>)
    ensures multiset(ReferenceView(d, name, required, path)) == multiset(ReferenceItems(d, name, required, path))
    decreases Unvisited(d, path), 0, 0
  {
    if Enterable(d, name, path) {
      EnteringShrinks(d, name, path);
      SameItems(d, ComponentPart(d, name), required, path + {name}, 0);
    }
  }

  lemma SameTags(d: Dictionary, part: Part, required: bool, path: set<Name>, item: Item)
    ensures item in ViewItems(d, part, required, path, 0) <==> item in LayoutItems(d, part, required, path)
  {
    SameItems(d, part, required, path, 0);
    assert multiset(ViewItems(d, part, required, path, 0)) == multiset(LayoutItems(d, part, required, path));
    assert item in multiset(ViewItems(d, part, required, path, 0)) <==> item in multiset(LayoutItems(d, part, required, path));
  }

  // ----- expansion into a group ends -----

  /** The entry of the group, expanded where it is met, is a smaller expansion than that of `ms` below `path`. */
  predicate Below(d: Dictionary, item: Item, path: set<Name>, ms: seq<Member>)
    requires item.GroupItem?
  {
    || Unvisited(d, item.path) < Unvisited(d, path)
    || (Unvisited(d, item.path) == Unvisited(d, path) && Size(item.def.members) < Size(ms))
  }

  predicate AllBelow(d: Dictionary, items: seq<Item>, path: set<Name>, ms: seq<Member>) {
    forall k :: 0 <= k < |items| && items[k].GroupItem? ==> Below(d, items[k], path, ms)
  }

  /** Every group contributed to a level is smaller than the level's part, so expansion can recurse into it. */
  lemma {:induction false} ItemsAreBelow(d: Dictionary, part: Part, required: bool, path: set<Name>)
    ensures AllBelow(d, LayoutItems(d, part, required, path), path, part.members)
    decreases Unvisited(d, path), 2, 0
  {
    OwnGroupsAreBelow(d, part, required, path, 0);
    ComponentGroupsAreBelow(d, part, required, path, 0);
    FieldsAreNoGroups(part, required, 0);
    var fields, groups := FieldItems(part, required, 0), GroupItems(part, required, path, 0);
    AllBelowConcat(d, fields, groups, path, part.members);
    AllBelowConcat(d, fields + groups, ComponentItems(d, part, required, path, 0), path, part.members);
  }

  lemma AllBelowConcat(d: Dictionary, a: seq<Item>, b: seq<Item>, path: set<Name>, ms: seq<Member>)
    ensures AllBelow(d, a + b, path, ms) <==> AllBelow(d, a, path, ms) && AllBelow(d, b, path, ms)
  {
    assert forall k :: 0 <= k < |a| ==> (a + b)[k] == a[k];
    assert forall k :: 0 <= k < |b| ==> (a + b)[|a| + k] == b[k];
  }

  lemma FieldsAreNoGroups(part: Part, required: bool, i: nat)
    requires i <= |part.members|
    ensures forall k :: 0 <= k < |FieldItems(part, required, i)| ==> FieldItems(part, required, i)[k].FieldItem?
    decreases |part.members| - i
  {
    if i < |part.members| {
      FieldsAreNoGroups(part, required, i + 1);
    }
  }

  lemma OwnGroupsAreBelow(d: Dictionary, part: Part, required: bool, path: set<Name>, i: nat)
    requires i <= |part.members|
    ensures AllBelow(d, GroupItems(part, required, path, i), path, part.members)
    decreases |part.members| - i
  {
    if i < |part.members| {
      OwnGroupsAreBelow(d, part, required, path, i + 1);
      if part.members[i].GroupRef? {
        SizeOfMember(part.members, i);
        var own := [OwnItem(part, i, required, path)];
        assert AllBelow(d, own, path, part.members);
        AllBelowConcat(d, own, GroupItems(part, required, path, i + 1), path, part.members);
      }
    }
  }

  lemma {:induction false} ComponentGroupsAreBelow(d: Dictionary, part: Part, required: bool, path: set<Name>, i: nat)
    requires i <= |part.members|
    ensures AllBelow(d, ComponentItems(d, part, required, path, i), path, part.members)
    decreases Unvisited(d, path), 1, |part.members| - i
  {
    if i < |part.members| {
      ComponentGroupsAreBelow(d, part, required, path, i + 1);
      if part.members[i].ComponentRef? && Enterable(d, part.members[i].name, path) {
        var name := part.members[i].name;
        EnteringShrinks(d, name, path);
        ItemsAreBelow(d, ComponentPart(d, name), required && part.members[i].required, path + {name});
        var inner := ReferenceItems(d, name, required && part.members[i].required, path);
        assert AllBelow(d, inner, path, part.members);
        AllBelowConcat(d, inner, ComponentItems(d, part, required, path, i + 1), path, part.members);
      }
    }
  }
}
