/**
 Which tags a level lists and requires, stated on the dictionary's references alone: the ends of chains of
 component references that avoid the components being expanded.
 */
module Required {
  import opened Wire
  import opened Sorting
  import opened Schema
  import opened Layout
  import opened Scope

  // ----- chains of references -----

  /** What a chain ends at: a list holding a tag, or one that refers to a component. */
  datatype Goal = Holding(tag: Tag) | Naming(name: Name)

  predicate Lists(member: Member, tag: Tag, need: bool) {
    match member
    case FieldRef(t, required) => t == tag && (need ==> required)
    case GroupRef(def) => !need && def.countTag == tag
    case ComponentRef(_, _) => false
  }

  predicate RefersTo(ms: seq<Member>, name: Name, need: bool) {
    ComponentRef(name, true) in ms || (!need && ComponentRef(name, false) in ms)
  }

  predicate Ends(ms: seq<Member>, goal: Goal, need: bool) {
    match goal
    case Holding(tag) => exists i :: 0 <= i < |ms| && Lists(ms[i], tag, need)
    case Naming(name) => RefersTo(ms, name, need)
  }

  /** The chain leads from `ms` to the goal; with `need`, by required references to a required field. */
  predicate Via(d: Dictionary, ms: seq<Member>, goal: Goal, need: bool, chain: seq<Name>)
    decreases chain
  {
    if chain == [] then Ends(ms, goal, need)
    else RefersTo(ms, chain[0], need) && chain[0] in d.components && Via(d, d.components[chain[0]], goal, need, chain[1..])
  }

  /** The same, entering no component of `path` and none twice. */
  predicate Avoiding(d: Dictionary, ms: seq<Member>, goal: Goal, need: bool, path: set<Name>, chain: seq<Name>)
    decreases chain
  {
    if chain == [] then Ends(ms, goal, need)
    else
      && RefersTo(ms, chain[0], need) && Enterable(d, chain[0], path)
      && Avoiding(d, d.components[chain[0]], goal, need, path + {chain[0]}, chain[1..])
  }

  ghost predicate Leads(d: Dictionary, ms: seq<Member>, goal: Goal, need: bool) {
    exists chain :: Via(d, ms, goal, need, chain)
  }

  ghost predicate LeadsAvoiding(d: Dictionary, ms: seq<Member>, goal: Goal, need: bool, path: set<Name>) {
    exists chain :: Avoiding(d, ms, goal, need, path, chain)
  }

  /** Some required chain of references leads to a required field with this tag. */
  ghost predicate IsRequired(d: Dictionary, ms: seq<Member>, tag: Tag) {
    Leads(d, ms, Holding(tag), true)
  }

  /** Some required chain that enters no component of `path`, and none twice, leads to one. */
  ghost predicate IsRequiredAvoiding(d: Dictionary, ms: seq<Member>, tag: Tag, path: set<Name>) {
    LeadsAvoiding(d, ms, Holding(tag), true, path)
  }

  // ----- what an expansion shows -----

  predicate Shows(items: seq<Item>, tag: Tag, need: bool) {
    if need then tag in RequiredOf(items) else tag in TagsOf(items)
  }

  lemma ShowsConcat(a: seq<Item>, b: seq<Item>, tag: Tag, need: bool)
    ensures Shows(a + b, tag, need) <==> Shows(a, tag, need) || Shows(b, tag, need)
  {
    TagsConcat(a, b);
  }

  /** A field, or a group, listed from `i` on. */
  predicate ListsFrom(ms: seq<Member>, i: nat, tag: Tag, need: bool, field: bool) {
    exists j :: i <= j < |ms| && ms[j].FieldRef? == field && Lists(ms[j], tag, need)
  }

  lemma FieldsShow(part: Part, required: bool, i: nat, tag: Tag, need: bool)
    requires i <= |part.members|
    ensures Shows(FieldItems(part, required, i), tag, need) <==>
              (need ==> required) && ListsFrom(part.members, i, tag, need, true)
    decreases |part.members| - i
  {
    if i < |part.members| {
      FieldsShow(part, required, i + 1, tag, need);
      var rest := FieldItems(part, required, i + 1);
      if part.members[i].FieldRef? {
        OneShows(part, required, {}, i, tag, need);
        ShowsConcat([OwnItem(part, i, required, {})], rest, tag, need);
      } else {
        assert [] + rest == rest;
      }
    }
  }

  lemma GroupsShow(part: Part, required: bool, path: set<Name>, i: nat, tag: Tag, need: bool)
    requires i <= |part.members|
    ensures Shows(GroupItems(part, required, path, i), tag, need) <==> ListsFrom(part.members, i, tag, need, false)
    decreases |part.members| - i
  {
    if i < |part.members| {
      GroupsShow(part, required, path, i + 1, tag, need);
      var rest := GroupItems(part, required, path, i + 1);
      if part.members[i].GroupRef? {
        OneShows(part, required, path, i, tag, need);
        ShowsConcat([OwnItem(part, i, required, path)], rest, tag, need);
      } else {
        assert [] + rest == rest;
      }
    }
  }

  /** A definition's own fields and groups show what it lists itself. */
  lemma OwnShow(part: Part, required: bool, path: set<Name>, tag: Tag, need: bool)
    ensures Shows(FieldItems(part, required, 0), tag, need) || Shows(GroupItems(part, required, path, 0), tag, need) <==>
              (need ==> required) && Ends(part.members, Holding(tag), need)
  {
    FieldsShow(part, required, 0, tag, need);
    GroupsShow(part, required, path, 0, tag, need);
    if Ends(part.members, Holding(tag), need) {
      var i :| 0 <= i < |part.members| && Lists(part.members[i], tag, need);
      assert ListsFrom(part.members, 0, tag, need, part.members[i].FieldRef?);
    }
  }

  lemma OneShows(part: Part, required: bool, path: set<Name>, i: nat, tag: Tag, need: bool)
    requires i < |part.members| && !part.members[i].ComponentRef?
    ensures Shows([OwnItem(part, i, required, path)], tag, need) <==>
              (need ==> required) && Lists(part.members[i], tag, need)
  {
    var item := OwnItem(part, i, required, path);
    assert [item][1..] == [];
    assert TagsOf([item]) == [item.Tag()];
    assert RequiredOf([item]) == if item.FieldItem? && item.required then [item.tag] else [];
  }

  /** A component reference among those from `i` on shows the tag. */
  ghost predicate Through(d: Dictionary, ms: seq<Member>, i: nat, tag: Tag, need: bool, path: set<Name>)
    requires i <= |ms|
  {
    exists j :: i <= j < |ms| && Passes(d, ms[j], tag, need, path)
  }

  ghost predicate Passes(d: Dictionary, member: Member, tag: Tag, need: bool, path: set<Name>) {
    && member.ComponentRef? && (need ==> member.required) && Enterable(d, member.name, path)
    && LeadsAvoiding(d, d.components[member.name], Holding(tag), need, path + {member.name})
  }

  lemma {:induction false} ComponentsShow(d: Dictionary, part: Part, required: bool, path: set<Name>, i: nat, tag: Tag, need: bool)
    requires i <= |part.members|
    ensures Shows(ComponentItems(d, part, required, path, i), tag, need) <==>
              (need ==> required) && Through(d, part.members, i, tag, need, path)
    decreases Unvisited(d, path), 1, |part.members| - i
  {
    if i < |part.members| {
      ComponentsShow(d, part, required, path, i + 1, tag, need);
      var rest, member := ComponentItems(d, part, required, path, i + 1), part.members[i];
      if member.ComponentRef? {
        ReferenceShows(d, member.name, required && member.required, path, tag, need);
        ShowsConcat(ReferenceItems(d, member.name, required && member.required, path), rest, tag, need);
      } else {
        assert [] + rest == rest;
      }
      ThroughStep(d, part.members, i, tag, need, path);
    }
  }

  lemma ThroughStep(d: Dictionary, ms: seq<Member>, i: nat, tag: Tag, need: bool, path: set<Name>)
    requires i < |ms|
    ensures Through(d, ms, i, tag, need, path) <==>
              Passes(d, ms[i], tag, need, path) || Through(d, ms, i + 1, tag, need, path)
  {
  }

  lemma {:induction false} ReferenceShows(d: Dictionary, name: Name, required: bool, path: set<Name>, tag: Tag, need: bool)
    ensures Shows(ReferenceItems(d, name, required, path), tag, need) <==>
              (need ==> required) && Passes(d, ComponentRef(name, required), tag, need, path)
    decreases Unvisited(d, path), 0, 0
  {
    if Enterable(d, name, path) {
      EnteringShrinks(d, name, path);
      ShownByChains(d, ComponentPart(d, name), required, path + {name}, tag, need);
    }
  }

  /**
   With the components of `path` being expanded, a definition lists exactly the tags that chains of
   references avoiding them lead to, and requires exactly those that required chains lead to.
   */
  lemma {:induction false} ShownByChains(d: Dictionary, part: Part, required: bool, path: set<Name>, tag: Tag, need: bool)
    ensures Shows(LayoutItems(d, part, required, path), tag, need) <==>
              (need ==> required) && LeadsAvoiding(d, part.members, Holding(tag), need, path)
    decreases Unvisited(d, path), 2, 0
  {
    var fields, groups, components :=
      FieldItems(part, required, 0), GroupItems(part, required, path, 0), ComponentItems(d, part, required, path, 0);
    ShowsConcat(fields, groups, tag, need);
    ShowsConcat(fields + groups, components, tag, need);
    OwnShow(part, required, path, tag, need);
    ComponentsShow(d, part, required, path, 0, tag, need);
    ChainsSplit(d, part.members, tag, need, path);
  }

  lemma ChainsSplit(d: Dictionary, ms: seq<Member>, tag: Tag, need: bool, path: set<Name>)
    ensures LeadsAvoiding(d, ms, Holding(tag), need, path) <==>
              Ends(ms, Holding(tag), need) || Through(d, ms, 0, tag, need, path)
  {
    if Ends(ms, Holding(tag), need) {
      assert Avoiding(d, ms, Holding(tag), need, path, []);
    }
    if Through(d, ms, 0, tag, need, path) {
      var j :| 0 <= j < |ms| && Passes(d, ms[j], tag, need, path);
      var name := ms[j].name;
      var chain :| Avoiding(d, d.components[name], Holding(tag), need, path + {name}, chain);
      assert ms[j] == ComponentRef(name, ms[j].required) && ms[j] in ms;
      assert ([name] + chain)[1..] == chain;
      assert Avoiding(d, ms, Holding(tag), need, path, [name] + chain);
    }
    if LeadsAvoiding(d, ms, Holding(tag), need, path) {
      var chain :| Avoiding(d, ms, Holding(tag), need, path, chain);
      if chain != [] {
        var req := ComponentRef(chain[0], true) in ms;
        var j :| 0 <= j < |ms| && ms[j] == ComponentRef(chain[0], req);
        assert Avoiding(d, d.components[chain[0]], Holding(tag), need, path + {chain[0]}, chain[1..]);
        assert Passes(d, ms[j], tag, need, path);
      }
    }
  }

  /** Expanding a definition requires exactly the tags that required chains avoiding the path lead to. */
  lemma RequiredByPaths(d: Dictionary, part: Part, required: bool, path: set<Name>, tag: Tag)
    ensures tag in RequiredOf(LayoutItems(d, part, required, path)) <==>
              required && IsRequiredAvoiding(d, part.members, tag, path)
  {
    ShownByChains(d, part, required, path, tag, true);
  }

  // ----- any chain, its loops cut out -----

  lemma {:induction false} SuffixLeads(d: Dictionary, ms: seq<Member>, goal: Goal, need: bool, chain: seq<Name>, k: nat)
    requires Via(d, ms, goal, need, chain) && k < |chain|
    ensures chain[k] in d.components && Via(d, d.components[chain[k]], goal, need, chain[k + 1..])
    decreases chain
  {
    if k > 0 {
      SuffixLeads(d, d.components[chain[0]], goal, need, chain[1..], k - 1);
      assert chain[1..][k - 1] == chain[k] && chain[1..][k..] == chain[k + 1..];
    }
  }

  function LastIndex(chain: seq<Name>, name: Name): (k: nat)
    requires name in chain
    ensures k < |chain| && chain[k] == name && name !in chain[k + 1..]
  {
    if name in chain[1..] then
      assert chain[1..][LastIndex(chain[1..], name) + 1..] == chain[LastIndex(chain[1..], name) + 2..];
      1 + LastIndex(chain[1..], name)
    else 0
  }

  /** A chain that enters no component of `path` can be shortened to one that enters none twice. */
  lemma {:induction false} CutLoops(d: Dictionary, ms: seq<Member>, goal: Goal, need: bool, path: set<Name>, chain: seq<Name>)
    requires Via(d, ms, goal, need, chain) && forall name :: name in chain ==> name !in path
    ensures LeadsAvoiding(d, ms, goal, need, path)
    decreases |chain|
  {
    if chain == [] {
      assert Avoiding(d, ms, goal, need, path, []);
    } else {
      var name := chain[0];
      var k := LastIndex(chain, name);
      SuffixLeads(d, ms, goal, need, chain, k);
      assert forall other :: other in chain[k + 1..] ==> other in chain;
      CutLoops(d, d.components[name], goal, need, path + {name}, chain[k + 1..]);
      var rest :| Avoiding(d, d.components[name], goal, need, path + {name}, rest);
      assert ([name] + rest)[1..] == rest;
      assert Avoiding(d, ms, goal, need, path, [name] + rest);
    }
  }

  lemma {:induction false} AvoidingIsVia(d: Dictionary, ms: seq<Member>, goal: Goal, need: bool, path: set<Name>, chain: seq<Name>)
    requires Avoiding(d, ms, goal, need, path, chain)
    ensures Via(d, ms, goal, need, chain)
    decreases chain
  {
    if chain != [] {
      AvoidingIsVia(d, d.components[chain[0]], goal, need, path + {chain[0]}, chain[1..]);
    }
  }

  /** With nothing being expanded, avoiding costs nothing. */
  lemma LeadsFromOutside(d: Dictionary, ms: seq<Member>, goal: Goal, need: bool)
    ensures LeadsAvoiding(d, ms, goal, need, {}) <==> Leads(d, ms, goal, need)
  {
    if LeadsAvoiding(d, ms, goal, need, {}) {
      var chain :| Avoiding(d, ms, goal, need, {}, chain);
      AvoidingIsVia(d, ms, goal, need, {}, chain);
    }
    if Leads(d, ms, goal, need) {
      var chain :| Via(d, ms, goal, need, chain);
      CutLoops(d, ms, goal, need, {}, chain);
    }
  }

  /** The message level requires its required header and trailer fields and what its body requires by any chain. */
  lemma MessageRequiresByPaths(transport: Dictionary, body: Dictionary, name: Name, ms: seq<Member>, tag: Tag)
    ensures tag in MessageLevel(transport, body, name, ms).required <==>
              || FieldRef(tag, true) in transport.header || FieldRef(tag, true) in transport.trailer
              || IsRequired(body, ms, tag)
  {
    OwnRequires(transport, Header, transport.header, tag);
    OwnRequires(transport, Trailer, transport.trailer, tag);
    RequiredByPaths(body, Part(Address(Body(name), []), ms), true, {}, tag);
    LeadsFromOutside(body, ms, Holding(tag), true);
  }

  lemma OwnRequires(d: Dictionary, owner: Owner, ms: seq<Member>, tag: Tag)
    ensures tag in RawOwn(d, owner, ms).required <==> FieldRef(tag, true) in ms
  {
    OwnShow(Part(Address(owner, []), ms), true, {}, tag, true);
    if FieldRef(tag, true) in ms {
      var j :| 0 <= j < |ms| && ms[j] == FieldRef(tag, true);
      assert Lists(ms[j], tag, true);
    }
  }

  // ----- entries -----

  /**
   An entry's required list holds exactly the tags required by chains from its group that avoid the
   components the group was met in, without its delimiter, each once.
   */
  lemma EntryRequiresByPaths(d: Dictionary, at: Address, def: GroupDef, path: set<Name>, tag: Tag)
    ensures var required := PureEntry(d, at, def, path).required;
            && (tag in required <==> tag != def.delimiter && IsRequiredAvoiding(d, def.members, tag, path))
            && forall i, j :: 0 <= i < j < |required| ==> required[i] != required[j]
  {
    var items := LayoutItems(d, Part(at, def.members), true, path);
    EntryIs(d, at, def, path);
    RetainKeepsEachOnce(RequiredOf(items), def.delimiter, {});
    RequiredByPaths(d, Part(at, def.members), true, path, tag);
  }

  /** An entry accepts its delimiter and exactly the tags that chains avoiding those components lead to. */
  lemma EntryListsByPaths(d: Dictionary, at: Address, def: GroupDef, path: set<Name>, tag: Tag)
    ensures tag in PureEntry(d, at, def, path).members <==>
              tag == def.delimiter || LeadsAvoiding(d, def.members, Holding(tag), false, path)
  {
    var items := LayoutItems(d, Part(at, def.members), true, path);
    EntryIs(d, at, def, path);
    SortedTagsAre([def.delimiter] + TagsOf(items));
    ShownByChains(d, Part(at, def.members), true, path, tag, false);
  }

  /** The path guard skips a reference to `name`: a chain that avoids the path leads to one. */
  ghost predicate Skips(d: Dictionary, ms: seq<Member>, need: bool, path: set<Name>, name: Name) {
    name in path && name in d.components && LeadsAvoiding(d, ms, Naming(name), need, path)
  }

  /** What the guard skips, some chain that avoids the path leads to as well. */
  ghost predicate NothingLost(d: Dictionary, ms: seq<Member>, need: bool, path: set<Name>, except: Tag) {
    forall name, tag :: Skips(d, ms, need, path, name) && Leads(d, d.components[name], Holding(tag), need) && tag != except ==>
      LeadsAvoiding(d, ms, Holding(tag), need, path)
  }

  /** The chain up to its first component on the path, and from there on. */
  lemma {:induction false} SplitAtPath(d: Dictionary, ms: seq<Member>, goal: Goal, need: bool, path: set<Name>, chain: seq<Name>)
    returns (k: nat)
    requires Via(d, ms, goal, need, chain)
    ensures k <= |chain| && forall name :: name in chain[..k] ==> name !in path
    ensures k < |chain| ==> chain[k] in path && Via(d, ms, Naming(chain[k]), need, chain[..k])
    decreases chain
  {
    if chain == [] || chain[0] in path {
      k := 0;
    } else {
      k := SplitAtPath(d, d.components[chain[0]], goal, need, path, chain[1..]);
      k := k + 1;
      assert chain[..k] == [chain[0]] + chain[1..][..k - 1];
      assert chain[..k][1..] == chain[1..][..k - 1];
    }
  }

  /** A tag that only chains through the path lead to is behind a reference the guard skips. */
  lemma BehindASkip(d: Dictionary, ms: seq<Member>, tag: Tag, need: bool, path: set<Name>)
    requires Leads(d, ms, Holding(tag), need) && !LeadsAvoiding(d, ms, Holding(tag), need, path)
    ensures exists name :: Skips(d, ms, need, path, name) && Leads(d, d.components[name], Holding(tag), need)
  {
    var chain :| Via(d, ms, Holding(tag), need, chain);
    var k := SplitAtPath(d, ms, Holding(tag), need, path, chain);
    if k == |chain| {
      assert chain[..k] == chain;
      CutLoops(d, ms, Holding(tag), need, path, chain);
      assert false;
    } else {
      SuffixLeads(d, ms, Holding(tag), need, chain, k);
      CutLoops(d, ms, Naming(chain[k]), need, path, chain[..k]);
      assert Skips(d, ms, need, path, chain[k]);
    }
  }

  lemma {:induction false} ChainsJoin(d: Dictionary, ms: seq<Member>, name: Name, goal: Goal, need: bool, a: seq<Name>, b: seq<Name>)
    requires Via(d, ms, Naming(name), need, a) && name in d.components && Via(d, d.components[name], goal, need, b)
    ensures Via(d, ms, goal, need, a + [name] + b)
    decreases a
  {
    var chain := a + [name] + b;
    if a == [] {
      assert chain[0] == name && chain[1..] == b;
    } else {
      ChainsJoin(d, d.components[a[0]], name, goal, need, a[1..], b);
      assert chain[0] == a[0] && chain[1..] == a[1..] + [name] + b;
    }
  }

  /** What is behind a skipped reference, some chain leads to. */
  lemma SkippedIsLed(d: Dictionary, ms: seq<Member>, need: bool, path: set<Name>, name: Name, tag: Tag)
    requires Skips(d, ms, need, path, name) && Leads(d, d.components[name], Holding(tag), need)
    ensures Leads(d, ms, Holding(tag), need)
  {
    var a :| Avoiding(d, ms, Naming(name), need, path, a);
    AvoidingIsVia(d, ms, Naming(name), need, path, a);
    var b :| Via(d, d.components[name], Holding(tag), need, b);
    ChainsJoin(d, ms, name, Holding(tag), need, a, b);
  }

  /** Every tag that chains lead to is led to by chains avoiding the path exactly when the guard loses nothing. */
  lemma LostExactly(d: Dictionary, ms: seq<Member>, need: bool, path: set<Name>, except: Tag)
    ensures NothingLost(d, ms, need, path, except) <==>
              forall tag :: Leads(d, ms, Holding(tag), need) && tag != except ==> LeadsAvoiding(d, ms, Holding(tag), need, path)
  {
    if NothingLost(d, ms, need, path, except) {
      forall tag | Leads(d, ms, Holding(tag), need) && tag != except ensures LeadsAvoiding(d, ms, Holding(tag), need, path) {
        if !LeadsAvoiding(d, ms, Holding(tag), need, path) {
          BehindASkip(d, ms, tag, need, path);
        }
      }
    } else {
      var name, tag :| Skips(d, ms, need, path, name) && Leads(d, d.components[name], Holding(tag), need) && tag != except
                       && !LeadsAvoiding(d, ms, Holding(tag), need, path);
      SkippedIsLed(d, ms, need, path, name, tag);
    }
  }

  /**
   An entry requires every tag that required chains from its group lead to, whatever they pass through,
   exactly when what lies behind each required reference the path guard skips is required by another
   chain too.
   */
  lemma EntryRequiresAllExactly(d: Dictionary, at: Address, def: GroupDef, path: set<Name>)
    ensures (forall tag :: IsRequired(d, def.members, tag) && tag != def.delimiter ==> tag in PureEntry(d, at, def, path).required)
            <==> NothingLost(d, def.members, true, path, def.delimiter)
  {
    LostExactly(d, def.members, true, path, def.delimiter);
    forall tag ensures IsRequired(d, def.members, tag) <==> Leads(d, def.members, Holding(tag), true)
    ensures tag != def.delimiter ==>
              (tag in PureEntry(d, at, def, path).required <==> LeadsAvoiding(d, def.members, Holding(tag), true, path))
    {
      EntryRequiresByPaths(d, at, def, path, tag);
    }
  }

  /** Component A requires field 1 and holds a group whose entries require A again. */
  function CircularGroup(): GroupDef {
    GroupDef(2, 3, true, [FieldRef(3, false), ComponentRef("A", true)])
  }

  function CircularDictionary(): Dictionary {
    Dictionary(map[], map["A" := [FieldRef(1, true), GroupRef(CircularGroup())]], map["M" := [ComponentRef("A", true)]], [], [])
  }

  /**
   In a dictionary with a cycle an entry can lack a tag that a required chain leads to: the group of A is
   met inside A, so its own reference to A is skipped.
   */
  lemma CircularEntryLacksATag()
    ensures var d, def := CircularDictionary(), CircularGroup();
            var at := Address(Component("A"), [1]);
            && GroupItem(at, def, true, {"A"}) in LayoutItems(d, Part(Address(Body("M"), []), d.messages["M"]), true, {})
            && IsRequired(d, def.members, 1) && 1 !in PureEntry(d, at, def, {"A"}).required
  {
    var d, def := CircularDictionary(), CircularGroup();
    var at := Address(Component("A"), [1]);
    var a := d.components["A"];
    assert Lists(a[0], 1, true) && Ends(a, Holding(1), true) && Via(d, a, Holding(1), true, []);
    assert ["A"][1..] == [] && ComponentRef("A", true) == def.members[1];
    assert Via(d, def.members, Holding(1), true, ["A"]);
    EntryRequiresByPaths(d, at, def, {"A"}, 1);
    assert !IsRequiredAvoiding(d, def.members, 1, {"A"});
    CircularGroupIsMet();
  }

  lemma CircularGroupIsMet()
    ensures var d := CircularDictionary();
            GroupItem(Address(Component("A"), [1]), CircularGroup(), true, {"A"})
            in LayoutItems(d, Part(Address(Body("M"), []), d.messages["M"]), true, {})
  {
    var d := CircularDictionary();
    var message, a := Part(Address(Body("M"), []), d.messages["M"]), ComponentPart(d, "A");
    var item := OwnItem(a, 1, true, {"A"});
    assert {} + {"A"} == {"A"} && [] + [1] == [1];
    assert item in GroupItems(a, true, {"A"}, 1);
    assert item in GroupItems(a, true, {"A"}, 0);
    assert item in LayoutItems(d, a, true, {"A"});
    assert Enterable(d, "A", {}) && ReferenceItems(d, "A", true, {}) == LayoutItems(d, a, true, {"A"});
    assert item in ComponentItems(d, message, true, {}, 0);
  }
}
