/**
 When the lengths and the data fields of everything a generator makes match: a condition on the lists of
 a dictionary alone.
 */
module Pairing {
  import opened Wire
  import opened Schema
  import opened ViewLevels
  import opened ViewEntries
  import opened ViewOrder
  import Sorting
  import Layout
  import Levels
  import Sites
  import Views
  import Agreement
  import Generated

  /** Each data field has one length of its own, listed right before it; no group is counted under either. */
  predicate ListAlike(d: Dictionary, ms: seq<Member>, length: map<Tag, Tag>) {
    forall i :: 0 <= i < |ms| ==>
      match ms[i]
      case FieldRef(tag, _) => IsData(d, tag) ==> tag in length && Before(ms, i) == Some(length[tag])
      case GroupRef(def) => !IsData(d, def.countTag) && def.countTag !in length.Values
      case ComponentRef(_, _) => true
  }

  /** It is so in every list of the dictionary, and no field is the length of two. */
  ghost predicate ListedAlike(d: Dictionary, length: map<Tag, Tag>) {
    && (forall part: Part :: Stands(d, part) ==> ListAlike(d, part.members, length))
    && (forall a, b :: a in length && b in length && length[a] == length[b] ==> a == b)
    && forall a :: a in length ==> !IsData(d, length[a])
  }

  // ----- the references of a definition -----

  predicate DataAlike(d: Dictionary, refs: seq<Ref>, length: map<Tag, Tag>) {
    forall k :: 0 <= k < |refs| && refs[k].FieldAt? && IsData(d, refs[k].tag) ==>
      refs[k].tag in length && refs[k].before == Some(length[refs[k].tag])
  }

  lemma DataAlikeConcat(d: Dictionary, a: seq<Ref>, b: seq<Ref>, length: map<Tag, Tag>)
    requires DataAlike(d, a, length) && DataAlike(d, b, length)
    ensures DataAlike(d, a + b, length)
  {
    assert forall k :: 0 <= k < |a + b| ==> (a + b)[k] == if k < |a| then a[k] else b[k - |a|];
  }

  lemma {:induction false} RefsAreAlike(d: Dictionary, part: Part, path: set<Name>, i: nat, length: map<Tag, Tag>)
    requires ListedAlike(d, length) && Stands(d, part) && i <= |part.members|
    ensures DataAlike(d, Refs(d, part, path, i), length)
    decreases Unvisited(d, path), 1, |part.members| - i
  {
    if i < |part.members| {
      assert ListAlike(d, part.members, length);
      StepIsAlike(d, part, path, i, length);
      RefsAreAlike(d, part, path, i + 1, length);
      DataAlikeConcat(d, StepRefs(d, part, path, i), Refs(d, part, path, i + 1), length);
    }
  }

  lemma {:induction false} StepIsAlike(d: Dictionary, part: Part, path: set<Name>, i: nat, length: map<Tag, Tag>)
    requires ListedAlike(d, length) && Stands(d, part) && i < |part.members| && ListAlike(d, part.members, length)
    ensures DataAlike(d, StepRefs(d, part, path, i), length)
    decreases Unvisited(d, path), 0, 0
  {
    if part.members[i].ComponentRef? {
      var name := part.members[i].name;
      if name in d.components && name !in path {
        EnteringShrinks(d, name, path);
        RefsAreAlike(d, ComponentPart(d, name), path + {name}, 0, length);
      }
    }
  }

  /** A group standing in the dictionary is counted under a field that is neither data nor a length. */
  lemma GroupIsApart(d: Dictionary, at: Address, length: map<Tag, Tag>)
    requires ListedAlike(d, length) && DefAt(d, at).Some?
    ensures !IsData(d, DefAt(d, at).value.countTag) && DefAt(d, at).value.countTag !in length.Values
  {
    var last, above := at.path[|at.path| - 1], Address(at.owner, at.path[..|at.path| - 1]);
    var ms := if above.path == [] then OwnerMembers(d, at.owner).value else DefAt(d, above).value.members;
    assert Stands(d, Part(above, ms));
    assert ListAlike(d, ms, length) && ms[last].GroupRef?;
  }

  /** What is said of the data fields of `refs` when one is listed behind a field. */
  lemma {:induction false} BehindIs(d: Dictionary, refs: seq<Ref>, tag: Tag)
    ensures FirstBehind(d, refs, tag).Some? ==> Follows(d, refs, FirstBehind(d, refs, tag).value, tag)
    ensures FirstBehind(d, refs, tag) == None ==> forall data :: !Follows(d, refs, data, tag)
  {
    if refs != [] {
      BehindIs(d, refs[1..], tag);
      forall data ensures Follows(d, refs, data, tag) <==> (refs[0] == FieldAt(data, Some(tag)) && IsData(d, data)) || Follows(d, refs[1..], data, tag) {
        assert refs == [refs[0]] + refs[1..];
      }
    }
  }

  /** The data field is listed right behind the field. */
  predicate Follows(d: Dictionary, refs: seq<Ref>, data: Tag, tag: Tag) {
    IsData(d, data) && FieldAt(data, Some(tag)) in refs
  }

  lemma ListedHere(refs: seq<Ref>, r: Ref)
    requires r.FieldAt? && r in refs
    ensures HasField(refs, r.tag)
  {
    var k :| 0 <= k < |refs| && refs[k] == r;
  }

  // ----- one level -----

  /** What a level's pairing rests on: the references it was laid out by, and which members it has for them. */
  ghost predicate Rests(d: Dictionary, refs: seq<Ref>, members: seq<ViewMember>, length: map<Tag, Tag>) {
    && Framed(d, refs) && Paired(d, refs, members) && Typed(d, members)
    && DataAlike(d, refs, length)
    && (forall t :: HasField(refs, t) ==> HasTag(members, t))
    && forall i :: 0 <= i < |members| && members[i].GroupM? ==> !IsData(d, members[i].countTag) && members[i].countTag !in length.Values
  }

  lemma LengthFrames(d: Dictionary, refs: seq<Ref>, members: seq<ViewMember>, length: map<Tag, Tag>, i: nat) returns (j: nat)
    requires Rests(d, refs, members, length) && i < |members| && members[i].FieldM? && members[i].field.pair.LengthOf?
    ensures j < |members| && members[j].FieldM? && members[j].field.kind.Bytes?
    ensures members[j].field.pair == Levels.DataOf(members[i].field.tag) && members[i].field.pair == Levels.LengthOf(members[j].field.tag)
  {
    var tag := members[i].field.tag;
    assert members[i].field.pair == PairOf(d, refs, tag);
    BehindIs(d, refs, tag);
    var data := FirstBehind(d, refs, tag).value;
    assert length[data] == tag by { var k :| 0 <= k < |refs| && refs[k] == FieldAt(data, Some(tag)); }
    ListedHere(refs, FieldAt(data, Some(tag)));
    j :| 0 <= j < |members| && members[j].Tag() == data;
    DataPair(d, refs, members, length, j);
  }

  /** A member for a data field is paired with the length it is listed behind. */
  lemma DataPair(d: Dictionary, refs: seq<Ref>, members: seq<ViewMember>, length: map<Tag, Tag>, j: nat)
    requires Rests(d, refs, members, length) && j < |members| && IsData(d, members[j].Tag()) && HasField(refs, members[j].Tag())
    ensures members[j].FieldM? && members[j].field.kind.Bytes?
    ensures members[j].field.tag in length && members[j].field.pair == Levels.DataOf(length[members[j].field.tag])
    ensures FieldAt(members[j].field.tag, Some(length[members[j].field.tag])) in refs
  {
    var tag := members[j].field.tag;
    assert TypedField(d, members[j].field);
    assert members[j].field.pair == PairOf(d, refs, tag);
    FirstFieldIs(refs, tag);
    var first := FirstField(refs, tag).value;
    var k :| 0 <= k < |refs| && refs[k] == first;
  }

  lemma DataIsFramed(d: Dictionary, refs: seq<Ref>, members: seq<ViewMember>, length: map<Tag, Tag>, j: nat) returns (i: nat)
    requires Rests(d, refs, members, length) && (forall a, b :: a in length && b in length && length[a] == length[b] ==> a == b)
    requires forall a :: a in length ==> !IsData(d, length[a])
    requires j < |members| && members[j].FieldM? && members[j].field.kind.Bytes? && members[j].field.pair.DataOf?
    ensures i < |members| && members[i].FieldM? && members[i].field.pair == Levels.LengthOf(members[j].field.tag)
    ensures members[j].field.pair == Levels.DataOf(members[i].field.tag)
  {
    var data := members[j].field.tag;
    assert TypedField(d, members[j].field) && members[j].field.pair == PairOf(d, refs, data);
    FirstFieldNext(refs, FieldAt(data, None), data);
    DataPair(d, refs, members, length, j);
    var tag := length[data];
    var k :| 0 <= k < |refs| && refs[k] == FieldAt(data, Some(tag));
    assert HasField(refs, tag) && tag in length.Values;
    i :| 0 <= i < |members| && members[i].Tag() == tag;
    assert members[i].field.pair == PairOf(d, refs, tag);
    BehindIs(d, refs, tag);
    assert Follows(d, refs, data, tag);
    var other := FirstBehind(d, refs, tag).value;
    var n :| 0 <= n < |refs| && refs[n] == FieldAt(other, Some(tag));
  }

  // ----- everything made of a message -----

  /** A group member stands for a definition of the dictionary, and is counted apart from data and lengths. */
  lemma GroupMemberIsApart(d: Dictionary, part: Part, path: set<Name>, level: ViewLevel, index: map<Address, nat>, length: map<Tag, Tag>, i: nat)
    requires ListedAlike(d, length) && Stands(d, part) && Shape(level) && SlotsMatch(level.groups, LayoutItems(d, part, true, path), index)
    requires i < |level.members| && level.members[i].GroupM?
    ensures !IsData(d, level.members[i].countTag) && level.members[i].countTag !in length.Values
  {
    var items, ct := LayoutItems(d, part, true, path), level.members[i].countTag;
    var slot := Slot(ct, level.members[i].site);
    assert IsSlot(level.members[i], slot) && HasSlot(level.members, slot) && slot in level.groups;
    Sorting.FirstIsIn(level.groups, SlotKey, ct);
    var item := Layout.FirstGroup(items, ct).value;
    Agreement.LayoutItemsStand(d, part, true, path);
    var k :| 0 <= k < |items| && items[k] == item;
    GroupIsApart(d, item.at, length);
  }

  lemma LevelRests(d: Dictionary, part: Part, path: set<Name>, level: ViewLevel, index: map<Address, nat>, length: map<Tag, Tag>)
    requires ListedAlike(d, length) && Stands(d, part) && Shape(level) && SlotsMatch(level.groups, LayoutItems(d, part, true, path), index)
    requires Typed(d, level.members) && Framed(d, Refs(d, part, path, 0)) && Paired(d, Refs(d, part, path, 0), level.members)
    requires forall t :: t in FieldTags(LayoutItems(d, part, true, path)) ==> HasTag(level.members, t)
    ensures Rests(d, Refs(d, part, path, 0), level.members, length)
  {
    var refs := Refs(d, part, path, 0);
    RefsAreAlike(d, part, path, 0, length);
    forall t | HasField(refs, t) ensures HasTag(level.members, t) {
      ReferredIsItem(d, part, true, path, 0, t);
      SameContributions(d, part, true, path, t);
    }
    forall i | 0 <= i < |level.members| && level.members[i].GroupM?
      ensures !IsData(d, level.members[i].countTag) && level.members[i].countTag !in length.Values
    {
      GroupMemberIsApart(d, part, path, level, index, length, i);
    }
  }

  lemma LevelPairs(d: Dictionary, refs: seq<Ref>, sites: seq<Site>, level: ViewLevel, tree: Levels.Level, length: map<Tag, Tag>)
    requires Rests(d, refs, level.members, length) && Generated.Unfolds(sites, level, tree)
    requires (forall a, b :: a in length && b in length && length[a] == length[b] ==> a == b) && forall a :: a in length ==> !IsData(d, length[a])
    ensures Generated.PairsMatch(tree.members)
  {
    assert Generated.UnfoldsMembers(sites, level.members, tree.members);
    forall i | 0 <= i < |tree.members| && Levels.IsLength(tree.members[i])
      ensures exists j :: 0 <= j < |tree.members| && Generated.Frames(tree.members[i], tree.members[j])
    {
      assert Generated.UnfoldsMember(sites, level.members[i], tree.members[i]);
      var j := LengthFrames(d, refs, level.members, length, i);
      assert Generated.UnfoldsMember(sites, level.members[j], tree.members[j]);
      assert Generated.Frames(tree.members[i], tree.members[j]);
    }
    forall j | 0 <= j < |tree.members| && Generated.IsData(tree.members[j])
      ensures exists i :: 0 <= i < |tree.members| && Generated.Frames(tree.members[i], tree.members[j])
    {
      assert Generated.UnfoldsMember(sites, level.members[j], tree.members[j]);
      var i := DataIsFramed(d, refs, level.members, length, j);
      assert Generated.UnfoldsMember(sites, level.members[i], tree.members[i]);
      assert Generated.Frames(tree.members[i], tree.members[j]);
    }
  }

  lemma {:induction false} GroupPairs(d: Dictionary, sites: seq<Site>, paths: seq<set<Name>>, index: map<Address, nat>, at: Address, def: GroupDef,
                                      group: Levels.GroupMember, length: map<Tag, Tag>)
    requires ListedAlike(d, length) && Sites.SitesAreRight(d, sites, paths, index, {}) && at in index && DefAt(d, at) == Some(def)
    requires Generated.UnfoldsGroup(sites, index[at], group)
    ensures Generated.PairsMatchThroughout(group.entry)
    decreases group, 0
  {
    var site, path, part := sites[index[at]], paths[index[at]], Part(at, def.members);
    assert Sites.SiteStands(d, site) && Sites.SiteIsRight(d, site, path, index);
    assert Generated.UnfoldsEntry(sites, site.entry, group.entry) && Generated.Unfolds(sites, site.entry, group.entry);
    DefStands(d, at);
    LevelRests(d, part, path, site.entry, index, length);
    TreePairs(d, sites, paths, index, part, path, site.entry, group.entry, length);
  }

  lemma DefStands(d: Dictionary, at: Address)
    requires DefAt(d, at).Some?
    ensures Stands(d, Part(at, DefAt(d, at).value.members))
  {
  }

  lemma {:induction false} TreePairs(d: Dictionary, sites: seq<Site>, paths: seq<set<Name>>, index: map<Address, nat>, part: Part, path: set<Name>,
                                     level: ViewLevel, tree: Levels.Level, length: map<Tag, Tag>)
    requires ListedAlike(d, length) && Sites.SitesAreRight(d, sites, paths, index, {}) && Stands(d, part)
    requires Shape(level) && SlotsMatch(level.groups, LayoutItems(d, part, true, path), index) && Generated.Unfolds(sites, level, tree)
    requires Rests(d, Refs(d, part, path, 0), level.members, length)
    ensures Generated.PairsMatchThroughout(tree)
    decreases tree, 0
  {
    LevelPairs(d, Refs(d, part, path, 0), sites, level, tree, length);
    forall k | 0 <= k < |tree.groups| ensures Generated.PairsMatchInGroup(tree.groups[k]) {
      NestedPairs(d, sites, paths, index, part, path, level, tree, length, k);
    }
    assert Generated.PairsMatchBelow(tree.groups);
  }

  lemma {:induction false} NestedPairs(d: Dictionary, sites: seq<Site>, paths: seq<set<Name>>, index: map<Address, nat>, part: Part, path: set<Name>,
                                       level: ViewLevel, tree: Levels.Level, length: map<Tag, Tag>, k: nat)
    requires ListedAlike(d, length) && Sites.SitesAreRight(d, sites, paths, index, {}) && Stands(d, part)
    requires Shape(level) && SlotsMatch(level.groups, LayoutItems(d, part, true, path), index) && Generated.Unfolds(sites, level, tree)
    requires k < |tree.groups|
    ensures Generated.PairsMatchInGroup(tree.groups[k])
    decreases tree.groups[k], 1
  {
    var items := LayoutItems(d, part, true, path);
    Agreement.LayoutItemsStand(d, part, true, path);
    Agreement.LevelsLineUp(d, items, level.groups, index);
    var item := Agreement.SlotIs(d, items, level.groups, index, k);
    Generated.NestedUnfolds(sites, level, tree, k);
    GroupPairs(d, sites, paths, index, item.at, item.def, tree.groups[k], length);
  }

  /**
   Where a dictionary lists each data field behind a length of its own, the lengths and the data of every
   body generated from it match, in its entries at any depth too.
   */
  lemma ListedAlikePairs(d: Dictionary, name: Name, message: Views.MessageModel, sites: seq<Site>, paths: seq<set<Name>>,
                         index: map<Address, nat>, body: Levels.Level, length: map<Tag, Tag>)
    requires ListedAlike(d, length) && Sites.SitesAreRight(d, sites, paths, index, {})
    requires name in d.messages && Views.MessageIsRight(d, name, message, index) && Typed(d, message.body.members)
    requires Generated.Unfolds(sites, message.body, body)
    ensures Generated.PairsMatchThroughout(body)
  {
    var part := Generated.BodyPart(d, name);
    LevelRests(d, part, {}, message.body, index, length);
    TreePairs(d, sites, paths, index, part, {}, message.body, body, length);
  }
}
