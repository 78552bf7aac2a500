/** A finished group entry: its delimiter first, with its data when the delimiter is a length. */
module ViewEntries {
  import opened Wire
  import opened GroupSpecs
  import opened Sorting
  import opened Schema
  import opened Layout
  import opened References
  import opened ViewLevels
  import Levels

  // ----- a group entry: its delimiter first -----

  function Having(members: seq<ViewMember>, tag: Tag): (found: seq<ViewMember>)
    ensures forall m :: m in found <==> m in members && m.Tag() == tag
  {
    if members == [] then []
    else (if members[0].Tag() == tag then [members[0]] else []) + Having(members[1..], tag)
  }

  function Without(members: seq<ViewMember>, tag: Tag): (rest: seq<ViewMember>)
    ensures forall m :: m in rest <==> m in members && m.Tag() != tag
  {
    if members == [] then []
    else (if members[0].Tag() == tag then [] else [members[0]]) + Without(members[1..], tag)
  }

  function AllRequired(members: seq<ViewMember>): (required: seq<ViewMember>)
    ensures |required| == |members| && forall i :: 0 <= i < |members| ==> required[i] == members[i].SetRequired()
  {
    if members == [] then [] else [members[0].SetRequired()] + AllRequired(members[1..])
  }

  lemma NoneHas(members: seq<ViewMember>, tag: Tag)
    requires forall m :: m in members ==> m.Tag() != tag
    ensures Having(members, tag) == []
  {
    if Having(members, tag) != [] {
      assert Having(members, tag)[0] in Having(members, tag);
    }
  }

  lemma {:induction false} PartitionIsDistinct(members: seq<ViewMember>, tag: Tag)
    requires DistinctTags(members)
    ensures DistinctTags(Without(members, tag)) && |Having(members, tag)| <= 1
  {
    if members != [] {
      var tail := members[1..];
      assert forall i :: 0 <= i < |tail| ==> tail[i] == members[i + 1];
      PartitionIsDistinct(tail, tag);
      forall m | m in tail ensures m.Tag() != members[0].Tag() {
        var k :| 0 <= k < |tail| && tail[k] == m;
        assert members[k + 1] == m;
      }
      var rest := Without(tail, tag);
      forall j | 0 <= j < |rest| ensures rest[j].Tag() != members[0].Tag() {
        assert rest[j] in rest;
      }
      if members[0].Tag() == tag {
        NoneHas(tail, tag);
      }
    }
  }

  /** The member a field reference makes, not yet paired. */
  function NewField(tag: Tag, def: FieldDef, required: bool): Levels.FieldMember {
    Levels.FieldMember(tag, required, def.kind, Levels.Unpaired, def.oneChar)
  }

  /** The member an entry opens with: the one carrying the delimiter, or a new field when none does. */
  function Opener(d: Dictionary, members: seq<ViewMember>, delimiter: Tag): Result<ViewMember, GeneratorError> {
    var leading := Having(members, delimiter);
    if leading != [] then Ok(leading[0].SetRequired())
    else if delimiter in d.fields then Ok(FieldM(NewField(delimiter, d.fields[delimiter], true)))
    else Err(UnknownField(delimiter))
  }

  /** The data field the opener is the length of. */
  function PairedData(opener: ViewMember): Option<Tag> {
    if opener.FieldM? && opener.field.pair.LengthOf? then Some(opener.field.pair.data) else None
  }

  /** What follows the opener: its data first, when it is a length. */
  function Following(opener: ViewMember, rest: seq<ViewMember>): seq<ViewMember> {
    match PairedData(opener)
    case Some(data) => AllRequired(Having(rest, data)) + Without(rest, data)
    case None => rest
  }

  function Reordered(opener: ViewMember, rest: seq<ViewMember>): seq<ViewMember> {
    [opener] + Following(opener, rest)
  }

  /** A data field that would open an entry, its length nowhere to be written. */
  predicate LoneData(opener: ViewMember) {
    opener.FieldM? && opener.field.kind.Bytes? && PairedData(opener).None?
  }

  method FinishEntry(d: Dictionary, level: ViewLevel, delimiter: Tag) returns (entry: Result<ViewLevel, GeneratorError>)
    ensures entry.Ok? <==> Opener(d, level.members, delimiter).Ok? && !LoneData(Opener(d, level.members, delimiter).value)
    ensures entry.Ok? ==>
              entry.value == level.(members := Reordered(Opener(d, level.members, delimiter).value, Without(level.members, delimiter)))
    ensures entry.Err? ==>
              entry.error == if Opener(d, level.members, delimiter).Ok? then UnpairedDataField(delimiter) else UnknownField(delimiter)
  {
    var leading, rest := Having(level.members, delimiter), Without(level.members, delimiter);
    var opener;
    if leading != [] {
      assert leading[0] in leading;
      opener := leading[0];
    } else {
      if delimiter !in d.fields {
        return Err(UnknownField(delimiter));
      }
      opener := FieldM(NewField(delimiter, d.fields[delimiter], true));
    }
    opener := opener.SetRequired();
    var members;
    if opener.FieldM? && opener.field.pair.LengthOf? {
      var data := opener.field.pair.data;
      members := [opener] + (AllRequired(Having(rest, data)) + Without(rest, data));
    } else if opener.FieldM? && opener.field.kind.Bytes? {
      return Err(UnpairedDataField(opener.field.tag));
    } else {
      members := [opener] + rest;
    }
    return Ok(level.(members := members));
  }

  /** An entry is the layout's level, reordered to open with its delimiter. */
  ghost predicate EntryIsRight(entry: ViewLevel, delimiter: Tag, items: seq<Item>, index: map<Address, nat>) {
    && entry.tags == SortedTags(TagsOf(items) + [delimiter])
    && SlotsMatch(entry.groups, items, index)
    && Shape(entry)
    && entry.members != [] && entry.members[0].Tag() == delimiter && entry.members[0].SetRequired() == entry.members[0]
    && !LoneData(entry.members[0])
    && EntryFields(entry.members, items)
    && EntryGroups(entry.members, items, index)
  }

  /** The groups of an entry, besides one that opens it or stands for its data. */
  ghost predicate EntryGroups(members: seq<ViewMember>, items: seq<Item>, index: map<Address, nat>)
    requires members != []
  {
    forall i :: 0 < i < |members| && PairedData(members[0]) != Some(members[i].Tag()) ==> GroupMatches(members[i], items, index)
  }

  /** Which fields an entry has, and which of them are required besides the delimiter and its data. */
  ghost predicate EntryFields(members: seq<ViewMember>, items: seq<Item>)
    requires members != []
  {
    && (forall i :: 0 < i < |members| && members[i].FieldM? ==>
          && members[i].field.tag in FieldTags(items)
          && (if PairedData(members[0]) == Some(members[i].field.tag) then i == 1 && members[i].field.required
              else members[i].field.required <==> members[i].field.tag in RequiredOf(items)))
    && forall t :: t in FieldTags(items) ==> HasTag(members, t)
  }

  /** Members of `after` are members of `before`, some of them made required; none is lost. */
  ghost predicate SameButRequired(before: seq<ViewMember>, after: seq<ViewMember>, opener: ViewMember) {
    && (forall m :: m in after ==> m == opener || m in before || exists b :: b in before && m == b.SetRequired())
    && (forall b :: b in before ==> b in after || b.SetRequired() in after)
  }

  lemma DistinctConcat(a: seq<ViewMember>, b: seq<ViewMember>)
    requires DistinctTags(a) && DistinctTags(b)
    requires forall m, n :: m in a && n in b ==> m.Tag() != n.Tag()
    ensures DistinctTags(a + b)
  {
    forall i, j | 0 <= i < j < |a + b| ensures (a + b)[i].Tag() != (a + b)[j].Tag() {
      if i < |a| <= j {
        assert a[i] in a && b[j - |a|] in b;
      }
    }
  }

  /** Only the data field, if any, is moved ahead, and it is made required. */
  lemma FollowingIs(opener: ViewMember, rest: seq<ViewMember>)
    requires DistinctTags(rest)
    ensures DistinctTags(Following(opener, rest))
    ensures forall m :: m in Following(opener, rest) ==>
              if PairedData(opener) == Some(m.Tag()) then exists b :: b in rest && m == b.SetRequired() else m in rest
    ensures forall b :: b in rest ==>
              if PairedData(opener) == Some(b.Tag()) then b.SetRequired() in Following(opener, rest) else b in Following(opener, rest)
    ensures forall i :: 0 <= i < |Following(opener, rest)| && PairedData(opener) == Some(Following(opener, rest)[i].Tag()) ==> i == 0
  {
    if PairedData(opener).Some? {
      var data := PairedData(opener).value;
      PartitionIsDistinct(rest, data);
      var found, others := Having(rest, data), Without(rest, data);
      var second := AllRequired(found);
      if found != [] {
        assert found[0] in found;
        assert second[0].Tag() == data;
      }
      assert forall i :: 0 <= i < |second| ==> i == 0 && second[i] == found[0].SetRequired();
      DistinctConcat(second, others);
      forall b | b in rest && b.Tag() == data ensures b.SetRequired() in second + others {
        assert b in found;
        assert b == found[0];
        assert second[0] in second;
      }
      assert forall j :: 0 <= j < |others| ==> others[j] in others;
    }
  }

  lemma ReorderedIs(members: seq<ViewMember>, opener: ViewMember)
    requires DistinctTags(members)
    requires forall m :: m in Having(members, opener.Tag()) ==> opener == m.SetRequired()
    ensures var after := Reordered(opener, Without(members, opener.Tag()));
            DistinctTags(after) && SameButRequired(members, after, opener)
  {
    var rest := Without(members, opener.Tag());
    PartitionIsDistinct(members, opener.Tag());
    FollowingIs(opener, rest);
    DistinctConcat([opener], Following(opener, rest));
    forall b | b in members ensures b in [opener] + Following(opener, rest) || b.SetRequired() in [opener] + Following(opener, rest) {
      if b.Tag() == opener.Tag() {
        assert b in Having(members, opener.Tag());
      } else {
        assert b in rest;
      }
    }
  }

  lemma ShapeCarriesOver(level: ViewLevel, after: seq<ViewMember>, opener: ViewMember)
    requires Shape(level) && DistinctTags(after) && SameButRequired(level.members, after, opener)
    requires opener.Tag() in level.tags
    requires opener.FieldM? || exists b :: b in level.members && opener == b.SetRequired()
    ensures Shape(level.(members := after))
  {
    forall i | 0 <= i < |after| ensures after[i].Tag() in level.tags {
      assert after[i] in after;
      if after[i] != opener && after[i] !in level.members {
        var b :| b in level.members && after[i] == b.SetRequired();
      }
    }
    forall slot ensures slot in level.groups <==> HasSlot(after, slot) {
      if slot in level.groups {
        SlotCarriesOver(level.members, after, opener, slot);
      }
      if HasSlot(after, slot) {
        SlotComesFrom(level.members, after, opener, slot);
      }
    }
  }

  lemma SlotCarriesOver(before: seq<ViewMember>, after: seq<ViewMember>, opener: ViewMember, slot: Slot)
    requires SameButRequired(before, after, opener) && HasSlot(before, slot)
    ensures HasSlot(after, slot)
  {
    var i :| 0 <= i < |before| && IsSlot(before[i], slot);
    assert before[i] in before;
    var m := if before[i] in after then before[i] else before[i].SetRequired();
    var k :| 0 <= k < |after| && after[k] == m;
    assert IsSlot(after[k], slot);
  }

  lemma SlotComesFrom(before: seq<ViewMember>, after: seq<ViewMember>, opener: ViewMember, slot: Slot)
    requires SameButRequired(before, after, opener) && HasSlot(after, slot)
    requires opener.FieldM? || exists b :: b in before && opener == b.SetRequired()
    ensures HasSlot(before, slot)
  {
    var i :| 0 <= i < |after| && IsSlot(after[i], slot);
    assert after[i] in after;
    var m := after[i];
    if after[i] !in before {
      m :| m in before && after[i] == m.SetRequired();
    }
    var k :| 0 <= k < |before| && before[k] == m;
    assert IsSlot(before[k], slot);
  }

  lemma EntryFieldsMatch(members: seq<ViewMember>, items: seq<Item>, opener: ViewMember)
    requires DistinctTags(members) && FieldsMatch(members, items)
    ensures EntryFields(Reordered(opener, Without(members, opener.Tag())), items)
  {
    var after, following := Reordered(opener, Without(members, opener.Tag())), Following(opener, Without(members, opener.Tag()));
    forall i | 0 < i < |after| && after[i].FieldM?
      ensures after[i].field.tag in FieldTags(items)
      ensures if PairedData(opener) == Some(after[i].field.tag) then i == 1 && after[i].field.required
              else after[i].field.required <==> after[i].field.tag in RequiredOf(items)
    {
      assert after[i] == following[i - 1];
      FollowingField(members, items, opener, i - 1);
    }
    forall t | t in FieldTags(items) ensures HasTag(after, t) {
      FieldIsStillThere(members, items, opener, t);
    }
  }

  lemma FieldIsStillThere(members: seq<ViewMember>, items: seq<Item>, opener: ViewMember, t: Tag)
    requires DistinctTags(members) && FieldsMatch(members, items) && t in FieldTags(items)
    ensures HasTag(Reordered(opener, Without(members, opener.Tag())), t)
  {
    var after := Reordered(opener, Without(members, opener.Tag()));
    if t == opener.Tag() {
      assert after[0].Tag() == t;
    } else {
      var k := FieldIsFollowing(members, items, opener, t);
      assert after[k + 1].Tag() == t;
    }
  }

  lemma FieldIsFollowing(members: seq<ViewMember>, items: seq<Item>, opener: ViewMember, t: Tag) returns (k: nat)
    requires DistinctTags(members) && FieldsMatch(members, items) && t in FieldTags(items) && t != opener.Tag()
    ensures k < |Following(opener, Without(members, opener.Tag()))|
    ensures Following(opener, Without(members, opener.Tag()))[k].Tag() == t
  {
    var rest := Without(members, opener.Tag());
    PartitionIsDistinct(members, opener.Tag());
    FollowingIs(opener, rest);
    var i :| 0 <= i < |members| && members[i].Tag() == t;
    assert members[i] in rest;
    var m := if PairedData(opener) == Some(t) then members[i].SetRequired() else members[i];
    k :| 0 <= k < |Following(opener, rest)| && Following(opener, rest)[k] == m;
  }

  lemma FollowingField(members: seq<ViewMember>, items: seq<Item>, opener: ViewMember, n: nat)
    requires DistinctTags(members) && FieldsMatch(members, items)
    requires n < |Following(opener, Without(members, opener.Tag()))| && Following(opener, Without(members, opener.Tag()))[n].FieldM?
    ensures var field := Following(opener, Without(members, opener.Tag()))[n].field;
            && field.tag in FieldTags(items)
            && if PairedData(opener) == Some(field.tag) then n == 0 && field.required
               else field.required <==> field.tag in RequiredOf(items)
  {
    var rest := Without(members, opener.Tag());
    var m := Following(opener, rest)[n];
    PartitionIsDistinct(members, opener.Tag());
    FollowingIs(opener, rest);
    assert m in Following(opener, rest);
    var b := m;
    if PairedData(opener) == Some(m.Tag()) {
      b :| b in rest && m == b.SetRequired();
    }
    var k :| 0 <= k < |members| && members[k] == b;
  }

  lemma EntryGroupsMatch(members: seq<ViewMember>, items: seq<Item>, opener: ViewMember, index: map<Address, nat>)
    requires DistinctTags(members) && GroupsMatch(members, items, index)
    ensures EntryGroups(Reordered(opener, Without(members, opener.Tag())), items, index)
  {
    var rest := Without(members, opener.Tag());
    var after, following := Reordered(opener, rest), Following(opener, rest);
    PartitionIsDistinct(members, opener.Tag());
    FollowingIs(opener, rest);
    forall i | 0 < i < |after| && PairedData(opener) != Some(after[i].Tag()) ensures GroupMatches(after[i], items, index) {
      assert after[i] == following[i - 1] && following[i - 1] in following;
      assert after[i] in rest;
    }
  }

  lemma OpenerIs(d: Dictionary, members: seq<ViewMember>, delimiter: Tag)
    requires DistinctTags(members) && Opener(d, members, delimiter).Ok?
    ensures var opener := Opener(d, members, delimiter).value;
            && opener.Tag() == delimiter && opener.SetRequired() == opener
            && (forall m :: m in Having(members, delimiter) ==> opener == m.SetRequired())
            && (opener.FieldM? || exists b :: b in members && opener == b.SetRequired())
  {
    PartitionIsDistinct(members, delimiter);
    var leading := Having(members, delimiter);
    if leading != [] {
      assert leading[0] in leading;
      assert forall m :: m in leading ==> m == leading[0];
    }
  }

  lemma FollowingIsTyped(d: Dictionary, opener: ViewMember, rest: seq<ViewMember>, i: nat)
    requires forall m :: m in rest && m.FieldM? ==> TypedField(d, m.field)
    requires i < |Following(opener, rest)| && Following(opener, rest)[i].FieldM?
    ensures TypedField(d, Following(opener, rest)[i].field)
  {
    if PairedData(opener).Some? {
      var found, others := Having(rest, PairedData(opener).value), Without(rest, PairedData(opener).value);
      if i < |found| {
        assert found[i] in found;
      } else {
        assert others[i - |found|] in others;
      }
    } else {
      assert rest[i] in rest;
    }
  }

  lemma EntryIsTyped(d: Dictionary, members: seq<ViewMember>, delimiter: Tag)
    requires Typed(d, members) && Opener(d, members, delimiter).Ok?
    ensures Typed(d, Reordered(Opener(d, members, delimiter).value, Without(members, delimiter)))
  {
    var opener, rest := Opener(d, members, delimiter).value, Without(members, delimiter);
    assert forall m :: m in members && m.FieldM? ==> TypedField(d, m.field);
    if Having(members, delimiter) != [] {
      assert Having(members, delimiter)[0] in Having(members, delimiter);
    }
    forall i | 0 <= i < |Following(opener, rest)| && Following(opener, rest)[i].FieldM?
      ensures TypedField(d, Following(opener, rest)[i].field)
    {
      FollowingIsTyped(d, opener, rest, i);
    }
  }

  /** An entry that cannot be finished lacks a definition for its delimiter, or would open with data. */
  lemma EntryFails(d: Dictionary, members: seq<ViewMember>, delimiter: Tag)
    requires Typed(d, members)
    ensures Opener(d, members, delimiter).Err? ==> delimiter !in d.fields
    ensures Opener(d, members, delimiter).Ok? && LoneData(Opener(d, members, delimiter).value) ==>
              delimiter in d.fields && d.fields[delimiter].kind.Bytes?
  {
    if Having(members, delimiter) != [] {
      assert Having(members, delimiter)[0] in Having(members, delimiter);
      var i :| 0 <= i < |members| && members[i] == Having(members, delimiter)[0];
      assert members[i].FieldM? ==> TypedField(d, members[i].field);
    }
  }

  /** Members kept of a typed list are typed. */
  lemma KeptAreTyped(d: Dictionary, members: seq<ViewMember>, kept: seq<ViewMember>)
    requires Typed(d, members) && forall m :: m in kept ==> m in members
    ensures Typed(d, kept)
  {
    forall i | 0 <= i < |kept| && kept[i].FieldM? ensures TypedField(d, kept[i].field) {
      assert kept[i] in kept;
      var j :| 0 <= j < |members| && members[j] == kept[i];
    }
  }

  /** Finishing an entry makes the layout's entry level, opened by the delimiter. */
  lemma FinishedEntryIsRight(d: Dictionary, level: ViewLevel, delimiter: Tag, items: seq<Item>, index: map<Address, nat>, entry: ViewLevel)
    requires LevelIsRight(level, Some(delimiter), items, index) && Opener(d, level.members, delimiter).Ok?
    requires entry == level.(members := Reordered(Opener(d, level.members, delimiter).value, Without(level.members, delimiter)))
    requires !LoneData(entry.members[0])
    ensures EntryIsRight(entry, delimiter, items, index)
  {
    var opener := Opener(d, level.members, delimiter).value;
    OpenerIs(d, level.members, delimiter);
    SortedTagsAre(TagsOf(items) + [delimiter]);
    assert delimiter in TagsOf(items) + [delimiter];
    ReorderedIs(level.members, opener);
    ShapeCarriesOver(level, entry.members, opener);
    EntryFieldsMatch(level.members, items, opener);
    EntryGroupsMatch(level.members, items, opener, index);
  }
}
