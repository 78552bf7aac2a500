/** The structure of repeating groups, as the reader's tables describe it. */
module GroupSpecs {
  import opened Wire

  /** One group: count tag, delimiter, the tags of an entry's own level, and the groups nested in an entry. */
  datatype Spec = Spec(countTag: Tag, delimiter: Tag, members: seq<Tag>, nested: seq<Spec>)

  /** Sibling groups and the tags of the level they open at (none when unknown). */
  datatype GroupSet = GroupSet(groups: seq<Spec>, level: seq<Tag>)

  datatype SpecError =
    | UnsortedMembers(countTag: Tag)
    | DelimiterNotMember(countTag: Tag, delimiter: Tag)
    | UnsortedNested(countTag: Tag)
    | NestedNotMember(countTag: Tag, nestedCountTag: Tag)
    | UnsortedGroups
    | UnsortedLevelTags
    | GroupNotAtLevel(countTag: Tag)

  predicate Ascending(tags: seq<Tag>) {
    forall i, j :: 0 <= i < j < |tags| ==> tags[i] < tags[j]
  }

  function CountTags(groups: seq<Spec>): (tags: seq<Tag>)
    ensures |tags| == |groups|
    ensures forall i :: 0 <= i < |groups| ==> tags[i] == groups[i].countTag
  {
    if groups == [] then [] else [groups[0].countTag] + CountTags(groups[1..])
  }

  predicate AllIn(tags: seq<Tag>, among: seq<Tag>) {
    forall i :: 0 <= i < |tags| ==> tags[i] in among
  }

  /** What the constructor checks of one group. */
  predicate LocallyValid(spec: Spec) {
    && Ascending(spec.members)
    && spec.delimiter in spec.members
    && Ascending(CountTags(spec.nested))
    && AllIn(CountTags(spec.nested), spec.members)
  }

  /** A group the constructor accepted, nested groups included. */
  ghost predicate ValidSpec(spec: Spec) {
    LocallyValid(spec) && forall i :: 0 <= i < |spec.nested| ==> ValidSpec(spec.nested[i])
  }

  ghost predicate ValidSet(groups: GroupSet) {
    && Ascending(CountTags(groups.groups))
    && Ascending(groups.level)
    && (groups.level == [] || AllIn(CountTags(groups.groups), groups.level))
    && forall i :: 0 <= i < |groups.groups| ==> ValidSpec(groups.groups[i])
  }

  /** Position of `tag` in a sorted tag list, as the library's binary search reports it. */
  function Rank(tags: seq<Tag>, tag: Tag): (rank: Option<nat>)
    ensures rank.Some? ==> rank.value < |tags| && tags[rank.value] == tag
    ensures rank.None? <==> tag !in tags
  {
    if tags == [] then None
    else if tags[|tags| - 1] == tag then Some(|tags| - 1)
    else Rank(tags[..|tags| - 1], tag)
  }

  /** The group of `groups` whose count field is `tag`. */
  function Lookup(groups: seq<Spec>, tag: Tag): (found: Option<Spec>)
    ensures found.Some? ==> found.value in groups && found.value.countTag == tag
    ensures found.None? ==> forall i :: 0 <= i < |groups| ==> groups[i].countTag != tag
  {
    if groups == [] then None
    else if groups[0].countTag == tag then Some(groups[0])
    else Lookup(groups[1..], tag)
  }

  /** Sorted count tags make the lookup find the one group there is. */
  lemma {:induction false} LookupIsUnique(groups: seq<Spec>, i: nat)
    requires i < |groups| && Ascending(CountTags(groups))
    ensures Lookup(groups, groups[i].countTag) == Some(groups[i])
  {
    if i > 0 {
      assert CountTags(groups)[0] < CountTags(groups)[i];
      assert CountTags(groups[1..]) == CountTags(groups)[1..];
      LookupIsUnique(groups[1..], i - 1);
    }
  }

  lemma LookupIsValid(groups: seq<Spec>, tag: Tag)
    requires forall i :: 0 <= i < |groups| ==> ValidSpec(groups[i])
    ensures Lookup(groups, tag).Some? ==> ValidSpec(Lookup(groups, tag).value)
  {
  }

  method StrictlyAscending(tags: seq<Tag>) returns (sorted: bool)
    ensures sorted == Ascending(tags)
  {
    var i := 0;
    var previous: Option<Tag> := None;
    while i < |tags|
      invariant i <= |tags| && Ascending(tags[..i])
      invariant previous == if i == 0 then None else Some(tags[i - 1])
    {
      if previous.Some? && tags[i] <= previous.value {
        return false;
      }
      assert forall k :: 0 <= k < i ==> tags[..i][k] < tags[i] by {
        assert i > 0 ==> tags[i - 1] == tags[..i][i - 1];
      }
      previous := Some(tags[i]);
      i := i + 1;
    }
    assert tags[..|tags|] == tags;
    return true;
  }

  method Contains(tags: seq<Tag>, tag: Tag) returns (found: bool)
    ensures found == (tag in tags)
  {
    for i := 0 to |tags|
      invariant tag !in tags[..i]
    {
      if tags[i] == tag {
        return true;
      }
    }
    assert tags[..|tags|] == tags;
    return false;
  }

  /** The first of these tags that is not among the others. */
  predicate IsFirstMissing(tag: Tag, tags: seq<Tag>, among: seq<Tag>) {
    tag !in among && exists i :: 0 <= i < |tags| && tags[i] == tag && AllIn(tags[..i], among)
  }

  /** Finds the first count tag that its level does not list. */
  method FirstMissing(groups: seq<Spec>, among: seq<Tag>) returns (missing: Option<Tag>)
    ensures missing.None? <==> AllIn(CountTags(groups), among)
    ensures missing.Some? ==> IsFirstMissing(missing.value, CountTags(groups), among)
  {
    for i := 0 to |groups|
      invariant AllIn(CountTags(groups)[..i], among)
    {
      var present := Contains(among, groups[i].countTag);
      if !present {
        assert CountTags(groups)[i] == groups[i].countTag;
        return Some(groups[i].countTag);
      }
    }
    assert CountTags(groups)[..|groups|] == CountTags(groups);
    return None;
  }

  /** Describes a group from its tables; the nested groups were themselves built here. */
  method NewSpec(countTag: Tag, delimiter: Tag, members: seq<Tag>, nested: seq<Spec>)
    returns (spec: Result<Spec, SpecError>)
    requires forall i :: 0 <= i < |nested| ==> ValidSpec(nested[i])
    ensures spec.Ok? <==> LocallyValid(Spec(countTag, delimiter, members, nested))
    ensures spec.Ok? ==> spec.value == Spec(countTag, delimiter, members, nested) && ValidSpec(spec.value)
    ensures !Ascending(members) ==> spec == Err(UnsortedMembers(countTag))
    ensures Ascending(members) && delimiter !in members ==> spec == Err(DelimiterNotMember(countTag, delimiter))
    ensures Ascending(members) && delimiter in members && !Ascending(CountTags(nested)) ==>
              spec == Err(UnsortedNested(countTag))
    ensures Ascending(members) && delimiter in members && Ascending(CountTags(nested)) && spec.Err? ==>
              spec.error.NestedNotMember? && spec.error.countTag == countTag
              && IsFirstMissing(spec.error.nestedCountTag, CountTags(nested), members)
  {
    var sorted := StrictlyAscending(members);
    if !sorted {
      return Err(UnsortedMembers(countTag));
    }
    var hasDelimiter := Contains(members, delimiter);
    if !hasDelimiter {
      return Err(DelimiterNotMember(countTag, delimiter));
    }
    sorted := StrictlyAscending(CountTags(nested));
    if !sorted {
      return Err(UnsortedNested(countTag));
    }
    var missing := FirstMissing(nested, members);
    if missing.Some? {
      return Err(NestedNotMember(countTag, missing.value));
    }
    return Ok(Spec(countTag, delimiter, members, nested));
  }

  /** A message's groups without the tags of its level. */
  method NewSet(groups: seq<Spec>) returns (result: Result<GroupSet, SpecError>)
    requires forall i :: 0 <= i < |groups| ==> ValidSpec(groups[i])
    ensures result == if Ascending(CountTags(groups)) then Ok(GroupSet(groups, [])) else Err(UnsortedGroups)
    ensures result.Ok? ==> ValidSet(result.value)
  {
    var sorted := StrictlyAscending(CountTags(groups));
    return if sorted then Ok(GroupSet(groups, [])) else Err(UnsortedGroups);
  }

  /** A message's groups with every tag its level accepts. */
  method WithLevelTags(groups: seq<Spec>, level: seq<Tag>) returns (result: Result<GroupSet, SpecError>)
    requires forall i :: 0 <= i < |groups| ==> ValidSpec(groups[i])
    ensures result.Ok? <==> Ascending(CountTags(groups)) && Ascending(level) && AllIn(CountTags(groups), level)
    ensures result.Ok? ==> result.value == GroupSet(groups, level) && ValidSet(result.value)
    ensures !Ascending(CountTags(groups)) ==> result == Err(UnsortedGroups)
    ensures Ascending(CountTags(groups)) && !Ascending(level) ==> result == Err(UnsortedLevelTags)
    ensures Ascending(CountTags(groups)) && Ascending(level) && result.Err? ==>
              result.error.GroupNotAtLevel? && IsFirstMissing(result.error.countTag, CountTags(groups), level)
  {
    var sorted := StrictlyAscending(CountTags(groups));
    if !sorted {
      return Err(UnsortedGroups);
    }
    sorted := StrictlyAscending(level);
    if !sorted {
      return Err(UnsortedLevelTags);
    }
    var missing := FirstMissing(groups, level);
    if missing.Some? {
      return Err(GroupNotAtLevel(missing.value));
    }
    return Ok(GroupSet(groups, level));
  }
}
