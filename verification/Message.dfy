/** The message level: locating, checking and skipping groups in one pass over a message's fields. */
module Message {
  import opened Wire
  import opened GroupSpecs
  import opened GroupTree
  import opened Grammar
  import opened GroupCheck
  import opened Reader
  import opened Verdict
  import opened Faults
  import opened Boundaries
  import W = Walk

  /** What stands at the message level: a field, or the whole run of one of the set's groups. */
  ghost function MessageItems(fields: seq<Field>, index: nat, groups: GroupSet): (items: seq<Item>)
    requires index <= |fields| && ValidSet(groups)
    ensures items == [] <==> index == |fields|
    decreases |fields| - index
  {
    if index == |fields| then []
    else
      LookupIsValid(groups.groups, fields[index].tag);
      match Lookup(groups.groups, fields[index].tag)
      case None => [Plain(fields[index])] + MessageItems(fields, index + 1, groups)
      case Some(g) =>
        var w := WalkGroup(fields, index, g, 0, groups.level);
        [Nested(Run(fields[index], w.tree))] + MessageItems(fields, w.end, groups)
  }

  /** The first group past the depth limit inside `item`. */
  ghost function DeepGroup(item: Item, groups: GroupSet): Option<Tag> {
    match item
    case Plain(_) => None
    case Nested(run) =>
      match Lookup(groups.groups, run.count.tag)
      case None => None
      case Some(g) => DeepRun(run, g, 0)
  }

  /** An instance located at the message level. */
  datatype Located = Located(index: nat, run: Run)

  /** The verdict of a read over the items from position `at` on, given what was found before them. */
  ghost function ReadItems(items: seq<Item>, at: nat, groups: GroupSet, tag: Tag, found: Option<Located>)
    : Result<Option<Located>, W.GroupError>
  {
    if items == [] then Ok(found)
    else
      var next := at + |FlatItem(items[0])|;
      if items[0].Tag() == tag then
        if found.Some? then Err(W.DuplicateGroup(tag))
        else match items[0]
          case Plain(_) => Err(W.NotInLayout(tag))
          case Nested(run) =>
            match Lookup(groups.groups, tag)
            case None => Err(W.NotInLayout(tag))
            case Some(g) =>
              match RunError(run, g, 0)
              case Some(error) => Err(error)
              case None => ReadItems(items[1..], next, groups, tag, Some(Located(at, run)))
      else
        match DeepGroup(items[0], groups)
        case Some(deep) => Err(W.NestsTooDeep(deep, MAX_SCOPE_DEPTH))
        case None => ReadItems(items[1..], next, groups, tag, found)
  }

  lemma ReadStep(items: seq<Item>, at: nat, groups: GroupSet, tag: Tag, found: Option<Located>, next: nat)
    requires items != [] && next == at + |FlatItem(items[0])|
    ensures items[0].Tag() != tag && DeepGroup(items[0], groups).None? ==>
              ReadItems(items, at, groups, tag, found) == ReadItems(items[1..], next, groups, tag, found)
    ensures items[0].Tag() == tag && items[0].Nested? && found.None? && Lookup(groups.groups, tag).Some?
            && RunError(items[0].run, Lookup(groups.groups, tag).value, 0).None? ==>
              ReadItems(items, at, groups, tag, found)
              == ReadItems(items[1..], next, groups, tag, Some(Located(at, items[0].run)))
  {
  }

  /** The position a plain lookup finds among the items from position `at` on. */
  ghost function FieldItems(items: seq<Item>, at: nat, groups: GroupSet, tag: Tag): Option<nat> {
    if items == [] then None
    else if items[0].Tag() == tag then Some(at)
    else if DeepGroup(items[0], groups).Some? then None
    else FieldItems(items[1..], at + |FlatItem(items[0])|, groups, tag)
  }

  lemma FieldStep(items: seq<Item>, at: nat, groups: GroupSet, tag: Tag, next: nat)
    requires items != [] && next == at + |FlatItem(items[0])|
    ensures items[0].Tag() == tag ==> FieldItems(items, at, groups, tag) == Some(at)
    ensures items[0].Tag() != tag ==>
              FieldItems(items, at, groups, tag)
              == if DeepGroup(items[0], groups).Some? then None else FieldItems(items[1..], next, groups, tag)
  {
  }

  ghost function Occurrences(items: seq<Item>, tag: Tag): nat {
    if items == [] then 0 else (if items[0].Tag() == tag then 1 else 0) + Occurrences(items[1..], tag)
  }

  // ----- the verdict by position -----

  /** A group past the depth limit stands inside the item. */
  ghost predicate NestsDeep(item: Item, groups: GroupSet) {
    item.Nested? && Lookup(groups.groups, item.Tag()).Some? && HasDeep(item.run, Lookup(groups.groups, item.Tag()).value, 0)
  }

  predicate StandsBefore(items: seq<Item>, k: nat, tag: Tag)
    requires k <= |items|
  {
    exists j :: 0 <= j < k && items[j].Tag() == tag
  }

  /** The item does not stop a read: the one well-formed instance asked for, or an item that can be stepped over. */
  ghost predicate Passes(items: seq<Item>, k: nat, groups: GroupSet, tag: Tag)
    requires k < |items|
  {
    if items[k].Tag() == tag then
      && !StandsBefore(items, k, tag) && items[k].Nested? && Lookup(groups.groups, tag).Some?
      && WellFormed(items[k].run, Lookup(groups.groups, tag).value, 0)
    else !NestsDeep(items[k], groups)
  }

  ghost predicate AllRead(items: seq<Item>, groups: GroupSet, tag: Tag) {
    forall k :: 0 <= k < |items| ==> Passes(items, k, groups, tag)
  }

  /** The read stops at the `k`th item. */
  ghost predicate FirstUnread(items: seq<Item>, k: nat, groups: GroupSet, tag: Tag) {
    && k < |items| && !Passes(items, k, groups, tag)
    && forall j :: 0 <= j < k ==> Passes(items, j, groups, tag)
  }

  /** What the error says of the item a read stops at. */
  ghost predicate Blames(items: seq<Item>, k: nat, groups: GroupSet, tag: Tag, error: W.GroupError) {
    && k < |items|
    && if items[k].Tag() == tag then
         if StandsBefore(items, k, tag) then error == W.DuplicateGroup(tag)
         else if items[k].Plain? || Lookup(groups.groups, tag).None? then error == W.NotInLayout(tag)
         else FirstFault(items[k].run, Lookup(groups.groups, tag).value, 0, error)
       else
         && items[k].Nested? && Lookup(groups.groups, items[k].Tag()).Some?
         && error.NestsTooDeep? && error.limit == MAX_SCOPE_DEPTH
         && FirstDeep(items[k].run, Lookup(groups.groups, items[k].Tag()).value, 0, error.countTag)
  }

  /** The items have the shape every walk gives them. */
  ghost predicate ShapedMessage(items: seq<Item>, groups: GroupSet) {
    forall k :: 0 <= k < |items| && items[k].Nested? && Lookup(groups.groups, items[k].Tag()).Some? ==>
      Shaped(items[k].run, Lookup(groups.groups, items[k].Tag()).value, 0)
  }

  lemma {:induction false} MessageIsShaped(fields: seq<Field>, index: nat, groups: GroupSet)
    requires index <= |fields| && ValidSet(groups)
    ensures ShapedMessage(MessageItems(fields, index, groups), groups)
    decreases |fields| - index
  {
    if index < |fields| {
      LookupIsValid(groups.groups, fields[index].tag);
      match Lookup(groups.groups, fields[index].tag)
      case None => MessageIsShaped(fields, index + 1, groups);
      case Some(g) =>
        WalkIsShaped(fields, index, g, 0, groups.level);
        MessageIsShaped(fields, WalkGroup(fields, index, g, 0, groups.level).end, groups);
    }
  }

  /** What an item gives a read, whichever way it is met. */
  lemma ItemVerdict(items: seq<Item>, k: nat, groups: GroupSet, tag: Tag)
    requires k < |items| && ShapedMessage(items, groups)
    ensures items[k].Tag() != tag ==>
              && (DeepGroup(items[k], groups).None? <==> Passes(items, k, groups, tag))
              && (DeepGroup(items[k], groups).Some? ==>
                    Blames(items, k, groups, tag, W.NestsTooDeep(DeepGroup(items[k], groups).value, MAX_SCOPE_DEPTH)))
    ensures items[k].Tag() == tag && items[k].Nested? && Lookup(groups.groups, tag).Some? && !StandsBefore(items, k, tag) ==>
              var error := RunError(items[k].run, Lookup(groups.groups, tag).value, 0);
              (error.None? <==> Passes(items, k, groups, tag)) && (error.Some? ==> Blames(items, k, groups, tag, error.value))
  {
    if items[k].Nested? && Lookup(groups.groups, items[k].Tag()).Some? {
      RunErrorIsFirstFault(items[k].run, Lookup(groups.groups, items[k].Tag()).value, 0);
      DeepRunIsFirstDeep(items[k].run, Lookup(groups.groups, items[k].Tag()).value, 0);
    }
  }

  /** A read of the items from the `i`th on stops at the first that does not pass, or at the end. */
  lemma {:induction false} ReadFrom(items: seq<Item>, i: nat, groups: GroupSet, tag: Tag, found: Option<Located>) returns (k: nat)
    requires i <= |items| && ShapedMessage(items, groups) && (found.Some? <==> StandsBefore(items, i, tag))
    ensures i <= k <= |items| && forall j :: i <= j < k ==> Passes(items, j, groups, tag)
    ensures k < |items| ==>
              && !Passes(items, k, groups, tag)
              && ReadItems(items[i..], Position(items, i), groups, tag, found).Err?
              && Blames(items, k, groups, tag, ReadItems(items[i..], Position(items, i), groups, tag, found).error)
    ensures k == |items| ==>
              && ReadItems(items[i..], Position(items, i), groups, tag, found).Ok?
              && FindsFrom(items, i, tag, found, ReadItems(items[i..], Position(items, i), groups, tag, found).value)
    decreases |items| - i
  {
    k := i;
    if i < |items| {
      assert items[i..][0] == items[i] && items[i..][1..] == items[i + 1..];
      PositionStep(items, i);
      ItemVerdict(items, i, groups, tag);
      if Passes(items, i, groups, tag) {
        var next := if items[i].Tag() == tag then Some(Located(Position(items, i), items[i].run)) else found;
        k := ReadFrom(items, i + 1, groups, tag, next);
      }
    }
  }

  /** The instance found from the `i`th item on, or what was found before. */
  ghost predicate FindsFrom(items: seq<Item>, i: nat, tag: Tag, found: Option<Located>, result: Option<Located>) {
    if exists k :: i <= k < |items| && items[k].Tag() == tag then
      exists k :: i <= k < |items| && items[k].Tag() == tag && items[k].Nested?
                  && result == Some(Located(Position(items, k), items[k].run))
    else result == found
  }

  lemma PositionStep(items: seq<Item>, i: nat)
    requires i < |items|
    ensures Position(items, i + 1) == Position(items, i) + |FlatItem(items[i])|
  {
    assert items[..i + 1] == items[..i] + [items[i]];
    FlatItemsConcat(items[..i], [items[i]]);
    assert [items[i]][1..] == [];
  }

  lemma ReadByPosition(fields: seq<Field>, groups: GroupSet, tag: Tag)
    requires ValidSet(groups)
    ensures var items := MessageItems(fields, 0, groups);
            match ReadItems(items, 0, groups, tag, None)
            case Err(error) => exists k :: FirstUnread(items, k, groups, tag) && Blames(items, k, groups, tag, error)
            case Ok(None) => AllRead(items, groups, tag) && forall k :: 0 <= k < |items| ==> items[k].Tag() != tag
            case Ok(Some(located)) =>
              AllRead(items, groups, tag)
              && exists k :: 0 <= k < |items| && items[k].Tag() == tag && items[k].Nested?
                             && located == Located(Position(items, k), items[k].run)
  {
    var items := MessageItems(fields, 0, groups);
    MessageIsShaped(fields, 0, groups);
    var k := ReadFrom(items, 0, groups, tag, None);
    assert items[0..] == items && items[..0] == [];
    if k < |items| {
      assert FirstUnread(items, k, groups, tag);
    }
  }

  lemma {:induction false} FieldByPosition(items: seq<Item>, at: nat, groups: GroupSet, tag: Tag)
    ensures match FieldItems(items, at, groups, tag)
            case Some(index) =>
              exists k :: 0 <= k < |items| && index == at + Position(items, k) && items[k].Tag() == tag
                          && forall j :: 0 <= j < k ==> items[j].Tag() != tag && !NestsDeep(items[j], groups)
            case None =>
              forall k :: 0 <= k < |items| && items[k].Tag() == tag ==> exists j :: 0 <= j < k && NestsDeep(items[j], groups)
    decreases items
  {
    if items != [] {
      if items[0].Tag() == tag {
        assert items[..0] == [] && Position(items, 0) == 0;
      } else {
        DeepIsNested(items[0], groups);
        if !NestsDeep(items[0], groups) {
          var next := at + |FlatItem(items[0])|;
          FieldByPosition(items[1..], next, groups, tag);
          match FieldItems(items, at, groups, tag)
          case None =>
            forall k | 0 <= k < |items| && items[k].Tag() == tag ensures exists j :: 0 <= j < k && NestsDeep(items[j], groups) {
              assert items[1..][k - 1] == items[k];
              var j :| 0 <= j < k - 1 && NestsDeep(items[1..][j], groups);
              assert NestsDeep(items[j + 1], groups);
            }
          case Some(index) =>
            var k :| 0 <= k < |items[1..]| && index == next + Position(items[1..], k) && items[1..][k].Tag() == tag
                     && forall j :: 0 <= j < k ==> items[1..][j].Tag() != tag && !NestsDeep(items[1..][j], groups);
            PositionBehind(items, k);
            assert items[k + 1].Tag() == tag;
            assert forall j :: 0 < j < k + 1 ==> items[j] == items[1..][j - 1];
        }
      }
    }
  }

  lemma PositionBehind(items: seq<Item>, k: nat)
    requires k < |items| && items != [] && k <= |items[1..]|
    ensures Position(items, k + 1) == |FlatItem(items[0])| + Position(items[1..], k)
  {
    assert items[..k + 1] == [items[0]] + items[1..][..k];
    FlatItemsCons(items[0], items[1..][..k]);
  }

  lemma DeepIsNested(item: Item, groups: GroupSet)
    ensures DeepGroup(item, groups).Some? <==> NestsDeep(item, groups)
  {
    if item.Nested? && Lookup(groups.groups, item.Tag()).Some? {
      DeepRunIsFirstDeep(item.run, Lookup(groups.groups, item.Tag()).value, 0);
    }
  }

  // ----- the loops -----

  /** One item of the message level, between `index` and `next`. */
  ghost predicate StandsAt(fields: seq<Field>, index: nat, groups: GroupSet, item: Item, next: nat)
    requires index < |fields| && ValidSet(groups)
  {
    LookupIsValid(groups.groups, fields[index].tag);
    match Lookup(groups.groups, fields[index].tag)
    case None => item == Plain(fields[index]) && next == index + 1
    case Some(g) =>
      && item.Nested? && item.run.count == fields[index]
      && WalkGroup(fields, index, g, 0, groups.level) == Walked(next, item.run.entries)
  }

  lemma StandingItem(fields: seq<Field>, index: nat, groups: GroupSet) returns (item: Item, next: nat)
    requires index < |fields| && ValidSet(groups)
    ensures StandsAt(fields, index, groups, item, next)
    ensures index < next <= |fields| && item.Tag() == fields[index].tag && FlatItem(item) == fields[index..next]
  {
    LookupIsValid(groups.groups, fields[index].tag);
    match Lookup(groups.groups, fields[index].tag)
    case None =>
      item, next := Plain(fields[index]), index + 1;
    case Some(g) =>
      WalkPartitions(fields, index, g, 0, groups.level);
      var w := WalkGroup(fields, index, g, 0, groups.level);
      item, next := Nested(Run(fields[index], w.tree)), w.end;
  }

  /** The item at `index`, and what follows it. */
  lemma ItemsStepAt(fields: seq<Field>, index: nat, groups: GroupSet) returns (item: Item, next: nat)
    requires index < |fields| && ValidSet(groups)
    ensures StandsAt(fields, index, groups, item, next)
    ensures index < next == index + |FlatItem(item)| <= |fields| && item.Tag() == fields[index].tag
    ensures FlatItem(item) == fields[index..next]
    ensures var items := MessageItems(fields, index, groups);
            items != [] && items[0] == item && items[1..] == MessageItems(fields, next, groups)
  {
    item, next := StandingItem(fields, index, groups);
    assert MessageItems(fields, index, groups) == [item] + MessageItems(fields, next, groups);
  }

  /** Every field of the message belongs to exactly one item of its level. */
  lemma {:induction false} MessagePartition(fields: seq<Field>, index: nat, groups: GroupSet)
    requires index <= |fields| && ValidSet(groups)
    ensures FlatItems(MessageItems(fields, index, groups)) == fields[index..]
    decreases |fields| - index
  {
    if index < |fields| {
      var item, next := ItemsStepAt(fields, index, groups);
      MessagePartition(fields, next, groups);
      FlatFrom(fields, index, next, MessageItems(fields, index, groups));
    }
  }

  /** A field or, under the count tag of a group of the set, a run that ends where what follows bounds it. */
  ghost predicate EndsRight(item: Item, groups: GroupSet, follow: Option<Tag>) {
    match Lookup(groups.groups, item.Tag())
    case None => item.Plain?
    case Some(g) => item.Nested? && Bounded(item.run, g, 0, groups.level, follow)
  }

  lemma StandingEndsRight(fields: seq<Field>, index: nat, groups: GroupSet, item: Item, next: nat)
    requires index < |fields| <= U64_MAX && ValidSet(groups) && StandsAt(fields, index, groups, item, next)
    ensures EndsRight(item, groups, TagAt(fields, next))
  {
    LookupIsValid(groups.groups, fields[index].tag);
    if item.Nested? {
      WalkIsBounded(fields, index, Lookup(groups.groups, item.Tag()).value, 0, groups.level);
    }
  }

  /** Each item of the message level ends right, well-formed or not. */
  lemma {:induction false} MessageEndsRight(fields: seq<Field>, index: nat, groups: GroupSet, items: seq<Item>, k: nat, end: nat)
    requires index <= |fields| <= U64_MAX && ValidSet(groups) && items == MessageItems(fields, index, groups)
    requires k < |items| && end == index + Position(items, k + 1)
    ensures EndsRight(items[k], groups, TagAt(fields, end))
    decreases k
  {
    var item, next := ItemsStepAt(fields, index, groups);
    PositionBehind(items, k);
    if k == 0 {
      assert items[1..][..0] == [];
      StandingEndsRight(fields, index, groups, item, next);
    } else {
      assert items[k] == items[1..][k - 1];
      MessageEndsRight(fields, next, groups, items[1..], k - 1, end);
    }
  }

  lemma FlatFrom(fields: seq<Field>, index: nat, next: nat, items: seq<Item>)
    requires items != [] && index <= next <= |fields| && FlatItem(items[0]) == fields[index..next]
    requires FlatItems(items[1..]) == fields[next..]
    ensures FlatItems(items) == fields[index..]
  {
    RestJoins(fields, index, next);
  }

  /** Checks the instance at `index` while walking it: its entries and its end, or the first error. */
  method CheckRun(fields: seq<Field>, index: nat, g: Spec, level: seq<Tag>, ghost run: Run)
    returns (result: Result<GroupEntries, W.GroupError>, end: nat)
    requires ValidSpec(g) && index < |fields| <= U64_MAX && run.count == fields[index]
    requires WalkGroup(fields, index, g, 0, level).tree == run.entries
    ensures end == WalkGroup(fields, index, g, 0, level).end
    ensures match RunError(run, g, 0)
            case Some(error) => result == Err(error)
            case None => result.Ok? && fresh(result.value) && Hands(result.value, fields, Located(index, run), g)
  {
    var check := new W.Visitor(W.FirstError);
    end := W.WalkGroup(fields, index, g, 0, level, check);
    RunErrorIsFirst([], run, g, 0);
    if check.error.Some? {
      return Err(check.error.value), end;
    }
    W.NoErrorMeansClean(check.log);
    CheckIsSoundAndComplete(fields, index, g, 0, level);
    LeavesWithItsCount(run, g, 0);
    WalkPartitions(fields, index, g, 0, level);
    var entries := new GroupEntries(fields, index, g, 0, end, check.entries, run, level);
    return Ok(entries), end;
  }

  /** Steps over one item of the message level, unless a group nests past the depth limit there. */
  method SkipItem(fields: seq<Field>, index: nat, groups: GroupSet, ghost item: Item, ghost next: nat)
    returns (end: nat, tooDeep: Option<Tag>)
    requires ValidSet(groups) && index < |fields|
    requires StandsAt(fields, index, groups, item, next)
    ensures end == next && tooDeep == DeepGroup(item, groups)
  {
    LookupIsValid(groups.groups, fields[index].tag);
    match Lookup(groups.groups, fields[index].tag) {
      case Some(group) =>
        var skip := new W.Visitor(W.DepthGuard);
        end := W.WalkGroup(fields, index, group, 0, groups.level, skip);
        tooDeep := skip.tooDeep;
        DeepRunIsFirst([], item.run, group, 0, false);
      case None =>
        end, tooDeep := index + 1, None;
    }
  }

  /**
   Reads the group with this count tag at the message level: its instance is checked while it is
   located, every other group is skipped, and the scan goes on to the end of the message.
   */
  method Read(groups: GroupSet, fields: seq<Field>, tag: Tag) returns (result: Result<Option<GroupEntries>, W.GroupError>)
    requires ValidSet(groups) && |fields| <= U64_MAX
    ensures Lookup(groups.groups, tag).None? ==> result == Err(W.NotInLayout(tag))
    ensures Lookup(groups.groups, tag).Some? ==>
              var items := MessageItems(fields, 0, groups);
              match result
              case Err(error) => exists k :: FirstUnread(items, k, groups, tag) && Blames(items, k, groups, tag, error)
              case Ok(None) => AllRead(items, groups, tag) && forall k :: 0 <= k < |items| ==> items[k].Tag() != tag
              case Ok(Some(entries)) =>
                AllRead(items, groups, tag)
                && exists k :: 0 <= k < |items| && items[k].Tag() == tag && items[k].Nested?
                               && Hands(entries, fields, Located(Position(items, k), items[k].run), Lookup(groups.groups, tag).value)
    ensures Lookup(groups.groups, tag).Some? ==>
              match ReadItems(MessageItems(fields, 0, groups), 0, groups, tag, None)
              case Err(error) => result == Err(error)
              case Ok(None) => result == Ok(None)
              case Ok(Some(located)) =>
                && result.Ok? && result.value.Some? && fresh(result.value.value)
                && Hands(result.value.value, fields, located, Lookup(groups.groups, tag).value)
  {
    var spec := Lookup(groups.groups, tag);
    if spec.None? {
      return Err(W.NotInLayout(tag));
    }
    LookupIsValid(groups.groups, tag);
    ghost var verdict := ReadItems(MessageItems(fields, 0, groups), 0, groups, tag, None);
    ReadByPosition(fields, groups, tag);
    var found: Option<GroupEntries> := None;
    ghost var located: Option<Located> := None;
    ghost var todo := MessageItems(fields, 0, groups);
    var index := 0;
    while index < |fields|
      invariant index <= |fields|
      invariant found.Some? <==> located.Some?
      invariant found.Some? ==> fresh(found.value) && Hands(found.value, fields, located.value, spec.value)
      invariant todo == MessageItems(fields, index, groups)
      invariant ReadItems(todo, index, groups, tag, located) == verdict
      decreases |fields| - index
    {
      ghost var item, next := ItemsStepAt(fields, index, groups);
      ReadStep(todo, index, groups, tag, located, next);
      if fields[index].tag == tag {
        if found.Some? {
          return Err(W.DuplicateGroup(tag));
        }
        var entries, end := CheckRun(fields, index, spec.value, groups.level, item.run);
        if entries.Err? {
          return Err(entries.error);
        }
        found, located, todo := Some(entries.value), Some(Located(index, item.run)), todo[1..];
        index := end;
      } else {
        var end, tooDeep := SkipItem(fields, index, groups, item, next);
        if tooDeep.Some? {
          return Err(W.NestsTooDeep(tooDeep.value, MAX_SCOPE_DEPTH));
        }
        index, todo := end, todo[1..];
      }
    }
    return Ok(found);
  }

  /** An untouched iterator over the located instance. */
  ghost predicate Hands(entries: GroupEntries, fields: seq<Field>, located: Located, g: Spec)
    reads entries
  {
    && entries.Valid() && entries.fields == fields && entries.spec == g && entries.depth == 0
    && entries.todo == located.run.entries && entries.nextIndex == 0
    && entries.cursor == located.index + 1 && entries.runEnd == located.index + |FlatRun(located.run)|
  }

  /** The last count a finished walk records is that of the outer group. */
  lemma LeavesWithItsCount(run: Run, g: Spec, depth: nat)
    requires depth <= MAX_SCOPE_DEPTH
    ensures W.LastEntryCount(RunLog([], run, g, depth, true)) == |run.entries|
  {
    var log := RunLog([], run, g, depth, true);
    assert log[|log| - 1].GroupLeft?;
  }

  /** The first field with this tag at the message level, as its position. */
  method FindField(groups: GroupSet, fields: seq<Field>, tag: Tag) returns (found: Option<nat>)
    requires ValidSet(groups) && |fields| <= U64_MAX
    ensures var items := MessageItems(fields, 0, groups);
            match found
            case Some(index) =>
              exists k :: 0 <= k < |items| && index == Position(items, k) && items[k].Tag() == tag
                          && forall j :: 0 <= j < k ==> items[j].Tag() != tag && !NestsDeep(items[j], groups)
            case None =>
              forall k :: 0 <= k < |items| && items[k].Tag() == tag ==> exists j :: 0 <= j < k && NestsDeep(items[j], groups)
    ensures found == FieldItems(MessageItems(fields, 0, groups), 0, groups, tag)
  {
    FieldByPosition(MessageItems(fields, 0, groups), 0, groups, tag);
    ghost var todo := MessageItems(fields, 0, groups);
    ghost var expected := FieldItems(todo, 0, groups, tag);
    var index := 0;
    while index < |fields|
      invariant index <= |fields|
      invariant todo == MessageItems(fields, index, groups) && FieldItems(todo, index, groups, tag) == expected
      decreases |fields| - index
    {
      ghost var item, next := ItemsStepAt(fields, index, groups);
      FieldStep(todo, index, groups, tag, next);
      if fields[index].tag == tag {
        return Some(index);
      }
      var end, tooDeep := SkipItem(fields, index, groups, item, next);
      if tooDeep.Some? {
        return None;
      }
      index, todo := end, todo[1..];
    }
    return None;
  }

  // ----- what a read promises -----

  /** Once something was found, a read that succeeds found nothing more. */
  lemma {:induction false} ReadFindsNoSecond(items: seq<Item>, at: nat, groups: GroupSet, tag: Tag, found: Option<Located>)
    requires found.Some?
    ensures ReadItems(items, at, groups, tag, found).Ok? ==>
              ReadItems(items, at, groups, tag, found) == Ok(found) && Occurrences(items, tag) == 0
  {
    if items != [] && items[0].Tag() != tag {
      ReadFindsNoSecond(items[1..], at + |FlatItem(items[0])|, groups, tag, found);
    }
  }

  /**
   A successful read and a plain lookup agree: a group that is read is the one occurrence of its
   count tag at the message level and the lookup finds its count field; a group that is absent has
   no occurrence there and the lookup finds nothing.
   */
  lemma {:induction false} ReadAgreesWithField(items: seq<Item>, at: nat, groups: GroupSet, tag: Tag)
    ensures match ReadItems(items, at, groups, tag, None)
            case Err(_) => true
            case Ok(None) => FieldItems(items, at, groups, tag) == None && Occurrences(items, tag) == 0
            case Ok(Some(located)) =>
              && FieldItems(items, at, groups, tag) == Some(located.index) && Occurrences(items, tag) == 1
              && exists k :: 0 <= k < |items| && items[k] == Nested(located.run) && located.run.count.tag == tag
                             && located.index == at + Position(items, k)
  {
    if items != [] {
      var next := at + |FlatItem(items[0])|;
      if items[0].Tag() == tag {
        if items[0].Nested? {
          ReadFindsNoSecond(items[1..], next, groups, tag, Some(Located(at, items[0].run)));
          assert Position(items, 0) == 0;
        }
      } else {
        ReadAgreesWithField(items[1..], next, groups, tag);
        match ReadItems(items, at, groups, tag, None)
        case Err(_) =>
        case Ok(None) =>
        case Ok(Some(located)) =>
          var k :| 0 <= k < |items[1..]| && items[1..][k] == Nested(located.run)
                   && located.index == next + Position(items[1..], k);
          assert items[..k + 1] == [items[0]] + items[1..][..k];
          FlatItemsCons(items[0], items[1..][..k]);
          assert items[k + 1] == Nested(located.run);
      }
    }
  }

  /**
   A message with an over-deep group is not read, whichever group is asked for, and a lookup finds nothing
   past that group: the group itself, when its own tag is asked for, is the last thing found.
   */
  lemma {:induction false} NothingPastADeepGroup(items: seq<Item>, at: nat, groups: GroupSet, tag: Tag, found: Option<Located>, k: nat)
    requires k < |items| && DeepGroup(items[k], groups).Some?
    ensures ReadItems(items, at, groups, tag, found).Err?
    ensures match FieldItems(items, at, groups, tag)
            case None => true
            case Some(index) => index < at + Position(items, k) || (index == at + Position(items, k) && items[k].Tag() == tag)
  {
    if k == 0 {
      assert items[..0] == [];
      if items[0].Tag() == tag {
        DeepRunHasError(items[0].run, Lookup(groups.groups, tag).value, 0);
      }
    } else {
      assert items[..k] == [items[0]] + items[1..][..k - 1];
      FlatItemsCons(items[0], items[1..][..k - 1]);
      var next := at + |FlatItem(items[0])|;
      var after := if items[0].Tag() == tag && items[0].Nested? then Some(Located(at, items[0].run)) else found;
      NothingPastADeepGroup(items[1..], next, groups, tag, after, k - 1);
    }
  }

  // ----- a message spelled from its items is read back as those items -----

  /** A well-formed item: a group's tag carries a well-formed instance, any other tag a field. */
  ghost predicate MatchItem(item: Item, specs: seq<Spec>, depth: nat) {
    match Lookup(specs, item.Tag())
    case None => item.Plain?
    case Some(g) => item.Nested? && WellFormed(item.run, g, depth)
  }

  ghost predicate MatchItems(items: seq<Item>, specs: seq<Spec>, depth: nat) {
    items != [] ==> MatchItem(items[0], specs, depth) && MatchItems(items[1..], specs, depth)
  }

  /** The message level seen as a scope its groups are nested in. */
  function TopScope(groups: GroupSet): Spec {
    Spec(0, 0, groups.level, groups.groups)
  }

  lemma {:induction false} MessageFound(fields: seq<Field>, index: nat, items: seq<Item>, groups: GroupSet)
    requires ValidSet(groups) && |fields| <= U64_MAX
    requires index <= |fields| && FlatItems(items) == fields[index..]
    requires MatchItems(items, groups.groups, 0) && FitItems(items, TopScope(groups), None)
    ensures MessageItems(fields, index, groups) == items
    decreases items
  {
    if items != [] {
      var next := HeadStands(fields, index, items);
      ItemStandsThere(fields, index, items[0], groups, next);
      MessageFound(fields, next, items[1..], groups);
      MessageCons(fields, index, groups, items[0], next);
      assert items == [items[0]] + items[1..];
    }
  }

  lemma MessageCons(fields: seq<Field>, index: nat, groups: GroupSet, item: Item, next: nat)
    requires index < next <= |fields| && ValidSet(groups) && StandsAt(fields, index, groups, item, next)
    ensures MessageItems(fields, index, groups) == [item] + MessageItems(fields, next, groups)
  {
  }

  lemma HeadStands(fields: seq<Field>, index: nat, items: seq<Item>) returns (next: nat)
    requires items != [] && index <= |fields| && FlatItems(items) == fields[index..]
    ensures index < next == index + |FlatItem(items[0])| <= |fields|
    ensures Holds(fields, index, FlatItem(items[0])) && fields[next..] == FlatItems(items[1..])
    ensures LeadingTag(FlatItems(items[1..]), None) == TagAt(fields, next)
  {
    var head, tail := FlatItem(items[0]), FlatItems(items[1..]);
    next := index + |head|;
    assert fields[index..next] == (head + tail)[..|head|] == head;
    assert fields[next..] == (head + tail)[|head|..] == tail;
  }

  /** A well-formed item that fits its surroundings is the one found at its place. */
  lemma ItemStandsThere(fields: seq<Field>, index: nat, item: Item, groups: GroupSet, next: nat)
    requires ValidSet(groups) && |fields| <= U64_MAX && next == index + |FlatItem(item)|
    requires Holds(fields, index, FlatItem(item)) && MatchItem(item, groups.groups, 0)
    requires FitItem(item, TopScope(groups), TagAt(fields, next))
    ensures index < |fields| && StandsAt(fields, index, groups, item, next)
  {
    HoldsHead(fields, index, FlatItem(item));
    LookupIsValid(groups.groups, item.Tag());
    if item.Nested? {
      WalkFindsDerived(fields, index, item.run, Lookup(groups.groups, item.Tag()).value, 0, groups.level);
    }
  }

  lemma {:induction false} WellFormedRunHasNoError(run: Run, g: Spec, depth: nat)
    requires WellFormed(run, g, depth)
    ensures RunError(run, g, depth).None? && DeepRun(run, g, depth).None?
    decreases run, 3
  {
    WellFormedEntriesHaveNoError(run.entries, g, depth);
    WellFormedHasNoClash(run.entries, g, depth);
  }

  lemma {:induction false} WellFormedEntriesHaveNoError(entries: seq<Entry>, g: Spec, depth: nat)
    requires WellFormedEntries(entries, g, depth)
    ensures EntriesError(entries, g, depth).None? && DeepEntries(entries, g, depth).None?
    decreases entries, 2
  {
    if entries != [] {
      WellFormedEntryHasNoError(entries[0], g, depth);
      WellFormedEntriesHaveNoError(entries[1..], g, depth);
    }
  }

  lemma {:induction false} WellFormedEntryHasNoError(entry: Entry, g: Spec, depth: nat)
    requires WellFormedEntry(entry, g, depth)
    ensures EntryError(entry, g, depth).None? && DeepEntry(entry, g, depth).None?
    decreases entry, 1
  {
    ClashesMeansRepeated(entry.items, {});
    WellFormedItemsHaveNoError(entry.items, {}, g, depth);
  }

  lemma {:induction false} WellFormedItemsHaveNoError(items: seq<Item>, seen: set<Tag>, g: Spec, depth: nat)
    requires WellFormedItems(items, g, depth)
    ensures !Clashes(items, seen) ==> ItemsError(items, seen, g, depth).None?
    ensures DeepItems(items, g, depth).None?
    decreases items, 1
  {
    if items != [] {
      WellFormedItemHasNoError(items[0], g, depth);
      WellFormedItemsHaveNoError(items[1..], seen + {items[0].Tag()}, g, depth);
    }
  }

  lemma {:induction false} WellFormedItemHasNoError(item: Item, g: Spec, depth: nat)
    requires WellFormedItem(item, g, depth)
    ensures ItemError(item, g, depth).None? && DeepItem(item, g, depth).None?
    decreases item, 1
  {
    if item.Nested? {
      WellFormedRunHasNoError(item.run, Lookup(g.nested, item.Tag()).value, depth + 1);
    }
  }

  /** Among well-formed items, a read finds exactly the one instance that stands under its tag. */
  lemma {:induction false} ReadFindsItem(items: seq<Item>, at: nat, groups: GroupSet, k: nat)
    requires MatchItems(items, groups.groups, 0) && k < |items| && items[k].Nested?
    requires forall i :: 0 <= i < |items| && i != k ==> items[i].Tag() != items[k].Tag()
    ensures ReadItems(items, at, groups, items[k].Tag(), None) == Ok(Some(Located(at + Position(items, k), items[k].run)))
  {
    var next := at + |FlatItem(items[0])|;
    ItemHasNoError(items[0], groups);
    assert forall i :: 0 <= i < |items[1..]| ==> items[1..][i] == items[i + 1];
    if k == 0 {
      ReadFindsNothing(items[1..], next, groups, items[0].Tag(), Some(Located(at, items[0].run)));
    } else {
      ReadFindsItem(items[1..], next, groups, k - 1);
      assert items[..k] == [items[0]] + items[1..][..k - 1];
      FlatItemsCons(items[0], items[1..][..k - 1]);
    }
  }

  lemma ItemHasNoError(item: Item, groups: GroupSet)
    requires MatchItem(item, groups.groups, 0)
    ensures DeepGroup(item, groups).None?
    ensures item.Nested? ==> Lookup(groups.groups, item.Tag()).Some?
                             && RunError(item.run, Lookup(groups.groups, item.Tag()).value, 0).None?
  {
    if item.Nested? {
      WellFormedRunHasNoError(item.run, Lookup(groups.groups, item.Tag()).value, 0);
    }
  }

  lemma {:induction false} ReadFindsNothing(items: seq<Item>, at: nat, groups: GroupSet, tag: Tag, found: Option<Located>)
    requires MatchItems(items, groups.groups, 0) && forall k :: 0 <= k < |items| ==> items[k].Tag() != tag
    ensures ReadItems(items, at, groups, tag, found) == Ok(found)
  {
    if items != [] {
      ItemHasNoError(items[0], groups);
      assert forall i :: 0 <= i < |items[1..]| ==> items[1..][i] == items[i + 1];
      ReadFindsNothing(items[1..], at + |FlatItem(items[0])|, groups, tag, found);
    }
  }
}
