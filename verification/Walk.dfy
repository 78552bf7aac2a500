/** The walk itself: loops over a cursor, a seen-tag bitset cleared in place, and a listening visitor. */
module Walk {
  import opened Wire
  import opened GroupSpecs
  import opened EntryTagSet
  import opened GroupTree
  import GroupCheck

  datatype GroupError =
    | NotInLayout(countTag: Tag)
    | DuplicateGroup(countTag: Tag)
    | BadCount(countTag: Tag)
    | WrongCount(countTag: Tag, declared: nat, actual: nat)
    | WrongDelimiter(countTag: Tag, expected: Tag, found: Tag)
    | TagRepeated(countTag: Tag, tag: Tag)
    | NestsTooDeep(countTag: Tag, limit: nat)

  function ErrorOf(event: Event): (error: Option<GroupError>)
    ensures error.Some? <==> GroupCheck.IsError(event)
  {
    match event
    case InvalidCount(g, _) => Some(BadCount(g.countTag))
    case DelimiterMismatch(g, found) => Some(WrongDelimiter(g.countTag, g.delimiter, found))
    case RepeatedTag(g, tag) => Some(TagRepeated(g.countTag, tag))
    case CountMismatch(g, declared, actual) => Some(WrongCount(g.countTag, declared, actual))
    case TooDeep(g) => Some(NestsTooDeep(g.countTag, MAX_SCOPE_DEPTH))
    case _ => None
  }

  /** The first error of a log. */
  ghost function FirstErrorIn(log: seq<Event>): Option<GroupError> {
    if log == [] then None
    else
      var before := FirstErrorIn(log[..|log| - 1]);
      if before.Some? then before else ErrorOf(log[|log| - 1])
  }

  /** The first group a log reports as too deep. */
  ghost function FirstTooDeep(log: seq<Event>): Option<Tag> {
    if log == [] then None
    else
      var before := FirstTooDeep(log[..|log| - 1]);
      if before.None? && log[|log| - 1].TooDeep? then Some(log[|log| - 1].g.countTag) else before
  }

  /** The entry count of the last group a log leaves. */
  ghost function LastEntryCount(log: seq<Event>): nat {
    if log == [] then 0
    else if log[|log| - 1].GroupLeft? then log[|log| - 1].entries
    else LastEntryCount(log[..|log| - 1])
  }

  lemma {:induction false} NoErrorMeansClean(log: seq<Event>)
    ensures FirstErrorIn(log).None? <==> GroupCheck.Clean(log)
    ensures GroupCheck.Clean(log) ==> FirstTooDeep(log).None?
  {
    if log != [] {
      NoErrorMeansClean(log[..|log| - 1]);
      assert log == log[..|log| - 1] + [log[|log| - 1]];
    }
  }

  /** Who listens to a walk: nobody, the depth guard of a skipped group, or the checked reader. */
  datatype Listener = Skip | DepthGuard | FirstError

  class Visitor {
    const kind: Listener
    /** First structural error (checked reader). */
    var error: Option<GroupError>
    /** Entries of the last instance to end (checked reader). */
    var entries: nat
    /** Count tag of the first group past the depth limit (depth guard). */
    var tooDeep: Option<Tag>
    /** Everything reported so far. */
    ghost var log: seq<Event>

    ghost predicate Valid()
      reads this
    {
      && (kind.FirstError? ==> error == FirstErrorIn(log) && entries == LastEntryCount(log))
      && (kind.DepthGuard? ==> tooDeep == FirstTooDeep(log))
    }

    /** Only the checked reader looks for repeated tags. */
    function Tracks(): bool {
      kind.FirstError?
    }

    constructor (listener: Listener)
      ensures Valid() && kind == listener && log == []
    {
      kind := listener;
      error, entries, tooDeep, log := None, 0, None, [];
    }

    method Notify(event: Event)
      requires Valid()
      modifies this
      ensures Valid() && log == old(log) + [event]
    {
      match kind {
        case Skip =>
        case DepthGuard =>
          if event.TooDeep? && tooDeep.None? {
            tooDeep := Some(event.g.countTag);
          }
        case FirstError =>
          if error.None? {
            error := ErrorOf(event);
          }
          if event.GroupLeft? {
            entries := event.entries;
          }
      }
      log := log + [event];
      assert log[..|log| - 1] == old(log);
    }

    /** An entry ended. None of these listeners acts on it. */
    method CloseEntry(g: Spec, entry: nat, seen: EntryTags)
      requires Valid() && seen.Valid()
      modifies this`log
      ensures Valid() && log == old(log) + [EntryClosed(g, entry, seen.Tags())]
    {
      log := log + [EntryClosed(g, entry, seen.Tags())];
      assert log[..|log| - 1] == old(log);
    }
  }

  /** What reading one more entry leaves to be read. */
  lemma EntriesStep(fields: seq<Field>, cursor: nat, g: Spec, depth: nat, declared: Option<nat>, enclosing: seq<Tag>, count: nat)
    returns (first: Walked<seq<Item>>, rest: Walked<seq<Entry>>)
    requires ValidSpec(g) && cursor < |fields| && fields[cursor].tag in g.members
    ensures first == GroupTree.ScanEntry(fields, cursor, cursor, g, depth)
    ensures cursor < first.end && first.tree != [] && first.tree[0].Tag() == fields[cursor].tag
    ensures rest == WalkEntries(fields, first.end, g, depth, declared, enclosing, count + 1)
    ensures OpensEntry(fields, cursor, g, declared, enclosing, count) ==>
              WalkEntries(fields, cursor, g, depth, declared, enclosing, count)
              == Walked(rest.end, [Entry(first.tree)] + rest.tree)
    ensures ([Entry(first.tree)] + rest.tree)[1..] == rest.tree
  {
    first := GroupTree.ScanEntry(fields, cursor, cursor, g, depth);
    rest := WalkEntries(fields, first.end, g, depth, declared, enclosing, count + 1);
    GroupCheck.ScanStartsAt(fields, cursor, g, depth);
  }

  /** What reading one more item of an entry leaves to be read. */
  lemma ScanStep(fields: seq<Field>, start: nat, cursor: nat, g: Spec, depth: nat)
    returns (item: Item, rest: Walked<seq<Item>>)
    requires ValidSpec(g) && start <= cursor && ContinuesEntry(fields, start, cursor, g)
    ensures ItemAt(fields, cursor, g, depth, item)
    ensures rest == GroupTree.ScanEntry(fields, start, ItemEnd(fields, cursor, g, depth), g, depth)
    ensures GroupTree.ScanEntry(fields, start, cursor, g, depth) == Walked(rest.end, [item] + rest.tree)
    ensures ([item] + rest.tree)[1..] == rest.tree
    ensures OwnTags([item] + rest.tree) == {fields[cursor].tag} + OwnTags(rest.tree)
  {
    LookupIsValid(g.nested, fields[cursor].tag);
    match Lookup(g.nested, fields[cursor].tag) {
      case None =>
        item := Plain(fields[cursor]);
      case Some(inner) =>
        item := Nested(Run(fields[cursor], GroupTree.WalkGroup(fields, cursor, inner, depth + 1, g.members).tree));
    }
    rest := GroupTree.ScanEntry(fields, start, ItemEnd(fields, cursor, g, depth), g, depth);
    OwnTagsCons(item, rest.tree);
  }

  /** The item at `cursor`: a field, or the nested instance a walk finds there. */
  ghost predicate ItemAt(fields: seq<Field>, cursor: nat, g: Spec, depth: nat, item: Item)
    requires ValidSpec(g) && cursor < |fields|
  {
    LookupIsValid(g.nested, fields[cursor].tag);
    match Lookup(g.nested, fields[cursor].tag)
    case None => item == Plain(fields[cursor])
    case Some(inner) =>
      item == Nested(Run(fields[cursor], GroupTree.WalkGroup(fields, cursor, inner, depth + 1, g.members).tree))
  }

  ghost function ItemEnd(fields: seq<Field>, cursor: nat, g: Spec, depth: nat): (end: nat)
    requires ValidSpec(g) && cursor < |fields|
    ensures cursor < end <= |fields|
  {
    LookupIsValid(g.nested, fields[cursor].tag);
    match Lookup(g.nested, fields[cursor].tag)
    case None => cursor + 1
    case Some(inner) => GroupTree.WalkGroup(fields, cursor, inner, depth + 1, g.members).end
  }

  lemma OwnTagsCons(first: Item, rest: seq<Item>)
    ensures OwnTags([first] + rest) == {first.Tag()} + OwnTags(rest)
  {
    var all := [first] + rest;
    assert forall i :: 0 <= i < |rest| ==> all[i + 1] == rest[i];
    assert all[0] == first;
    assert forall i :: 0 < i < |all| ==> all[i] == rest[i - 1];
  }

  /** The run behind a count field: a lead entry and the entries after it, or delimiter-led entries only. */
  ghost predicate RunAt(fields: seq<Field>, first: nat, g: Spec, depth: nat, declared: Option<nat>, enclosing: seq<Tag>,
                        w: Walked<seq<Entry>>)
    requires first <= |fields| && ValidSpec(g)
  {
    if LeadsWithoutDelimiter(fields, first, g, declared, enclosing) then
      var lead := GroupTree.ScanEntry(fields, first, first, g, depth);
      var rest := WalkEntries(fields, lead.end, g, depth, declared, enclosing, 1);
      w == Walked(rest.end, [Entry(lead.tree)] + rest.tree) && !LedByDelimiter(Entry(lead.tree), g)
    else
      && w == WalkEntries(fields, first, g, depth, declared, enclosing, 0)
      && (w.tree != [] ==> LedByDelimiter(w.tree[0], g))
  }

  lemma RunFollowsCount(fields: seq<Field>, index: nat, g: Spec, depth: nat, enclosing: seq<Tag>)
    requires index < |fields| && ValidSpec(g) && depth <= MAX_SCOPE_DEPTH
    ensures var w := GroupTree.WalkGroup(fields, index, g, depth, enclosing);
            RunAt(fields, index + 1, g, depth, CountValue(fields[index].value), enclosing, w)
  {
    if index + 1 < |fields| && fields[index + 1].tag in g.members {
      GroupCheck.ScanStartsAt(fields, index + 1, g, depth);
    }
  }

  /** Announces an instance and parses its count. */
  method Open(g: Spec, visitor: Visitor, count: Field, ghost run: Run) returns (declared: Option<nat>)
    requires visitor.Valid() && run.count == count
    modifies visitor
    ensures visitor.Valid() && declared == CountValue(run.count.value)
    ensures visitor.log == OpenLog(old(visitor.log), run, g)
  {
    visitor.Notify(GroupEntered(g));
    declared := ParseCount(count.value);
    if declared.None? {
      visitor.Notify(Event.InvalidCount(g, count.value));
    }
  }

  /** Compares the entries found with the declared count, and takes leave of the instance. */
  method Close(declared: Option<nat>, entries: nat, unparseable: bool, g: Spec, visitor: Visitor, ghost run: Run)
    requires visitor.Valid() && declared == CountValue(run.count.value) && entries == |run.entries|
    modifies visitor
    ensures visitor.Valid()
    ensures visitor.log == CloseLog(old(visitor.log), run, g, unparseable)
  {
    var wellFormed := !unparseable;
    if declared.Some? && declared.value != entries {
      if !unparseable {
        visitor.Notify(Event.CountMismatch(g, declared.value, entries));
      }
      wellFormed := false;
    } else if declared.None? {
      wellFormed := false;
    }
    visitor.Notify(GroupLeft(g, wellFormed, entries));
  }

  /**
   Walks the instance whose count field is at `index`. Where it ends depends on the fields and the
   group alone; what it reports is what the tree it walked calls for.
   */
  method WalkGroup(fields: seq<Field>, index: nat, g: Spec, depth: nat, enclosing: seq<Tag>, visitor: Visitor)
    returns (end: nat)
    requires ValidSpec(g) && visitor.Valid()
    modifies visitor
    ensures visitor.Valid()
    ensures |fields| <= index ==> end == index && visitor.log == old(visitor.log)
    ensures index < |fields| ==>
              var w := GroupTree.WalkGroup(fields, index, g, depth, enclosing);
              && end == w.end
              && visitor.log == RunLog(old(visitor.log), Run(fields[index], w.tree), g, depth, visitor.Tracks())
    decreases if index < |fields| then |fields| - index else 0, 0
  {
    if |fields| <= index {
      return index;
    }
    if depth > MAX_SCOPE_DEPTH {
      visitor.Notify(TooDeep(g));
      return index + 1;
    }
    ghost var w := GroupTree.WalkGroup(fields, index, g, depth, enclosing);
    ghost var run := Run(fields[index], w.tree);
    var declared := Open(g, visitor, fields[index], run);
    var seen: EntryTags? := null;
    if visitor.Tracks() {
      seen := new EntryTags(g);
    }
    var entries, unparseable;
    RunFollowsCount(fields, index, g, depth, enclosing);
    end, entries, unparseable := WalkRun(fields, index + 1, g, depth, declared, enclosing, visitor, seen, w);
    Close(declared, entries, unparseable, g, visitor, run);
  }

  /** The entries of one instance: members ahead of any delimiter first, then an entry at every delimiter. */
  method WalkRun(fields: seq<Field>, first: nat, g: Spec, depth: nat, declared: Option<nat>, enclosing: seq<Tag>,
                 visitor: Visitor, seen: EntryTags?, ghost w: Walked<seq<Entry>>)
    returns (cursor: nat, entries: nat, unparseable: bool)
    requires ValidSpec(g) && first <= |fields| && visitor.Valid()
    requires RunAt(fields, first, g, depth, declared, enclosing, w)
    requires (seen != null) == visitor.Tracks()
    requires seen != null ==> seen.Valid() && seen.group == g
    modifies visitor, seen
    ensures visitor.Valid() && cursor == w.end && entries == |w.tree|
    ensures visitor.log == EntriesLog(old(visitor.log), w.tree, 0, g, depth, visitor.Tracks())
    ensures unparseable == Unparseable(w.tree, g, visitor.Tracks())
    decreases |fields| - first, 7
  {
    cursor, entries, unparseable := first, 0, false;
    if LeadsWithoutDelimiter(fields, cursor, g, declared, enclosing) {
      ghost var lead, rest := EntriesStep(fields, cursor, g, depth, declared, enclosing, 0);
      cursor := ReadLead(fields, cursor, g, depth, visitor, seen);
      entries, unparseable := 1, true;
    }
    cursor, entries, unparseable :=
      ReadLedEntries(fields, cursor, g, depth, declared, enclosing, visitor, seen, entries, unparseable);
  }

  /** The entries that open at a delimiter, until the run ends. */
  method ReadLedEntries(fields: seq<Field>, start: nat, g: Spec, depth: nat, declared: Option<nat>, enclosing: seq<Tag>,
                        visitor: Visitor, seen: EntryTags?, count: nat, bad: bool)
    returns (cursor: nat, entries: nat, unparseable: bool)
    requires ValidSpec(g) && start <= |fields| && visitor.Valid() && count <= U64_MAX
    requires (seen != null) == visitor.Tracks()
    requires seen != null ==> seen.Valid() && seen.group == g
    modifies visitor, seen
    ensures visitor.Valid()
    ensures var w := WalkEntries(fields, start, g, depth, declared, enclosing, count);
            && cursor == w.end && entries == count + |w.tree|
            && visitor.log == EntriesLog(old(visitor.log), w.tree, count, g, depth, visitor.Tracks())
            && (unparseable <==> bad || (visitor.Tracks() && AnyClash(w.tree)))
    decreases |fields| - start, 6
  {
    cursor, entries, unparseable := start, count, bad;
    ghost var w := WalkEntries(fields, start, g, depth, declared, enclosing, count);
    ghost var track := visitor.Tracks();
    ghost var todo := w.tree;
    ghost var total := EntriesLog(visitor.log, todo, count, g, depth, track);
    while cursor < |fields|
      invariant start <= cursor <= |fields| && visitor.Valid()
      invariant seen != null ==> seen.Valid()
      invariant WalkEntries(fields, cursor, g, depth, declared, enclosing, entries) == Walked(w.end, todo)
      invariant entries + |todo| == count + |w.tree| && entries <= U64_MAX
      invariant EntriesLog(visitor.log, todo, entries, g, depth, track) == total
      invariant unparseable || (track && AnyClash(todo)) <==> bad || (track && AnyClash(w.tree))
      decreases |fields| - cursor
    {
      if fields[cursor].tag != g.delimiter {
        break;
      }
      if EndsGroup(declared, enclosing, entries, fields[cursor].tag) {
        break;
      }
      if entries == U64_MAX {
        break;
      }
      cursor, unparseable := TakeEntry(fields, cursor, g, depth, declared, enclosing, visitor, seen, entries, unparseable, todo, w.end);
      entries := entries + 1;
      todo := todo[1..];
    }
  }

  /** Takes the entry that opens here. */
  method TakeEntry(fields: seq<Field>, cursor: nat, g: Spec, depth: nat, ghost declared: Option<nat>, ghost enclosing: seq<Tag>,
                   visitor: Visitor, seen: EntryTags?, k: nat, bad: bool, ghost todo: seq<Entry>, ghost end: nat)
    returns (next: nat, unparseable: bool)
    requires ValidSpec(g) && cursor < |fields| && visitor.Valid() && OpensEntry(fields, cursor, g, declared, enclosing, k)
    requires (seen != null) == visitor.Tracks()
    requires seen != null ==> seen.Valid() && seen.group == g
    requires WalkEntries(fields, cursor, g, depth, declared, enclosing, k) == Walked(end, todo)
    modifies visitor, seen
    ensures visitor.Valid() && (seen != null ==> seen.Valid())
    ensures cursor < next <= |fields| && todo != []
    ensures WalkEntries(fields, next, g, depth, declared, enclosing, k + 1) == Walked(end, todo[1..])
    ensures EntriesLog(visitor.log, todo[1..], k + 1, g, depth, visitor.Tracks())
            == EntriesLog(old(visitor.log), todo, k, g, depth, visitor.Tracks())
    ensures unparseable || (visitor.Tracks() && AnyClash(todo[1..])) <==> bad || (visitor.Tracks() && AnyClash(todo))
    decreases |fields| - cursor, 5
  {
    ghost var first, rest := EntriesStep(fields, cursor, g, depth, declared, enclosing, k);
    next, unparseable := ReadEntry(fields, cursor, g, depth, visitor, seen, k, bad);
  }

  /** Walks members that stand ahead of any delimiter as one entry, after reporting them. */
  method ReadLead(fields: seq<Field>, start: nat, g: Spec, depth: nat, visitor: Visitor, seen: EntryTags?) returns (end: nat)
    requires ValidSpec(g) && start < |fields| && visitor.Valid()
    requires fields[start].tag in g.members && fields[start].tag != g.delimiter
    requires (seen != null) == visitor.Tracks()
    requires seen != null ==> seen.Valid() && seen.group == g
    modifies visitor, seen
    ensures visitor.Valid() && (seen != null ==> seen.Valid())
    ensures var w := GroupTree.ScanEntry(fields, start, start, g, depth);
            end == w.end && visitor.log == EntryLog(old(visitor.log), Entry(w.tree), 0, g, depth, visitor.Tracks())
    decreases |fields| - start, 5
  {
    visitor.Notify(Event.DelimiterMismatch(g, fields[start].tag));
    GroupCheck.ScanStartsAt(fields, start, g, depth);
    var unparseable;
    end, unparseable := ReadEntry(fields, start, g, depth, visitor, seen, 0, true);
  }

  /** Scans one entry and, when its tags are tracked, reports the entry closed. */
  method ReadEntry(fields: seq<Field>, start: nat, g: Spec, depth: nat, visitor: Visitor, seen: EntryTags?, k: nat, unparseable: bool)
    returns (end: nat, unparseable': bool)
    requires ValidSpec(g) && start <= |fields| && visitor.Valid()
    requires (seen != null) == visitor.Tracks()
    requires seen != null ==> seen.Valid() && seen.group == g
    modifies visitor, seen
    ensures visitor.Valid() && (seen != null ==> seen.Valid())
    ensures var w := GroupTree.ScanEntry(fields, start, start, g, depth);
            && end == w.end
            && visitor.log == ClosedLog(ItemsLog(old(visitor.log), w.tree, {}, g, depth, visitor.Tracks()),
                                        Entry(w.tree), k, g, visitor.Tracks())
            && (unparseable' <==> unparseable || (visitor.Tracks() && Clashes(w.tree, {})))
    decreases |fields| - start, 4
  {
    end, unparseable' := ScanEntry(fields, start, g, depth, visitor, seen, unparseable);
    if seen != null {
      visitor.CloseEntry(g, k, seen);
    }
  }

  /** Consumes one entry: its own fields, and the runs of the groups nested in it. */
  method ScanEntry(fields: seq<Field>, start: nat, g: Spec, depth: nat, visitor: Visitor, seen: EntryTags?, unparseable: bool)
    returns (end: nat, unparseable': bool)
    requires ValidSpec(g) && start <= |fields| && visitor.Valid()
    requires (seen != null) == visitor.Tracks()
    requires seen != null ==> seen.Valid() && seen.group == g
    modifies visitor, seen
    ensures visitor.Valid() && (seen != null ==> seen.Valid())
    ensures var w := GroupTree.ScanEntry(fields, start, start, g, depth);
            && end == w.end
            && visitor.log == ItemsLog(old(visitor.log), w.tree, {}, g, depth, visitor.Tracks())
            && (unparseable' <==> unparseable || (visitor.Tracks() && Clashes(w.tree, {})))
            && (seen != null ==> seen.Tags() == OwnTags(w.tree))
    decreases |fields| - start, 3
  {
    unparseable' := unparseable;
    if seen != null {
      seen.Clear();
    }
    ghost var w := GroupTree.ScanEntry(fields, start, start, g, depth);
    ghost var track := visitor.Tracks();
    ghost var todo, own: set<Tag> := w.tree, {};
    ghost var total := ItemsLog(visitor.log, todo, own, g, depth, track);
    var cursor := start;
    while cursor < |fields|
      invariant start <= cursor <= |fields| && visitor.Valid()
      invariant seen != null ==> seen.Valid() && seen.Tags() == own
      invariant GroupTree.ScanEntry(fields, start, cursor, g, depth) == Walked(w.end, todo)
      invariant ItemsLog(visitor.log, todo, own, g, depth, track) == total
      invariant unparseable' || (track && Clashes(todo, own)) <==> unparseable || (track && Clashes(w.tree, {}))
      invariant own + OwnTags(todo) == OwnTags(w.tree)
      decreases |fields| - cursor
    {
      var tag := fields[cursor].tag;
      var rank := Rank(g.members, tag);
      if rank.None? {
        break;
      }
      if cursor > start && tag == g.delimiter {
        break;
      }
      var isNew;
      cursor, isNew := TakeMember(fields, start, cursor, rank.value, g, depth, visitor, seen, own, todo, w.end);
      unparseable' := unparseable' || !isNew;
      todo, own := todo[1..], own + {tag};
    }
    return cursor, unparseable';
  }

  /** Takes one member: records it, and steps over the item it stands for. */
  method TakeMember(fields: seq<Field>, start: nat, cursor: nat, rank: nat, g: Spec, depth: nat, visitor: Visitor, seen: EntryTags?,
                    ghost own: set<Tag>, ghost todo: seq<Item>, ghost end: nat)
    returns (next: nat, isNew: bool)
    requires ValidSpec(g) && start <= cursor && ContinuesEntry(fields, start, cursor, g) && visitor.Valid()
    requires rank < |g.members| && g.members[rank] == fields[cursor].tag
    requires (seen != null) == visitor.Tracks()
    requires seen != null ==> seen.Valid() && seen.group == g && seen.Tags() == own
    requires GroupTree.ScanEntry(fields, start, cursor, g, depth) == Walked(end, todo)
    modifies visitor, seen
    ensures visitor.Valid() && (seen != null ==> seen.Valid() && seen.Tags() == own + {fields[cursor].tag})
    ensures cursor < next <= |fields| && todo != [] && todo[0].Tag() == fields[cursor].tag
    ensures GroupTree.ScanEntry(fields, start, next, g, depth) == Walked(end, todo[1..])
    ensures ItemsLog(visitor.log, todo[1..], own + {fields[cursor].tag}, g, depth, visitor.Tracks())
            == ItemsLog(old(visitor.log), todo, own, g, depth, visitor.Tracks())
    ensures isNew == !(visitor.Tracks() && fields[cursor].tag in own)
    ensures OwnTags(todo) == {fields[cursor].tag} + OwnTags(todo[1..])
    decreases |fields| - cursor, 2
  {
    ghost var item, rest := ScanStep(fields, start, cursor, g, depth);
    isNew := Record(rank, g, visitor, seen, own);
    next := Advance(fields, cursor, g, depth, visitor, item);
  }

  /** Steps over one item: a field, or a whole nested run. */
  method Advance(fields: seq<Field>, cursor: nat, g: Spec, depth: nat, visitor: Visitor, ghost item: Item) returns (next: nat)
    requires ValidSpec(g) && cursor < |fields| && visitor.Valid() && ItemAt(fields, cursor, g, depth, item)
    modifies visitor
    ensures visitor.Valid() && next == ItemEnd(fields, cursor, g, depth)
    ensures visitor.log == NestedLog(old(visitor.log), item, g, depth, visitor.Tracks())
    decreases |fields| - cursor, 1
  {
    LookupIsValid(g.nested, fields[cursor].tag);
    match Lookup(g.nested, fields[cursor].tag) {
      case Some(inner) =>
        next := WalkGroup(fields, cursor, inner, depth + 1, g.members, visitor);
      case None =>
        next := cursor + 1;
    }
  }

  /** Records a member as seen, if tags are tracked, and reports it when it was seen before. */
  method Record(rank: nat, g: Spec, visitor: Visitor, seen: EntryTags?, ghost own: set<Tag>) returns (isNew: bool)
    requires visitor.Valid() && rank < |g.members|
    requires (seen != null) == visitor.Tracks()
    requires seen != null ==> seen.Valid() && seen.group == g && seen.Tags() == own
    modifies visitor, seen
    ensures visitor.Valid()
    ensures seen != null ==> seen.Valid() && seen.Tags() == own + {g.members[rank]}
    ensures isNew == !(visitor.Tracks() && g.members[rank] in own)
    ensures visitor.log == RepeatLog(old(visitor.log), g.members[rank], own, g, visitor.Tracks())
  {
    isNew := true;
    if seen != null {
      isNew := seen.InsertRank(rank);
      if !isNew {
        visitor.Notify(Event.RepeatedTag(g, g.members[rank]));
      }
    }
  }

  /** The index just past the entry that starts at `start`, for a group known to be well-formed. */
  method EntryEnd(fields: seq<Field>, start: nat, g: Spec, depth: nat) returns (end: nat)
    requires ValidSpec(g) && start <= |fields|
    ensures end == GroupTree.ScanEntry(fields, start, start, g, depth).end
  {
    var visitor := new Visitor(Skip);
    var unparseable;
    end, unparseable := ScanEntry(fields, start, g, depth, visitor, null, false);
  }
}
