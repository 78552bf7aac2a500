/**
 The positional walk as a function from a flat field list to the tree it stands for, and the
 events a walk reports as a function of that tree. The tree depends on the fields, the group and
 the enclosing tags only, never on who is listening.
 */
module GroupTree {
  import opened Wire
  import opened GroupSpecs

  /** Deepest nesting a walk follows. */
  const MAX_SCOPE_DEPTH: nat := 32

  /** One group instance: its count field and its entries. */
  datatype Run = Run(count: Field, entries: seq<Entry>)

  datatype Entry = Entry(items: seq<Item>)

  /** What stands at one level: a field, or a nested group instance. */
  datatype Item = Plain(field: Field) | Nested(run: Run)
  {
    function Tag(): Tag {
      match this
      case Plain(field) => field.tag
      case Nested(run) => run.count.tag
    }
  }

  // ----- a tree spelled out as fields -----

  function FlatRun(run: Run): (flat: seq<Field>)
    ensures flat != [] && flat[0] == run.count
  {
    [run.count] + FlatEntries(run.entries)
  }

  function FlatEntries(entries: seq<Entry>): seq<Field> {
    if entries == [] then [] else FlatItems(entries[0].items) + FlatEntries(entries[1..])
  }

  function FlatItems(items: seq<Item>): (flat: seq<Field>)
    ensures items != [] ==> flat != [] && flat[0].tag == items[0].Tag()
  {
    if items == [] then [] else FlatItem(items[0]) + FlatItems(items[1..])
  }

  function FlatItem(item: Item): (flat: seq<Field>)
    ensures flat != [] && flat[0].tag == item.Tag()
  {
    match item
    case Plain(field) => [field]
    case Nested(run) => FlatRun(run)
  }

  lemma FlatEntriesCons(first: Entry, rest: seq<Entry>)
    ensures FlatEntries([first] + rest) == FlatItems(first.items) + FlatEntries(rest)
  {
    assert ([first] + rest)[1..] == rest;
  }

  lemma FlatItemsConcat(a: seq<Item>, b: seq<Item>)
    ensures FlatItems(a + b) == FlatItems(a) + FlatItems(b)
  {
    if a == [] {
      assert a + b == b;
    } else {
      assert (a + b)[0] == a[0] && (a + b)[1..] == a[1..] + b;
      FlatItemsConcat(a[1..], b);
    }
  }

  lemma FlatItemsCons(first: Item, rest: seq<Item>)
    ensures FlatItems([first] + rest) == FlatItem(first) + FlatItems(rest)
  {
    assert ([first] + rest)[1..] == rest;
  }

  // ----- the walk -----

  /** Where a part of the walk stopped, and what it read. */
  datatype Walked<+T> = Walked(end: nat, tree: T)

  /** Whether a field with this tag, after `count` entries, belongs to the enclosing scope. */
  predicate EndsGroup(declared: Option<nat>, enclosing: seq<Tag>, count: nat, tag: Tag) {
    declared == Some(count) && tag in enclosing
  }

  /** Whether the field at `cursor` is a member standing ahead of any delimiter. */
  predicate LeadsWithoutDelimiter(fields: seq<Field>, cursor: nat, g: Spec, declared: Option<nat>, enclosing: seq<Tag>) {
    && cursor < |fields|
    && fields[cursor].tag != g.delimiter
    && fields[cursor].tag in g.members
    && !EndsGroup(declared, enclosing, 0, fields[cursor].tag)
  }

  predicate OpensEntry(fields: seq<Field>, cursor: nat, g: Spec, declared: Option<nat>, enclosing: seq<Tag>, count: nat) {
    && cursor < |fields|
    && fields[cursor].tag == g.delimiter
    && !EndsGroup(declared, enclosing, count, fields[cursor].tag)
    && count < U64_MAX
  }

  predicate ContinuesEntry(fields: seq<Field>, start: nat, cursor: nat, g: Spec) {
    && cursor < |fields|
    && fields[cursor].tag in g.members
    && !(cursor > start && fields[cursor].tag == g.delimiter)
  }

  /** The instance whose count field is at `index`: it always consumes the count field and never runs past the end. */
  ghost function WalkGroup(fields: seq<Field>, index: nat, g: Spec, depth: nat, enclosing: seq<Tag>)
    : (walked: Walked<seq<Entry>>)
    requires index < |fields| && ValidSpec(g)
    ensures index < walked.end <= |fields|
    decreases |fields| - index, 0
  {
    if depth > MAX_SCOPE_DEPTH then Walked(index + 1, [])
    else
      var declared := CountValue(fields[index].value);
      if LeadsWithoutDelimiter(fields, index + 1, g, declared, enclosing) then
        var first := ScanEntry(fields, index + 1, index + 1, g, depth);
        var rest := WalkEntries(fields, first.end, g, depth, declared, enclosing, 1);
        Walked(rest.end, [Entry(first.tree)] + rest.tree)
      else
        WalkEntries(fields, index + 1, g, depth, declared, enclosing, 0)
  }

  /** The entries from `cursor` on, `count` of them being behind it already. */
  ghost function WalkEntries(fields: seq<Field>, cursor: nat, g: Spec, depth: nat, declared: Option<nat>,
                             enclosing: seq<Tag>, count: nat)
    : (walked: Walked<seq<Entry>>)
    requires cursor <= |fields| && ValidSpec(g)
    ensures cursor <= walked.end <= |fields|
    decreases |fields| - cursor, 2
  {
    if OpensEntry(fields, cursor, g, declared, enclosing, count) then
      var first := ScanEntry(fields, cursor, cursor, g, depth);
      var rest := WalkEntries(fields, first.end, g, depth, declared, enclosing, count + 1);
      Walked(rest.end, [Entry(first.tree)] + rest.tree)
    else
      Walked(cursor, [])
  }

  /** The items from `cursor` on of the entry that began at `start`: a member always makes progress. */
  ghost function ScanEntry(fields: seq<Field>, start: nat, cursor: nat, g: Spec, depth: nat)
    : (walked: Walked<seq<Item>>)
    requires start <= cursor <= |fields| && ValidSpec(g)
    ensures cursor <= walked.end <= |fields|
    ensures ContinuesEntry(fields, start, cursor, g) ==> cursor < walked.end
    decreases |fields| - cursor, 1
  {
    if !ContinuesEntry(fields, start, cursor, g) then Walked(cursor, [])
    else
      LookupIsValid(g.nested, fields[cursor].tag);
      match Lookup(g.nested, fields[cursor].tag)
      case Some(nested) =>
        var inner := WalkGroup(fields, cursor, nested, depth + 1, g.members);
        var rest := ScanEntry(fields, start, inner.end, g, depth);
        Walked(rest.end, [Nested(Run(fields[cursor], inner.tree))] + rest.tree)
      case None =>
        var rest := ScanEntry(fields, start, cursor + 1, g, depth);
        Walked(rest.end, [Plain(fields[cursor])] + rest.tree)
  }

  // ----- events -----

  datatype Event =
    | GroupEntered(g: Spec)
    | InvalidCount(g: Spec, value: seq<Byte>)
    | DelimiterMismatch(g: Spec, found: Tag)
    | RepeatedTag(g: Spec, tag: Tag)
    | EntryClosed(g: Spec, entry: nat, seen: set<Tag>)
    | CountMismatch(g: Spec, declared: nat, actual: nat)
    | TooDeep(g: Spec)
    | GroupLeft(g: Spec, wellFormed: bool, entries: nat)

  /** A tag stands twice among these items, or among them and the ones already seen. */
  predicate Clashes(items: seq<Item>, seen: set<Tag>) {
    items != [] && (items[0].Tag() in seen || Clashes(items[1..], seen + {items[0].Tag()}))
  }

  predicate AnyClash(entries: seq<Entry>) {
    entries != [] && (Clashes(entries[0].items, {}) || AnyClash(entries[1..]))
  }

  predicate LedByDelimiter(entry: Entry, g: Spec) {
    entry.items != [] && entry.items[0].Tag() == g.delimiter
  }

  function OwnTags(items: seq<Item>): set<Tag> {
    set i | 0 <= i < |items| :: items[i].Tag()
  }

  /** Whether the walk gives up on splitting this instance into entries. */
  predicate Unparseable(entries: seq<Entry>, g: Spec, track: bool) {
    entries != [] && (!LedByDelimiter(entries[0], g) || (track && AnyClash(entries)))
  }

  // What a walk over a tree adds to a log.

  ghost function RunLog(log: seq<Event>, run: Run, g: Spec, depth: nat, track: bool): seq<Event>
    decreases run, 3
  {
    if depth > MAX_SCOPE_DEPTH then log + [TooDeep(g)]
    else
      CloseLog(EntriesLog(OpenLog(log, run, g), run.entries, 0, g, depth, track),
               run, g, Unparseable(run.entries, g, track))
  }

  ghost function OpenLog(log: seq<Event>, run: Run, g: Spec): seq<Event> {
    var entered := log + [GroupEntered(g)];
    if CountValue(run.count.value).None? then entered + [InvalidCount(g, run.count.value)] else entered
  }

  ghost function CloseLog(log: seq<Event>, run: Run, g: Spec, unparseable: bool): seq<Event> {
    var declared := CountValue(run.count.value);
    var counted := declared == Some(|run.entries|);
    var compared := if declared.Some? && !counted && !unparseable
                    then log + [CountMismatch(g, declared.value, |run.entries|)] else log;
    compared + [GroupLeft(g, counted && !unparseable, |run.entries|)]
  }

  ghost function EntriesLog(log: seq<Event>, entries: seq<Entry>, k: nat, g: Spec, depth: nat, track: bool): seq<Event>
    decreases entries, 2
  {
    if entries == [] then log
    else EntriesLog(EntryLog(log, entries[0], k, g, depth, track), entries[1..], k + 1, g, depth, track)
  }

  ghost function EntryLog(log: seq<Event>, entry: Entry, k: nat, g: Spec, depth: nat, track: bool): seq<Event>
    decreases entry, 1
  {
    ClosedLog(ItemsLog(LeadLog(log, entry, g), entry.items, {}, g, depth, track), entry, k, g, track)
  }

  ghost function LeadLog(log: seq<Event>, entry: Entry, g: Spec): seq<Event> {
    if entry.items != [] && !LedByDelimiter(entry, g) then log + [DelimiterMismatch(g, entry.items[0].Tag())] else log
  }

  ghost function ClosedLog(log: seq<Event>, entry: Entry, k: nat, g: Spec, track: bool): seq<Event> {
    if track then log + [EntryClosed(g, k, OwnTags(entry.items))] else log
  }

  ghost function ItemsLog(log: seq<Event>, items: seq<Item>, seen: set<Tag>, g: Spec, depth: nat, track: bool): seq<Event>
    decreases items, 1
  {
    if items == [] then log
    else
      var tag := items[0].Tag();
      ItemsLog(NestedLog(RepeatLog(log, tag, seen, g, track), items[0], g, depth, track),
               items[1..], seen + {tag}, g, depth, track)
  }

  ghost function RepeatLog(log: seq<Event>, tag: Tag, seen: set<Tag>, g: Spec, track: bool): seq<Event> {
    if track && tag in seen then log + [RepeatedTag(g, tag)] else log
  }

  ghost function NestedLog(log: seq<Event>, item: Item, g: Spec, depth: nat, track: bool): seq<Event>
    decreases item, 1
  {
    match item
    case Plain(_) => log
    case Nested(run) =>
      match Lookup(g.nested, run.count.tag)
      case None => log
      case Some(nested) => RunLog(log, run, nested, depth + 1, track)
  }
}
