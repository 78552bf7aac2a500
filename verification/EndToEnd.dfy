/**
 From a dictionary to the wire and back: what the writers generated for a message write, a reader
 working from the layout of the same dictionary reads back.
 */
module EndToEnd {
  import opened Wire
  import opened GroupSpecs
  import opened GroupTree
  import opened Levels
  import opened Writer
  import opened Recovery
  import opened Conformance
  import opened RoundTrip
  import opened Generated
  import S = Schema
  import Sorting
  import Layout
  import Loader
  import Assembly
  import Paths
  import References
  import Scope
  import ViewLevels
  import Sites
  import Views
  import Agreement
  import Tables
  import Message

  /** The groups and level tags of a message's layout. */
  ghost function LayoutSet(d: S.Dictionary, name: S.Name): GroupSet
    requires name in d.messages
  {
    var level := Scope.MessageLevel(d, d, name, d.messages[name]);
    GroupSet(Agreement.TablesOf(level.groups), level.members)
  }

  /** No header or trailer group has a count tag the body uses. */
  ghost predicate EnvelopeApart(d: S.Dictionary, body: Level) {
    forall k :: 0 <= k < |Views.EnvelopeGroups(d)| ==> Views.EnvelopeGroups(d)[k].Tag() !in body.tags
  }

  /** What the layout looks up under a tag of the body is the first group of the body with that count tag. */
  lemma BodyLookup(d: S.Dictionary, name: S.Name, body: Level, tag: Tag)
    requires name in d.messages && EnvelopeApart(d, body) && tag in body.tags
    ensures Layout.FirstGroup(Agreement.MessageItems(d, name), tag) == Layout.FirstGroup(Views.BodyItems(d, name), tag)
    ensures Lookup(LayoutSet(d, name).groups, tag)
            == match Layout.FirstGroup(Views.BodyItems(d, name), tag)
               case None => None
               case Some(item) => Some(Agreement.TableOf(Layout.GroupOf(d, item)))
  {
    var envelope, items := Views.EnvelopeGroups(d), Views.BodyItems(d, name);
    Agreement.MessageGroupsAre(d, name);
    NoEnvelopeGroup(envelope, tag);
    Layout.FirstGroupConcat(envelope, items, tag);
    Layout.FirstLayoutGroup(d, envelope + items, tag);
    var raw := Layout.LayoutGroups(d, envelope + items);
    Sorting.SortByKeepsFirst(raw, Layout.KeyOf);
    LookupIsFirst(Sorting.SortBy(raw, Layout.KeyOf), tag);
  }

  lemma NoEnvelopeGroup(envelope: seq<S.Item>, tag: Tag)
    requires forall k :: 0 <= k < |envelope| ==> envelope[k].Tag() != tag
    ensures Layout.FirstGroup(envelope, tag) == None
  {
  }

  lemma {:induction false} LookupIsFirst(groups: seq<Layout.LayoutGroup>, tag: Tag)
    ensures Lookup(Agreement.TablesOf(groups), tag)
            == match Sorting.FirstBy(groups, Layout.KeyOf, tag) case None => None case Some(g) => Some(Agreement.TableOf(g))
  {
    if groups != [] {
      LookupIsFirst(groups[1..], tag);
      var tables := Agreement.TablesOf(groups);
      assert tables[1..] == Agreement.TablesOf(groups[1..]);
    }
  }

  /** The group generated for a member of the body is the layout's under its count tag. */
  lemma BodyGroupIsTheLayouts(d: S.Dictionary, name: S.Name, message: Views.MessageModel, sites: seq<ViewLevels.Site>,
                              paths: seq<set<S.Name>>, index: map<S.Address, nat>, body: Level, k: nat)
    requires Agreement.MessageIsUnguarded(d, name) && Sites.SitesAreRight(d, sites, paths, index, {})
    requires Views.MessageIsRight(d, name, message, index) && Unfolds(sites, message.body, body)
    requires EnvelopeApart(d, body) && k < |body.groups|
    ensures Lookup(LayoutSet(d, name).groups, body.groups[k].countTag) == Some(SpecOf(body.groups[k]))
  {
    var items, slots := Views.BodyItems(d, name), message.body.groups;
    Agreement.LayoutItemsStand(d, BodyPart(d, name), true, {});
    var tag := body.groups[k].countTag;
    Sorting.FirstInAscending(slots, ViewLevels.SlotKey, k);
    assert slots[k].countTag == tag && Sorting.FirstBy(slots, ViewLevels.SlotKey, tag) == Some(slots[k]);
    var item := Layout.FirstGroup(items, tag).value;
    GroupTagIsListed(sites, message.body, body, k);
    BodyLookup(d, name, body, tag);
    assert Paths.EntryUnguarded(d, item);
    NestedUnfolds(sites, message.body, body, k);
    GeneratedTableIsTheLayouts(d, sites, paths, index, item, body.groups[k]);
  }

  lemma GroupTagIsListed(sites: seq<ViewLevels.Site>, level: ViewLevels.ViewLevel, tree: Level, k: nat)
    requires Unfolds(sites, level, tree) && ViewLevels.Shape(level) && k < |tree.groups|
    ensures tree.groups[k].countTag in tree.tags
  {
    UnfoldedTags(sites, level, tree);
    var i :| 0 <= i < |tree.members| && tree.members[i] == GroupM(tree.groups[k]);
    assert level.members[i].Tag() in level.tags;
  }

  /** A tag of the body that is no group of it is no group of the layout. */
  lemma PlainTagIsPlain(d: S.Dictionary, name: S.Name, message: Views.MessageModel, sites: seq<ViewLevels.Site>,
                        index: map<S.Address, nat>, body: Level, tag: Tag)
    requires name in d.messages && Views.MessageIsRight(d, name, message, index)
    requires Unfolds(sites, message.body, body) && EnvelopeApart(d, body)
    requires tag in body.tags && tag !in GroupTags(body.groups)
    ensures Lookup(LayoutSet(d, name).groups, tag) == None
  {
    var slots := message.body.groups;
    Sorting.FirstIsIn(slots, ViewLevels.SlotKey, tag);
    assert forall k :: 0 <= k < |slots| ==> slots[k].countTag == GroupTags(body.groups)[k];
    assert Layout.FirstGroup(Views.BodyItems(d, name), tag) == None;
    BodyLookup(d, name, body, tag);
  }

  /** The conditions on a schema under which its messages are read back. */
  ghost predicate Readable(d: S.Dictionary, body: Level, outer: set<Tag>) {
    && PairsMatchThroughout(body) && EnvelopeApart(d, body)
    && (forall tag :: tag in body.tags ==> tag in outer)
    && forall i :: 0 <= i < |body.groups| ==> Shallow(body.groups[i], 0) && Clear(body.groups[i], outer)
  }

  /** The level generated for a body, read with the layout of the same message, meets the conditions of the round trip. */
  lemma GeneratedBodyIsReadable(d: S.Dictionary, name: S.Name, message: Views.MessageModel, sites: seq<ViewLevels.Site>,
                                paths: seq<set<S.Name>>, index: map<S.Address, nat>, body: Level, outer: set<Tag>)
    requires Agreement.MessageIsUnguarded(d, name) && Sites.SitesAreRight(d, sites, paths, index, {})
    requires Views.MessageIsRight(d, name, message, index)
    requires Unfolds(sites, message.body, body) && Readable(d, body, outer)
    ensures ReadableLevel(body, LayoutSet(d, name), outer)
  {
    GeneratedBodyIsWellFormed(d, name, message, sites, paths, index, body);
    Tables.LayoutSetIsValid(d, name);
    forall k | 0 <= k < |body.groups|
      ensures Lookup(LayoutSet(d, name).groups, body.groups[k].countTag) == Some(SpecOf(body.groups[k]))
    {
      BodyGroupIsTheLayouts(d, name, message, sites, paths, index, body, k);
    }
    forall tag | tag in AllWrittenTags(WriterMembers(body.members)) ensures tag in body.tags {
      AllInMember(AllWrittenTags(WriterMembers(body.members)), body.tags, tag);
    }
    forall tag | tag in AllWrittenTags(WriterMembers(body.members)) && tag !in GroupTags(body.groups)
      ensures Lookup(LayoutSet(d, name).groups, tag) == None
    {
      PlainTagIsPlain(d, name, message, sites, index, body, tag);
    }
  }

  /**
   A body written by the writer generated for a message, after its check passed, is read back through
   the message's layout as the tree of the record that was written.
   */
  lemma GeneratedMessageReadsBack(d: S.Dictionary, name: S.Name, message: Views.MessageModel, sites: seq<ViewLevels.Site>,
                                  paths: seq<set<S.Name>>, index: map<S.Address, nat>, body: Level, outer: set<Tag>,
                                  header: seq<Item>, record: Record, trailer: seq<Item>, grammar: (Tag, seq<Byte>) -> bool)
    requires Agreement.MessageIsUnguarded(d, name) && Sites.SitesAreRight(d, sites, paths, index, {})
    requires Views.MessageIsRight(d, name, message, index)
    requires Unfolds(sites, message.body, body) && Readable(d, body, outer)
    requires Typed(record, body) && Check(record, body, grammar).None? && Emit(record, body).error.None?
    requires |Sent(header, record, body, trailer)| <= U64_MAX
    ensures ValidSet(LayoutSet(d, name))
    ensures Surround(header, WrittenItems(record, body), trailer, LayoutSet(d, name), outer) ==>
              var items := Message.MessageItems(Sent(header, record, body, trailer), 0, LayoutSet(d, name));
              items == header + WrittenItems(record, body) + trailer && BodyReadsBack(items, header, record, trailer, body, grammar)
  {
    GeneratedBodyIsReadable(d, name, message, sites, paths, index, body, outer);
    if Surround(header, WrittenItems(record, body), trailer, LayoutSet(d, name), outer) {
      WrittenMessageReadsBack(header, record, trailer, body, LayoutSet(d, name), outer, grammar);
    }
  }

  // ----- from a document to the wire and back -----

  /** What was generated for a message: it agrees with the message's layout, and `body` is its body as a tree. */
  ghost predicate Compiled(d: S.Dictionary, name: S.Name, message: Views.MessageModel, sites: seq<ViewLevels.Site>,
                           paths: seq<set<S.Name>>, index: map<S.Address, nat>, body: Level) {
    && Agreement.MessageIsUnguarded(d, name)
    && Sites.SitesAreRight(d, sites, paths, index, {}) && Views.MessageIsRight(d, name, message, index)
    && (forall k :: Agreement.Agrees(d, name, message, sites, k))
    && Unfolds(sites, message.body, body)
  }

  /** In a dictionary assembled from a document, whatever the generator makes of a message is compiled. */
  lemma AssembledIsCompiled(doc: Assembly.Document, d: S.Dictionary, name: S.Name, message: Views.MessageModel,
                            sites: seq<ViewLevels.Site>, paths: seq<set<S.Name>>, index: map<S.Address, nat>) returns (body: Level)
    requires Assembly.Assembles(doc, d) && name in d.messages
    requires Sites.SitesAreRight(d, sites, paths, index, {}) && Views.MessageIsRight(d, name, message, index)
    ensures Compiled(d, name, message, sites, paths, index, body)
  {
    Assembly.AssembledIsGrounded(doc, d, name);
    Agreement.GroundedIsUnguarded(d, name);
    body := BodyUnfolds(d, name, message, sites, paths, index);
    forall k ensures Agreement.Agrees(d, name, message, sites, k) {
      Agreement.ExpansionsAgree(d, name, message, sites, paths, index, k);
    }
  }

  /** Of the messages, the first `n` are compiled. */
  ghost predicate AllCompiled(d: S.Dictionary, names: seq<S.Name>, messages: seq<Views.MessageModel>, sites: seq<ViewLevels.Site>,
                              paths: seq<set<S.Name>>, index: map<S.Address, nat>, bodies: seq<Level>, n: nat) {
    && n == |bodies| <= |messages| == |names|
    && forall m :: 0 <= m < n ==> Compiled(d, names[m], messages[m], sites, paths, index, bodies[m])
  }

  lemma {:induction false} AllAreCompiled(doc: Assembly.Document, d: S.Dictionary, names: seq<S.Name>, messages: seq<Views.MessageModel>,
                                          sites: seq<ViewLevels.Site>, paths: seq<set<S.Name>>, index: map<S.Address, nat>, n: nat)
    returns (bodies: seq<Level>)
    requires Assembly.Assembles(doc, d) && n <= |messages| == |names|
    requires Sites.SitesAreRight(d, sites, paths, index, {}) && Agreement.AllMade(d, names, messages, index)
    ensures AllCompiled(d, names, messages, sites, paths, index, bodies, n)
    decreases n
  {
    bodies := [];
    if n > 0 {
      var before := AllAreCompiled(doc, d, names, messages, sites, paths, index, n - 1);
      var body := AssembledIsCompiled(doc, d, names[n - 1], messages[n - 1], sites, paths, index);
      bodies := before + [body];
      forall m | 0 <= m < n ensures Compiled(d, names[m], messages[m], sites, paths, index, bodies[m]) {
        assert m < n - 1 ==> bodies[m] == before[m];
      }
    }
  }

  /** Assembles a document and generates its messages: without error, every one of them is compiled. */
  method Compile(doc: Assembly.Document, names: seq<S.Name>)
    returns (built: Result<S.Dictionary, Loader.LoadError>, error: Option<References.GeneratorError>,
             messages: seq<Views.MessageModel>, sites: seq<ViewLevels.Site>,
             ghost paths: seq<set<S.Name>>, ghost index: map<S.Address, nat>, ghost bodies: seq<Level>)
    requires forall c :: c in doc.order <==> c in doc.components
    requires forall n :: n in names ==> exists m :: 0 <= m < |doc.messages| && doc.messages[m].0 == n
    ensures built.Ok? <==> Assembly.Assemblable(doc)
    ensures built.Ok? ==> Assembly.Assembles(doc, built.value)
    ensures built.Ok? && error.None? ==> AllCompiled(built.value, names, messages, sites, paths, index, bodies, |names|)
  {
    built := Assembly.Assemble(doc);
    error, messages, sites, paths, index, bodies := None, [], [], [], map[], [];
    if built.Err? {
      return;
    }
    error, messages, sites, paths, index := Agreement.Generate(built.value, names);
    if error.Some? {
      return;
    }
    bodies := AllAreCompiled(doc, built.value, names, messages, sites, paths, index, |names|);
  }

  /**
   From the dictionary to the wire and back: of a message that was compiled, sent by its generated writer
   between header and trailer, reading any group of its body through the message's layout gives the records
   it was written with, or nothing when it was left out.
   */
  lemma CompiledGroupReadsBack(d: S.Dictionary, name: S.Name, message: Views.MessageModel, sites: seq<ViewLevels.Site>,
                               paths: seq<set<S.Name>>, index: map<S.Address, nat>, body: Level, outer: set<Tag>,
                               header: seq<Item>, record: Record, trailer: seq<Item>, grammar: (Tag, seq<Byte>) -> bool, m: nat)
    requires Compiled(d, name, message, sites, paths, index, body) && Readable(d, body, outer)
    requires Typed(record, body) && Check(record, body, grammar).None? && Emit(record, body).error.None?
    requires |Sent(header, record, body, trailer)| <= U64_MAX
    requires m < |WriterMembers(body.members)| == |record.inputs| && WriterMembers(body.members)[m].GroupM?
    requires Without(header, WriterMembers(body.members)[m].Tag()) && Without(trailer, WriterMembers(body.members)[m].Tag())
    ensures ValidSet(LayoutSet(d, name))
    ensures Surround(header, WrittenItems(record, body), trailer, LayoutSet(d, name), outer) ==>
              GroupReadsBack(record, body, LayoutSet(d, name), m,
                             Message.MessageItems(Sent(header, record, body, trailer), 0, LayoutSet(d, name)), grammar)
  {
    GeneratedBodyIsReadable(d, name, message, sites, paths, index, body, outer);
    if Surround(header, WrittenItems(record, body), trailer, LayoutSet(d, name), outer) {
      WrittenGroupReadsBack(header, record, trailer, body, LayoutSet(d, name), outer, grammar, m);
    }
  }
}
