/** Reading a local store into a dump. The store is what the queries return: a
    table may be missing, a column may be missing, and a link may name a row
    that is not there. */
module StoreExtract {
  import opened Text
  import opened DumpFormat

  // ------------------------------------------------------------------- the store

  datatype NoteRow = NoteRow(
    id: Int64,
    projectId: Option<Int64>,
    kind: string,
    title: string,
    body: string,
    tags: Option<string>,
    linkedFiles: Option<string>,
    createdAt: Int64,
    status: Option<string>,
    supersededBy: Option<Int64>,
    sourceRef: Option<string>,
    validAt: Option<Int64>,
    invalidAt: Option<Int64>,
    uuid: Option<string>,
    remoteId: Option<string>,
    entityId: Option<string>)

  datatype EdgeRow = EdgeRow(from: Int64, to: Int64, kind: string, createdAt: Option<Int64>)

  datatype ProjectRow = ProjectRow(id: Int64, slug: string, rootPath: string, registeredAt: Option<Int64>)

  datatype UsageRow = UsageRow(command: string, calledAt: Int64)

  /** A table as far as the reader looks: its columns and its rows in query order. */
  datatype Table<R> = Table(columns: set<string>, rows: seq<R>)

  /** The queries that the reader makes; any of them may fail, at a row or at all. */
  datatype Query = SlugsQuery | NotesQuery | EdgesQuery | ProjectsQuery | DepsQuery | UsageQuery

  datatype Store = Store(
    notes: Option<Table<NoteRow>>,
    projects: Option<Table<ProjectRow>>,
    usage: Option<seq<UsageRow>>,
    memoryEdges: Option<Table<EdgeRow>>,
    noteEdges: Option<Table<EdgeRow>>,
    projectDeps: Option<seq<(Int64, Int64)>>,
    failing: set<Query>)

  /** Row ids are primary keys, and the queries order by them. */
  predicate ValidStore(s: Store) {
    && (s.notes.Some? ==>
          forall i, j :: 0 <= i < j < |s.notes.value.rows| ==> s.notes.value.rows[i].id < s.notes.value.rows[j].id)
    && (s.projects.Some? ==>
          forall i, j :: 0 <= i < j < |s.projects.value.rows| ==>
            s.projects.value.rows[i].id < s.projects.value.rows[j].id)
  }

  /** A column that the table does not have reads as NULL. */
  function Column<T>(columns: set<string>, name: string, v: Option<T>): Option<T> {
    if name in columns then v else None
  }

  const REQUIRED: seq<string> := ["id", "kind", "title", "body", "created_at"]

  function Missing(columns: set<string>, needed: seq<string>): seq<string> {
    if needed == [] then []
    else (if needed[0] in columns then [] else [needed[0]]) + Missing(columns, needed[1..])
  }

  // ----------------------------------------------------------------------- lists

  /** The white space that trimming removes. */
  predicate IsWhitespace(c: char) {
    var n := c as int;
    9 <= n <= 13 || n == 0x20 || n == 0x85 || n == 0xA0 || n == 0x1680 || 0x2000 <= n <= 0x200A
    || n == 0x2028 || n == 0x2029 || n == 0x202F || n == 0x205F || n == 0x3000
  }

  function Trim(s: string): string {
    if s == "" then ""
    else if IsWhitespace(s[0]) then Trim(s[1..])
    else if IsWhitespace(s[|s| - 1]) then Trim(s[..|s| - 1])
    else s
  }

  /** The comma-joined parts, trimmed, without the empty ones; `part` is what
      has been read of the current one. */
  function SplitList(s: string, part: string): seq<string>
    decreases |s|
  {
    var last := if Trim(part) == "" then [] else [Trim(part)];
    if s == "" then last
    else if s[0] == ',' then last + SplitList(s[1..], "")
    else SplitList(s[1..], part + [s[0]])
  }

  function List(value: Option<string>): seq<string> {
    if value.None? || value.value == "" then [] else SplitList(value.value, "")
  }

  // -------------------------------------------------------------------- entities

  predicate Namespaced(t: Table<NoteRow>) { "project_id" in t.columns }

  function RefTo(prefix: char, id: int): string { [prefix] + IntToString(id) }

  lemma RefToInjective(p: char, a: int, q: char, b: int)
    requires RefTo(p, a) == RefTo(q, b)
    ensures p == q && a == b
  {
    assert RefTo(p, a)[0] == RefTo(q, b)[0];
    assert RefTo(p, a)[1..] == IntToString(a) && RefTo(q, b)[1..] == IntToString(b);
    IntToStringInjective(a, b);
  }

  /** The letter that keeps the references of a notes table apart. */
  function EntryPrefix(t: Table<NoteRow>): char { if Namespaced(t) then 'n' else 'e' }

  function Slugs(rows: seq<ProjectRow>): map<Int64, string> {
    if rows == [] then map[]
    else Slugs(rows[..|rows| - 1])[rows[|rows| - 1].id := rows[|rows| - 1].slug]
  }

  function SlugsOf(s: Store): map<Int64, string> {
    if s.projects.Some? && "slug" in s.projects.value.columns then Slugs(s.projects.value.rows) else map[]
  }

  function EntryOf(t: Table<NoteRow>, slugs: map<Int64, string>, row: NoteRow): MemoryEntry {
    MemoryEntry(
      RefTo(EntryPrefix(t), row.id),
      if Namespaced(t) then None else Column(t.columns, "uuid", row.uuid),
      row.kind,
      row.title,
      row.body,
      List(Column(t.columns, "tags", row.tags)),
      List(Column(t.columns, "linked_files", row.linkedFiles)),
      row.createdAt,
      Column(t.columns, "status", row.status),
      Column(t.columns, "source_ref", row.sourceRef),
      Column(t.columns, "valid_at", row.validAt),
      Column(t.columns, "invalid_at", row.invalidAt),
      Column(t.columns, "entity_id", row.entityId),
      Column(t.columns, "remote_id", row.remoteId),
      if Namespaced(t) && row.projectId.Some? && row.projectId.value in slugs
      then Some(slugs[row.projectId.value]) else None)
  }

  function EntriesOf(s: Store): seq<MemoryEntry> {
    if s.notes.None? then []
    else
      var t := s.notes.value;
      seq(|t.rows|, i requires 0 <= i < |t.rows| => EntryOf(t, SlugsOf(s), t.rows[i]))
  }

  function ProjectsOf(s: Store): seq<Project> {
    if s.projects.None? || "root_path" !in s.projects.value.columns then []
    else
      var t := s.projects.value;
      seq(|t.rows|, i requires 0 <= i < |t.rows| =>
        Project(RefTo('p', t.rows[i].id), t.rows[i].rootPath,
                Column(t.columns, "registered_at", t.rows[i].registeredAt)))
  }

  function UsageOf(s: Store): seq<CommandUsage> {
    if s.usage.None? then []
    else
      var rows := s.usage.value;
      seq(|rows|, i requires 0 <= i < |rows| => CommandUsage(RefTo('u', i), rows[i].command, rows[i].calledAt))
  }

  // ----------------------------------------------------------------------- links

  /** A link as a store encodes it: on the superseded row, or as an edge row. */
  datatype Link =
    | Lifecycle(successor: Int64, predecessor: Int64)
    | Edge(kind: string, from: Int64, to: Int64, createdAt: Option<Int64>)
  {
    /** The entry the link leads from; supersession leads from the successor. */
    function From(): Int64 { if Lifecycle? then successor else from }

    function To(): Int64 { if Lifecycle? then predecessor else to }

    function Kind(): string { if Lifecycle? then "supersedes" else kind }

    function Stamp(): Option<Int64> { if Lifecycle? then None else createdAt }

    predicate Resolves(present: set<Int64>) { From() in present && To() in present }
  }

  function LifecycleLinks(t: Table<NoteRow>, rows: seq<NoteRow>): seq<Link> {
    if rows == [] then []
    else
      var row := rows[|rows| - 1];
      var successor := Column(t.columns, "superseded_by", row.supersededBy);
      LifecycleLinks(t, rows[..|rows| - 1])
      + (if successor.Some? then [Lifecycle(successor.value, row.id)] else [])
  }

  function EdgeLinks(t: Table<EdgeRow>): (ls: seq<Link>)
    ensures |ls| == |t.rows|
  {
    seq(|t.rows|, i requires 0 <= i < |t.rows| =>
      Edge(t.rows[i].kind, t.rows[i].from, t.rows[i].to, Column(t.columns, "created_at", t.rows[i].createdAt)))
  }

  function EdgesTable(s: Store): Option<Table<EdgeRow>> {
    if s.notes.Some? && Namespaced(s.notes.value) then s.noteEdges else s.memoryEdges
  }

  /** Every link of a store between entries, lifecycle columns first. */
  function EntryLinks(s: Store): seq<Link> {
    if s.notes.None? then []
    else
      LifecycleLinks(s.notes.value, s.notes.value.rows)
      + (if EdgesTable(s).Some? then EdgeLinks(EdgesTable(s).value) else [])
  }

  function Ids(rows: seq<NoteRow>): set<Int64> { set i | 0 <= i < |rows| :: rows[i].id }

  function ProjectIds(rows: seq<ProjectRow>): set<Int64> { set i | 0 <= i < |rows| :: rows[i].id }

  function LinkWarning(l: Link): string {
    match l
    case Lifecycle(successor, predecessor) =>
      "entry " + IntToString(predecessor) + " names a successor (" + IntToString(successor)
      + ") that is not in the store; the supersede link is not carried"
    case Edge(kind, from, to, _) =>
      "a '" + kind + "' link between " + IntToString(from) + " and " + IntToString(to)
      + " names an entry that is not in the store; it is not carried"
  }

  /** One warning for each link that does not resolve, in link order. */
  function LinkWarnings(links: seq<Link>, present: set<Int64>): seq<string> {
    if links == [] then []
    else
      LinkWarnings(links[..|links| - 1], present)
      + (if links[|links| - 1].Resolves(present) then [] else [LinkWarning(links[|links| - 1])])
  }

  function Resolved(links: seq<Link>, present: set<Int64>): seq<Link> {
    if links == [] then []
    else
      Resolved(links[..|links| - 1], present)
      + (if links[|links| - 1].Resolves(present) then [links[|links| - 1]] else [])
  }

  /** What makes two links one relationship. */
  type Triple = (string, string, string)

  function TripleOf(l: Link, prefix: char): Triple {
    (l.Kind(), RefTo(prefix, l.From()), RefTo(prefix, l.To()))
  }

  /** The first time stamp among the links of a triple. */
  function FirstStamp(links: seq<Link>, prefix: char, t: Triple): Option<Int64> {
    if links == [] then None
    else
      var earlier := FirstStamp(links[..|links| - 1], prefix, t);
      var l := links[|links| - 1];
      if earlier.Some? || TripleOf(l, prefix) != t then earlier else l.Stamp()
  }

  function TripleOfRelationship(r: Relationship): Triple { (r.kind, r.from, r.to) }

  /** A set of relationships merges links: one relationship for each triple
      some link has, none for any other, and the first stamp of the triple. */
  ghost predicate Merges(rels: set<Relationship>, links: seq<Link>, prefix: char) {
    && (forall r :: r in rels ==>
          (exists l :: l in links && TripleOf(l, prefix) == TripleOfRelationship(r))
          && r.createdAt == FirstStamp(links, prefix, TripleOfRelationship(r)))
    && (forall l :: l in links ==> Relates(rels, TripleOf(l, prefix)))
  }

  ghost predicate Relates(rels: set<Relationship>, t: Triple) {
    exists r :: r in rels && TripleOfRelationship(r) == t
  }

  /** Merging leaves no two relationships with one triple, so nothing is carried twice. */
  lemma MergesOnce(rels: set<Relationship>, links: seq<Link>, prefix: char, a: Relationship, b: Relationship)
    requires Merges(rels, links, prefix) && a in rels && b in rels
    requires TripleOfRelationship(a) == TripleOfRelationship(b)
    ensures a == b
  {
  }

  /** Whether no link is stamped before the first stamped one of its triple. */
  predicate FirstIsEarliest(links: seq<Link>, prefix: char) {
    forall j :: 0 <= j < |links| && links[j].Stamp().Some? ==>
      NotAfter(FirstStamp(links[..j], prefix, TripleOf(links[j], prefix)), links[j].Stamp().value)
  }

  predicate NotAfter(a: Option<Int64>, b: Int64) { a.Some? ==> a.value <= b }

  /** Whether every relationship has the earliest stamp among the links it merges. */
  ghost predicate EarliestStamps(rels: set<Relationship>, links: seq<Link>, prefix: char) {
    forall r, l :: r in rels && l in links && TripleOf(l, prefix) == TripleOfRelationship(r) && l.Stamp().Some? ==>
      r.createdAt.Some? && r.createdAt.value <= l.Stamp().value
  }

  lemma {:induction false} FirstStampStays(links: seq<Link>, prefix: char, t: Triple, j: nat)
    requires j <= |links| && FirstStamp(links[..j], prefix, t).Some?
    ensures FirstStamp(links, prefix, t) == FirstStamp(links[..j], prefix, t)
  {
    if j == |links| {
      assert links[..j] == links;
    } else {
      assert links[..|links| - 1][..j] == links[..j];
      FirstStampStays(links[..|links| - 1], prefix, t, j);
    }
  }

  /** The stamp in force once link `j` has been merged. */
  lemma FirstStampAfter(links: seq<Link>, prefix: char, j: nat)
    requires j < |links| && links[j].Stamp().Some?
    ensures
      var t := TripleOf(links[j], prefix);
      var before := FirstStamp(links[..j], prefix, t);
      FirstStamp(links, prefix, t) == if before.Some? then before else links[j].Stamp()
  {
    var t := TripleOf(links[j], prefix);
    assert links[..j + 1][..j] == links[..j];
    FirstStampStays(links, prefix, t, j + 1);
  }

  /** Keeping the first stamp keeps the earliest exactly when no link is stamped
      before the first stamped one of its triple. */
  lemma EarliestExactly(rels: set<Relationship>, links: seq<Link>, prefix: char)
    requires Merges(rels, links, prefix)
    ensures EarliestStamps(rels, links, prefix) <==> FirstIsEarliest(links, prefix)
  {
    hide FirstStamp, TripleOf;
    forall j | 0 <= j < |links| && links[j].Stamp().Some?
      ensures EarliestStamps(rels, links, prefix) ==>
        NotAfter(FirstStamp(links[..j], prefix, TripleOf(links[j], prefix)), links[j].Stamp().value)
    {
      FirstStampAfter(links, prefix, j);
      assert links[j] in links && Relates(rels, TripleOf(links[j], prefix));
    }
    if FirstIsEarliest(links, prefix) {
      forall r, l | r in rels && l in links && TripleOf(l, prefix) == TripleOfRelationship(r) && l.Stamp().Some?
        ensures r.createdAt.Some? && r.createdAt.value <= l.Stamp().value
      {
        var j :| 0 <= j < |links| && links[j] == l;
        FirstStampAfter(links, prefix, j);
      }
    }
  }

  /** Two rows of one triple, the later one stamped earlier: the first is kept. */
  lemma LaterRowEarlier()
    ensures
      var links := [Edge("relates_to", 1, 2, Some(20)), Edge("relates_to", 1, 2, Some(10))];
      FirstStamp(links, 'e', TripleOf(links[1], 'e')) == Some(20) && links[1].Stamp() == Some(10) &&
      forall rels :: Merges(rels, links, 'e') ==> !EarliestStamps(rels, links, 'e')
  {
    var links := [Edge("relates_to", 1, 2, Some(20)), Edge("relates_to", 1, 2, Some(10))];
    assert links[..1][..0] == [] && links[..1][0] == links[0];
    assert FirstStamp(links[..1], 'e', TripleOf(links[1], 'e')) == Some(20);
    forall rels | Merges(rels, links, 'e') ensures !EarliestStamps(rels, links, 'e') {
      EarliestExactly(rels, links, 'e');
    }
  }

  lemma FirstStampSnoc(links: seq<Link>, l: Link, prefix: char, t: Triple)
    ensures FirstStamp(links + [l], prefix, t) ==
      if FirstStamp(links, prefix, t).Some? || TripleOf(l, prefix) != t then FirstStamp(links, prefix, t)
      else l.Stamp()
  {
    assert (links + [l])[..|links|] == links;
  }

  lemma LinksSnoc(links: seq<Link>, l: Link, present: set<Int64>)
    ensures Resolved(links + [l], present)
         == if l.Resolves(present) then Resolved(links, present) + [l] else Resolved(links, present)
    ensures LinkWarnings(links + [l], present)
         == LinkWarnings(links, present) + if l.Resolves(present) then [] else [LinkWarning(l)]
  {
    assert (links + [l])[..|links|] == links;
    assert forall ls: seq<Link> :: ls + [] == ls;
    assert forall ws: seq<string> :: ws + [] == ws;
  }

  lemma {:induction false} LinksCounted(links: seq<Link>, present: set<Int64>)
    ensures |Resolved(links, present)| + |LinkWarnings(links, present)| == |links|
  {
    if links != [] {
      LinksCounted(links[..|links| - 1], present);
    }
  }

  lemma {:induction false} ResolvedLinks(links: seq<Link>, present: set<Int64>)
    ensures forall l :: l in Resolved(links, present) <==> l in links && l.Resolves(present)
  {
    hide Link.Resolves;
    if links != [] {
      var (init, last) := (links[..|links| - 1], links[|links| - 1]);
      ResolvedLinks(init, present);
      assert links == init + [last];
    }
  }

  /** Each link is accounted for once: it resolves, or it has its warning. */
  lemma LinksAccountedFor(links: seq<Link>, present: set<Int64>)
    ensures |Resolved(links, present)| + |LinkWarnings(links, present)| == |links|
    ensures forall l :: l in Resolved(links, present) <==> l in links && l.Resolves(present)
  {
    LinksCounted(links, present);
    ResolvedLinks(links, present);
    hide *;
  }

  // ---------------------------------------------------------------- dependencies

  /** The dependency rows that are read at all: those of a registry of projects. */
  function Deps(s: Store): seq<(Int64, Int64)> {
    if s.projects.Some? && "root_path" in s.projects.value.columns && s.projectDeps.Some?
    then s.projectDeps.value else []
  }

  function DepsCarried(deps: seq<(Int64, Int64)>, present: set<Int64>): seq<Relationship> {
    if deps == [] then []
    else
      var d := deps[|deps| - 1];
      DepsCarried(deps[..|deps| - 1], present)
      + (if d.0 in present && d.1 in present
         then [Relationship("depends_on", RefTo('p', d.0), RefTo('p', d.1), None)] else [])
  }

  function DepWarning(d: (Int64, Int64)): string {
    "a dependency between projects " + IntToString(d.0) + " and " + IntToString(d.1)
    + " names a project that is not registered; it is not carried"
  }

  function DepWarnings(deps: seq<(Int64, Int64)>, present: set<Int64>): seq<string> {
    if deps == [] then []
    else
      var d := deps[|deps| - 1];
      DepWarnings(deps[..|deps| - 1], present)
      + (if d.0 in present && d.1 in present then [] else [DepWarning(d)])
  }

  /** Each dependency is carried or has its warning. */
  lemma {:induction false} DepsAccountedFor(deps: seq<(Int64, Int64)>, present: set<Int64>)
    ensures |DepsCarried(deps, present)| + |DepWarnings(deps, present)| == |deps|
  {
    if deps != [] {
      DepsAccountedFor(deps[..|deps| - 1], present);
    }
  }

  // ------------------------------------------------------------- the whole store

  datatype ReadError = MissingColumns(columns: seq<string>) | QueryFailed(query: Query)

  predicate IsRegistry(s: Store) { s.projects.Some? && "root_path" in s.projects.value.columns }

  predicate ReadsSlugs(s: Store) {
    s.notes.Some? && Namespaced(s.notes.value) && s.projects.Some? && "slug" in s.projects.value.columns
  }

  /** The first of the queries made that fails. */
  function FirstFailing(s: Store): Option<Query> {
    if ReadsSlugs(s) && SlugsQuery in s.failing then Some(SlugsQuery)
    else if s.notes.Some? && NotesQuery in s.failing then Some(NotesQuery)
    else if s.notes.Some? && EdgesTable(s).Some? && EdgesQuery in s.failing then Some(EdgesQuery)
    else if IsRegistry(s) && ProjectsQuery in s.failing then Some(ProjectsQuery)
    else if IsRegistry(s) && s.projectDeps.Some? && DepsQuery in s.failing then Some(DepsQuery)
    else if s.usage.Some? && UsageQuery in s.failing then Some(UsageQuery)
    else None
  }

  /** Why a store is not read: its notes lack columns, or a query fails. */
  function ReadFailure(s: Store): Option<ReadError> {
    if s.notes.Some? && Missing(s.notes.value.columns, REQUIRED) != [] then
      Some(MissingColumns(Missing(s.notes.value.columns, REQUIRED)))
    else
      match FirstFailing(s)
      case None => None
      case Some(q) => Some(QueryFailed(q))
  }

  datatype Extract = Extract(dump: Dump, warnings: seq<string>)

  function NoteIds(s: Store): set<Int64> {
    if s.notes.Some? then Ids(s.notes.value.rows) else {}
  }

  function RegisteredIds(s: Store): set<Int64> {
    if s.projects.Some? then ProjectIds(s.projects.value.rows) else {}
  }

  function AsSet(rels: seq<Relationship>): set<Relationship> { set r | r in rels }

  /** What an extract of a store is: every entity; the links between entries,
      merged, in `carried`; the dependencies; and a warning for each link and
      each dependency that does not resolve. */
  ghost predicate IsExtract(s: Store, x: Extract, carried: seq<Relationship>) {
    && x.dump.entries == EntriesOf(s)
    && x.dump.projects == ProjectsOf(s)
    && x.dump.usage == UsageOf(s)
    && x.dump.relationships == carried + DepsCarried(Deps(s), RegisteredIds(s))
    && (s.notes.Some? ==> Merges(AsSet(carried), Resolved(EntryLinks(s), NoteIds(s)), EntryPrefix(s.notes.value)))
    && (s.notes.None? ==> carried == [])
    && x.warnings == LinkWarnings(EntryLinks(s), NoteIds(s)) + DepWarnings(Deps(s), RegisteredIds(s))
  }
}
