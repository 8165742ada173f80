/** What an extract holds, field by field: each row of a store is found in the
    dump with its own values, and each link is carried or warned about. */
module ExtractContents {
  import opened Text
  import opened DumpFormat
  import opened StoreExtract

  // ----------------------------------------------------------------------- lists

  predicate Blank(s: string) { forall i :: 0 <= i < |s| ==> IsWhitespace(s[i]) }

  /** A text is another with the white space around it cut off. */
  ghost predicate TrimsTo(s: string, t: string) {
    && (exists a, b :: Blank(a) && Blank(b) && s == a + t + b)
    && (t != "" ==> !IsWhitespace(t[0]) && !IsWhitespace(t[|t| - 1]))
  }

  function Joined(parts: seq<string>): string
    requires parts != []
  {
    if |parts| == 1 then parts[0] else parts[0] + "," + Joined(parts[1..])
  }

  /** The items of a list are its parts trimmed, in order; a blank part is none. */
  ghost predicate ItemsOf(parts: seq<string>, items: seq<string>) {
    if parts == [] then items == []
    else if Blank(parts[0]) then ItemsOf(parts[1..], items)
    else items != [] && items[0] != "" && TrimsTo(parts[0], items[0]) && ItemsOf(parts[1..], items[1..])
  }

  /** A text cut at every comma. */
  predicate CutAtCommas(value: string, parts: seq<string>) {
    parts != [] && value == Joined(parts) && forall p :: p in parts ==> ',' !in p
  }

  ghost predicate ListOf(value: string, items: seq<string>) {
    exists parts :: CutAtCommas(value, parts) && ItemsOf(parts, items)
  }

  lemma {:induction false} TrimCuts(s: string) returns (a: string, b: string)
    ensures Blank(a) && Blank(b) && s == a + Trim(s) + b
  {
    if s == "" {
      a, b := "", "";
    } else if IsWhitespace(s[0]) {
      a, b := TrimCuts(s[1..]);
      hide IsWhitespace;
      assert [s[0]] + s[1..] == [s[0]] + a + Trim(s[1..]) + b;
      a := [s[0]] + a;
    } else if IsWhitespace(s[|s| - 1]) {
      a, b := TrimCuts(s[..|s| - 1]);
      hide IsWhitespace;
      assert s[..|s| - 1] + [s[|s| - 1]] == a + Trim(s[..|s| - 1]) + (b + [s[|s| - 1]]);
      b := b + [s[|s| - 1]];
    } else {
      a, b := "", "";
    }
  }

  lemma {:induction false} TrimEnds(s: string)
    ensures Trim(s) != "" ==> !IsWhitespace(Trim(s)[0]) && !IsWhitespace(Trim(s)[|Trim(s)| - 1])
  {
    if s != "" {
      if IsWhitespace(s[0]) {
        TrimEnds(s[1..]);
      } else if IsWhitespace(s[|s| - 1]) {
        TrimEnds(s[..|s| - 1]);
      }
    }
  }

  lemma TrimTrims(s: string)
    ensures TrimsTo(s, Trim(s))
  {
    var a, b := TrimCuts(s);
    TrimEnds(s);
    hide Trim, Blank;
  }

  lemma TrimOfBlank(s: string)
    ensures Blank(s) <==> Trim(s) == ""
  {
    var a, b := TrimCuts(s);
    TrimEnds(s);
    assert Trim(s) != "" ==> s[|a|] == Trim(s)[0];
  }

  lemma ItemsOfFirst(part: string, parts: seq<string>, items: seq<string>)
    requires ItemsOf(parts, items)
    ensures ItemsOf([part] + parts, (if Trim(part) == "" then [] else [Trim(part)]) + items)
  {
    TrimTrims(part);
    TrimOfBlank(part);
    hide Trim, TrimsTo, Blank;
    assert ([part] + parts)[1..] == parts;
    assert [] + items == items && ([Trim(part)] + items)[1..] == items;
  }

  lemma {:induction false} SplitLists(s: string, part: string) returns (parts: seq<string>)
    requires ',' !in part
    ensures CutAtCommas(part + s, parts) && ItemsOf(parts, SplitList(s, part))
    decreases |s|
  {
    hide Trim, ItemsOf;
    if s == "" {
      parts := [part];
      NoItems();
      ItemsOfFirst(part, [], []);
      assert part + s == part && [part] + [] == [part];
      assert SplitList(s, part) + [] == SplitList(s, part);
    } else if s[0] == ',' {
      var rest := SplitLists(s[1..], "");
      parts := [part] + rest;
      ItemsOfFirst(part, rest, SplitList(s[1..], ""));
      assert "" + s[1..] == s[1..] && parts[1..] == rest;
      assert part + s == part + "," + s[1..];
      assert Joined(parts) == part + "," + Joined(rest);
      assert forall p :: p in parts <==> p == part || p in rest;
    } else {
      parts := SplitLists(s[1..], part + [s[0]]);
      assert part + s == part + [s[0]] + s[1..];
    }
  }

  lemma NoItems()
    ensures ItemsOf([], [])
  {
  }

  lemma ListLists(value: Option<string>)
    ensures if value.None? || value.value == "" then List(value) == [] else ListOf(value.value, List(value))
  {
    if value.Some? && value.value != "" {
      var parts := SplitLists(value.value, "");
      assert "" + value.value == value.value;
    }
  }

  // -------------------------------------------------------------------- entities

  /** The list column of a row, if the table has it and the row fills it. */
  ghost predicate ListColumn(present: bool, value: Option<string>, items: seq<string>) {
    if present && value.Some? && value.value != "" then ListOf(value.value, items) else items == []
  }

  /** The last row of a table with an id. */
  predicate LastWithId(rows: seq<ProjectRow>, id: Int64, j: nat) {
    j < |rows| && rows[j].id == id && forall k :: j < k < |rows| ==> rows[k].id != id
  }

  /** An entry has the values of its row: the required columns, each optional
      column that its table has, and the project's slug in a table of several
      projects, where a stable id is not taken over. */
  ghost predicate EntryCarried(s: Store, columns: set<string>, row: NoteRow, e: MemoryEntry) {
    && e.reference == (if "project_id" in columns then "n" else "e") + IntToString(row.id)
    && e.kind == row.kind
    && e.title == row.title
    && e.body == row.body
    && e.createdAt == row.createdAt
    && ListColumn("tags" in columns, row.tags, e.tags)
    && ListColumn("linked_files" in columns, row.linkedFiles, e.linkedFiles)
    && e.status == (if "status" in columns then row.status else None)
    && e.sourceRef == (if "source_ref" in columns then row.sourceRef else None)
    && e.validAt == (if "valid_at" in columns then row.validAt else None)
    && e.invalidAt == (if "invalid_at" in columns then row.invalidAt else None)
    && e.entityId == (if "entity_id" in columns then row.entityId else None)
    && e.remoteId == (if "remote_id" in columns then row.remoteId else None)
    && e.uuid == (if "uuid" in columns && "project_id" !in columns then row.uuid else None)
    && (if "project_id" in columns && row.projectId.Some? && s.projects.Some? && "slug" in s.projects.value.columns
           && exists k :: 0 <= k < |s.projects.value.rows| && s.projects.value.rows[k].id == row.projectId.value
        then exists k: nat :: LastWithId(s.projects.value.rows, row.projectId.value, k)
                         && e.namespace == Some(s.projects.value.rows[k].slug)
        else e.namespace == None)
  }

  /** Each row of a store in its place, in row order, and nothing else. */
  ghost predicate Contents(s: Store, d: Dump) {
    && |d.entries| == (if s.notes.Some? then |s.notes.value.rows| else 0)
    && (forall i :: 0 <= i < |d.entries| ==>
          EntryCarried(s, s.notes.value.columns, s.notes.value.rows[i], d.entries[i]))
    && |d.projects| == (if s.projects.Some? && "root_path" in s.projects.value.columns
                        then |s.projects.value.rows| else 0)
    && (forall i :: 0 <= i < |d.projects| ==>
          var row := s.projects.value.rows[i];
          && d.projects[i].reference == "p" + IntToString(row.id)
          && d.projects[i].rootPath == row.rootPath
          && d.projects[i].registeredAt
             == (if "registered_at" in s.projects.value.columns then row.registeredAt else None))
    && |d.usage| == (if s.usage.Some? then |s.usage.value| else 0)
    && (forall i :: 0 <= i < |d.usage| ==>
          && d.usage[i].reference == "u" + IntToString(i)
          && d.usage[i].command == s.usage.value[i].command
          && d.usage[i].at == s.usage.value[i].calledAt)
  }

  lemma {:induction false} SlugsLast(rows: seq<ProjectRow>, id: Int64)
    ensures id in Slugs(rows) <==> exists k :: 0 <= k < |rows| && rows[k].id == id
    ensures id in Slugs(rows) ==> exists k: nat :: LastWithId(rows, id, k) && Slugs(rows)[id] == rows[k].slug
  {
    if rows != [] {
      var (init, last) := (rows[..|rows| - 1], rows[|rows| - 1]);
      SlugsLast(init, id);
      if last.id == id {
        assert LastWithId(rows, id, |rows| - 1);
      } else if id in Slugs(init) {
        var k: nat :| LastWithId(init, id, k) && Slugs(init)[id] == init[k].slug;
        assert LastWithId(rows, id, k) && rows[k] == init[k];
      } else {
        assert forall k :: 0 <= k < |rows| && rows[k].id == id ==> init[k].id == id;
      }
    }
  }

  lemma NamespaceCarried(s: Store, row: NoteRow)
    requires s.notes.Some?
    ensures var namespace := EntryOf(s.notes.value, SlugsOf(s), row).namespace;
      if "project_id" in s.notes.value.columns && row.projectId.Some? && s.projects.Some?
         && "slug" in s.projects.value.columns
         && exists k :: 0 <= k < |s.projects.value.rows| && s.projects.value.rows[k].id == row.projectId.value
      then exists k: nat :: LastWithId(s.projects.value.rows, row.projectId.value, k)
                            && namespace == Some(s.projects.value.rows[k].slug)
      else namespace == None
  {
    if row.projectId.Some? && s.projects.Some? {
      SlugsLast(s.projects.value.rows, row.projectId.value);
    }
    hide List, Slugs, LastWithId, IntToString;
  }

  lemma EntryIsCarried(s: Store, row: NoteRow)
    requires s.notes.Some?
    ensures EntryCarried(s, s.notes.value.columns, row, EntryOf(s.notes.value, SlugsOf(s), row))
  {
    var columns := s.notes.value.columns;
    ListLists(Column(columns, "tags", row.tags));
    ListLists(Column(columns, "linked_files", row.linkedFiles));
    NamespaceCarried(s, row);
    hide List, ListOf, Slugs, SlugsOf, LastWithId, IntToString;
  }

  lemma ExtractHoldsContents(s: Store, x: Extract, carried: seq<Relationship>)
    requires IsExtract(s, x, carried)
    ensures Contents(s, x.dump)
  {
    hide EntryCarried;
    forall i | 0 <= i < |x.dump.entries|
      ensures EntryCarried(s, s.notes.value.columns, s.notes.value.rows[i], x.dump.entries[i])
    {
      EntryIsCarried(s, s.notes.value.rows[i]);
    }
  }

  // ----------------------------------------------------------------------- links

  predicate HasRow(rows: seq<NoteRow>, id: Int64) { exists k :: 0 <= k < |rows| && rows[k].id == id }

  predicate HasProject(rows: seq<ProjectRow>, id: Int64) { exists k :: 0 <= k < |rows| && rows[k].id == id }

  predicate Carried(rels: seq<Relationship>, kind: string, from: string, to: string) {
    exists r :: r in rels && r.kind == kind && r.from == from && r.to == to
  }

  /** A row that names its successor: carried from the successor to the row, if
      there is such a successor, and warned about if not. */
  ghost predicate SupersedeCarried(t: Table<NoteRow>, row: NoteRow, successor: Int64, x: Extract) {
    var p := if "project_id" in t.columns then "n" else "e";
    if HasRow(t.rows, successor) then
      Carried(x.dump.relationships, "supersedes", p + IntToString(successor), p + IntToString(row.id))
    else
      "entry " + IntToString(row.id) + " names a successor (" + IntToString(successor)
      + ") that is not in the store; the supersede link is not carried" in x.warnings
  }

  ghost predicate EdgeCarried(t: Table<NoteRow>, edge: EdgeRow, x: Extract) {
    var p := if "project_id" in t.columns then "n" else "e";
    if HasRow(t.rows, edge.from) && HasRow(t.rows, edge.to) then
      Carried(x.dump.relationships, edge.kind, p + IntToString(edge.from), p + IntToString(edge.to))
    else
      "a '" + edge.kind + "' link between " + IntToString(edge.from) + " and " + IntToString(edge.to)
      + " names an entry that is not in the store; it is not carried" in x.warnings
  }

  ghost predicate DepCarried(t: Table<ProjectRow>, d: (Int64, Int64), x: Extract) {
    if HasProject(t.rows, d.0) && HasProject(t.rows, d.1) then
      Carried(x.dump.relationships, "depends_on", "p" + IntToString(d.0), "p" + IntToString(d.1))
    else
      "a dependency between projects " + IntToString(d.0) + " and " + IntToString(d.1)
      + " names a project that is not registered; it is not carried" in x.warnings
  }

  /** A several-project store keeps its edges in a table of its own. */
  function EdgesRead(s: Store): Table<EdgeRow>
    requires s.notes.Some?
  {
    var edges := if "project_id" in s.notes.value.columns then s.noteEdges else s.memoryEdges;
    if edges.Some? then edges.value else Table({}, [])
  }

  function EdgeRows(s: Store): seq<EdgeRow>
    requires s.notes.Some?
  {
    EdgesRead(s).rows
  }

  ghost predicate IsSupersede(t: Table<NoteRow>, r: Relationship) {
    var p := if "project_id" in t.columns then "n" else "e";
    exists i :: 0 <= i < |t.rows| && "superseded_by" in t.columns && t.rows[i].supersededBy.Some?
      && HasRow(t.rows, t.rows[i].supersededBy.value)
      && r.kind == "supersedes" && r.from == p + IntToString(t.rows[i].supersededBy.value)
      && r.to == p + IntToString(t.rows[i].id)
  }

  ghost predicate IsEdge(t: Table<NoteRow>, edges: seq<EdgeRow>, r: Relationship) {
    var p := if "project_id" in t.columns then "n" else "e";
    exists i :: 0 <= i < |edges| && HasRow(t.rows, edges[i].from) && HasRow(t.rows, edges[i].to)
      && r.kind == edges[i].kind && r.from == p + IntToString(edges[i].from) && r.to == p + IntToString(edges[i].to)
  }

  predicate SameLink(p: string, edge: EdgeRow, r: Relationship) {
    r.kind == edge.kind && r.from == p + IntToString(edge.from) && r.to == p + IntToString(edge.to)
  }

  /** A relationship between entries has the time stamp of the first stamped edge
      row with its ends and kind, and none if there is no such row. */
  ghost predicate FirstStamped(t: Table<NoteRow>, edges: Table<EdgeRow>, r: Relationship) {
    var p := if "project_id" in t.columns then "n" else "e";
    if r.createdAt.None? then
      forall i :: 0 <= i < |edges.rows| && SameLink(p, edges.rows[i], r) ==>
        "created_at" !in edges.columns || edges.rows[i].createdAt.None?
    else
      exists i :: 0 <= i < |edges.rows| && SameLink(p, edges.rows[i], r)
        && "created_at" in edges.columns && edges.rows[i].createdAt == r.createdAt
        && forall j :: 0 <= j < i && SameLink(p, edges.rows[j], r) ==> edges.rows[j].createdAt.None?
  }

  ghost predicate IsDep(t: Table<ProjectRow>, deps: seq<(Int64, Int64)>, r: Relationship) {
    exists i :: 0 <= i < |deps| && HasProject(t.rows, deps[i].0) && HasProject(t.rows, deps[i].1)
      && r == Relationship("depends_on", "p" + IntToString(deps[i].0), "p" + IntToString(deps[i].1), None)
  }

  /** Every link of a store is carried or warned about, and every relationship
      is one of its links. */
  ghost predicate Links(s: Store, x: Extract) {
    var registered := s.projects.Some? && "root_path" in s.projects.value.columns && s.projectDeps.Some?;
    && (s.notes.Some? ==>
          && (forall i | 0 <= i < |s.notes.value.rows| && "superseded_by" in s.notes.value.columns
                         && s.notes.value.rows[i].supersededBy.Some? ::
                SupersedeCarried(s.notes.value, s.notes.value.rows[i], s.notes.value.rows[i].supersededBy.value, x))
          && (forall i :: 0 <= i < |EdgeRows(s)| ==> EdgeCarried(s.notes.value, EdgeRows(s)[i], x)))
    && (registered ==>
          forall i :: 0 <= i < |s.projectDeps.value| ==> DepCarried(s.projects.value, s.projectDeps.value[i], x))
    && (forall r :: r in x.dump.relationships ==>
          || (s.notes.Some? && (IsSupersede(s.notes.value, r) || IsEdge(s.notes.value, EdgeRows(s), r))
              && FirstStamped(s.notes.value, EdgesRead(s), r))
          || (registered && IsDep(s.projects.value, s.projectDeps.value, r)))
  }

  lemma {:induction false} LifecycleIn(t: Table<NoteRow>, rows: seq<NoteRow>, l: Link)
    ensures l in LifecycleLinks(t, rows) <==>
      exists i :: 0 <= i < |rows| && "superseded_by" in t.columns && rows[i].supersededBy.Some?
                  && l == Lifecycle(rows[i].supersededBy.value, rows[i].id)
  {
    if rows != [] {
      var (init, last) := (rows[..|rows| - 1], rows[|rows| - 1]);
      LifecycleIn(t, init, l);
      assert rows == init + [last];
    }
  }

  lemma {:induction false} WarnedAbout(links: seq<Link>, present: set<Int64>, l: Link)
    requires l in links && !l.Resolves(present)
    ensures LinkWarning(l) in LinkWarnings(links, present)
  {
    hide Link.Resolves;
    var (init, last) := (links[..|links| - 1], links[|links| - 1]);
    if l != last {
      WarnedAbout(init, present, l);
    }
  }

  lemma {:induction false} DepsIn(deps: seq<(Int64, Int64)>, present: set<Int64>)
    ensures forall i :: 0 <= i < |deps| ==>
      if deps[i].0 in present && deps[i].1 in present
      then Relationship("depends_on", RefTo('p', deps[i].0), RefTo('p', deps[i].1), None) in DepsCarried(deps, present)
      else DepWarning(deps[i]) in DepWarnings(deps, present)
    ensures forall r :: r in DepsCarried(deps, present) ==>
      exists i :: 0 <= i < |deps| && deps[i].0 in present && deps[i].1 in present
                  && r == Relationship("depends_on", RefTo('p', deps[i].0), RefTo('p', deps[i].1), None)
  {
    hide RefTo, DepWarning;
    if deps != [] {
      DepsIn(deps[..|deps| - 1], present);
    }
  }

  /** A link between entries is carried or warned about. */
  lemma LinkCarried(s: Store, x: Extract, carried: seq<Relationship>, l: Link)
    requires IsExtract(s, x, carried) && s.notes.Some? && l in EntryLinks(s)
    ensures if l.From() in NoteIds(s) && l.To() in NoteIds(s)
            then Carried(x.dump.relationships, l.Kind(), RefTo(EntryPrefix(s.notes.value), l.From()),
                         RefTo(EntryPrefix(s.notes.value), l.To()))
            else LinkWarning(l) in x.warnings
  {
    var (links, present, prefix) := (EntryLinks(s), NoteIds(s), EntryPrefix(s.notes.value));
    LinksAccountedFor(links, present);
    hide EntryLinks, RefTo, LinkWarnings, LinkWarning, Resolved, DepsCarried, DepWarnings;
    if l.Resolves(present) {
      assert l in Resolved(links, present) && Relates(AsSet(carried), TripleOf(l, prefix));
      var r :| r in AsSet(carried) && TripleOfRelationship(r) == TripleOf(l, prefix);
      assert r in x.dump.relationships;
    } else {
      WarnedAbout(links, present, l);
    }
  }

  lemma CarriedIsLink(s: Store, x: Extract, carried: seq<Relationship>, r: Relationship)
    requires IsExtract(s, x, carried) && r in carried
    ensures s.notes.Some? && (IsSupersede(s.notes.value, r) || IsEdge(s.notes.value, EdgeRows(s), r))
  {
    var (t, links, present) := (s.notes.value, EntryLinks(s), NoteIds(s));
    LinksAccountedFor(links, present);
    assert r in AsSet(carried);
    var l :| l in Resolved(links, present) && TripleOf(l, EntryPrefix(t)) == TripleOfRelationship(r);
    assert l in links && HasRow(t.rows, l.From()) && HasRow(t.rows, l.To());
    LinkOrigin(s, l, r);
  }

  lemma LinkOrigin(s: Store, l: Link, r: Relationship)
    requires s.notes.Some? && l in EntryLinks(s)
    requires HasRow(s.notes.value.rows, l.From()) && HasRow(s.notes.value.rows, l.To())
    requires TripleOf(l, EntryPrefix(s.notes.value)) == TripleOfRelationship(r)
    ensures IsSupersede(s.notes.value, r) || IsEdge(s.notes.value, EdgeRows(s), r)
  {
    var t := s.notes.value;
    LifecycleIn(t, t.rows, l);
    if l in LifecycleLinks(t, t.rows) {
      hide LifecycleLinks, IntToString, IsEdge, HasRow;
      assert IsSupersede(t, r);
    } else {
      assert EdgesTable(s).Some? && l in EdgeLinks(EdgesTable(s).value);
      hide LifecycleLinks, IntToString, IsSupersede, HasRow;
      assert IsEdge(t, EdgeRows(s), r);
    }
  }

  /** The first stamp is that of the links themselves when all of a triple resolve. */
  lemma {:induction false} FirstStampOfResolved(links: seq<Link>, present: set<Int64>, prefix: char, t: Triple)
    requires forall l :: l in links && TripleOf(l, prefix) == t ==> l.Resolves(present)
    ensures FirstStamp(Resolved(links, present), prefix, t) == FirstStamp(links, prefix, t)
  {
    if links != [] {
      var (init, last) := (links[..|links| - 1], links[|links| - 1]);
      FirstStampOfResolved(init, present, prefix, t);
      assert links == init + [last];
      LinksSnoc(init, last, present);
      FirstStampSnoc(init, last, prefix, t);
      FirstStampSnoc(Resolved(init, present), last, prefix, t);
      hide Resolved, FirstStamp, TripleOf, Link.Resolves;
    }
  }

  lemma {:induction false} FirstStampOfUnstamped(before: seq<Link>, links: seq<Link>, prefix: char, t: Triple)
    requires forall l :: l in before ==> l.Stamp().None?
    ensures FirstStamp(before + links, prefix, t) == FirstStamp(links, prefix, t)
  {
    hide TripleOf, Link.Stamp;
    if links != [] {
      var (init, last) := (links[..|links| - 1], links[|links| - 1]);
      FirstStampOfUnstamped(before, init, prefix, t);
      assert (before + links)[..|before + links| - 1] == before + init;
    } else {
      assert before + links == before;
      if before != [] {
        FirstStampOfUnstamped(before[..|before| - 1], [], prefix, t);
        assert before[..|before| - 1] + [] == before[..|before| - 1];
      }
    }
  }

  lemma {:induction false} FirstStampAt(links: seq<Link>, prefix: char, t: Triple)
    ensures var stamp := FirstStamp(links, prefix, t);
      if stamp.None? then forall i :: 0 <= i < |links| && TripleOf(links[i], prefix) == t ==> links[i].Stamp().None?
      else exists i :: 0 <= i < |links| && TripleOf(links[i], prefix) == t && links[i].Stamp() == stamp
                       && forall j :: 0 <= j < i && TripleOf(links[j], prefix) == t ==> links[j].Stamp().None?
  {
    hide TripleOf, Link.Stamp;
    if links != [] {
      var (init, last) := (links[..|links| - 1], links[|links| - 1]);
      FirstStampAt(init, prefix, t);
      assert forall i :: 0 <= i < |init| ==> init[i] == links[i];
    }
  }

  lemma LinksOfTripleResolve(links: seq<Link>, present: set<Int64>, prefix: char, k: Link)
    requires k.Resolves(present)
    ensures forall l :: l in links && TripleOf(l, prefix) == TripleOf(k, prefix) ==> l.Resolves(present)
  {
    forall l | l in links && TripleOf(l, prefix) == TripleOf(k, prefix) ensures l.Resolves(present) {
      RefToInjective(prefix, l.From(), prefix, k.From());
      RefToInjective(prefix, l.To(), prefix, k.To());
    }
  }

  lemma CarriedStamp(s: Store, x: Extract, carried: seq<Relationship>, r: Relationship)
    requires IsExtract(s, x, carried) && r in carried
    ensures s.notes.Some?
    ensures r.createdAt == FirstStamp(if EdgesTable(s).Some? then EdgeLinks(EdgesTable(s).value) else [],
                                      EntryPrefix(s.notes.value), TripleOfRelationship(r))
  {
    var (t, links, present, prefix) := (s.notes.value, EntryLinks(s), NoteIds(s), EntryPrefix(s.notes.value));
    assert r in AsSet(carried);
    LinksAccountedFor(links, present);
    var k :| k in Resolved(links, present) && TripleOf(k, prefix) == TripleOfRelationship(r);
    LinksOfTripleResolve(links, present, prefix, k);
    FirstStampOfResolved(links, present, prefix, TripleOfRelationship(r));
    var before := LifecycleLinks(t, t.rows);
    forall l | l in before ensures l.Stamp().None? {
      LifecycleIn(t, t.rows, l);
    }
    var edges := if EdgesTable(s).Some? then EdgeLinks(EdgesTable(s).value) else [];
    assert links == before + edges;
    FirstStampOfUnstamped(before, edges, prefix, TripleOfRelationship(r));
  }

  lemma CarriedIsStamped(s: Store, x: Extract, carried: seq<Relationship>, r: Relationship)
    requires IsExtract(s, x, carried) && r in carried
    ensures s.notes.Some? && FirstStamped(s.notes.value, EdgesRead(s), r)
  {
    CarriedStamp(s, x, carried, r);
    var (prefix, read) := (EntryPrefix(s.notes.value), EdgesRead(s));
    var links := if EdgesTable(s).Some? then EdgeLinks(EdgesTable(s).value) else [];
    FirstStampAt(links, prefix, TripleOfRelationship(r));
    hide IsExtract, FirstStamp, IntToString;
    assert |links| == |read.rows|;
    var p := if "project_id" in s.notes.value.columns then "n" else "e";
    forall i | 0 <= i < |links|
      ensures TripleOf(links[i], prefix) == TripleOfRelationship(r) <==> SameLink(p, read.rows[i], r)
      ensures links[i].Stamp() == if "created_at" in read.columns then read.rows[i].createdAt else None
    {
    }
  }

  lemma ExtractHoldsLinks(s: Store, x: Extract, carried: seq<Relationship>)
    requires IsExtract(s, x, carried)
    ensures Links(s, x)
  {
    if s.notes.Some? {
      var t := s.notes.value;
      forall i | 0 <= i < |t.rows| && "superseded_by" in t.columns && t.rows[i].supersededBy.Some?
        ensures SupersedeCarried(t, t.rows[i], t.rows[i].supersededBy.value, x)
      {
        SupersedeIsCarried(s, x, carried, i);
      }
      forall i | 0 <= i < |EdgeRows(s)| ensures EdgeCarried(t, EdgeRows(s)[i], x) {
        EdgeIsCarried(s, x, carried, i);
      }
    }
    DepsAreCarried(s, x, carried);
    forall r | r in x.dump.relationships
      ensures || (s.notes.Some? && (IsSupersede(s.notes.value, r) || IsEdge(s.notes.value, EdgeRows(s), r))
                  && FirstStamped(s.notes.value, EdgesRead(s), r))
              || (Deps(s) != [] && IsDep(s.projects.value, s.projectDeps.value, r))
    {
      if r in carried {
        CarriedIsLink(s, x, carried, r);
        CarriedIsStamped(s, x, carried, r);
      }
    }
    hide IsExtract, SupersedeCarried, EdgeCarried, IsSupersede, IsEdge, IsDep, FirstStamped;
  }

  lemma SupersedeIsCarried(s: Store, x: Extract, carried: seq<Relationship>, i: nat)
    requires IsExtract(s, x, carried) && s.notes.Some? && i < |s.notes.value.rows|
    requires "superseded_by" in s.notes.value.columns && s.notes.value.rows[i].supersededBy.Some?
    ensures SupersedeCarried(s.notes.value, s.notes.value.rows[i], s.notes.value.rows[i].supersededBy.value, x)
  {
    var t := s.notes.value;
    var l := Lifecycle(t.rows[i].supersededBy.value, t.rows[i].id);
    LifecycleIn(t, t.rows, l);
    LinkCarried(s, x, carried, l);
    assert t.rows[i].id in NoteIds(s);
    assert l.successor in NoteIds(s) <==> HasRow(t.rows, l.successor);
    hide IsExtract, LifecycleLinks, IntToString, Carried, HasRow, Ids, EntryLinks;
  }

  lemma EdgeIsCarried(s: Store, x: Extract, carried: seq<Relationship>, i: nat)
    requires IsExtract(s, x, carried) && s.notes.Some? && i < |EdgeRows(s)|
    ensures EdgeCarried(s.notes.value, EdgeRows(s)[i], x)
  {
    var (t, edges) := (s.notes.value, EdgesTable(s).value);
    var l := EdgeLinks(edges)[i];
    LinkCarried(s, x, carried, l);
    assert l.from in NoteIds(s) <==> HasRow(t.rows, l.from);
    assert l.to in NoteIds(s) <==> HasRow(t.rows, l.to);
    hide IsExtract, LifecycleLinks, IntToString, Carried, HasRow, Ids, EntryLinks;
  }

  lemma DepsAreCarried(s: Store, x: Extract, carried: seq<Relationship>)
    requires IsExtract(s, x, carried)
    ensures Deps(s) != [] ==> forall i :: 0 <= i < |Deps(s)| ==> DepCarried(s.projects.value, Deps(s)[i], x)
    ensures forall r :: r in x.dump.relationships && r !in carried ==>
      Deps(s) != [] && IsDep(s.projects.value, Deps(s), r)
  {
    var (deps, present) := (Deps(s), RegisteredIds(s));
    DepsIn(deps, present);
    assert x.dump.relationships == carried + DepsCarried(deps, present);
    assert forall w :: w in DepWarnings(deps, present) ==> w in x.warnings;
    assert deps != [] ==> forall id :: id in present <==> HasProject(s.projects.value.rows, id);
    hide IsExtract, DepsCarried, DepWarnings, IntToString;
  }

  // -------------------------------------------------------------------- failures

  /** The queries that a store's tables and columns call for. */
  predicate Queried(s: Store, q: Query) {
    match q
    case SlugsQuery =>
      s.notes.Some? && "project_id" in s.notes.value.columns && s.projects.Some? && "slug" in s.projects.value.columns
    case NotesQuery => s.notes.Some?
    case EdgesQuery =>
      s.notes.Some? && (if "project_id" in s.notes.value.columns then s.noteEdges.Some? else s.memoryEdges.Some?)
    case ProjectsQuery => s.projects.Some? && "root_path" in s.projects.value.columns
    case DepsQuery => s.projects.Some? && "root_path" in s.projects.value.columns && s.projectDeps.Some?
    case UsageQuery => s.usage.Some?
  }

  lemma {:induction false} MissingMeans(columns: set<string>, needed: seq<string>)
    ensures forall c :: c in Missing(columns, needed) <==> c in needed && c !in columns
  {
    if needed != [] {
      MissingMeans(columns, needed[1..]);
      assert needed == [needed[0]] + needed[1..];
    }
  }

  /** A store is read exactly when its notes have the required columns and no
      query it calls for fails, and the error names what is missing or failed. */
  lemma FailureMeans(s: Store)
    ensures var needed := ["id", "kind", "title", "body", "created_at"];
      match ReadFailure(s)
      case None =>
        && (s.notes.Some? ==> forall c :: c in needed ==> c in s.notes.value.columns)
        && forall q :: q in s.failing ==> !Queried(s, q)
      case Some(MissingColumns(columns)) =>
        s.notes.Some? && columns != [] && forall c :: c in columns <==> c in needed && c !in s.notes.value.columns
      case Some(QueryFailed(q)) =>
        && (s.notes.Some? ==> forall c :: c in needed ==> c in s.notes.value.columns)
        && q in s.failing && Queried(s, q)
  {
    if s.notes.Some? {
      MissingMeans(s.notes.value.columns, REQUIRED);
      assert forall c :: c in REQUIRED && c !in s.notes.value.columns ==>
        c in Missing(s.notes.value.columns, REQUIRED);
    }
    hide Missing;
  }
}
