/** The reader of a store as the program runs it, proved to carry every entity,
    to merge both encodings of links, and to leave a dump its format accepts. */
module StoreReader {
  import opened Text
  import opened DumpFormat
  import opened DumpProofs
  import opened StoreExtract
  import opened ExtractContents

  // --------------------------------------------------------------- merging links

  function Candidate(l: Link, prefix: char): Relationship {
    Relationship(l.Kind(), RefTo(prefix, l.From()), RefTo(prefix, l.To()), l.Stamp())
  }

  lemma {:induction false} FirstStampNone(links: seq<Link>, prefix: char, t: Triple)
    requires forall l :: l in links ==> TripleOf(l, prefix) != t
    ensures FirstStamp(links, prefix, t) == None
  {
    if links != [] {
      FirstStampNone(links[..|links| - 1], prefix, t);
    }
  }

  /** A link of a new triple adds its relationship. */
  lemma MergeNew(rels: set<Relationship>, links: seq<Link>, prefix: char, l: Link)
    requires Merges(rels, links, prefix) && !Relates(rels, TripleOf(l, prefix))
    ensures Merges(rels + {Candidate(l, prefix)}, links + [l], prefix)
  {
    var t := TripleOf(l, prefix);
    assert forall k :: k in links ==> TripleOf(k, prefix) != t;
    FirstStampNone(links, prefix, t);
    MergeKeeps(rels, links, prefix, l, rels + {Candidate(l, prefix)});
  }

  /** A link of a known triple leaves the relationship, unless it is the first
      with a time stamp. */
  lemma MergeKnown(rels: set<Relationship>, links: seq<Link>, prefix: char, l: Link, prev: Relationship)
    requires Merges(rels, links, prefix)
    requires prev in rels && TripleOfRelationship(prev) == TripleOf(l, prefix)
    ensures if prev.createdAt.None? && l.Stamp().Some?
            then Merges(rels - {prev} + {Candidate(l, prefix)}, links + [l], prefix)
            else Merges(rels, links + [l], prefix)
  {
    FirstStampSnoc(links, l, prefix, TripleOf(l, prefix));
    if prev.createdAt.None? && l.Stamp().Some? {
      MergeKeeps(rels, links, prefix, l, rels - {prev} + {Candidate(l, prefix)});
    } else {
      MergeKeeps(rels, links, prefix, l, rels);
    }
  }

  /** What both ways of taking in a link come down to: the relationships of
      other triples stay, and the triple of the link has its one relationship. */
  lemma MergeKeeps(rels: set<Relationship>, links: seq<Link>, prefix: char, l: Link, after: set<Relationship>)
    requires Merges(rels, links, prefix)
    requires forall r :: TripleOfRelationship(r) != TripleOf(l, prefix) ==> (r in after <==> r in rels)
    requires forall r :: r in after && TripleOfRelationship(r) == TripleOf(l, prefix) ==>
      r.createdAt == FirstStamp(links + [l], prefix, TripleOf(l, prefix))
    requires Relates(after, TripleOf(l, prefix))
    ensures Merges(after, links + [l], prefix)
  {
    var all := links + [l];
    forall r | r in after
      ensures exists k :: k in all && TripleOf(k, prefix) == TripleOfRelationship(r)
      ensures r.createdAt == FirstStamp(all, prefix, TripleOfRelationship(r))
    {
      if TripleOfRelationship(r) == TripleOf(l, prefix) {
        assert l in all;
      } else {
        FirstStampSnoc(links, l, prefix, TripleOfRelationship(r));
        var k :| k in links && TripleOf(k, prefix) == TripleOfRelationship(r);
        assert k in all;
      }
    }
    forall k | k in all ensures Relates(after, TripleOf(k, prefix)) {
      if TripleOf(k, prefix) != TripleOf(l, prefix) {
        assert k in links;
        var r :| r in rels && TripleOfRelationship(r) == TripleOf(k, prefix);
        assert r in after;
      }
    }
  }

  /** What the loops over links keep. */
  ghost predicate LinksRead(
    rels: set<Relationship>, warnings: seq<string>, links: seq<Link>, present: set<Int64>, prefix: char)
  {
    Merges(rels, Resolved(links, present), prefix) && warnings == LinkWarnings(links, present)
  }

  /** Inserting an unstamped link that may already be there. */
  lemma MergeUnstamped(rels: set<Relationship>, links: seq<Link>, prefix: char, l: Link)
    requires Merges(rels, links, prefix) && l.Stamp().None?
    requires FirstStamp(links, prefix, TripleOf(l, prefix)) == None
    ensures Merges(rels + {Candidate(l, prefix)}, links + [l], prefix)
  {
    if Relates(rels, TripleOf(l, prefix)) {
      var prev :| prev in rels && TripleOfRelationship(prev) == TripleOf(l, prefix);
      assert prev == Candidate(l, prefix);
      assert rels + {Candidate(l, prefix)} == rels;
      MergeKnown(rels, links, prefix, l, prev);
    } else {
      MergeNew(rels, links, prefix, l);
    }
  }

  method ReadLifecycle(l: Link, rels: set<Relationship>, warnings: seq<string>,
                       ghost links: seq<Link>, present: set<Int64>, prefix: char)
    returns (rels': set<Relationship>, warnings': seq<string>)
    requires l.Lifecycle? && l.predecessor in present
    requires forall k :: k in links ==> k.Lifecycle?
    requires LinksRead(rels, warnings, links, present, prefix)
    ensures LinksRead(rels', warnings', links + [l], present, prefix)
  {
    LinksSnoc(links, l, present);
    if l.successor !in present {
      return rels, warnings + [LinkWarning(l)];
    }
    LifecycleUnstamped(links, present, prefix, TripleOf(l, prefix));
    MergeUnstamped(rels, Resolved(links, present), prefix, l);
    var candidate := Relationship("supersedes", RefTo(prefix, l.successor), RefTo(prefix, l.predecessor), None);
    return rels + {candidate}, warnings;
  }

  lemma {:induction false} LifecycleUnstamped(links: seq<Link>, present: set<Int64>, prefix: char, t: Triple)
    requires forall k :: k in links ==> k.Lifecycle?
    ensures FirstStamp(Resolved(links, present), prefix, t) == None
  {
    if links != [] {
      var (init, l) := (links[..|links| - 1], links[|links| - 1]);
      LifecycleUnstamped(init, present, prefix, t);
      assert init + [l] == links;
      LinksSnoc(init, l, present);
      FirstStampSnoc(Resolved(init, present), l, prefix, t);
    }
  }

  method ReadEdge(row: EdgeRow, stamp: Option<Int64>, rels: set<Relationship>, warnings: seq<string>,
                  ghost links: seq<Link>, present: set<Int64>, prefix: char)
    returns (rels': set<Relationship>, warnings': seq<string>)
    requires LinksRead(rels, warnings, links, present, prefix)
    ensures LinksRead(rels', warnings', links + [Edge(row.kind, row.from, row.to, stamp)], present, prefix)
  {
    var l := Edge(row.kind, row.from, row.to, stamp);
    LinksSnoc(links, l, present);
    if row.from !in present || row.to !in present {
      return rels, warnings + [LinkWarning(l)];
    }
    var candidate := Relationship(row.kind, RefTo(prefix, row.from), RefTo(prefix, row.to), stamp);
    if prev :| prev in rels && TripleOfRelationship(prev) == TripleOfRelationship(candidate) {
      MergeKnown(rels, Resolved(links, present), prefix, l, prev);
      if prev.createdAt.None? && candidate.createdAt.Some? {
        return rels - {prev} + {candidate}, warnings;
      }
      return rels, warnings;
    }
    MergeNew(rels, Resolved(links, present), prefix, l);
    return rels + {candidate}, warnings;
  }

  lemma LifecycleLinksAll(t: Table<NoteRow>, rows: seq<NoteRow>)
    ensures forall l :: l in LifecycleLinks(t, rows) ==> l.Lifecycle? && l.predecessor in Ids(rows)
  {
    if rows != [] {
      LifecycleLinksAll(t, rows[..|rows| - 1]);
      assert forall i :: i in Ids(rows[..|rows| - 1]) ==> i in Ids(rows);
      assert rows[|rows| - 1].id in Ids(rows);
    }
  }

  lemma NothingRead(present: set<Int64>, prefix: char)
    ensures LinksRead({}, [], [], present, prefix)
  {
  }

  method ReadSupersedes(supersedes: seq<Link>, present: set<Int64>, prefix: char)
    returns (rels: set<Relationship>, warnings: seq<string>)
    requires forall l :: l in supersedes ==> l.Lifecycle? && l.predecessor in present
    ensures LinksRead(rels, warnings, supersedes, present, prefix)
  {
    hide LinksRead;
    rels, warnings := {}, [];
    ghost var links: seq<Link> := [];
    NothingRead(present, prefix);
    for i := 0 to |supersedes|
      invariant links == supersedes[..i]
      invariant LinksRead(rels, warnings, links, present, prefix)
    {
      rels, warnings := ReadLifecycle(supersedes[i], rels, warnings, links, present, prefix);
      links := links + [supersedes[i]];
    }
    assert links == supersedes;
  }

  method ReadEdges(edges: Table<EdgeRow>, rels: set<Relationship>, warnings: seq<string>,
                   ghost before: seq<Link>, present: set<Int64>, prefix: char)
    returns (rels': set<Relationship>, warnings': seq<string>)
    requires LinksRead(rels, warnings, before, present, prefix)
    ensures LinksRead(rels', warnings', before + EdgeLinks(edges), present, prefix)
  {
    hide LinksRead;
    rels', warnings' := rels, warnings;
    ghost var links := before;
    for i := 0 to |edges.rows|
      invariant links == before + EdgeLinks(edges)[..i]
      invariant LinksRead(rels', warnings', links, present, prefix)
    {
      var stamp := Column(edges.columns, "created_at", edges.rows[i].createdAt);
      rels', warnings' := ReadEdge(edges.rows[i], stamp, rels', warnings', links, present, prefix);
      links := links + [EdgeLinks(edges)[i]];
    }
    assert links == before + EdgeLinks(edges);
  }

  // ------------------------------------------------- the earliest stamp of a link

  /** The edges table has the key of the product's schema. */
  predicate KeyedEdges(s: Store) {
    EdgesTable(s).Some? ==>
      forall i, j :: 0 <= i < j < |EdgesTable(s).value.rows| ==>
        !SameKey(EdgesTable(s).value.rows[i], EdgesTable(s).value.rows[j])
  }

  predicate SameKey(a: EdgeRow, b: EdgeRow) { a.from == b.from && a.to == b.to && a.kind == b.kind }

  lemma {:induction false} FirstStampFound(links: seq<Link>, prefix: char, t: Triple)
    ensures FirstStamp(links, prefix, t).Some? ==>
      exists k :: k in links && TripleOf(k, prefix) == t && k.Stamp() == FirstStamp(links, prefix, t)
  {
    if links != [] {
      FirstStampFound(links[..|links| - 1], prefix, t);
      assert links[|links| - 1] in links;
    }
  }

  /** In a keyed table, two stamped links of one triple are one row. */
  lemma StampedOnce(s: Store, prefix: char, k: Link, l: Link)
    requires s.notes.Some? && KeyedEdges(s) && k in EntryLinks(s) && l in EntryLinks(s)
    requires k.Stamp().Some? && l.Stamp().Some? && TripleOf(k, prefix) == TripleOf(l, prefix)
    ensures k == l
  {
    RefToInjective(prefix, k.From(), prefix, l.From());
    RefToInjective(prefix, k.To(), prefix, l.To());
    LifecycleLinksAll(s.notes.value, s.notes.value.rows);
    var edges := EdgesTable(s).value;
    hide RefTo, EntryLinks;
    var i := EdgeOf(s, k);
    var j := EdgeOf(s, l);
    assert SameKey(edges.rows[i], edges.rows[j]) && SameKey(edges.rows[j], edges.rows[i]);
  }

  lemma EdgeOf(s: Store, l: Link) returns (i: nat)
    requires s.notes.Some? && l in EntryLinks(s) && l.Stamp().Some?
    ensures EdgesTable(s).Some? && i < |EdgesTable(s).value.rows| && EdgeLinks(EdgesTable(s).value)[i] == l
  {
    LifecycleLinksAll(s.notes.value, s.notes.value.rows);
    assert l !in LifecycleLinks(s.notes.value, s.notes.value.rows);
    i :| 0 <= i < |EdgesTable(s).value.rows| && EdgeLinks(EdgesTable(s).value)[i] == l;
  }

  /** With the product's schema, each merged relationship has the earliest of the
      time stamps of its links. */
  lemma KeyedEarliest(s: Store, rels: set<Relationship>, present: set<Int64>)
    requires s.notes.Some? && KeyedEdges(s)
    requires Merges(rels, Resolved(EntryLinks(s), present), EntryPrefix(s.notes.value))
    ensures EarliestStamps(rels, Resolved(EntryLinks(s), present), EntryPrefix(s.notes.value))
  {
    var (links, prefix) := (Resolved(EntryLinks(s), present), EntryPrefix(s.notes.value));
    LinksAccountedFor(EntryLinks(s), present);
    forall j | 0 <= j < |links| && links[j].Stamp().Some?
      ensures NotAfter(FirstStamp(links[..j], prefix, TripleOf(links[j], prefix)), links[j].Stamp().value)
    {
      var t := TripleOf(links[j], prefix);
      FirstStampFound(links[..j], prefix, t);
      if FirstStamp(links[..j], prefix, t).Some? {
        var k :| k in links[..j] && TripleOf(k, prefix) == t && k.Stamp() == FirstStamp(links[..j], prefix, t);
        assert k in links && links[j] in links;
        StampedOnce(s, prefix, k, links[j]);
      }
    }
    EarliestExactly(rels, links, prefix);
  }

  // ------------------------------------------------------------------- all links

  /** Both encodings of the links between entries, merged. */
  method ReadLinks(s: Store, present: set<Int64>) returns (rels: set<Relationship>, warnings: seq<string>)
    requires s.notes.Some? && present == Ids(s.notes.value.rows)
    ensures LinksRead(rels, warnings, EntryLinks(s), present, EntryPrefix(s.notes.value))
    ensures KeyedEdges(s) ==>
      EarliestStamps(rels, Resolved(EntryLinks(s), present), EntryPrefix(s.notes.value))
  {
    hide EarliestStamps;
    var t := s.notes.value;
    var prefix := EntryPrefix(t);
    var supersedes := LifecycleLinks(t, t.rows);
    LifecycleLinksAll(t, t.rows);
    rels, warnings := ReadSupersedes(supersedes, present, prefix);
    assert supersedes + [] == supersedes;
    if EdgesTable(s).Some? {
      rels, warnings := ReadEdges(EdgesTable(s).value, rels, warnings, supersedes, present, prefix);
    }
    if KeyedEdges(s) {
      KeyedEarliest(s, rels, present);
    }
  }

  // ------------------------------------------------------ the order of the links

  predicate OptLess(a: Option<Int64>, b: Option<Int64>) {
    b.Some? && (a.None? || a.value < b.value)
  }

  /** Field by field, in the order of the fields. */
  predicate RelationshipLess(a: Relationship, b: Relationship) {
    if a.kind != b.kind then StringLess(a.kind, b.kind)
    else if a.from != b.from then StringLess(a.from, b.from)
    else if a.to != b.to then StringLess(a.to, b.to)
    else OptLess(a.createdAt, b.createdAt)
  }

  lemma RelationshipLessTotal(a: Relationship, b: Relationship)
    ensures a == b || RelationshipLess(a, b) || RelationshipLess(b, a)
  {
    StringLessTotal(a.kind, b.kind);
    StringLessTotal(a.from, b.from);
    StringLessTotal(a.to, b.to);
  }

  lemma RelationshipLessTransitive(a: Relationship, b: Relationship, c: Relationship)
    requires RelationshipLess(a, b) && RelationshipLess(b, c)
    ensures RelationshipLess(a, c)
  {
    StringLessTotal(a.kind, b.kind);
    StringLessTotal(a.from, b.from);
    StringLessTotal(a.to, b.to);
    if a.kind != b.kind && b.kind != c.kind {
      StringLessTransitive(a.kind, b.kind, c.kind);
      StringLessTotal(a.kind, c.kind);
    } else if a.kind == b.kind == c.kind {
      if a.from != b.from && b.from != c.from {
        StringLessTransitive(a.from, b.from, c.from);
        StringLessTotal(a.from, c.from);
      } else if a.from == b.from == c.from && a.to != b.to && b.to != c.to {
        StringLessTransitive(a.to, b.to, c.to);
        StringLessTotal(a.to, c.to);
      }
    }
  }

  predicate Ascending(rels: seq<Relationship>) {
    forall i, j :: 0 <= i < j < |rels| ==> RelationshipLess(rels[i], rels[j])
  }

  predicate IsFirst(rels: set<Relationship>, r: Relationship) {
    r in rels && forall x :: x in rels && x != r ==> RelationshipLess(r, x)
  }

  lemma {:induction false} FirstExists(rels: set<Relationship>) returns (first: Relationship)
    requires rels != {}
    ensures IsFirst(rels, first)
  {
    var r :| r in rels;
    first := r;
    if rels != {r} {
      var f := FirstExists(rels - {r});
      RelationshipLessTotal(r, f);
      first := if RelationshipLess(r, f) then r else f;
      forall x | x in rels && x != first ensures RelationshipLess(first, x) {
        if x != r && x != f {
          assert x in rels - {r};
          if first == r {
            RelationshipLessTransitive(r, f, x);
          }
        }
      }
    }
  }

  predicate Precedes(out: seq<Relationship>, left: set<Relationship>) {
    forall x, r :: x in out && r in left ==> RelationshipLess(x, r)
  }

  /** Taking the first of what is left keeps the walk in order. */
  lemma TakeFirst(out: seq<Relationship>, left: set<Relationship>, first: Relationship)
    requires Ascending(out) && Precedes(out, left) && IsFirst(left, first)
    ensures Ascending(out + [first]) && Precedes(out + [first], left - {first})
  {
    hide RelationshipLess;
    forall i, j | 0 <= i < j < |out + [first]| ensures RelationshipLess((out + [first])[i], (out + [first])[j]) {
      assert out[i] in out;
    }
  }

  /** The walk of an ordered set. */
  method InOrder(rels: set<Relationship>) returns (out: seq<Relationship>)
    ensures Ascending(out)
    ensures forall r :: r in out <==> r in rels
  {
    out := [];
    var left := rels;
    while left != {}
      invariant left <= rels
      invariant forall r :: r in rels <==> r in left || r in out
      invariant Ascending(out) && Precedes(out, left)
      decreases |left|
    {
      ghost var f := FirstExists(left);
      var first :| first in left && IsFirst(left, first);
      TakeFirst(out, left, first);
      out := out + [first];
      left := left - {first};
    }
  }

  // ------------------------------------------------------------- the whole store

  lemma DepsSnoc(deps: seq<(Int64, Int64)>, d: (Int64, Int64), present: set<Int64>)
    ensures DepsCarried(deps + [d], present) == DepsCarried(deps, present)
      + (if d.0 in present && d.1 in present
         then [Relationship("depends_on", RefTo('p', d.0), RefTo('p', d.1), None)] else [])
    ensures DepWarnings(deps + [d], present) == DepWarnings(deps, present)
      + (if d.0 in present && d.1 in present then [] else [DepWarning(d)])
  {
    assert (deps + [d])[..|deps|] == deps;
  }

  method ReadDeps(deps: seq<(Int64, Int64)>, present: set<Int64>)
    returns (carried: seq<Relationship>, warnings: seq<string>)
    ensures carried == DepsCarried(deps, present) && warnings == DepWarnings(deps, present)
  {
    hide DepWarning, RefTo;
    carried, warnings := [], [];
    for i := 0 to |deps|
      invariant carried == DepsCarried(deps[..i], present) && warnings == DepWarnings(deps[..i], present)
    {
      var (from, to) := (deps[i].0, deps[i].1);
      DepsSnoc(deps[..i], deps[i], present);
      assert deps[..i + 1] == deps[..i] + [deps[i]];
      if from !in present || to !in present {
        warnings := warnings + [DepWarning(deps[i])];
      } else {
        carried := carried + [Relationship("depends_on", RefTo('p', from), RefTo('p', to), None)];
      }
    }
    assert deps[..|deps|] == deps;
  }

  lemma IdsNext(rows: seq<NoteRow>, i: nat)
    requires i < |rows|
    ensures Ids(rows[..i + 1]) == Ids(rows[..i]) + {rows[i].id}
  {
    forall id | id in Ids(rows[..i]) + {rows[i].id} ensures id in Ids(rows[..i + 1]) {
      if id != rows[i].id {
        var k :| 0 <= k < |rows[..i]| && rows[..i][k].id == id;
        assert rows[..i + 1][k].id == id;
      } else {
        assert rows[..i + 1][i].id == id;
      }
    }
  }

  method ReadEntryRows(t: Table<NoteRow>, slugs: map<Int64, string>)
    returns (entries: seq<MemoryEntry>, present: set<Int64>)
    ensures entries == seq(|t.rows|, i requires 0 <= i < |t.rows| => EntryOf(t, slugs, t.rows[i]))
    ensures present == Ids(t.rows)
  {
    entries, present := [], {};
    for i := 0 to |t.rows|
      invariant entries == seq(i, k requires 0 <= k < i => EntryOf(t, slugs, t.rows[k]))
      invariant present == Ids(t.rows[..i])
    {
      entries := entries + [EntryOf(t, slugs, t.rows[i])];
      IdsNext(t.rows, i);
      present := present + {t.rows[i].id};
    }
    assert t.rows[..|t.rows|] == t.rows;
  }

  /** Read everything a store holds, or say why it cannot be read. */
  method ExtractSnapshot(s: Store) returns (r: Result<Extract, ReadError>, ghost carried: seq<Relationship>)
    ensures r.Err? <==> ReadFailure(s).Some?
    ensures r.Err? ==> r.error == ReadFailure(s).value
    ensures r.Ok? ==> IsExtract(s, r.value, carried) && Ascending(carried)
    ensures r.Ok? ==> Contents(s, r.value.dump) && Links(s, r.value)
  {
    var entries: seq<MemoryEntry>, relationships: seq<Relationship>, warnings: seq<string> := [], [], [];
    if s.notes.Some? {
      var t := s.notes.value;
      var missing := Missing(t.columns, REQUIRED);
      if missing != [] {
        return Err(MissingColumns(missing)), [];
      }
      if ReadsSlugs(s) && SlugsQuery in s.failing {
        return Err(QueryFailed(SlugsQuery)), [];
      }
      if NotesQuery in s.failing {
        return Err(QueryFailed(NotesQuery)), [];
      }
      if EdgesTable(s).Some? && EdgesQuery in s.failing {
        return Err(QueryFailed(EdgesQuery)), [];
      }
      var present: set<Int64>;
      entries, present := ReadEntryRows(t, SlugsOf(s));
      var rels: set<Relationship>;
      rels, warnings := ReadLinks(s, present);
      relationships := InOrder(rels);
      assert AsSet(relationships) == rels;
    }
    carried := relationships;
    if IsRegistry(s) {
      if ProjectsQuery in s.failing {
        return Err(QueryFailed(ProjectsQuery)), carried;
      }
      if s.projectDeps.Some? && DepsQuery in s.failing {
        return Err(QueryFailed(DepsQuery)), carried;
      }
    }
    var deps, depWarnings := ReadDeps(Deps(s), RegisteredIds(s));
    if s.usage.Some? && UsageQuery in s.failing {
      return Err(QueryFailed(UsageQuery)), carried;
    }
    r := Ok(Extract(Dump(entries, ProjectsOf(s), UsageOf(s), relationships + deps), warnings + depWarnings));
    ExtractHoldsContents(s, r.value, carried);
    ExtractHoldsLinks(s, r.value, carried);
  }

  /** So has each relationship of an extract. */
  lemma CarriedEarliest(s: Store, x: Extract, carried: seq<Relationship>)
    requires IsExtract(s, x, carried) && s.notes.Some? && KeyedEdges(s)
    ensures EarliestStamps(AsSet(carried), Resolved(EntryLinks(s), NoteIds(s)), EntryPrefix(s.notes.value))
  {
    hide EarliestStamps;
    KeyedEarliest(s, AsSet(carried), NoteIds(s));
  }

  // ------------------------------------------- an extract is a well-linked dump

  lemma NoRecords()
    ensures Refs([]) == [] && Endpoints([]) == []
  {
  }

  lemma {:induction false} RefsAppend(a: seq<Record>, b: seq<Record>)
    ensures Refs(a + b) == Refs(a) + Refs(b) && Endpoints(a + b) == Endpoints(a) + Endpoints(b)
  {
    hide Refs, Endpoints;
    NoRecords();
    if b == [] {
      assert a + b == a;
    } else {
      var (init, last) := (b[..|b| - 1], b[|b| - 1]);
      RefsAppend(a, init);
      assert a + b == (a + init) + [last] && b == init + [last];
      GatheredSnoc(a + init, last);
      GatheredSnoc(init, last);
    }
  }

  function EntryRefs(es: seq<MemoryEntry>): (rs: seq<string>)
    ensures |rs| == |es|
  {
    seq(|es|, i requires 0 <= i < |es| => es[i].reference)
  }

  function ProjectRefs(ps: seq<Project>): (rs: seq<string>)
    ensures |rs| == |ps|
  {
    seq(|ps|, i requires 0 <= i < |ps| => ps[i].reference)
  }

  function UsageRefs(us: seq<CommandUsage>): (rs: seq<string>)
    ensures |rs| == |us|
  {
    seq(|us|, i requires 0 <= i < |us| => us[i].reference)
  }

  lemma {:induction false} RefsOfEntries(es: seq<MemoryEntry>)
    ensures Refs(EntryRecords(es)) == EntryRefs(es) && Endpoints(EntryRecords(es)) == []
  {
    hide Refs, Endpoints;
    NoRecords();
    if es != [] {
      var (init, last) := (es[..|es| - 1], es[|es| - 1]);
      RefsOfEntries(init);
      assert RefOf(EntryRecord(last)) == [last.reference] && EndpointsOf(EntryRecord(last)) == [];
      hide RefOf, EndpointsOf, EntityKinds, RelationshipKinds;
      assert EntryRefs(es) == EntryRefs(init) + [last.reference];
      assert EntryRecords(es) == EntryRecords(init) + [EntryRecord(last)];
      GatheredSnoc(EntryRecords(init), EntryRecord(last));
    }
  }

  lemma {:induction false} RefsOfProjects(ps: seq<Project>)
    ensures Refs(ProjectRecords(ps)) == ProjectRefs(ps) && Endpoints(ProjectRecords(ps)) == []
  {
    hide Refs, Endpoints;
    NoRecords();
    if ps != [] {
      var (init, last) := (ps[..|ps| - 1], ps[|ps| - 1]);
      RefsOfProjects(init);
      assert RefOf(ProjectRecord(last)) == [last.reference] && EndpointsOf(ProjectRecord(last)) == [];
      hide RefOf, EndpointsOf, EntityKinds, RelationshipKinds;
      assert ProjectRefs(ps) == ProjectRefs(init) + [last.reference];
      assert ProjectRecords(ps) == ProjectRecords(init) + [ProjectRecord(last)];
      GatheredSnoc(ProjectRecords(init), ProjectRecord(last));
    }
  }

  lemma {:induction false} RefsOfUsage(us: seq<CommandUsage>)
    ensures Refs(UsageRecords(us)) == UsageRefs(us) && Endpoints(UsageRecords(us)) == []
  {
    hide Refs, Endpoints;
    NoRecords();
    if us != [] {
      var (init, last) := (us[..|us| - 1], us[|us| - 1]);
      RefsOfUsage(init);
      assert RefOf(UsageRecord(last)) == [last.reference] && EndpointsOf(UsageRecord(last)) == [];
      hide RefOf, EndpointsOf, EntityKinds, RelationshipKinds;
      assert UsageRefs(us) == UsageRefs(init) + [last.reference];
      assert UsageRecords(us) == UsageRecords(init) + [UsageRecord(last)];
      GatheredSnoc(UsageRecords(init), UsageRecord(last));
    }
  }

  lemma {:induction false} EndpointsOfLinks(ls: seq<Relationship>)
    ensures Refs(RelationshipRecords(ls)) == []
    ensures forall e :: e in Endpoints(RelationshipRecords(ls)) ==> exists l :: l in ls && (e == l.from || e == l.to)
  {
    hide Refs, Endpoints;
    NoRecords();
    if ls != [] {
      var (init, last) := (ls[..|ls| - 1], ls[|ls| - 1]);
      EndpointsOfLinks(init);
      assert RelationshipRecords(ls) == RelationshipRecords(init) + [RelationshipRecord(last)];
      GatheredSnoc(RelationshipRecords(init), RelationshipRecord(last));
    }
  }

  /** The references of a dump in order. */
  function RefList(d: Dump): seq<string> {
    EntryRefs(d.entries) + ProjectRefs(d.projects) + UsageRefs(d.usage)
  }

  lemma RefsOfDump(d: Dump)
    ensures Refs(Records(d)) == RefList(d)
    ensures forall e :: e in Endpoints(Records(d)) ==> exists l :: l in d.relationships && (e == l.from || e == l.to)
  {
    hide Refs, Endpoints;
    var (es, ps, us, ls) := (EntryRecords(d.entries), ProjectRecords(d.projects),
                             UsageRecords(d.usage), RelationshipRecords(d.relationships));
    RefsAppend(es, ps);
    RefsAppend(es + ps, us);
    RefsAppend(es + ps + us, ls);
    RefsOfEntries(d.entries);
    RefsOfProjects(d.projects);
    RefsOfUsage(d.usage);
    EndpointsOfLinks(d.relationships);
  }

  /** Where the reference at a place of the list comes from. */
  function RefSource(s: Store, i: nat): (char, int)
    requires i < |EntriesOf(s)| + |ProjectsOf(s)| + |UsageOf(s)|
  {
    var (m, n) := (|EntriesOf(s)|, |EntriesOf(s)| + |ProjectsOf(s)|);
    if i < m then (EntryPrefix(s.notes.value), s.notes.value.rows[i].id)
    else if i < n then ('p', s.projects.value.rows[i - m].id)
    else ('u', i - n)
  }

  lemma SourcesDiffer(s: Store, i: nat, j: nat)
    requires ValidStore(s) && i < j < |EntriesOf(s)| + |ProjectsOf(s)| + |UsageOf(s)|
    ensures RefSource(s, i) != RefSource(s, j)
  {
  }

  lemma ReferenceAt(s: Store, d: Dump, i: nat)
    requires d.entries == EntriesOf(s) && d.projects == ProjectsOf(s) && d.usage == UsageOf(s)
    requires i < |RefList(d)|
    ensures RefList(d)[i] == RefTo(RefSource(s, i).0, RefSource(s, i).1)
  {
    hide RefTo, List, SlugsOf;
  }

  lemma ReferencesDistinct(s: Store, d: Dump)
    requires ValidStore(s)
    requires d.entries == EntriesOf(s) && d.projects == ProjectsOf(s) && d.usage == UsageOf(s)
    ensures Distinct(RefList(d))
  {
    var refs := RefList(d);
    assert |refs| == |EntriesOf(s)| + |ProjectsOf(s)| + |UsageOf(s)|;
    forall i, j | 0 <= i < j < |refs| ensures refs[i] != refs[j] {
      ReferenceAt(s, d, i);
      ReferenceAt(s, d, j);
      hide RefTo, RefList, RefSource, EntriesOf, ProjectsOf, UsageOf;
      if refs[i] == refs[j] {
        RefToInjective(RefSource(s, i).0, RefSource(s, i).1, RefSource(s, j).0, RefSource(s, j).1);
        SourcesDiffer(s, i, j);
      }
    }
  }

  lemma {:induction false} DepsResolve(deps: seq<(Int64, Int64)>, present: set<Int64>)
    ensures forall l :: l in DepsCarried(deps, present) ==>
      exists a, b :: a in present && b in present && l.from == RefTo('p', a) && l.to == RefTo('p', b)
  {
    if deps != [] {
      DepsResolve(deps[..|deps| - 1], present);
    }
  }

  lemma EntryRefIn(s: Store, d: Dump, id: Int64)
    requires d.entries == EntriesOf(s) && s.notes.Some? && id in NoteIds(s)
    ensures RefTo(EntryPrefix(s.notes.value), id) in RefList(d)
  {
    hide RefTo, ProjectsOf, UsageOf;
    var i :| 0 <= i < |s.notes.value.rows| && s.notes.value.rows[i].id == id;
    assert RefList(d)[i] == d.entries[i].reference;
  }

  lemma ProjectRefIn(s: Store, d: Dump, id: Int64)
    requires d.projects == ProjectsOf(s) && s.projects.Some? && "root_path" in s.projects.value.columns
    requires id in RegisteredIds(s)
    ensures RefTo('p', id) in RefList(d)
  {
    hide RefTo, EntriesOf, UsageOf;
    var i :| 0 <= i < |s.projects.value.rows| && s.projects.value.rows[i].id == id;
    assert RefList(d)[|d.entries| + i] == d.projects[i].reference;
  }

  lemma LinkEndsIn(s: Store, x: Extract, carried: seq<Relationship>, l: Relationship)
    requires IsExtract(s, x, carried) && l in x.dump.relationships
    ensures l.from in RefList(x.dump) && l.to in RefList(x.dump)
  {
    if l in carried {
      var (present, prefix) := (NoteIds(s), EntryPrefix(s.notes.value));
      assert l in AsSet(carried);
      var k :| k in Resolved(EntryLinks(s), present) && TripleOf(k, prefix) == TripleOfRelationship(l);
      LinksAccountedFor(EntryLinks(s), present);
      EntryRefIn(s, x.dump, k.From());
      EntryRefIn(s, x.dump, k.To());
    } else {
      DepsResolve(Deps(s), RegisteredIds(s));
      assert l in DepsCarried(Deps(s), RegisteredIds(s));
      var a, b :| a in RegisteredIds(s) && b in RegisteredIds(s)
                  && l.from == RefTo('p', a) && l.to == RefTo('p', b);
      ProjectRefIn(s, x.dump, a);
      ProjectRefIn(s, x.dump, b);
    }
  }

  /** Whatever the store's shape and however many of its links are broken, its
      extract has unique references and resolvable links. */
  lemma ExtractWellLinked(s: Store, x: Extract, carried: seq<Relationship>)
    requires ValidStore(s) && IsExtract(s, x, carried)
    ensures WellLinked(x.dump)
  {
    RefsOfDump(x.dump);
    ReferencesDistinct(s, x.dump);
    forall e | e in Endpoints(Records(x.dump)) ensures e in RefList(x.dump) {
      var l :| l in x.dump.relationships && (e == l.from || e == l.to);
      LinkEndsIn(s, x, carried, l);
    }
  }
}
