/** What the lines of a rendered dump say, field by field, and which texts are
    accepted as dumps, line by line. */
module DumpContents {
  import opened Text
  import opened Json
  import opened JsonProofs
  import opened Digest
  import opened DumpFormat
  import opened DumpProofs
  import opened DumpIdentity

  // ------------------------------------------------------- the fields of a record

  predicate HasString(m: Members, key: string, s: string) { Get(m, key) == Some(Str(s)) }

  predicate HasInt(m: Members, key: string, n: int) { Get(m, key) == Some(Num(IntToString(n))) }

  predicate HasOptString(m: Members, key: string, s: Option<string>) {
    if s.Some? then HasString(m, key, s.value) else Get(m, key) == None
  }

  predicate HasOptInt(m: Members, key: string, n: Option<Int64>) {
    if n.Some? then HasInt(m, key, n.value) else Get(m, key) == None
  }

  predicate AreStrings(items: Items, ss: seq<string>) {
    if ss == [] then items.NoItems?
    else items.Item? && items.head == Str(ss[0]) && AreStrings(items.tail, ss[1..])
  }

  /** An array of strings; an empty list is left out. */
  predicate HasList(m: Members, key: string, ss: seq<string>) {
    var value := Get(m, key);
    if ss == [] then value == None else value.Some? && value.value.Arr? && AreStrings(value.value.items, ss)
  }

  ghost predicate HasOnly(m: Members, keys: set<string>) { forall k :: Get(m, k).Some? ==> k in keys }

  predicate ShowsEntry(m: Members, e: MemoryEntry) {
    && HasString(m, "record", "entity") && HasString(m, "type", "memory_entry")
    && HasString(m, "ref", e.reference)
    && HasOptString(m, "uuid", e.uuid)
    && HasString(m, "kind", e.kind)
    && HasString(m, "title", e.title)
    && HasString(m, "body", e.body)
    && HasList(m, "tags", e.tags)
    && HasList(m, "linked_files", e.linkedFiles)
    && HasInt(m, "created_at", e.createdAt)
    && HasOptString(m, "status", e.status)
    && HasOptString(m, "source_ref", e.sourceRef)
    && HasOptInt(m, "valid_at", e.validAt)
    && HasOptInt(m, "invalid_at", e.invalidAt)
    && HasOptString(m, "entity_id", e.entityId)
    && HasOptString(m, "remote_id", e.remoteId)
    && HasOptString(m, "namespace", e.namespace)
  }

  ghost predicate ShowsProject(m: Members, p: Project) {
    && HasString(m, "record", "entity") && HasString(m, "type", "project")
    && HasString(m, "ref", p.reference)
    && HasString(m, "root_path", p.rootPath)
    && HasOptInt(m, "registered_at", p.registeredAt)
    && HasOnly(m, {"record", "type", "ref", "root_path", "registered_at"})
  }

  ghost predicate ShowsUsage(m: Members, u: CommandUsage) {
    && HasString(m, "record", "entity") && HasString(m, "type", "command_usage")
    && HasString(m, "ref", u.reference)
    && HasString(m, "command", u.command)
    && HasInt(m, "at", u.at)
    && HasOnly(m, {"record", "type", "ref", "command", "at"})
  }

  ghost predicate ShowsRelationship(m: Members, l: Relationship) {
    && HasString(m, "record", "relationship")
    && HasString(m, "type", l.kind)
    && HasString(m, "from", l.from)
    && HasString(m, "to", l.to)
    && HasOptInt(m, "created_at", l.createdAt)
    && HasOnly(m, {"record", "type", "from", "to", "created_at"})
  }

  ghost predicate Shows(line: string, r: Record) {
    && Parse(line).Some? && Parse(line).value.Obj?
    && var m := Parse(line).value.members;
       match r
       case EntryRecord(e) =>
         && ShowsEntry(m, e)
         && HasOnly(m, {"record", "type", "ref", "uuid", "kind", "title", "body", "tags", "linked_files", "created_at",
                        "status", "source_ref", "valid_at", "invalid_at", "entity_id", "remote_id", "namespace"})
       case ProjectRecord(p) => ShowsProject(m, p)
       case UsageRecord(u) => ShowsUsage(m, u)
       case RelationshipRecord(l) => ShowsRelationship(m, l)
  }

  ghost predicate ShowsHeader(line: string, generatedAt: int, generator: string) {
    && Parse(line).Some? && Parse(line).value.Obj?
    && var m := Parse(line).value.members;
       && HasString(m, "record", "header")
       && HasString(m, "format", "portable-dump")
       && HasInt(m, "format_version", 1)
       && HasInt(m, "generated_at", generatedAt)
       && HasString(m, "generator", generator)
  }

  /** An object whose members are the counts of a map. */
  ghost predicate HasCounts(m: Members, key: string, counts: map<string, nat>) {
    var value := Get(m, key);
    && value.Some? && value.value.Obj?
    && forall k :: Get(value.value.members, k) == if k in counts then Some(Num(IntToString(counts[k]))) else None
  }

  ghost predicate ShowsFooter(line: string, footer: Footer) {
    && Parse(line).Some? && Parse(line).value.Obj?
    && var m := Parse(line).value.members;
       && HasString(m, "record", "footer")
       && HasString(m, "digest", footer.digest)
       && Get(m, "counts").Some? && Get(m, "counts").value.Obj?
       && HasCounts(Get(m, "counts").value.members, "entity", footer.counts.entity)
       && HasCounts(Get(m, "counts").value.members, "relationship", footer.counts.relationship)
  }

  lemma {:induction false} StringItemsAre(ss: seq<string>)
    ensures AreStrings(StringItems(ss), ss)
  {
    if ss != [] {
      StringItemsAre(ss[1..]);
    }
  }

  /** A printed object has each of its fields, and nothing else. */
  lemma FieldsShown(fields: Fields)
    requires NamesDistinct(fields)
    ensures forall i: nat :: i < |fields| ==> Get(Present(fields), fields[i].0) == fields[i].1
    ensures HasOnly(Present(fields), set i | 0 <= i < |fields| :: fields[i].0)
  {
    hide Present;
    forall i: nat | i < |fields| ensures Get(Present(fields), fields[i].0) == fields[i].1 {
      assert Once(fields, i);
      PresentGet(fields, i);
    }
    forall k | Get(Present(fields), k).Some? ensures k in set i | 0 <= i < |fields| :: fields[i].0 {
      if forall j :: 0 <= j < |fields| ==> fields[j].0 != k {
        PresentAbsent(fields, k);
      }
    }
  }

  lemma EntryShown(e: MemoryEntry)
    ensures ShowsEntry(Present(RecordFields(EntryRecord(e))), e)
  {
    var fields := RecordFields(EntryRecord(e));
    EntryNamesDistinct(e);
    FieldsShown(fields);
    StringItemsAre(e.tags);
    StringItemsAre(e.linkedFiles);
    var m := Present(fields);
    hide Present, NamesDistinct, AreStrings, StringItems, IntToString;
    EntryValues(m, fields, e);
  }

  lemma EntryValues(m: Members, fields: Fields, e: MemoryEntry)
    requires fields == RecordFields(EntryRecord(e))
    requires forall i: nat :: i < 17 ==> Get(m, fields[i].0) == fields[i].1
    requires AreStrings(StringItems(e.tags), e.tags) && AreStrings(StringItems(e.linkedFiles), e.linkedFiles)
    ensures ShowsEntry(m, e)
  {
    hide Get, AreStrings, StringItems, IntToString;
    assert Get(m, fields[0].0) == fields[0].1 && Get(m, fields[1].0) == fields[1].1;
    assert Get(m, fields[2].0) == fields[2].1 && Get(m, fields[3].0) == fields[3].1;
    assert Get(m, fields[4].0) == fields[4].1 && Get(m, fields[5].0) == fields[5].1;
    assert Get(m, fields[6].0) == fields[6].1 && Get(m, fields[7].0) == fields[7].1;
    assert Get(m, fields[8].0) == fields[8].1 && Get(m, fields[9].0) == fields[9].1;
    assert Get(m, fields[10].0) == fields[10].1 && Get(m, fields[11].0) == fields[11].1;
    assert Get(m, fields[12].0) == fields[12].1 && Get(m, fields[13].0) == fields[13].1;
    assert Get(m, fields[14].0) == fields[14].1 && Get(m, fields[15].0) == fields[15].1;
    assert Get(m, fields[16].0) == fields[16].1;
  }

  lemma EntryKeys(e: MemoryEntry, keys: set<string>)
    requires keys == {"record", "type", "ref", "uuid", "kind", "title", "body", "tags", "linked_files", "created_at",
                      "status", "source_ref", "valid_at", "invalid_at", "entity_id", "remote_id", "namespace"}
    ensures forall i: nat :: i < 17 ==> RecordFields(EntryRecord(e))[i].0 in keys
  {
    hide OptList, OptString, OptInt, Int, String;
  }

  lemma EntryHasOnly(e: MemoryEntry)
    ensures HasOnly(Present(RecordFields(EntryRecord(e))),
                    {"record", "type", "ref", "uuid", "kind", "title", "body", "tags", "linked_files", "created_at",
                     "status", "source_ref", "valid_at", "invalid_at", "entity_id", "remote_id", "namespace"})
  {
    var fields := RecordFields(EntryRecord(e));
    EntryNamesDistinct(e);
    FieldsShown(fields);
    EntryKeys(e, {"record", "type", "ref", "uuid", "kind", "title", "body", "tags", "linked_files", "created_at",
                  "status", "source_ref", "valid_at", "invalid_at", "entity_id", "remote_id", "namespace"});
    assert |fields| == 17;
    hide RecordFields, Present, NamesDistinct, Get;
  }

  lemma LineParses(fields: Fields)
    requires Printable(Obj(Present(fields)), RECURSION_LIMIT)
    ensures Parse(LineOf(fields)) == Some(Obj(Present(fields)))
  {
    DocumentRoundTrip(Obj(Present(fields)));
  }

  lemma ProjectShown(p: Project)
    ensures ShowsProject(Present(RecordFields(ProjectRecord(p))), p)
  {
    var fields := RecordFields(ProjectRecord(p));
    FieldsShown(fields);
    hide Present, IntToString, Get;
    assert forall i: nat :: i < 5 ==> Get(Present(fields), fields[i].0) == fields[i].1;
    FiveFields(Present(fields), fields);
  }

  lemma UsageShown(u: CommandUsage)
    ensures ShowsUsage(Present(RecordFields(UsageRecord(u))), u)
  {
    var fields := RecordFields(UsageRecord(u));
    FieldsShown(fields);
    hide Present, IntToString, Get;
    FiveFields(Present(fields), fields);
  }

  lemma RelationshipShown(l: Relationship)
    ensures ShowsRelationship(Present(RecordFields(RelationshipRecord(l))), l)
  {
    var fields := RecordFields(RelationshipRecord(l));
    FieldsShown(fields);
    hide Present, IntToString, Get;
    FiveFields(Present(fields), fields);
  }

  lemma FiveFields(m: Members, fields: Fields)
    requires |fields| == 5 && forall i: nat :: i < 5 ==> Get(m, fields[i].0) == fields[i].1
    ensures Get(m, fields[0].0) == fields[0].1 && Get(m, fields[1].0) == fields[1].1
    ensures Get(m, fields[2].0) == fields[2].1 && Get(m, fields[3].0) == fields[3].1
    ensures Get(m, fields[4].0) == fields[4].1
    ensures (set i | 0 <= i < |fields| :: fields[i].0)
         == {fields[0].0, fields[1].0, fields[2].0, fields[3].0, fields[4].0}
  {
  }

  /** The line of a record parses to an object that has each field's value under
      its name, none for an absent one, and nothing else. */
  lemma RecordShown(r: Record)
    ensures Shows(LineOf(RecordFields(r)), r)
  {
    RecordPrintable(r);
    LineParses(RecordFields(r));
    hide LineOf, RecordFields, Printable, Present, ShowsEntry, ShowsProject, ShowsUsage, ShowsRelationship, HasOnly;
    match r
    case EntryRecord(e) =>
      EntryShown(e);
      EntryHasOnly(e);
    case ProjectRecord(p) => ProjectShown(p);
    case UsageRecord(u) => UsageShown(u);
    case RelationshipRecord(l) => RelationshipShown(l);
  }

  lemma HeaderShown(generatedAt: Int64, generator: string)
    ensures ShowsHeader(LineOf(HeaderFields(generatedAt, generator)), generatedAt, generator)
  {
    var fields := HeaderFields(generatedAt, generator);
    HeaderPrintable(generatedAt, generator);
    LineParses(fields);
    HeaderFieldsOnce(generatedAt, generator);
    FieldsShown(fields);
    hide LineOf, Printable, Present, Get, NatToString;
    FiveFields(Present(fields), fields);
    assert IntToString(1) == NatToString(1);
  }

  // -------------------------------------------------------------- a rendered dump

  function EntitiesOf(kind: string, d: Dump): nat {
    if kind == "memory_entry" then |d.entries|
    else if kind == "project" then |d.projects|
    else if kind == "command_usage" then |d.usage|
    else 0
  }

  function RelationshipsOf(kind: string, ls: seq<Relationship>): nat {
    if ls == [] then 0
    else RelationshipsOf(kind, ls[..|ls| - 1]) + if ls[|ls| - 1].kind == kind then 1 else 0
  }

  /** Counts of a dump: how many it has of each kind, of those it has any of. */
  ghost predicate CountsAre(c: Counts, d: Dump) {
    && (forall k :: k in c.entity <==> EntitiesOf(k, d) > 0)
    && (forall k :: k in c.entity ==> c.entity[k] == EntitiesOf(k, d))
    && (forall k :: k in c.relationship <==> RelationshipsOf(k, d.relationships) > 0)
    && (forall k :: k in c.relationship ==> c.relationship[k] == RelationshipsOf(k, d.relationships))
  }

  /** Each entry, project, command and relationship has its line, in order. */
  ghost predicate ShowsRecords(lines: seq<string>, d: Dump) {
    var (m, n, k) := (1 + |d.entries|, 1 + |d.entries| + |d.projects|, 1 + |d.entries| + |d.projects| + |d.usage|);
    && |lines| == k + |d.relationships| + 1
    && (forall i :: 0 <= i < |d.entries| ==> Shows(lines[1 + i], EntryRecord(d.entries[i])))
    && (forall i :: 0 <= i < |d.projects| ==> Shows(lines[m + i], ProjectRecord(d.projects[i])))
    && (forall i :: 0 <= i < |d.usage| ==> Shows(lines[n + i], UsageRecord(d.usage[i])))
    && (forall i :: 0 <= i < |d.relationships| ==> Shows(lines[k + i], RelationshipRecord(d.relationships[i])))
  }

  /** The lines of a dump: its header, its records and the footer. */
  ghost predicate ShowsDump(lines: seq<string>, d: Dump, generatedAt: int, generator: string, footer: Footer) {
    && ShowsRecords(lines, d)
    && ShowsHeader(lines[0], generatedAt, generator)
    && ShowsFooter(lines[|lines| - 1], footer)
    && CountsAre(footer.counts, d)
  }

  lemma {:induction false} CountMembersGet(m: map<string, nat>, key: string)
    ensures Get(CountMembers(m), key) == if key in m then Some(Num(IntToString(m[key]))) else None
    decreases |m|
  {
    if m != map[] {
      var k := LeastKey(m.Keys);
      assert (m - {k}).Keys == m.Keys - {k};
      CountMembersGet(m - {k}, key);
      assert IntToString(m[k]) == NatToString(m[k]);
    }
  }

  lemma CountsShown(c: Counts)
    ensures HasCounts(Present(CountsFields(c)), "entity", c.entity)
    ensures HasCounts(Present(CountsFields(c)), "relationship", c.relationship)
  {
    var fields := CountsFields(c);
    PresentGet(fields, 0);
    PresentGet(fields, 1);
    hide IntToString, CountMembers, Present;
    forall k: string
      ensures Get(CountMembers(c.entity), k)
           == if k in c.entity then Some(Num(IntToString(c.entity[k]))) else None
      ensures Get(CountMembers(c.relationship), k)
           == if k in c.relationship then Some(Num(IntToString(c.relationship[k]))) else None
    {
      CountMembersGet(c.entity, k);
      CountMembersGet(c.relationship, k);
    }
  }

  lemma FooterShown(f: Footer)
    ensures ShowsFooter(LineOf(FooterFields(f)), f)
  {
    FooterPrintable(f);
    LineParses(FooterFields(f));
    var fields := FooterFields(f);
    PresentGet(fields, 0);
    PresentGet(fields, 1);
    PresentGet(fields, 2);
    CountsShown(f.counts);
    hide LineOf, Printable, Present, HasCounts;
  }

  lemma OccursAdd(a: seq<string>, b: seq<string>, k: string)
    ensures multiset(a + b)[k] == multiset(a)[k] + multiset(b)[k]
  {
  }

  lemma KindsSnoc(rs: seq<Record>, r: Record, k: string)
    ensures multiset(EntityKinds(rs + [r]))[k] == multiset(EntityKinds(rs))[k] + multiset(EntityKind(r))[k]
    ensures multiset(RelationshipKinds(rs + [r]))[k]
         == multiset(RelationshipKinds(rs))[k] + if r.RelationshipRecord? && r.relationship.kind == k then 1 else 0
  {
    GatheredSnoc(rs, r);
    var link := if r.RelationshipRecord? then [r.relationship.kind] else [];
    OccursAdd(EntityKinds(rs), EntityKind(r), k);
    OccursAdd(RelationshipKinds(rs), link, k);
    hide EntityKinds, RelationshipKinds, EntityKind;
  }

  /** Kinds of both parts of a list of records, as often as in each. */
  lemma {:induction false} KindsAdd(a: seq<Record>, b: seq<Record>, k: string)
    ensures multiset(EntityKinds(a + b))[k] == multiset(EntityKinds(a))[k] + multiset(EntityKinds(b))[k]
    ensures multiset(RelationshipKinds(a + b))[k]
         == multiset(RelationshipKinds(a))[k] + multiset(RelationshipKinds(b))[k]
  {
    NoKinds();
    hide EntityKinds, RelationshipKinds, EntityKind;
    if b == [] {
      assert a + b == a;
    } else {
      var (init, last) := (b[..|b| - 1], b[|b| - 1]);
      KindsAdd(a, init, k);
      assert a + b == (a + init) + [last] && b == init + [last];
      KindsSnoc(a + init, last, k);
      KindsSnoc(init, last, k);
    }
  }

  lemma NoKinds()
    ensures EntityKinds([]) == [] && RelationshipKinds([]) == []
  {
  }

  /** Entities of one kind. */
  lemma {:induction false} KindsOfEntities(rs: seq<Record>, kind: string)
    requires forall r :: r in rs ==> EntityKind(r) == [kind]
    ensures forall k :: multiset(EntityKinds(rs))[k] == if k == kind then |rs| else 0
    ensures RelationshipKinds(rs) == []
  {
    if rs != [] {
      KindsOfEntities(rs[..|rs| - 1], kind);
    }
  }

  lemma {:induction false} KindsOfLinks(ls: seq<Relationship>)
    ensures EntityKinds(RelationshipRecords(ls)) == []
    ensures forall k :: multiset(RelationshipKinds(RelationshipRecords(ls)))[k] == RelationshipsOf(k, ls)
  {
    if ls != [] {
      var (init, last) := (ls[..|ls| - 1], ls[|ls| - 1]);
      KindsOfLinks(init);
      assert RelationshipRecords(ls) == RelationshipRecords(init) + [RelationshipRecord(last)];
      GatheredSnoc(RelationshipRecords(init), RelationshipRecord(last));
    }
  }

  lemma KindsOfDump(d: Dump, k: string)
    ensures multiset(EntityKinds(Records(d)))[k] == EntitiesOf(k, d)
    ensures multiset(RelationshipKinds(Records(d)))[k] == RelationshipsOf(k, d.relationships)
  {
    var (es, ps, us, ls) := (EntryRecords(d.entries), ProjectRecords(d.projects),
                             UsageRecords(d.usage), RelationshipRecords(d.relationships));
    KindsOfEntities(es, "memory_entry");
    KindsOfEntities(ps, "project");
    KindsOfEntities(us, "command_usage");
    KindsOfLinks(d.relationships);
    assert Records(d) == es + ps + us + ls;
    hide EntityKinds, RelationshipKinds, Records, RelationshipsOf;
    KindsAdd(es, ps, k);
    KindsAdd(es + ps, us, k);
    KindsAdd(es + ps + us, ls, k);
  }

  lemma CountsOfDump(d: Dump)
    ensures CountsAre(CountsOf(Records(d)), d)
  {
    forall k ensures multiset(EntityKinds(Records(d)))[k] == EntitiesOf(k, d)
             ensures multiset(RelationshipKinds(Records(d)))[k] == RelationshipsOf(k, d.relationships)
    {
      KindsOfDump(d, k);
    }
    TallyCounts(EntityKinds(Records(d)));
    TallyCounts(RelationshipKinds(Records(d)));
    hide Tally, EntityKinds, RelationshipKinds, Records, EntitiesOf, RelationshipsOf;
  }

  lemma DumpLineAt(hash: Hash, d: Dump, generatedAt: Int64, generator: string)
    ensures var (lines, rs) := (DumpLines(hash, d, generatedAt, generator), Records(d));
      && |lines| == |rs| + 2
      && lines[0] == LineOf(HeaderFields(generatedAt, generator))
      && (forall i :: 0 <= i < |rs| ==> Shows(lines[1 + i], rs[i]))
      && lines[|rs| + 1] == LineOf(FooterFields(FooterOf(hash, d, generatedAt, generator)))
  {
    var (rs, lines) := (Records(d), DumpLines(hash, d, generatedAt, generator));
    hide LineOf, Records, FooterOf, FooterFields, HeaderFields, Shows;
    forall i | 0 <= i < |rs| ensures Shows(lines[1 + i], rs[i]) {
      RecordShown(rs[i]);
      assert lines[1 + i] == RecordLines(rs)[i];
    }
  }

  lemma RecordAt(d: Dump)
    ensures var (rs, m, n, k) := (Records(d), |d.entries|, |d.entries| + |d.projects|,
                                  |d.entries| + |d.projects| + |d.usage|);
      && (forall i :: 0 <= i < |d.entries| ==> rs[i] == EntryRecord(d.entries[i]))
      && (forall i :: 0 <= i < |d.projects| ==> rs[m + i] == ProjectRecord(d.projects[i]))
      && (forall i :: 0 <= i < |d.usage| ==> rs[n + i] == UsageRecord(d.usage[i]))
      && (forall i :: 0 <= i < |d.relationships| ==> rs[k + i] == RelationshipRecord(d.relationships[i]))
  {
  }

  lemma ShownInOrder(lines: seq<string>, d: Dump, rs: seq<Record>)
    requires rs == Records(d) && |lines| == |rs| + 2
    requires forall i :: 0 <= i < |rs| ==> Shows(lines[1 + i], rs[i])
    ensures ShowsRecords(lines, d)
  {
    RecordAt(d);
    hide Shows, Records;
    var (m, n, k) := (|d.entries|, |d.entries| + |d.projects|, |d.entries| + |d.projects| + |d.usage|);
    forall i | 0 <= i < |d.projects| ensures Shows(lines[1 + m + i], ProjectRecord(d.projects[i])) {
      assert Shows(lines[1 + (m + i)], rs[m + i]);
    }
    forall i | 0 <= i < |d.usage| ensures Shows(lines[1 + n + i], UsageRecord(d.usage[i])) {
      assert Shows(lines[1 + (n + i)], rs[n + i]);
    }
    forall i | 0 <= i < |d.relationships|
      ensures Shows(lines[1 + k + i], RelationshipRecord(d.relationships[i]))
    {
      assert Shows(lines[1 + (k + i)], rs[k + i]);
    }
  }

  lemma DumpLinesShown(hash: Hash, d: Dump, generatedAt: Int64, generator: string)
    ensures
      var (lines, footer) := (DumpLines(hash, d, generatedAt, generator), FooterOf(hash, d, generatedAt, generator));
      && ShowsRecords(lines, d)
      && |lines| > 0
      && ShowsHeader(lines[0], generatedAt, generator)
      && ShowsFooter(lines[|lines| - 1], footer)
  {
    hide ShowsHeader, ShowsFooter, FooterOf, LineOf, DumpLines, Shows, Records, ShowsRecords;
    HeaderShown(generatedAt, generator);
    FooterShown(FooterOf(hash, d, generatedAt, generator));
    DumpLineAt(hash, d, generatedAt, generator);
    ShownInOrder(DumpLines(hash, d, generatedAt, generator), d, Records(d));
  }

  /** What a rendered dump says, line by line. */
  lemma RenderedDumpShown(hash: Hash, d: Dump, generatedAt: Int64, generator: string)
    ensures ShowsDump(Lines(DumpText(hash, d, generatedAt, generator)), d, generatedAt, generator,
                      FooterOf(hash, d, generatedAt, generator))
  {
    assert FooterOf(hash, d, generatedAt, generator).counts == CountsOf(Records(d));
    hide CountsAre, ShowsHeader, ShowsFooter, ShowsRecords, CountsOf, FooterOf, Lines, DumpText, DumpLines, Records;
    LinesOfDump(hash, d, generatedAt, generator);
    CountsOfDump(d);
    DumpLinesShown(hash, d, generatedAt, generator);
  }
}
