/** No field of a record is lost when it is printed: lines determine records,
    lines of a dump determine the dump, and so does its digest, up to a collision. */
module DumpIdentity {
  import opened Text
  import opened Json
  import opened JsonProofs
  import opened Digest
  import opened DumpFormat
  import opened DumpProofs

  // ---------------------------------------------------------------- from text to fields

  predicate SameNames(a: Fields, b: Fields) {
    |a| == |b| && forall i :: 0 <= i < |a| ==> a[i].0 == b[i].0
  }

  predicate NamesDistinct(fields: Fields) { forall i: nat :: i < |fields| ==> Once(fields, i) }

  /** Lines of the same named fields have the same values, absent ones included. */
  lemma LinesFixFields(a: Fields, b: Fields)
    requires Printable(Obj(Present(a)), RECURSION_LIMIT) && Printable(Obj(Present(b)), RECURSION_LIMIT)
    requires LineOf(a) == LineOf(b) && SameNames(a, b) && NamesDistinct(a)
    ensures a == b
  {
    DocumentRoundTrip(Obj(Present(a)));
    DocumentRoundTrip(Obj(Present(b)));
    assert Present(a) == Present(b);
    hide LineOf, Present, Printable;
    forall i: nat | i < |a| ensures a[i] == b[i] {
      assert Once(a, i);
      assert Once(b, i);
      PresentGet(a, i);
      PresentGet(b, i);
    }
  }

  // -------------------------------------------------------------- from fields to values

  lemma IntFixed(a: Int64, b: Int64)
    requires Int(a) == Int(b)
    ensures a == b
  {
    IntToStringInjective(a, b);
  }

  lemma OptIntFixed(a: Option<Int64>, b: Option<Int64>)
    requires OptInt(a) == OptInt(b)
    ensures a == b
  {
    if a.Some? && b.Some? {
      IntFixed(a.value, b.value);
    }
  }

  lemma OptStringFixed(a: Option<string>, b: Option<string>)
    requires OptString(a) == OptString(b)
    ensures a == b
  {
  }

  lemma {:induction false} StringItemsFixed(a: seq<string>, b: seq<string>)
    requires StringItems(a) == StringItems(b)
    ensures a == b
  {
    if a != [] {
      StringItemsFixed(a[1..], b[1..]);
      assert a == [a[0]] + a[1..] && b == [b[0]] + b[1..];
    }
  }

  lemma OptListFixed(a: seq<string>, b: seq<string>)
    requires OptList(a) == OptList(b)
    ensures a == b
  {
    if a != [] {
      StringItemsFixed(a, b);
    }
  }

  // ----------------------------------------------------------------- the four kinds

  /** The place of a field among those of an entry, told by the length and the
      second letter of its name. */
  function EntryPlace(name: string): nat {
    if |name| < 2 then 17
    else
      match (|name|, name[1])
      case (6, 'e') => 0
      case (4, 'y') => 1
      case (3, _) => 2
      case (4, 'u') => 3
      case (4, 'i') => 4
      case (5, _) => 5
      case (4, 'o') => 6
      case (4, 'a') => 7
      case (12, _) => 8
      case (10, 'r') => 9
      case (6, 't') => 10
      case (10, 'o') => 11
      case (8, _) => 12
      case (10, 'n') => 13
      case (9, 'n') => 14
      case (9, 'e') => 15
      case (9, 'a') => 16
      case _ => 17
  }

  lemma EntryNamesDistinct(e: MemoryEntry)
    ensures NamesDistinct(RecordFields(EntryRecord(e)))
  {
    hide String, OptString, OptInt, OptList, Int;
    var fields := RecordFields(EntryRecord(e));
    assert forall i :: 0 <= i < |fields| ==> EntryPlace(fields[i].0) == i;
    hide EntryPlace, RecordFields;
    forall i: nat, j: nat | i < |fields| && j < |fields| && j != i ensures fields[j].0 != fields[i].0 {
      assert EntryPlace(fields[i].0) == i && EntryPlace(fields[j].0) == j;
    }
  }

  lemma EntryFixed(a: MemoryEntry, b: MemoryEntry)
    requires LineOf(RecordFields(EntryRecord(a))) == LineOf(RecordFields(EntryRecord(b)))
    ensures a == b
  {
    var (f, g) := (RecordFields(EntryRecord(a)), RecordFields(EntryRecord(b)));
    RecordPrintable(EntryRecord(a));
    RecordPrintable(EntryRecord(b));
    EntryNamesDistinct(a);
    EntryNamesSame(a, b);
    LinesFixFields(f, g);
    EntryOfFields(a, b);
    hide *;
  }

  lemma EntryNamesSame(a: MemoryEntry, b: MemoryEntry)
    ensures SameNames(RecordFields(EntryRecord(a)), RecordFields(EntryRecord(b)))
  {
    hide String, OptString, OptInt, OptList, Int;
  }

  lemma EntryOfFields(a: MemoryEntry, b: MemoryEntry)
    requires RecordFields(EntryRecord(a)) == RecordFields(EntryRecord(b))
    ensures a == b
  {
    var (f, g) := (RecordFields(EntryRecord(a)), RecordFields(EntryRecord(b)));
    hide OptString, OptInt, OptList, Int;
    assert f[2] == g[2] && f[4] == g[4] && f[5] == g[5] && f[6] == g[6];
    assert f[3] == g[3] && f[7] == g[7] && f[8] == g[8] && f[9] == g[9] && f[10] == g[10] && f[11] == g[11];
    assert f[12] == g[12] && f[13] == g[13] && f[14] == g[14] && f[15] == g[15] && f[16] == g[16];
    OptStringFixed(a.uuid, b.uuid);
    OptListFixed(a.tags, b.tags);
    OptListFixed(a.linkedFiles, b.linkedFiles);
    IntFixed(a.createdAt, b.createdAt);
    OptStringFixed(a.status, b.status);
    OptStringFixed(a.sourceRef, b.sourceRef);
    OptIntFixed(a.validAt, b.validAt);
    OptIntFixed(a.invalidAt, b.invalidAt);
    OptStringFixed(a.entityId, b.entityId);
    OptStringFixed(a.remoteId, b.remoteId);
    OptStringFixed(a.namespace, b.namespace);
  }

  lemma ProjectFixed(a: Project, b: Project)
    requires LineOf(RecordFields(ProjectRecord(a))) == LineOf(RecordFields(ProjectRecord(b)))
    ensures a == b
  {
    var (f, g) := (RecordFields(ProjectRecord(a)), RecordFields(ProjectRecord(b)));
    RecordPrintable(ProjectRecord(a));
    RecordPrintable(ProjectRecord(b));
    hide OptInt, LineOf, Printable;
    LinesFixFields(f, g);
    assert f[2] == g[2] && f[3] == g[3] && f[4] == g[4];
    OptIntFixed(a.registeredAt, b.registeredAt);
  }

  lemma UsageFixed(a: CommandUsage, b: CommandUsage)
    requires LineOf(RecordFields(UsageRecord(a))) == LineOf(RecordFields(UsageRecord(b)))
    ensures a == b
  {
    var (f, g) := (RecordFields(UsageRecord(a)), RecordFields(UsageRecord(b)));
    RecordPrintable(UsageRecord(a));
    RecordPrintable(UsageRecord(b));
    hide Int, LineOf, Printable;
    LinesFixFields(f, g);
    assert f[2] == g[2] && f[3] == g[3] && f[4] == g[4];
    IntFixed(a.at, b.at);
  }

  lemma RelationshipFixed(a: Relationship, b: Relationship)
    requires LineOf(RecordFields(RelationshipRecord(a))) == LineOf(RecordFields(RelationshipRecord(b)))
    ensures a == b
  {
    var (f, g) := (RecordFields(RelationshipRecord(a)), RecordFields(RelationshipRecord(b)));
    RecordPrintable(RelationshipRecord(a));
    RecordPrintable(RelationshipRecord(b));
    hide OptInt, LineOf, Printable;
    LinesFixFields(f, g);
    assert f[1] == g[1] && f[2] == g[2] && f[3] == g[3] && f[4] == g[4];
    OptIntFixed(a.createdAt, b.createdAt);
  }

  lemma KindFixed(a: Record, b: Record)
    requires ReadAs(a) == ReadAs(b)
    ensures a.EntryRecord? == b.EntryRecord? && a.ProjectRecord? == b.ProjectRecord?
    ensures a.UsageRecord? == b.UsageRecord? && a.RelationshipRecord? == b.RelationshipRecord?
  {
    assert |"memory_entry"| == 12 && |"project"| == 7 && |"command_usage"| == 13;
  }

  /** Records that are printed alike are the same record. */
  lemma RecordFixed(a: Record, b: Record)
    requires LineOf(RecordFields(a)) == LineOf(RecordFields(b))
    ensures a == b
  {
    RecordReadsBack(a);
    RecordReadsBack(b);
    KindFixed(a, b);
    hide LineOf, RecordFields, ReadLine, ReadAs;
    match (a, b) {
      case (EntryRecord(x), EntryRecord(y)) => EntryFixed(x, y);
      case (ProjectRecord(x), ProjectRecord(y)) => ProjectFixed(x, y);
      case (UsageRecord(x), UsageRecord(y)) => UsageFixed(x, y);
      case (RelationshipRecord(x), RelationshipRecord(y)) => RelationshipFixed(x, y);
      case _ => assert false;
    }
  }

  // ------------------------------------------------------------------- whole dumps

  function CountSort<T>(sort: T -> bool, s: seq<T>): nat {
    if s == [] then 0 else CountSort(sort, s[..|s| - 1]) + if sort(s[|s| - 1]) then 1 else 0
  }

  lemma {:induction false} CountRun<T>(sort: T -> bool, a: seq<T>, b: seq<T>)
    requires (forall x :: x in a ==> sort(x)) && (forall x :: x in b ==> !sort(x))
    ensures CountSort(sort, a + b) == |a|
    decreases |a| + |b|
  {
    if b != [] {
      CountRun(sort, a, b[..|b| - 1]);
      assert (a + b)[..|a + b| - 1] == a + b[..|b| - 1];
    } else if a != [] {
      CountRun(sort, a[..|a| - 1], []);
      assert a + b == a && a[..|a| - 1] + [] == a[..|a| - 1];
    }
  }

  /** Where a run of items of one sort ends is fixed. */
  lemma RunFixed<T>(sort: T -> bool, a: seq<T>, b: seq<T>, c: seq<T>, d: seq<T>)
    requires a + b == c + d
    requires (forall x :: x in a ==> sort(x)) && (forall x :: x in c ==> sort(x))
    requires (forall x :: x in b ==> !sort(x)) && (forall x :: x in d ==> !sort(x))
    ensures a == c && b == d
  {
    CountRun(sort, a, b);
    CountRun(sort, c, d);
    assert a == (a + b)[..|a|] && c == (c + d)[..|c|] && b == (a + b)[|a|..] && d == (c + d)[|c|..];
  }

  lemma RecordsFixDump(a: Dump, b: Dump)
    requires Records(a) == Records(b)
    ensures a == b
  {
    var (ea, pa, ua, ra) := (EntryRecords(a.entries), ProjectRecords(a.projects), UsageRecords(a.usage),
                             RelationshipRecords(a.relationships));
    var (eb, pb, ub, rb) := (EntryRecords(b.entries), ProjectRecords(b.projects), UsageRecords(b.usage),
                             RelationshipRecords(b.relationships));
    assert Records(a) == ea + (pa + (ua + ra)) && Records(b) == eb + (pb + (ub + rb));
    RunFixed((r: Record) => r.EntryRecord?, ea, pa + (ua + ra), eb, pb + (ub + rb));
    RunFixed((r: Record) => r.ProjectRecord?, pa, ua + ra, pb, ub + rb);
    RunFixed((r: Record) => r.UsageRecord?, ua, ra, ub, rb);
    ListsFixed(a, b);
  }

  lemma ListsFixed(a: Dump, b: Dump)
    requires EntryRecords(a.entries) == EntryRecords(b.entries)
    requires ProjectRecords(a.projects) == ProjectRecords(b.projects)
    requires UsageRecords(a.usage) == UsageRecords(b.usage)
    requires RelationshipRecords(a.relationships) == RelationshipRecords(b.relationships)
    ensures a == b
  {
    forall i | 0 <= i < |a.entries| ensures a.entries[i] == b.entries[i] {
      assert EntryRecords(a.entries)[i] == EntryRecords(b.entries)[i];
    }
    forall i | 0 <= i < |a.projects| ensures a.projects[i] == b.projects[i] {
      assert ProjectRecords(a.projects)[i] == ProjectRecords(b.projects)[i];
    }
    forall i | 0 <= i < |a.usage| ensures a.usage[i] == b.usage[i] {
      assert UsageRecords(a.usage)[i] == UsageRecords(b.usage)[i];
    }
    forall i | 0 <= i < |a.relationships| ensures a.relationships[i] == b.relationships[i] {
      assert RelationshipRecords(a.relationships)[i] == RelationshipRecords(b.relationships)[i];
    }
    assert a.entries == b.entries && a.projects == b.projects;
    assert a.usage == b.usage && a.relationships == b.relationships;
  }

  lemma HeaderFixed(at: Int64, generator: string, at': Int64, generator': string)
    requires LineOf(HeaderFields(at, generator)) == LineOf(HeaderFields(at', generator'))
    ensures at == at' && generator == generator'
  {
    var (f, g) := (HeaderFields(at, generator), HeaderFields(at', generator'));
    HeaderPrintable(at, generator);
    HeaderPrintable(at', generator');
    HeaderFieldsOnce(at, generator);
    hide Int, LineOf, Printable, Once;
    LinesFixFields(f, g);
    assert f[3] == g[3] && f[4] == g[4];
    IntFixed(at, at');
  }

  /** The lines that the digest covers determine the dump, its time and its generator. */
  lemma LinesFixDump(a: Dump, at: Int64, generator: string, b: Dump, at': Int64, generator': string)
    requires DigestedLines(a, at, generator) == DigestedLines(b, at', generator')
    ensures a == b && at == at' && generator == generator'
  {
    var (la, lb) := (DigestedLines(a, at, generator), DigestedLines(b, at', generator'));
    assert la[0] == lb[0] && la[1..] == RecordLines(Records(a)) && lb[1..] == RecordLines(Records(b));
    HeaderFixed(at, generator, at', generator');
    hide LineOf, RecordFields, HeaderFields, Records;
    forall i | 0 <= i < |Records(a)| ensures Records(a)[i] == Records(b)[i] {
      assert RecordLines(Records(a))[i] == RecordLines(Records(b))[i];
      RecordFixed(Records(a)[i], Records(b)[i]);
    }
    RecordsFixDump(a, b);
  }

  /** Dumps whose footers hold one digest are the same dump, up to a collision. */
  lemma DigestFixesDump(hash: Hash, a: Dump, at: Int64, generator: string, b: Dump, at': Int64, generator': string)
    requires FooterOf(hash, a, at, generator).digest == FooterOf(hash, b, at', generator').digest
    ensures
      var (la, lb) := (DigestedLines(a, at, generator), DigestedLines(b, at', generator'));
      (a == b && at == at' && generator == generator') ||
      (Collision(hash, la, lb).Some? && Collides(hash, Collision(hash, la, lb).value))
  {
    var (la, lb) := (DigestedLines(a, at, generator), DigestedLines(b, at', generator'));
    FooterDigestBinds(hash, la, lb);
    if Collision(hash, la, lb).None? {
      LinesFixDump(a, at, generator, b, at', generator');
    }
  }

  /** A file is accepted with the digests of at most one dump, up to a collision
      between its lines and those of either. */
  lemma LandedFixesDump(hash: Hash, landed: string, a: Dump, at: Int64, generator: string,
      b: Dump, at': Int64, generator': string)
    requires Verify(hash, landed).Ok?
    requires Verify(hash, landed).value.perRecord == RecordDigests(hash, DigestedLines(a, at, generator))
    requires Verify(hash, landed).value.perRecord == RecordDigests(hash, DigestedLines(b, at', generator'))
    ensures
      var (la, lb) := (DigestedLines(a, at, generator), DigestedLines(b, at', generator'));
      (a == b && at == at' && generator == generator') ||
      (FirstDifference(la, lb).Some? && Collides(hash, FirstDifference(la, lb).value))
  {
    var (la, lb) := (DigestedLines(a, at, generator), DigestedLines(b, at', generator'));
    RecordDigestsBind(hash, la, lb);
    if FirstDifference(la, lb).None? {
      LinesFixDump(a, at, generator, b, at', generator');
    }
  }
}
