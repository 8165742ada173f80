/** What the dump format promises: a rendered dump is accepted, an accepted
    dump is bound to its records, and a truncated dump is refused. */
module DumpProofs {
  import opened Text
  import opened Json
  import opened JsonProofs
  import opened Digest
  import opened DumpFormat

  // ------------------------------------------------- what is printed reads back

  /** No other field has this field's name. */
  predicate Once(fields: Fields, i: nat)
    requires i < |fields|
  {
    forall j :: 0 <= j < |fields| && j != i ==> fields[j].0 != fields[i].0
  }

  lemma {:induction false} PresentAbsent(fields: Fields, key: string)
    requires forall j :: 0 <= j < |fields| ==> fields[j].0 != key
    ensures Get(Present(fields), key) == None && Occurrences(Present(fields), key) == 0
  {
    if fields != [] {
      PresentAbsent(fields[1..], key);
    }
  }

  lemma {:induction false} PresentGet(fields: Fields, i: nat)
    requires i < |fields| && Once(fields, i)
    ensures Get(Present(fields), fields[i].0) == fields[i].1
    ensures Occurrences(Present(fields), fields[i].0) == if fields[i].1.Some? then 1 else 0
  {
    if i == 0 {
      PresentAbsent(fields[1..], fields[0].0);
    } else {
      PresentGet(fields[1..], i - 1);
      assert fields[0].0 != fields[i].0;
    }
  }

  predicate PrintableFields(fields: Fields, depth: nat) {
    forall i :: 0 <= i < |fields| && fields[i].1.Some? ==> Printable(fields[i].1.value, depth)
  }

  lemma {:induction false} PresentPrintable(fields: Fields, depth: nat)
    requires PrintableFields(fields, depth)
    ensures PrintableMembers(Present(fields), depth)
  {
    if fields != [] {
      PresentPrintable(fields[1..], depth);
    }
  }

  lemma IntPrintable(n: int)
    ensures IntLexeme(IntToString(n))
  {
    if n < 0 {
      assert IntToString(n)[1..] == NatToString(-n);
    } else {
      assert NatToString(n)[0] in NatToString(n);
    }
  }

  lemma {:induction false} StringItemsPrintable(ss: seq<string>, depth: nat)
    ensures PrintableItems(StringItems(ss), depth)
  {
    if ss != [] {
      StringItemsPrintable(ss[1..], depth);
    }
  }

  lemma OptIntPrintable(v: Option<Int64>, depth: nat)
    ensures OptInt(v).Some? ==> Printable(OptInt(v).value, depth)
  {
    if v.Some? {
      IntPrintable(v.value);
    }
  }

  lemma OptListPrintable(ss: seq<string>, depth: nat)
    requires depth > 1
    ensures OptList(ss).Some? ==> Printable(OptList(ss).value, depth)
  {
    StringItemsPrintable(ss, depth - 1);
  }

  lemma RecordFieldsPrintable(r: Record, d: nat)
    requires d > 1
    ensures PrintableFields(RecordFields(r), d)
  {
    hide IntLexeme, IntToString, NatToString;
    match r {
      case EntryRecord(e) =>
        OptListPrintable(e.tags, d);
        OptListPrintable(e.linkedFiles, d);
        IntPrintable(e.createdAt);
        OptIntPrintable(e.validAt, d);
        OptIntPrintable(e.invalidAt, d);
      case ProjectRecord(p) => OptIntPrintable(p.registeredAt, d);
      case UsageRecord(u) => IntPrintable(u.at);
      case RelationshipRecord(l) => OptIntPrintable(l.createdAt, d);
    }
  }

  lemma RecordPrintable(r: Record)
    ensures Printable(Obj(Present(RecordFields(r))), RECURSION_LIMIT)
  {
    RecordFieldsPrintable(r, RECURSION_LIMIT - 1);
    PresentPrintable(RecordFields(r), RECURSION_LIMIT - 1);
    hide RecordFields, Present, PrintableFields;
  }

  lemma {:induction false} CountMembersPrintable(m: map<string, nat>, depth: nat)
    ensures PrintableMembers(CountMembers(m), depth)
    decreases |m|
  {
    if m != map[] {
      var k := LeastKey(m.Keys);
      IntPrintable(m[k]);
      assert IntToString(m[k]) == NatToString(m[k]);
      assert (m - {k}).Keys == m.Keys - {k};
      CountMembersPrintable(m - {k}, depth);
    }
  }

  lemma FooterPrintable(f: Footer)
    ensures Printable(Obj(Present(FooterFields(f))), RECURSION_LIMIT)
  {
    var d := RECURSION_LIMIT - 1;
    CountMembersPrintable(f.counts.entity, d - 2);
    CountMembersPrintable(f.counts.relationship, d - 2);
    PresentPrintable(CountsFields(f.counts), d - 1);
    PresentPrintable(FooterFields(f), d);
  }

  lemma HeaderPrintable(generatedAt: Int64, generator: string)
    ensures Printable(Obj(Present(HeaderFields(generatedAt, generator))), RECURSION_LIMIT)
  {
    IntPrintable(generatedAt);
    IntPrintable(FORMAT_VERSION);
    assert IntToString(FORMAT_VERSION) == NatToString(FORMAT_VERSION);
    PresentPrintable(HeaderFields(generatedAt, generator), RECURSION_LIMIT - 1);
  }

  lemma FieldReads(fields: Fields, i: nat, arity: nat)
    requires i < |fields| && Once(fields, i) && fields[i].1.Some?
    ensures Field(Obj(Present(fields)), fields[i].0, i, arity) == fields[i].1
  {
    PresentGet(fields, i);
  }

  lemma HeaderFieldsOnce(generatedAt: Int64, generator: string)
    ensures forall i: nat :: i < 5 ==> Once(HeaderFields(generatedAt, generator), i)
  {
  }

  lemma HeaderReads(generatedAt: Int64, generator: string)
    ensures ReadHeader(Obj(Present(HeaderFields(generatedAt, generator))))
         == Some(Header("header", FORMAT, FORMAT_VERSION))
  {
    var fields := HeaderFields(generatedAt, generator);
    HeaderFieldsOnce(generatedAt, generator);
    FieldReads(fields, 0, 5);
    FieldReads(fields, 1, 5);
    FieldReads(fields, 2, 5);
    FieldReads(fields, 3, 5);
    FieldReads(fields, 4, 5);
    NatReadsBack(FORMAT_VERSION, TWO_32);
    IntReadsAsInt64(generatedAt);
  }

  lemma HeaderAccepted(generatedAt: Int64, generator: string)
    ensures CheckHeader(LineOf(HeaderFields(generatedAt, generator))).None?
  {
    HeaderPrintable(generatedAt, generator);
    DocumentRoundTrip(Obj(Present(HeaderFields(generatedAt, generator))));
    HeaderReads(generatedAt, generator);
  }

  lemma NatReadsBack(n: nat, bound: nat)
    requires n < bound
    ensures AsNat(Some(Num(NatToString(n))), bound) == Some(n)
  {
    NatRoundTrip(n);
  }

  lemma IntReadsAsInt64(n: Int64)
    ensures IsInt64(Int(n))
  {
    var m: int := n;
    if m < 0 {
      NatRoundTrip(-m);
      assert IntToString(m)[1..] == NatToString(-m);
    } else {
      NatReadsBack(m, TWO_63);
      assert NatToString(m)[0] in NatToString(m);
    }
  }

  /** The line the reader should make of a record. */
  function ReadAs(r: Record): Line {
    match r
    case EntryRecord(e) => EntityLine("memory_entry", e.reference)
    case ProjectRecord(p) => EntityLine("project", p.reference)
    case UsageRecord(u) => EntityLine("command_usage", u.reference)
    case RelationshipRecord(l) => RelationshipLine(l.kind, l.from, l.to)
  }

  lemma LineReads(fields: Fields)
    requires Printable(Obj(Present(fields)), RECURSION_LIMIT)
    ensures ReadLine(LineOf(fields)) == ReadRecord(Obj(Present(fields)))
  {
    DocumentRoundTrip(Obj(Present(fields)));
  }

  lemma StringFieldReads(fields: Fields, i: nat, s: string)
    requires i < |fields| && Once(fields, i) && fields[i].1 == String(s)
    ensures StringMember(Obj(Present(fields)), fields[i].0) == Some(s)
  {
    PresentGet(fields, i);
  }

  lemma ReadsAsEntity(fields: Fields, kind: string, reference: string)
    requires Printable(Obj(Present(fields)), RECURSION_LIMIT)
    requires |fields| >= 3 && Once(fields, 0) && Once(fields, 1) && Once(fields, 2)
    requires fields[0] == ("record", String("entity"))
    requires fields[1] == ("type", String(kind)) && fields[2] == ("ref", String(reference))
    ensures ReadLine(LineOf(fields)) == Ok(EntityLine(kind, reference))
  {
    LineReads(fields);
    StringFieldReads(fields, 0, "entity");
    StringFieldReads(fields, 1, kind);
    StringFieldReads(fields, 2, reference);
  }

  lemma ReadsAsRelationship(fields: Fields, kind: string, from: string, to: string)
    requires Printable(Obj(Present(fields)), RECURSION_LIMIT)
    requires |fields| >= 4 && Once(fields, 0) && Once(fields, 1) && Once(fields, 2) && Once(fields, 3)
    requires fields[0] == ("record", String("relationship"))
    requires fields[1] == ("type", String(kind))
    requires fields[2] == ("from", String(from)) && fields[3] == ("to", String(to))
    ensures ReadLine(LineOf(fields)) == Ok(RelationshipLine(kind, from, to))
  {
    LineReads(fields);
    StringFieldReads(fields, 0, "relationship");
    StringFieldReads(fields, 1, kind);
    StringFieldReads(fields, 2, from);
    StringFieldReads(fields, 3, to);
  }

  lemma EntryFieldsOnce(e: MemoryEntry)
    ensures
      var fields := RecordFields(EntryRecord(e));
      |fields| == 17 && Once(fields, 0) && Once(fields, 1) && Once(fields, 2) &&
      fields[0] == ("record", String("entity")) && fields[1] == ("type", String("memory_entry")) &&
      fields[2] == ("ref", String(e.reference))
  {
    hide String, OptString, OptInt, OptList, Int;
    var fields := RecordFields(EntryRecord(e));
    assert forall j :: 0 < j < 17 ==> |fields[j].0| != 6 || fields[j].0[0] != 'r';
    assert forall j :: 0 <= j < 17 && j != 1 ==> |fields[j].0| != 4 || fields[j].0[1] != 'y';
    assert forall j :: 0 <= j < 17 && j != 2 ==> |fields[j].0| != 3;
  }

  lemma EntryReadsBack(e: MemoryEntry)
    ensures ReadLine(LineOf(RecordFields(EntryRecord(e)))) == Ok(ReadAs(EntryRecord(e)))
  {
    RecordPrintable(EntryRecord(e));
    EntryFieldsOnce(e);
    hide Printable, RecordFields, Once;
    ReadsAsEntity(RecordFields(EntryRecord(e)), "memory_entry", e.reference);
  }

  lemma ProjectReadsBack(p: Project)
    ensures ReadLine(LineOf(RecordFields(ProjectRecord(p)))) == Ok(ReadAs(ProjectRecord(p)))
  {
    RecordPrintable(ProjectRecord(p));
    ReadsAsEntity(RecordFields(ProjectRecord(p)), "project", p.reference);
  }

  lemma UsageReadsBack(u: CommandUsage)
    ensures ReadLine(LineOf(RecordFields(UsageRecord(u)))) == Ok(ReadAs(UsageRecord(u)))
  {
    RecordPrintable(UsageRecord(u));
    ReadsAsEntity(RecordFields(UsageRecord(u)), "command_usage", u.reference);
  }

  lemma RelationshipReadsBack(l: Relationship)
    ensures ReadLine(LineOf(RecordFields(RelationshipRecord(l)))) == Ok(ReadAs(RelationshipRecord(l)))
  {
    RecordPrintable(RelationshipRecord(l));
    ReadsAsRelationship(RecordFields(RelationshipRecord(l)), l.kind, l.from, l.to);
  }

  lemma RecordReadsBack(r: Record)
    ensures ReadLine(LineOf(RecordFields(r))) == Ok(ReadAs(r))
  {
    match r
    case EntryRecord(e) => EntryReadsBack(e);
    case ProjectRecord(p) => ProjectReadsBack(p);
    case UsageRecord(u) => UsageReadsBack(u);
    case RelationshipRecord(l) => RelationshipReadsBack(l);
  }

  lemma TakeOut(read: map<string, nat>, m: map<string, nat>, k: string)
    requires k in m
    ensures (m - {k}).Keys == m.Keys - {k} && |m - {k}| < |m|
    ensures read[k := m[k]] + (m - {k}) == read + m
  {
    var rest := m - {k};
    assert rest.Keys == m.Keys - {k};
    assert |rest| == |rest.Keys| < |m.Keys| == |m|;
    TakenOutFirst(read, m, rest, k);
  }

  lemma TakenOutFirst(read: map<string, nat>, m: map<string, nat>, rest: map<string, nat>, k: string)
    requires k in m && forall x :: x in rest <==> x in m && x != k
    requires forall x :: x in rest ==> rest[x] == m[x]
    ensures read[k := m[k]] + rest == read + m
  {
    var (a, b) := (read[k := m[k]] + rest, read + m);
    assert forall x :: x in a <==> x in b;
    assert forall x :: x in b ==> a[x] == b[x];
  }

  lemma {:induction false} CountMapReadsBack(m: map<string, nat>, read: map<string, nat>)
    requires forall k :: k in m ==> m[k] < TWO_64
    ensures ReadCountMap(CountMembers(m), read) == Some(read + m)
    decreases |m|
  {
    if m == map[] {
      assert read + m == read;
    } else {
      var k := LeastKey(m.Keys);
      TakeOut(read, m, k);
      NatReadsBack(m[k], TWO_64);
      CountMapReadsBack(m - {k}, read[k := m[k]]);
    }
  }

  predicate Small(c: Counts) {
    && (forall k :: k in c.entity ==> c.entity[k] < TWO_64)
    && (forall k :: k in c.relationship ==> c.relationship[k] < TWO_64)
  }

  lemma CountObjectReadsBack(m: map<string, nat>)
    requires forall k :: k in m ==> m[k] < TWO_64
    ensures ReadCountObject(Some(Obj(CountMembers(m)))) == Some(m)
  {
    CountMapReadsBack(m, map[]);
    assert map[] + m == m;
  }

  lemma CountsReadBack(c: Counts)
    requires Small(c)
    ensures ReadCounts(Obj(Present(CountsFields(c)))) == Some(c)
  {
    FieldReads(CountsFields(c), 0, 2);
    FieldReads(CountsFields(c), 1, 2);
    CountObjectReadsBack(c.entity);
    CountObjectReadsBack(c.relationship);
  }

  lemma FooterReadsBack(f: Footer)
    requires Small(f.counts)
    ensures ReadLine(LineOf(FooterFields(f))) == Ok(FooterLine(f))
  {
    var fields := FooterFields(f);
    FooterPrintable(f);
    LineReads(fields);
    StringFieldReads(fields, 0, "footer");
    FieldReads(fields, 0, 3);
    FieldReads(fields, 1, 3);
    FieldReads(fields, 2, 3);
    CountsReadBack(f.counts);
  }

  // ------------------------------------------------- a rendered dump is accepted

  function Refs(rs: seq<Record>): seq<string> {
    if rs == [] then [] else Refs(rs[..|rs| - 1]) + RefOf(rs[|rs| - 1])
  }

  function RefOf(r: Record): seq<string> {
    match r
    case EntryRecord(e) => [e.reference]
    case ProjectRecord(p) => [p.reference]
    case UsageRecord(u) => [u.reference]
    case RelationshipRecord(_) => []
  }

  function Endpoints(rs: seq<Record>): seq<string> {
    if rs == [] then [] else Endpoints(rs[..|rs| - 1]) + EndpointsOf(rs[|rs| - 1])
  }

  function EndpointsOf(r: Record): seq<string> {
    if r.RelationshipRecord? then [r.relationship.from, r.relationship.to] else []
  }

  predicate Distinct(ss: seq<string>) {
    forall i, j :: 0 <= i < j < |ss| ==> ss[i] != ss[j]
  }

  /** References are unique and every link end is one of them. */
  predicate WellLinked(d: Dump) {
    && Distinct(Refs(Records(d)))
    && forall e :: e in Endpoints(Records(d)) ==> e in Refs(Records(d))
  }

  /** What the reader has after the header and the records `rs`. */
  function GatheredFrom(header: string, rs: seq<Record>): Gathered {
    Gathered([header] + RecordLines(rs), EntityKinds(rs), RelationshipKinds(rs), Refs(rs), Endpoints(rs), None)
  }

  lemma {:induction false} GatherAllAppend(g: Gathered, a: seq<string>, b: seq<string>)
    ensures GatherAll(g, a + b)
         == match GatherAll(g, a) case Err(e) => Err(e) case Ok(g2) => GatherAll(g2, b)
    decreases |a|
  {
    if a == [] {
      assert a + b == b;
    } else {
      assert (a + b)[1..] == a[1..] + b;
      if Gather(g, a[0]).Ok? {
        GatherAllAppend(Gather(g, a[0]).value, a[1..], b);
      }
    }
  }

  lemma GatherOne(g: Gathered, line: string)
    ensures GatherAll(g, [line]) == Gather(g, line)
  {
    assert [line][1..] == [];
  }

  lemma RecordLinesSnoc(header: string, rs: seq<Record>, r: Record)
    ensures RecordLines(rs + [r]) == RecordLines(rs) + [LineOf(RecordFields(r))]
    ensures [header] + RecordLines(rs + [r]) == [header] + RecordLines(rs) + [LineOf(RecordFields(r))]
  {
  }

  lemma GatheredSnoc(rs: seq<Record>, r: Record)
    ensures EntityKinds(rs + [r]) == EntityKinds(rs) + EntityKind(r)
    ensures RelationshipKinds(rs + [r])
         == RelationshipKinds(rs) + if r.RelationshipRecord? then [r.relationship.kind] else []
    ensures Refs(rs + [r]) == Refs(rs) + RefOf(r)
    ensures Endpoints(rs + [r]) == Endpoints(rs) + EndpointsOf(r)
  {
    assert (rs + [r])[..|rs|] == rs;
  }

  lemma GatherRecord(header: string, rs: seq<Record>, r: Record)
    ensures Gather(GatheredFrom(header, rs), LineOf(RecordFields(r))) == Ok(GatheredFrom(header, rs + [r]))
  {
    RecordReadsBack(r);
    RecordLinesSnoc(header, rs, r);
    GatheredSnoc(rs, r);
    assert forall ss: seq<string> :: ss + [] == ss;
  }

  lemma {:induction false} GatherRecords(header: string, rs: seq<Record>)
    ensures GatherAll(Start(header), RecordLines(rs)) == Ok(GatheredFrom(header, rs))
  {
    if rs == [] {
      assert [header] + RecordLines(rs) == [header];
    } else {
      var (init, last) := (rs[..|rs| - 1], rs[|rs| - 1]);
      assert init + [last] == rs;
      GatherRecords(header, init);
      RecordLinesSnoc(header, init, last);
      GatherAllAppend(Start(header), RecordLines(init), [LineOf(RecordFields(last))]);
      GatherOne(GatheredFrom(header, init), LineOf(RecordFields(last)));
      GatherRecord(header, init, last);
    }
  }

  lemma {:induction false} RepeatFound(refs: seq<string>, from: nat)
    requires from <= |refs|
    ensures FirstRepeat(refs, from) == None <==> forall j :: from <= j < |refs| ==> refs[j] !in refs[..j]
    decreases |refs| - from
  {
    if from < |refs| {
      RepeatFound(refs, from + 1);
    }
  }

  lemma NoRepeatExactly(refs: seq<string>)
    ensures FirstRepeat(refs, 0) == None <==> Distinct(refs)
  {
    RepeatFound(refs, 0);
    if Distinct(refs) {
      forall j | 0 <= j < |refs| ensures refs[j] !in refs[..j] {
      }
    } else {
      var i, j :| 0 <= i < j < |refs| && refs[i] == refs[j];
      assert refs[..j][i] == refs[j];
    }
  }

  lemma {:induction false} NoDanglingExactly(endpoints: seq<string>, refs: seq<string>)
    ensures FirstDangling(endpoints, refs) == None <==> forall e :: e in endpoints ==> e in refs
  {
    if endpoints != [] {
      NoDanglingExactly(endpoints[1..], refs);
      assert endpoints == [endpoints[0]] + endpoints[1..];
    }
  }

  lemma {:induction false} KindsBound(rs: seq<Record>)
    ensures |EntityKinds(rs)| <= |rs| && |RelationshipKinds(rs)| <= |rs|
  {
    if rs != [] {
      KindsBound(rs[..|rs| - 1]);
    }
  }

  lemma TallySmall(ks: seq<string>)
    requires |ks| < TWO_64
    ensures forall k :: k in Tally(ks) ==> Tally(ks)[k] < TWO_64
  {
    TallyCounts(ks);
    forall k | k in ks ensures multiset(ks)[k] < TWO_64 {
      assert multiset(ks)[k] <= |multiset(ks)| == |ks|;
    }
  }

  lemma CountsSmall(rs: seq<Record>)
    requires |rs| < TWO_64
    ensures Small(CountsOf(rs))
  {
    KindsBound(rs);
    TallySmall(EntityKinds(rs));
    TallySmall(RelationshipKinds(rs));
  }

  /** A line the renderer emits: a printed object. */
  ghost predicate Emitted(line: string) {
    exists fields: Fields :: line == LineOf(fields) && Printable(Obj(Present(fields)), RECURSION_LIMIT)
  }

  lemma EmittedLine(line: string)
    requires Emitted(line)
    ensures PlainLine(line) && line != "" && Parse(line).Some?
    ensures forall p: string :: p < line ==> Parse(p) == None
  {
    var fields: Fields :| line == LineOf(fields) && Printable(Obj(Present(fields)), RECURSION_LIMIT);
    PrintedObjectIsPlainLine(Obj(Present(fields)));
    DocumentRoundTrip(Obj(Present(fields)));
    forall p: string | p < line ensures Parse(p) == None {
      TruncatedObjectRefused(Obj(Present(fields)), p);
    }
  }

  lemma DigestedLinesEmitted(d: Dump, at: Int64, generator: string)
    ensures forall l :: l in DigestedLines(d, at, generator) ==> Emitted(l)
  {
    HeaderPrintable(at, generator);
    forall r: Record ensures Emitted(LineOf(RecordFields(r))) {
      RecordPrintable(r);
    }
  }

  lemma DumpLinesEmitted(hash: Hash, d: Dump, at: Int64, generator: string)
    ensures forall l :: l in DumpLines(hash, d, at, generator) ==> Emitted(l)
  {
    DigestedLinesEmitted(d, at, generator);
    FooterPrintable(FooterOf(hash, d, at, generator));
  }

  lemma LinesOfDump(hash: Hash, d: Dump, at: Int64, generator: string)
    ensures Lines(DumpText(hash, d, at, generator)) == DumpLines(hash, d, at, generator)
  {
    hide DumpLines, Lines, Unlines, Emitted, PlainLine;
    var lines := DumpLines(hash, d, at, generator);
    DumpLinesEmitted(hash, d, at, generator);
    forall l | l in lines ensures PlainLine(l) { EmittedLine(l); }
    LinesOfUnlines(lines, "");
    assert Unlines(lines) + "" == Unlines(lines);
  }

  lemma GatherFooter(g: Gathered, f: Footer)
    requires Small(f.counts) && g.footer == None
    ensures Gather(g, LineOf(FooterFields(f))) == Ok(g.(footer := Some(f)))
  {
    hide LineOf;
    FooterReadsBack(f);
  }

  lemma LinesAfterHeader(hash: Hash, d: Dump, at: Int64, generator: string)
    ensures DumpLines(hash, d, at, generator)[1..] ==
      RecordLines(Records(d)) + [LineOf(FooterFields(FooterOf(hash, d, at, generator)))]
  {
    hide LineOf, FooterOf, RecordLines, Records;
  }

  /** The reader's state when it has read a whole rendered dump. */
  lemma DumpGathered(hash: Hash, d: Dump, at: Int64, generator: string)
    requires |Records(d)| < TWO_64
    ensures GatherAll(Start(DumpLines(hash, d, at, generator)[0]), DumpLines(hash, d, at, generator)[1..])
         == Ok(GatheredFrom(DumpLines(hash, d, at, generator)[0], Records(d))
                 .(footer := Some(FooterOf(hash, d, at, generator))))
  {
    var (rs, header, f) := (Records(d), DumpLines(hash, d, at, generator)[0], FooterOf(hash, d, at, generator));
    var last := LineOf(FooterFields(f));
    assert f.counts == CountsOf(rs) && GatheredFrom(header, rs).footer == None;
    LinesAfterHeader(hash, d, at, generator);
    hide LineOf, FooterOf, DumpLines, RecordLines, GatheredFrom, GatherAll, Gather, Records,
      Start, CountsOf, FooterFields, Small;
    GatherRecords(header, rs);
    GatherAllAppend(Start(header), RecordLines(rs), [last]);
    GatherOne(GatheredFrom(header, rs), last);
    CountsSmall(rs);
    GatherFooter(GatheredFrom(header, rs), f);
  }

  /** Of counts and a digest that match, only the links decide. */
  lemma ConcludeDecides(hash: Hash, g: Gathered)
    requires g.footer == Some(Footer(Counts(Tally(g.entityKinds), Tally(g.relationshipKinds)),
                                     FoldDigest(hash, RecordDigests(hash, g.lines))))
    ensures Conclude(hash, g).Ok? <==> Distinct(g.refs) && forall e :: e in g.endpoints ==> e in g.refs
    ensures Conclude(hash, g).Ok? ==>
      Conclude(hash, g).value == ReadBack(RecordDigests(hash, g.lines), g.footer.value.counts)
  {
    NoRepeatExactly(g.refs);
    NoDanglingExactly(g.endpoints, g.refs);
  }

  lemma VerifySteps(hash: Hash, lines: seq<string>, g: Gathered)
    requires lines != [] && CheckHeader(lines[0]).None?
    requires GatherAll(Start(lines[0]), lines[1..]) == Ok(g)
    ensures VerifyLines(hash, lines) == Conclude(hash, g)
  {
  }

  /** A rendered dump is accepted exactly when its references are unique and its
      links resolve, and then with the digests and counts the renderer produced. */
  lemma RenderedDumpAccepted(hash: Hash, d: Dump, at: Int64, generator: string)
    requires |Records(d)| < TWO_64
    ensures Verify(hash, DumpText(hash, d, at, generator)).Ok? <==> WellLinked(d)
    ensures WellLinked(d) ==>
      Verify(hash, DumpText(hash, d, at, generator))
        == Ok(ReadBack(RecordDigests(hash, DigestedLines(d, at, generator)), CountsOf(Records(d))))
  {
    var lines := DumpLines(hash, d, at, generator);
    var g := GatheredFrom(lines[0], Records(d)).(footer := Some(FooterOf(hash, d, at, generator)));
    LinesOfDump(hash, d, at, generator);
    DumpGathered(hash, d, at, generator);
    VerifySteps(hash, lines, g) by { HeaderAccepted(at, generator); }
    assert g.lines == DigestedLines(d, at, generator);
    ConcludeDecides(hash, g);
  }

  // ---------------------------------------------- what an accepted dump is bound to

  lemma NothingAfterFooter(g: Gathered, lines: seq<string>)
    requires g.footer.Some? && GatherAll(g, lines).Ok?
    ensures lines == []
  {
  }

  lemma {:induction false} GatheredLines(g: Gathered, lines: seq<string>)
    requires g.footer.None? && GatherAll(g, lines).Ok? && GatherAll(g, lines).value.footer.Some?
    ensures lines != []
    ensures GatherAll(g, lines).value.lines == g.lines + lines[..|lines| - 1]
    decreases |lines|
  {
    var g2 := Gather(g, lines[0]).value;
    if g2.footer.Some? {
      NothingAfterFooter(g2, lines[1..]);
      assert g.lines + lines[..0] == g.lines;
    } else {
      GatheredLines(g2, lines[1..]);
      assert g2.lines == g.lines + [lines[0]];
      assert [lines[0]] + lines[1..][..|lines| - 2] == lines[..|lines| - 1];
    }
  }

  /** The lines of an accepted dump that its digests cover: all but the footer. */
  function CoveredLines(text: string): seq<string> {
    var lines := Lines(text);
    if lines == [] then [] else lines[..|lines| - 1]
  }

  /** The digest the last line of a dump claims. */
  function ClaimedDigest(text: string): Option<string> {
    var lines := Lines(text);
    if lines == [] then None
    else
      match ReadLine(lines[|lines| - 1])
      case Ok(FooterLine(f)) => Some(f.digest)
      case _ => None
  }

  lemma {:induction false} GatheredFooter(g: Gathered, lines: seq<string>)
    requires g.footer.None? && GatherAll(g, lines).Ok? && GatherAll(g, lines).value.footer.Some?
    ensures lines != []
    ensures ReadLine(lines[|lines| - 1]) == Ok(FooterLine(GatherAll(g, lines).value.footer.value))
    decreases |lines|
  {
    var g2 := Gather(g, lines[0]).value;
    if g2.footer.Some? {
      NothingAfterFooter(g2, lines[1..]);
    } else {
      GatheredFooter(g2, lines[1..]);
    }
  }

  lemma AcceptedGathers(hash: Hash, lines: seq<string>)
    requires VerifyLines(hash, lines).Ok?
    ensures lines != [] && GatherAll(Start(lines[0]), lines[1..]).Ok?
    ensures Conclude(hash, GatherAll(Start(lines[0]), lines[1..]).value) == VerifyLines(hash, lines)
  {
  }

  /** The reader digests every line but the last, and takes that for the footer. */
  lemma GatheredWhole(lines: seq<string>, g: Gathered)
    requires lines != [] && GatherAll(Start(lines[0]), lines[1..]) == Ok(g) && g.footer.Some?
    ensures g.lines == lines[..|lines| - 1]
    ensures ReadLine(lines[|lines| - 1]) == Ok(FooterLine(g.footer.value))
  {
    GatheredLines(Start(lines[0]), lines[1..]);
    GatheredFooter(Start(lines[0]), lines[1..]);
    assert [lines[0]] + lines[1..][..|lines| - 2] == lines[..|lines| - 1];
    assert lines[1..][|lines| - 2] == lines[|lines| - 1];
  }

  lemma ConcludedMatches(hash: Hash, g: Gathered)
    requires Conclude(hash, g).Ok?
    ensures g.footer.Some? && g.footer.value.digest == FoldDigest(hash, RecordDigests(hash, g.lines))
    ensures Conclude(hash, g).value.perRecord == RecordDigests(hash, g.lines)
  {
  }

  lemma AcceptedCovers(hash: Hash, text: string)
    requires Verify(hash, text).Ok?
    ensures Lines(text) != []
    ensures Verify(hash, text).value.perRecord == RecordDigests(hash, CoveredLines(text))
    ensures ClaimedDigest(text) == Some(FoldDigest(hash, RecordDigests(hash, CoveredLines(text))))
  {
    var lines := Lines(text);
    AcceptedGathers(hash, lines);
    var g := GatherAll(Start(lines[0]), lines[1..]).value;
    ConcludedMatches(hash, g);
    GatheredWhole(lines, g);
    hide Lines, VerifyLines, GatherAll, Conclude, ReadLine, FoldDigest, RecordDigests;
  }

  /** If a file is accepted and its digests are the ones the renderer computed,
      its covered lines are the rendered lines, up to a collision. */
  lemma AcceptedIsWhatWasRendered(hash: Hash, landed: string, rendered: seq<string>)
    requires Verify(hash, landed).Ok?
    requires Verify(hash, landed).value.perRecord == RecordDigests(hash, rendered)
    ensures CoveredLines(landed) == rendered
         || (FirstDifference(CoveredLines(landed), rendered).Some?
             && Collides(hash, FirstDifference(CoveredLines(landed), rendered).value))
  {
    AcceptedCovers(hash, landed);
    RecordDigestsBind(hash, CoveredLines(landed), rendered);
  }

  /** Two accepted dumps that claim one digest hold the same lines, up to a
      collision. */
  lemma AcceptedDigestBinds(hash: Hash, a: string, b: string)
    requires Verify(hash, a).Ok? && Verify(hash, b).Ok?
    requires ClaimedDigest(a) == ClaimedDigest(b)
    ensures CoveredLines(a) == CoveredLines(b)
         || (Collision(hash, CoveredLines(a), CoveredLines(b)).Some?
             && Collides(hash, Collision(hash, CoveredLines(a), CoveredLines(b)).value))
  {
    AcceptedCovers(hash, a);
    AcceptedCovers(hash, b);
    FooterDigestBinds(hash, CoveredLines(a), CoveredLines(b));
  }

  // ------------------------------------------------- a truncated dump is refused

  /** A prefix of lines of text is whole lines and the start of the next one. */
  lemma {:induction false} PrefixOfUnlines(lines: seq<string>, p: string) returns (k: nat, q: string)
    requires p < Unlines(lines)
    ensures k < |lines| && q <= lines[k] && p == Unlines(lines[..k]) + q
  {
    var first := lines[0] + "\n";
    if |p| < |first| {
      k, q := 0, p;
      assert q == Unlines(lines)[..|p|] == lines[0][..|p|];
    } else {
      var rest := p[|first|..];
      assert p == first + rest;
      assert Unlines(lines) == first + Unlines(lines[1..]);
      assert rest == Unlines(lines)[..|p|][|first|..] == Unlines(lines[1..])[..|rest|];
      k, q := PrefixOfUnlines(lines[1..], rest);
      assert lines[..k + 1][1..] == lines[1..][..k];
      assert Unlines(lines[..k + 1]) == first + Unlines(lines[1..][..k]);
      k := k + 1;
    }
  }

  lemma UnreadableLineRefused(hash: Hash, lines: seq<string>, q: string)
    requires Parse(q) == None
    ensures VerifyLines(hash, lines + [q]).Err?
  {
    if lines != [] {
      assert (lines + [q])[1..] == lines[1..] + [q];
      GatherAllAppend(Start(lines[0]), lines[1..], [q]);
      if GatherAll(Start(lines[0]), lines[1..]).Ok? {
        GatherOne(GatherAll(Start(lines[0]), lines[1..]).value, q);
      }
    }
  }

  lemma NoFooterRefused(hash: Hash, header: string, rs: seq<Record>)
    ensures VerifyLines(hash, [header] + RecordLines(rs)).Err?
  {
    var lines := [header] + RecordLines(rs);
    GatherRecords(header, rs);
    assert lines[1..] == RecordLines(rs);
    if CheckHeader(header).None? {
      VerifySteps(hash, lines, GatheredFrom(header, rs));
    }
  }

  lemma NoLines(hash: Hash)
    ensures VerifyLines(hash, []).Err?
  {
  }

  lemma PrefixAfterFirst(lines: seq<string>, middle: seq<string>, k: nat)
    requires |lines| == |middle| + 2 && lines[1..][..|middle|] == middle && 0 < k < |lines|
    ensures lines[..k] == [lines[0]] + middle[..k - 1]
  {
  }

  lemma RecordLinesPrefix(rs: seq<Record>, k: nat)
    requires k <= |rs|
    ensures RecordLines(rs)[..k] == RecordLines(rs[..k])
  {
    hide LineOf;
  }

  lemma MissingFooterRefused(hash: Hash, d: Dump, at: Int64, generator: string, k: nat)
    requires k < |DumpLines(hash, d, at, generator)|
    ensures VerifyLines(hash, DumpLines(hash, d, at, generator)[..k]).Err?
  {
    LinesAfterHeader(hash, d, at, generator);
    NoLines(hash);
    hide VerifyLines, LineOf, FooterOf, DumpLines, RecordLines, FooterFields;
    var (lines, rs) := (DumpLines(hash, d, at, generator), Records(d));
    if k == 0 {
      assert lines[..0] == [];
    } else {
      RecordLinesPrefix(rs, k - 1);
      PrefixAfterFirst(lines, RecordLines(rs), k);
      NoFooterRefused(hash, lines[0], rs[..k - 1]);
    }
  }

  lemma CutLines(lines: seq<string>, p: string) returns (k: nat, q: string)
    requires forall l :: l in lines ==> Emitted(l)
    requires p < Unlines(lines)
    ensures k < |lines| && q <= lines[k] && p == Unlines(lines[..k]) + q
    ensures q == "" ==> Lines(p) == lines[..k]
    ensures q != "" ==> Lines(p) == lines[..k] + [q]
    ensures q != lines[k] ==> Parse(q) == None
  {
    k, q := PrefixOfUnlines(lines, p);
    forall l | l in lines ensures PlainLine(l) && l != "" { EmittedLine(l); }
    EmittedLine(lines[k]);
    LinesOfUnlines(lines[..k], q);
    if q != lines[k] {
      assert q < lines[k];
    }
  }

  /** Text of lines with the last newline left off. */
  function Unended(lines: seq<string>): string
    requires lines != []
  {
    Unlines(lines[..|lines| - 1]) + lines[|lines| - 1]
  }

  lemma CutFinalNewline(lines: seq<string>)
    requires lines != []
    ensures Unlines(lines)[..|Unlines(lines)| - 1] == Unended(lines)
  {
    var (init, last) := (lines[..|lines| - 1], lines[|lines| - 1]);
    assert init + [last] == lines;
    UnlinesAppend(init, [last]);
    assert Unlines([last]) == last + "\n" + Unlines([]);
  }

  lemma FinalNewlineUnread(lines: seq<string>)
    requires lines != [] && forall l :: l in lines ==> PlainLine(l) && l != ""
    ensures Lines(Unended(lines)) == lines
  {
    var n := |lines| - 1;
    assert lines[n] in lines && forall l :: l in lines[..n] ==> l in lines;
    LinesOfUnlines(lines[..n], lines[n]);
    assert lines[..n] + [lines[n]] == lines;
  }

  lemma UnendedDump(hash: Hash, d: Dump, at: Int64, generator: string)
    ensures
      var lines := DumpLines(hash, d, at, generator);
      lines != [] && Lines(Unended(lines)) == lines
  {
    var lines := DumpLines(hash, d, at, generator);
    hide Lines, Unended, LineOf, FooterOf, Emitted, PlainLine;
    DumpLinesEmitted(hash, d, at, generator);
    forall l | l in lines ensures PlainLine(l) && l != "" { EmittedLine(l); }
    FinalNewlineUnread(lines);
  }

  lemma TruncatedLinesRefused(hash: Hash, lines: seq<string>, p: string)
    requires forall l :: l in lines ==> Emitted(l)
    requires forall k :: 0 <= k < |lines| ==> VerifyLines(hash, lines[..k]).Err?
    requires p < Unlines(lines)
    ensures VerifyLines(hash, Lines(p)).Err? || p == Unended(lines)
  {
    var k, q := CutLines(lines, p);
    if q == "" {
    } else if q != lines[k] {
      UnreadableLineRefused(hash, lines[..k], q);
    } else {
      assert lines[..k] + [q] == lines[..k + 1];
    }
  }

  lemma PrefixesRefused(hash: Hash, d: Dump, at: Int64, generator: string)
    ensures
      var lines := DumpLines(hash, d, at, generator);
      forall k :: 0 <= k < |lines| ==> VerifyLines(hash, lines[..k]).Err?
  {
    hide DumpLines, VerifyLines;
    forall k: nat | k < |DumpLines(hash, d, at, generator)|
      ensures VerifyLines(hash, DumpLines(hash, d, at, generator)[..k]).Err?
    {
      MissingFooterRefused(hash, d, at, generator, k);
    }
  }

  /** Every proper prefix of a rendered dump is refused, except the one that
      lacks only the final newline: that one reads as the whole dump does. */
  lemma TruncatedDumpRefused(hash: Hash, d: Dump, at: Int64, generator: string, p: string)
    requires p < DumpText(hash, d, at, generator)
    ensures if p == DumpText(hash, d, at, generator)[..|DumpText(hash, d, at, generator)| - 1]
            then Verify(hash, p) == Verify(hash, DumpText(hash, d, at, generator))
            else Verify(hash, p).Err?
  {
    hide DumpLines, VerifyLines, Lines, Unlines, Emitted, Unended;
    var lines := DumpLines(hash, d, at, generator);
    DumpLinesEmitted(hash, d, at, generator);
    PrefixesRefused(hash, d, at, generator);
    TruncatedLinesRefused(hash, lines, p);
    UnendedDump(hash, d, at, generator);
    CutFinalNewline(lines);
    LinesOfDump(hash, d, at, generator);
  }
}
