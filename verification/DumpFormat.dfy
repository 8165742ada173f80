/** The portable dump: what a record is, how a dump is rendered, and how a
    rendered dump is re-read. */
module DumpFormat {
  import opened Text
  import opened Json
  import opened Digest

  const FORMAT := "portable-dump"
  const FORMAT_VERSION: nat := 1
  const TWO_32: nat := 0x1_0000_0000
  const TWO_63: nat := 0x8000_0000_0000_0000
  const TWO_64: nat := 0x1_0000_0000_0000_0000

  type Int64 = x: int | -(TWO_63 as int) <= x < TWO_63

  // --------------------------------------------------------------------- records

  datatype MemoryEntry = MemoryEntry(
    reference: string,
    uuid: Option<string>,
    kind: string,
    title: string,
    body: string,
    tags: seq<string>,
    linkedFiles: seq<string>,
    createdAt: Int64,
    status: Option<string>,
    sourceRef: Option<string>,
    validAt: Option<Int64>,
    invalidAt: Option<Int64>,
    entityId: Option<string>,
    remoteId: Option<string>,
    namespace: Option<string>)

  datatype Project = Project(reference: string, rootPath: string, registeredAt: Option<Int64>)

  datatype CommandUsage = CommandUsage(reference: string, command: string, at: Int64)

  /** `supersedes` runs from successor to predecessor. */
  datatype Relationship = Relationship(kind: string, from: string, to: string, createdAt: Option<Int64>)

  datatype Counts = Counts(entity: map<string, nat>, relationship: map<string, nat>)

  datatype Footer = Footer(counts: Counts, digest: string)

  datatype Dump = Dump(
    entries: seq<MemoryEntry>,
    projects: seq<Project>,
    usage: seq<CommandUsage>,
    relationships: seq<Relationship>)

  /** One record of a dump, whichever of its lists it comes from. */
  datatype Record =
    | EntryRecord(entry: MemoryEntry)
    | ProjectRecord(project: Project)
    | UsageRecord(usage: CommandUsage)
    | RelationshipRecord(relationship: Relationship)

  function EntryRecords(es: seq<MemoryEntry>): (rs: seq<Record>)
    ensures |rs| == |es|
  {
    seq(|es|, i requires 0 <= i < |es| => EntryRecord(es[i]))
  }

  function ProjectRecords(ps: seq<Project>): (rs: seq<Record>)
    ensures |rs| == |ps|
  {
    seq(|ps|, i requires 0 <= i < |ps| => ProjectRecord(ps[i]))
  }

  function UsageRecords(us: seq<CommandUsage>): (rs: seq<Record>)
    ensures |rs| == |us|
  {
    seq(|us|, i requires 0 <= i < |us| => UsageRecord(us[i]))
  }

  function RelationshipRecords(ls: seq<Relationship>): (rs: seq<Record>)
    ensures |rs| == |ls|
  {
    seq(|ls|, i requires 0 <= i < |ls| => RelationshipRecord(ls[i]))
  }

  /** The records of a dump in the order they are written. */
  function Records(d: Dump): (rs: seq<Record>)
    ensures |rs| == |d.entries| + |d.projects| + |d.usage| + |d.relationships|
  {
    EntryRecords(d.entries) + ProjectRecords(d.projects)
    + UsageRecords(d.usage) + RelationshipRecords(d.relationships)
  }

  // ---------------------------------------------------------------- printed form

  /** The fields of a record in order; one without a value is not written. */
  type Fields = seq<(string, Option<Json>)>

  function Present(fields: Fields): Members {
    if fields == [] then NoMembers
    else
      match fields[0].1
      case None => Present(fields[1..])
      case Some(value) => Member(fields[0].0, value, Present(fields[1..]))
  }

  function Int(n: Int64): Option<Json> { Some(Num(IntToString(n))) }

  function String(s: string): Option<Json> { Some(Str(s)) }

  function OptInt(v: Option<Int64>): Option<Json> {
    if v.Some? then Int(v.value) else None
  }

  function OptString(v: Option<string>): Option<Json> {
    if v.Some? then String(v.value) else None
  }

  function StringItems(ss: seq<string>): Items {
    if ss == [] then NoItems else Item(Str(ss[0]), StringItems(ss[1..]))
  }

  function OptList(ss: seq<string>): Option<Json> {
    if ss == [] then None else Some(Arr(StringItems(ss)))
  }

  function RecordFields(r: Record): Fields {
    match r
    case EntryRecord(e) => [
        ("record", String("entity")),
        ("type", String("memory_entry")),
        ("ref", String(e.reference)),
        ("uuid", OptString(e.uuid)),
        ("kind", String(e.kind)),
        ("title", String(e.title)),
        ("body", String(e.body)),
        ("tags", OptList(e.tags)),
        ("linked_files", OptList(e.linkedFiles)),
        ("created_at", Int(e.createdAt)),
        ("status", OptString(e.status)),
        ("source_ref", OptString(e.sourceRef)),
        ("valid_at", OptInt(e.validAt)),
        ("invalid_at", OptInt(e.invalidAt)),
        ("entity_id", OptString(e.entityId)),
        ("remote_id", OptString(e.remoteId)),
        ("namespace", OptString(e.namespace))]
    case ProjectRecord(p) => [
        ("record", String("entity")),
        ("type", String("project")),
        ("ref", String(p.reference)),
        ("root_path", String(p.rootPath)),
        ("registered_at", OptInt(p.registeredAt))]
    case UsageRecord(u) => [
        ("record", String("entity")),
        ("type", String("command_usage")),
        ("ref", String(u.reference)),
        ("command", String(u.command)),
        ("at", Int(u.at))]
    case RelationshipRecord(r) => [
        ("record", String("relationship")),
        ("type", String(r.kind)),
        ("from", String(r.from)),
        ("to", String(r.to)),
        ("created_at", OptInt(r.createdAt))]
  }

  function HeaderFields(generatedAt: Int64, generator: string): Fields {
    [ ("record", String("header")),
      ("format", String(FORMAT)),
      ("format_version", Some(Num(NatToString(FORMAT_VERSION)))),
      ("generated_at", Int(generatedAt)),
      ("generator", String(generator))]
  }

  function CountsFields(c: Counts): Fields {
    [ ("entity", Some(Obj(CountMembers(c.entity)))),
      ("relationship", Some(Obj(CountMembers(c.relationship))))]
  }

  function FooterFields(f: Footer): Fields {
    [ ("record", String("footer")),
      ("counts", Some(Obj(Present(CountsFields(f.counts))))),
      ("digest", String(f.digest))]
  }

  function LineOf(fields: Fields): string { Print(Obj(Present(fields))) }

  predicate IsLeast(keys: set<string>, k: string) {
    k in keys && forall x :: x in keys && x != k ==> StringLess(k, x)
  }

  lemma {:induction false} LeastKeyExists(keys: set<string>) returns (least: string)
    requires keys != {}
    ensures IsLeast(keys, least)
  {
    var k :| k in keys;
    least := k;
    if keys != {k} {
      var l := LeastKeyExists(keys - {k});
      StringLessTotal(k, l);
      least := if StringLess(k, l) then k else l;
      forall x | x in keys && x != least ensures StringLess(least, x) {
        if x != k && x != l {
          assert x in keys - {k};
          if least == k {
            StringLessTransitive(k, l, x);
          }
        }
      }
    }
  }

  /** The first key in order, which is where a walk of a sorted map starts. */
  function LeastKey(keys: set<string>): (k: string)
    requires keys != {}
    ensures IsLeast(keys, k)
  {
    assert exists k :: IsLeast(keys, k) by { var l := LeastKeyExists(keys); }
    assert forall a, b :: IsLeast(keys, a) && IsLeast(keys, b) ==> a == b by {
      forall a, b | IsLeast(keys, a) && IsLeast(keys, b) ensures a == b {
        StringLessTotal(a, b);
      }
    }
    var k :| k in keys && IsLeast(keys, k);
    k
  }

  function CountMembers(m: map<string, nat>): Members
    decreases |m|
  {
    if m == map[] then NoMembers
    else
      var k := LeastKey(m.Keys);
      var rest := m - {k};
      assert |rest.Keys| < |m.Keys| by { assert rest.Keys == m.Keys - {k}; }
      Member(k, Num(NatToString(m[k])), CountMembers(rest))
  }

  // ------------------------------------------------------------------- rendering

  function Bump(m: map<string, nat>, key: string): map<string, nat> {
    m[key := (if key in m then m[key] else 0) + 1]
  }

  /** A tally of a list of keys. */
  function Tally(keys: seq<string>): map<string, nat> {
    if keys == [] then map[] else Bump(Tally(keys[..|keys| - 1]), keys[|keys| - 1])
  }

  /** A tally has exactly the listed keys, each with its number of occurrences. */
  lemma {:induction false} TallyCounts(keys: seq<string>)
    ensures forall k :: k in Tally(keys) <==> k in keys
    ensures forall k :: k in keys ==> Tally(keys)[k] == multiset(keys)[k]
  {
    if keys != [] {
      var n := |keys| - 1;
      TallyCounts(keys[..n]);
      assert keys == keys[..n] + [keys[n]];
    }
  }

  function EntityKind(r: Record): seq<string> {
    match r
    case EntryRecord(_) => ["memory_entry"]
    case ProjectRecord(_) => ["project"]
    case UsageRecord(_) => ["command_usage"]
    case RelationshipRecord(_) => []
  }

  function EntityKinds(rs: seq<Record>): seq<string> {
    if rs == [] then [] else EntityKinds(rs[..|rs| - 1]) + EntityKind(rs[|rs| - 1])
  }

  function RelationshipKinds(rs: seq<Record>): seq<string> {
    if rs == [] then []
    else
      RelationshipKinds(rs[..|rs| - 1])
      + (if rs[|rs| - 1].RelationshipRecord? then [rs[|rs| - 1].relationship.kind] else [])
  }

  function CountsOf(rs: seq<Record>): Counts {
    Counts(Tally(EntityKinds(rs)), Tally(RelationshipKinds(rs)))
  }

  function RecordLines(rs: seq<Record>): (ls: seq<string>)
    ensures |ls| == |rs| && forall i :: 0 <= i < |rs| ==> ls[i] == LineOf(RecordFields(rs[i]))
  {
    seq(|rs|, i requires 0 <= i < |rs| => LineOf(RecordFields(rs[i])))
  }

  /** Every line the footer digest covers: the header and the records. */
  function DigestedLines(d: Dump, generatedAt: Int64, generator: string): seq<string> {
    [LineOf(HeaderFields(generatedAt, generator))] + RecordLines(Records(d))
  }

  function FooterOf(hash: Hash, d: Dump, generatedAt: Int64, generator: string): Footer {
    Footer(CountsOf(Records(d)), FoldDigest(hash, RecordDigests(hash, DigestedLines(d, generatedAt, generator))))
  }

  function DumpLines(hash: Hash, d: Dump, generatedAt: Int64, generator: string): seq<string> {
    DigestedLines(d, generatedAt, generator)
    + [LineOf(FooterFields(FooterOf(hash, d, generatedAt, generator)))]
  }

  function DumpText(hash: Hash, d: Dump, generatedAt: Int64, generator: string): string {
    Unlines(DumpLines(hash, d, generatedAt, generator))
  }

  // ------------------------------------------------------------------ re-reading

  datatype Refusal =
    | EmptyDump
    | UnreadableHeader
    | NotAHeader(record: string)
    | UnknownFormat(format: string)
    | UnsupportedVersion(version: nat)
    | RecordsAfterFooter
    | UnreadableRecord
    | EntityWithoutType
    | EntityWithoutRef
    | RelationshipWithoutType
    | RelationshipWithoutEnd(end: string)
    | UnknownKind(kind: Option<string>)
    | UnreadableFooter
    | NoFooter
    | CountsMismatch
    | DigestMismatch
    | DuplicateReference(reference: string)
    | DanglingEndpoint(endpoint: string)

  datatype ReadBack = ReadBack(perRecord: seq<string>, counts: Counts)

  datatype Header = Header(record: string, format: string, version: nat)

  function Occurrences(members: Members, key: string): nat {
    match members
    case NoMembers => 0
    case Member(k, _, rest) => (if k == key then 1 else 0) + Occurrences(rest, key)
  }

  function Length(items: Items): nat {
    if items.NoItems? then 0 else 1 + Length(items.tail)
  }

  function Nth(items: Items, n: nat): Option<Json> {
    if items.NoItems? then None else if n == 0 then Some(items.head) else Nth(items.tail, n - 1)
  }

  /** A required field of a typed record. The reader takes an object with the
      field exactly once, or an array of all the fields in order. */
  function Field(j: Json, key: string, index: nat, arity: nat): Option<Json> {
    match j
    case Obj(members) => if Occurrences(members, key) == 1 then Get(members, key) else None
    case Arr(items) => if Length(items) == arity then Nth(items, index) else None
    case _ => None
  }

  function AsString(j: Option<Json>): Option<string> {
    if j.Some? && j.value.Str? then Some(j.value.s) else None
  }

  /** An unsigned integer below a bound, spelled without fraction or exponent. */
  function AsNat(j: Option<Json>, bound: nat): Option<nat> {
    if j.Some? && j.value.Num? && (forall c :: c in j.value.lexeme ==> IsDigit(c))
       && StringToNat(j.value.lexeme) < bound
    then Some(StringToNat(j.value.lexeme))
    else None
  }

  predicate IsInt64(j: Option<Json>) {
    j.Some? && j.value.Num? && j.value.lexeme != "" &&
    if j.value.lexeme[0] == '-' then
      var digits := j.value.lexeme[1..];
      (forall c :: c in digits ==> IsDigit(c)) && 0 < StringToNat(digits) <= TWO_63
    else AsNat(j, TWO_63).Some?
  }

  function ReadHeader(j: Json): Option<Header> {
    var record := AsString(Field(j, "record", 0, 5));
    var format := AsString(Field(j, "format", 1, 5));
    var version := AsNat(Field(j, "format_version", 2, 5), TWO_32);
    if record.Some? && format.Some? && version.Some?
       && IsInt64(Field(j, "generated_at", 3, 5))
       && AsString(Field(j, "generator", 4, 5)).Some?
    then Some(Header(record.value, format.value, version.value))
    else None
  }

  /** Counts into a map; of a repeated key the last one counts. */
  function ReadCountMap(members: Members, read: map<string, nat>): Option<map<string, nat>> {
    match members
    case NoMembers => Some(read)
    case Member(key, value, rest) =>
      match AsNat(Some(value), TWO_64)
      case None => None
      case Some(n) => ReadCountMap(rest, read[key := n])
  }

  function ReadCountObject(j: Option<Json>): Option<map<string, nat>> {
    if j.Some? && j.value.Obj? then ReadCountMap(j.value.members, map[]) else None
  }

  function ReadCounts(j: Json): Option<Counts> {
    var entity := ReadCountObject(Field(j, "entity", 0, 2));
    var relationship := ReadCountObject(Field(j, "relationship", 1, 2));
    if entity.Some? && relationship.Some? then Some(Counts(entity.value, relationship.value)) else None
  }

  function ReadFooter(j: Json): Option<Footer> {
    var field := Field(j, "counts", 1, 3);
    var counts := if field.Some? then ReadCounts(field.value) else None;
    var digest := AsString(Field(j, "digest", 2, 3));
    if AsString(Field(j, "record", 0, 3)).Some? && counts.Some? && digest.Some?
    then Some(Footer(counts.value, digest.value))
    else None
  }

  /** What the reader makes of one line after the header. */
  datatype Line =
    | FooterLine(footer: Footer)
    | EntityLine(kind: string, reference: string)
    | RelationshipLine(kind: string, from: string, to: string)

  function StringMember(j: Json, key: string): Option<string> {
    if j.Obj? then AsString(Get(j.members, key)) else None
  }

  function ReadEntity(kind: Option<string>, reference: Option<string>): Result<Line, Refusal> {
    if kind.None? then Err(EntityWithoutType)
    else if reference.None? then Err(EntityWithoutRef)
    else Ok(EntityLine(kind.value, reference.value))
  }

  function ReadRelationship(kind: Option<string>, from: Option<string>, to: Option<string>): Result<Line, Refusal> {
    if kind.None? then Err(RelationshipWithoutType)
    else if from.None? then Err(RelationshipWithoutEnd("from"))
    else if to.None? then Err(RelationshipWithoutEnd("to"))
    else Ok(RelationshipLine(kind.value, from.value, to.value))
  }

  function ReadRecord(j: Json): Result<Line, Refusal> {
    var record := StringMember(j, "record");
    if record == Some("footer") then
      match ReadFooter(j)
      case None => Err(UnreadableFooter)
      case Some(f) => Ok(FooterLine(f))
    else if record == Some("entity") then
      ReadEntity(StringMember(j, "type"), StringMember(j, "ref"))
    else if record == Some("relationship") then
      ReadRelationship(StringMember(j, "type"), StringMember(j, "from"), StringMember(j, "to"))
    else Err(UnknownKind(record))
  }

  function ReadLine(line: string): Result<Line, Refusal> {
    match Parse(line)
    case None => Err(UnreadableRecord)
    case Some(j) => ReadRecord(j)
  }

  /** What the reader has gathered: the digested lines, the kinds it counts,
      the references and link ends to reconcile, and the footer once seen. */
  datatype Gathered = Gathered(
    lines: seq<string>,
    entityKinds: seq<string>,
    relationshipKinds: seq<string>,
    refs: seq<string>,
    endpoints: seq<string>,
    footer: Option<Footer>)

  function Start(header: string): Gathered {
    Gathered([header], [], [], [], [], None)
  }

  function Gather(g: Gathered, line: string): Result<Gathered, Refusal> {
    if g.footer.Some? then Err(RecordsAfterFooter)
    else
      match ReadLine(line)
      case Err(e) => Err(e)
      case Ok(FooterLine(f)) => Ok(g.(footer := Some(f)))
      case Ok(EntityLine(kind, reference)) =>
        Ok(g.(lines := g.lines + [line], entityKinds := g.entityKinds + [kind], refs := g.refs + [reference]))
      case Ok(RelationshipLine(kind, from, to)) =>
        Ok(g.(lines := g.lines + [line], relationshipKinds := g.relationshipKinds + [kind],
              endpoints := g.endpoints + [from, to]))
  }

  function GatherAll(g: Gathered, lines: seq<string>): Result<Gathered, Refusal>
    decreases |lines|
  {
    if lines == [] then Ok(g)
    else
      match Gather(g, lines[0])
      case Err(e) => Err(e)
      case Ok(g2) => GatherAll(g2, lines[1..])
  }

  /** The first reference that an earlier one repeats. */
  function FirstRepeat(refs: seq<string>, from: nat): Option<string>
    requires from <= |refs|
    decreases |refs| - from
  {
    if from == |refs| then None
    else if refs[from] in refs[..from] then Some(refs[from])
    else FirstRepeat(refs, from + 1)
  }

  function FirstDangling(endpoints: seq<string>, refs: seq<string>): Option<string> {
    if endpoints == [] then None
    else if endpoints[0] !in refs then Some(endpoints[0])
    else FirstDangling(endpoints[1..], refs)
  }

  /** The checks that follow the last line, in their order. */
  function Conclude(hash: Hash, g: Gathered): Result<ReadBack, Refusal> {
    var counts := Counts(Tally(g.entityKinds), Tally(g.relationshipKinds));
    var digests := RecordDigests(hash, g.lines);
    if g.footer.None? then Err(NoFooter)
    else if g.footer.value.counts != counts then Err(CountsMismatch)
    else if g.footer.value.digest != FoldDigest(hash, digests) then Err(DigestMismatch)
    else if FirstRepeat(g.refs, 0).Some? then Err(DuplicateReference(FirstRepeat(g.refs, 0).value))
    else if FirstDangling(g.endpoints, g.refs).Some? then
      Err(DanglingEndpoint(FirstDangling(g.endpoints, g.refs).value))
    else Ok(ReadBack(digests, counts))
  }

  function CheckHeader(line: string): Option<Refusal> {
    var j := Parse(line);
    var header := if j.Some? then ReadHeader(j.value) else None;
    match header
    case None => Some(UnreadableHeader)
    case Some(h) =>
      if h.record != "header" then Some(NotAHeader(h.record))
      else if h.format != FORMAT then Some(UnknownFormat(h.format))
      else if h.version != FORMAT_VERSION then Some(UnsupportedVersion(h.version))
      else None
  }

  function VerifyLines(hash: Hash, lines: seq<string>): Result<ReadBack, Refusal> {
    if lines == [] then Err(EmptyDump)
    else if CheckHeader(lines[0]).Some? then Err(CheckHeader(lines[0]).value)
    else
      match GatherAll(Start(lines[0]), lines[1..])
      case Err(e) => Err(e)
      case Ok(g) => Conclude(hash, g)
  }

  function Verify(hash: Hash, text: string): Result<ReadBack, Refusal> {
    VerifyLines(hash, Lines(text))
  }
}
