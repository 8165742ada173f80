/** Which texts are accepted as dumps: a header, entities and relationships, and
    one footer that agrees with them; unique references and resolved links. */
module DumpAccepted {
  import opened Text
  import opened Json
  import opened Digest
  import opened DumpFormat
  import opened DumpProofs
  import opened DumpContents

  // ------------------------------------------------------------- what a line says

  /** A header record of this format and version. */
  predicate ReadsHeader(line: string) {
    && Parse(line).Some?
    && var j := Parse(line).value;
       && Field(j, "record", 0, 5) == Some(Str("header"))
       && Field(j, "format", 1, 5) == Some(Str("portable-dump"))
       && AsNat(Field(j, "format_version", 2, 5), 0x1_0000_0000) == Some(1)
       && IsInt64(Field(j, "generated_at", 3, 5))
       && Field(j, "generator", 4, 5).Some? && Field(j, "generator", 4, 5).value.Str?
  }

  /** An entity or a relationship record. */
  predicate ReadsItem(line: string, item: Line) {
    && Parse(line).Some? && Parse(line).value.Obj?
    && var m := Parse(line).value.members;
       match item
       case EntityLine(kind, reference) =>
         HasString(m, "record", "entity") && HasString(m, "type", kind) && HasString(m, "ref", reference)
       case RelationshipLine(kind, from, to) =>
         && HasString(m, "record", "relationship") && HasString(m, "type", kind)
         && HasString(m, "from", from) && HasString(m, "to", to)
       case FooterLine(_) => false
  }

  predicate AllNaturals(members: Members) {
    match members
    case NoMembers => true
    case Member(_, value, rest) => AsNat(Some(value), 0x1_0000_0000_0000_0000).Some? && AllNaturals(rest)
  }

  /** A field that holds counts: an object of naturals; of a repeated key the last counts. */
  ghost predicate ReadsCounts(field: Option<Json>, counts: map<string, nat>) {
    && field.Some? && field.value.Obj?
    && var m := field.value.members;
       && AllNaturals(m)
       && (forall k :: k in counts <==> Get(m, k).Some?)
       && (forall k :: k in counts ==> AsNat(Get(m, k), 0x1_0000_0000_0000_0000) == Some(counts[k]))
  }

  ghost predicate ReadsFooter(line: string, f: Footer) {
    && Parse(line).Some? && Parse(line).value.Obj?
    && var j := Parse(line).value;
       && Field(j, "record", 0, 3) == Some(Str("footer"))
       && Field(j, "digest", 2, 3) == Some(Str(f.digest))
       && var counts := Field(j, "counts", 1, 3);
          && counts.Some?
          && ReadsCounts(Field(counts.value, "entity", 0, 2), f.counts.entity)
          && ReadsCounts(Field(counts.value, "relationship", 1, 2), f.counts.relationship)
  }

  // ------------------------------------------------------------- what a text says

  function EntitiesRead(items: seq<Line>, kind: string): nat {
    if items == [] then 0
    else (if items[0].EntityLine? && items[0].kind == kind then 1 else 0) + EntitiesRead(items[1..], kind)
  }

  function RelationshipsRead(items: seq<Line>, kind: string): nat {
    if items == [] then 0
    else (if items[0].RelationshipLine? && items[0].kind == kind then 1 else 0) + RelationshipsRead(items[1..], kind)
  }

  predicate Names(items: seq<Line>, reference: string) {
    exists i :: 0 <= i < |items| && items[i].EntityLine? && items[i].reference == reference
  }

  predicate UniqueReferences(items: seq<Line>) {
    forall i, j :: 0 <= i < j < |items| && items[i].EntityLine? && items[j].EntityLine? ==>
      items[i].reference != items[j].reference
  }

  predicate ResolvedLinks(items: seq<Line>) {
    forall i :: 0 <= i < |items| && items[i].RelationshipLine? ==>
      Names(items, items[i].from) && Names(items, items[i].to)
  }

  ghost predicate CountsMatch(items: seq<Line>, counts: Counts) {
    && (forall k :: k in counts.entity <==> EntitiesRead(items, k) > 0)
    && (forall k :: k in counts.entity ==> counts.entity[k] == EntitiesRead(items, k))
    && (forall k :: k in counts.relationship <==> RelationshipsRead(items, k) > 0)
    && (forall k :: k in counts.relationship ==> counts.relationship[k] == RelationshipsRead(items, k))
  }

  /** The lines of a whole dump with these items and this footer. */
  ghost predicate Whole(hash: Hash, lines: seq<string>, items: seq<Line>, f: Footer) {
    && |lines| == |items| + 2
    && ReadsHeader(lines[0])
    && (forall i :: 0 <= i < |items| ==> ReadsItem(lines[i + 1], items[i]))
    && ReadsFooter(lines[|items| + 1], f)
    && CountsMatch(items, f.counts)
    && f.digest == "sha256:" + Hex(hash(Concat(RecordDigests(hash, lines[..|items| + 1]))))
    && UniqueReferences(items)
    && ResolvedLinks(items)
  }

  // -------------------------------------------------------------- reading one line

  lemma HeaderExactly(line: string)
    ensures CheckHeader(line).None? <==> ReadsHeader(line)
  {
    hide Parse, Field, AsNat, IsInt64;
  }

  lemma ItemExactly(line: string, item: Line)
    ensures ReadsItem(line, item) <==> ReadLine(line) == Ok(item) && !item.FooterLine?
  {
    hide Parse, ReadFooter, Get;
  }

  lemma {:induction false} CountMapMeans(members: Members, read: map<string, nat>)
    ensures ReadCountMap(members, read).Some? <==> AllNaturals(members)
    ensures ReadCountMap(members, read).Some? ==>
      var r := ReadCountMap(members, read).value;
      && (forall k :: k in r <==> k in read || Get(members, k).Some?)
      && (forall k :: k in r && Get(members, k).Some? ==>
            AsNat(Get(members, k), 0x1_0000_0000_0000_0000) == Some(r[k]))
      && (forall k :: k in r && Get(members, k).None? ==> k in read && r[k] == read[k])
  {
    hide AsNat;
    match members
    case NoMembers =>
    case Member(key, value, rest) =>
      var n := AsNat(Some(value), TWO_64);
      if n.Some? {
        CountMapMeans(rest, read[key := n.value]);
      }
  }

  lemma CountsExactly(field: Option<Json>, counts: map<string, nat>)
    ensures ReadsCounts(field, counts) <==> ReadCountObject(field) == Some(counts)
  {
    if field.Some? && field.value.Obj? {
      var m := field.value.members;
      CountMapMeans(m, map[]);
      hide AsNat, Get, ReadCountMap, AllNaturals;
      if ReadsCounts(field, counts) {
        var r := ReadCountMap(m, map[]).value;
        assert forall k :: k in r <==> k in counts;
        assert forall k :: k in r ==> Some(r[k]) == Some(counts[k]);
        assert r == counts;
      }
    }
  }

  lemma ReadCountsMeans(j: Json, c: Counts)
    ensures ReadCounts(j) == Some(c) <==>
      ReadsCounts(Field(j, "entity", 0, 2), c.entity) && ReadsCounts(Field(j, "relationship", 1, 2), c.relationship)
  {
    CountsExactly(Field(j, "entity", 0, 2), c.entity);
    CountsExactly(Field(j, "relationship", 1, 2), c.relationship);
    hide Field, ReadCountObject, ReadsCounts;
  }

  lemma {:induction false} OccursIsGot(m: Members, key: string)
    ensures Occurrences(m, key) > 0 <==> Get(m, key).Some?
  {
    if m.Member? {
      OccursIsGot(m.rest, key);
    }
  }

  lemma FooterExactly(line: string, f: Footer)
    ensures ReadsFooter(line, f) <==> ReadLine(line) == Ok(FooterLine(f))
  {
    if Parse(line).Some? && Parse(line).value.Obj? {
      var j := Parse(line).value;
      OccursIsGot(j.members, "record");
      var counts := Field(j, "counts", 1, 3);
      if counts.Some? {
        ReadCountsMeans(counts.value, f.counts);
      }
      hide Parse, ReadCounts, ReadsCounts, ReadEntity, ReadRelationship, Occurrences, Get;
    }
  }

  // ------------------------------------------------------------ reading all lines

  function EntityKindsOf(items: seq<Line>): seq<string> {
    if items == [] then []
    else (if items[0].EntityLine? then [items[0].kind] else []) + EntityKindsOf(items[1..])
  }

  function RelationshipKindsOf(items: seq<Line>): seq<string> {
    if items == [] then []
    else (if items[0].RelationshipLine? then [items[0].kind] else []) + RelationshipKindsOf(items[1..])
  }

  function ReferencesOf(items: seq<Line>): seq<string> {
    if items == [] then []
    else (if items[0].EntityLine? then [items[0].reference] else []) + ReferencesOf(items[1..])
  }

  function EndsOf(items: seq<Line>): seq<string> {
    if items == [] then []
    else (if items[0].RelationshipLine? then [items[0].from, items[0].to] else []) + EndsOf(items[1..])
  }

  /** Whether each line is read as its item. */
  predicate ReadsAll(lines: seq<string>, items: seq<Line>) {
    && |lines| == |items|
    && forall i :: 0 <= i < |lines| ==> ReadLine(lines[i]) == Ok(items[i]) && !items[i].FooterLine?
  }

  /** What the reader has after some items. */
  function WithItems(g: Gathered, lines: seq<string>, items: seq<Line>): Gathered {
    Gathered(g.lines + lines, g.entityKinds + EntityKindsOf(items), g.relationshipKinds + RelationshipKindsOf(items),
             g.refs + ReferencesOf(items), g.endpoints + EndsOf(items), g.footer)
  }

  lemma WithFirstItem(g: Gathered, lines: seq<string>, items: seq<Line>, next: Gathered)
    requires |lines| == |items| > 0 && g.footer.None?
    requires ReadLine(lines[0]) == Ok(items[0]) && !items[0].FooterLine?
    requires Gather(g, lines[0]) == Ok(next)
    ensures next.footer.None? && WithItems(next, lines[1..], items[1..]) == WithItems(g, lines, items)
  {
    hide ReadLine;
    assert lines == [lines[0]] + lines[1..];
    assert forall ss: seq<string> :: [] + ss == ss && ss + [] == ss;
    assert forall a: seq<string>, b: seq<string>, c: seq<string> :: a + (b + c) == a + b + c;
  }

  lemma {:induction false} GatherItems(g: Gathered, lines: seq<string>, items: seq<Line>)
    requires g.footer.None? && ReadsAll(lines, items)
    ensures GatherAll(g, lines) == Ok(WithItems(g, lines, items))
    decreases |lines|
  {
    hide ReadLine;
    if lines == [] {
      assert forall ss: seq<string> :: ss + [] == ss;
    } else {
      var next := Gather(g, lines[0]).value;
      WithFirstItem(g, lines, items, next);
      hide WithItems, Gather;
      GatherItems(next, lines[1..], items[1..]);
    }
  }

  /** Lines that are taken in, the last of them as the footer, are items before it. */
  lemma {:induction false} ItemsGathered(g: Gathered, lines: seq<string>) returns (items: seq<Line>)
    requires g.footer.None? && GatherAll(g, lines).Ok? && GatherAll(g, lines).value.footer.Some?
    ensures lines != [] && ReadsAll(lines[..|lines| - 1], items)
    ensures ReadLine(lines[|lines| - 1]) == Ok(FooterLine(GatherAll(g, lines).value.footer.value))
    decreases |lines|
  {
    var next := Gather(g, lines[0]).value;
    var first := ReadLine(lines[0]).value;
    hide ReadLine;
    if next.footer.Some? {
      NothingAfterFooter(next, lines[1..]);
      items := [];
    } else {
      var rest := ItemsGathered(next, lines[1..]);
      items := [first] + rest;
      assert lines[1..][..|lines| - 2] == lines[..|lines| - 1][1..];
      forall i | 0 <= i < |lines| - 1
        ensures ReadLine(lines[..|lines| - 1][i]) == Ok(items[i]) && !items[i].FooterLine?
      {
        if i > 0 {
          assert lines[..|lines| - 1][i] == lines[1..][..|lines| - 2][i - 1];
        }
      }
    }
  }

  // ---------------------------------------------------------------- the last checks

  lemma {:induction false} KindsRead(items: seq<Line>, k: string)
    ensures multiset(EntityKindsOf(items))[k] == EntitiesRead(items, k)
    ensures multiset(RelationshipKindsOf(items))[k] == RelationshipsRead(items, k)
  {
    if items != [] {
      KindsRead(items[1..], k);
    }
  }

  lemma TallyExactly(keys: seq<string>, m: map<string, nat>)
    ensures m == Tally(keys) <==>
      (forall k :: k in m <==> multiset(keys)[k] > 0) && (forall k :: k in m ==> m[k] == multiset(keys)[k])
  {
    TallyCounts(keys);
    var t := Tally(keys);
    hide Tally;
    assert forall k :: k in t <==> multiset(keys)[k] > 0;
    if (forall k :: k in m <==> multiset(keys)[k] > 0) && (forall k :: k in m ==> m[k] == multiset(keys)[k]) {
      assert forall k :: k in m <==> k in t;
      assert m == t;
    }
  }

  lemma CountsMatchExactly(items: seq<Line>, counts: Counts)
    ensures CountsMatch(items, counts)
      <==> counts == Counts(Tally(EntityKindsOf(items)), Tally(RelationshipKindsOf(items)))
  {
    TallyExactly(EntityKindsOf(items), counts.entity);
    TallyExactly(RelationshipKindsOf(items), counts.relationship);
    hide Tally, EntityKindsOf, RelationshipKindsOf, EntitiesRead, RelationshipsRead;
    forall k: string
      ensures multiset(EntityKindsOf(items))[k] == EntitiesRead(items, k)
      ensures multiset(RelationshipKindsOf(items))[k] == RelationshipsRead(items, k)
    {
      KindsRead(items, k);
    }
  }

  lemma {:induction false} ReferencesNamed(items: seq<Line>, reference: string)
    ensures reference in ReferencesOf(items) <==> Names(items, reference)
  {
    if items != [] {
      ReferencesNamed(items[1..], reference);
      assert forall i :: 0 < i < |items| ==> items[i] == items[1..][i - 1];
    }
  }

  lemma UniqueFirst(items: seq<Line>)
    requires items != []
    ensures UniqueReferences(items) <==>
      UniqueReferences(items[1..]) && (items[0].EntityLine? ==> !Names(items[1..], items[0].reference))
  {
    var rest := items[1..];
    assert forall i :: 0 <= i < |rest| ==> rest[i] == items[i + 1];
    if UniqueReferences(rest) && (items[0].EntityLine? ==> !Names(rest, items[0].reference)) {
      forall i, j | 0 <= i < j < |items| && items[i].EntityLine? && items[j].EntityLine?
        ensures items[i].reference != items[j].reference
      {
        assert items[j] == rest[j - 1];
        assert i > 0 ==> items[i] == rest[i - 1];
      }
    }
  }

  lemma {:induction false} UniqueExactly(items: seq<Line>)
    ensures Distinct(ReferencesOf(items)) <==> UniqueReferences(items)
  {
    if items != [] {
      var rest := items[1..];
      UniqueExactly(rest);
      UniqueFirst(items);
      if items[0].EntityLine? {
        ReferencesNamed(rest, items[0].reference);
        DistinctFirst(items[0].reference, ReferencesOf(rest));
      } else {
        assert ReferencesOf(items) == ReferencesOf(rest);
      }
      hide Distinct, UniqueReferences, Names;
    }
  }

  lemma DistinctFirst(s: string, rest: seq<string>)
    ensures Distinct([s] + rest) <==> s !in rest && Distinct(rest)
  {
    var all := [s] + rest;
    assert forall i :: 0 <= i < |rest| ==> all[i + 1] == rest[i];
    if s in rest {
      var i :| 0 <= i < |rest| && rest[i] == s;
      assert all[0] == all[i + 1];
    }
  }

  lemma {:induction false} EndsMean(items: seq<Line>, e: string)
    ensures e in EndsOf(items) <==>
      exists i :: 0 <= i < |items| && items[i].RelationshipLine? && (e == items[i].from || e == items[i].to)
  {
    if items != [] {
      EndsMean(items[1..], e);
      assert forall i :: 0 < i < |items| ==> items[i] == items[1..][i - 1];
    }
  }

  lemma ResolvedExactly(items: seq<Line>)
    ensures (forall e :: e in EndsOf(items) ==> e in ReferencesOf(items)) <==> ResolvedLinks(items)
  {
    forall e ensures e in EndsOf(items) <==>
      exists i :: 0 <= i < |items| && items[i].RelationshipLine? && (e == items[i].from || e == items[i].to)
      ensures e in ReferencesOf(items) <==> Names(items, e)
    {
      EndsMean(items, e);
      ReferencesNamed(items, e);
    }
    hide EndsOf, ReferencesOf, Names;
  }

  /** The last checks pass exactly when the footer agrees with the items, their
      references are unique and their links resolve. */
  lemma ConcludeExactly(hash: Hash, g: Gathered, lines: seq<string>, items: seq<Line>, f: Footer)
    requires g == WithItems(Gathered([], [], [], [], [], Some(f)), lines, items)
    ensures Conclude(hash, g).Ok? <==>
      && CountsMatch(items, f.counts)
      && f.digest == "sha256:" + Hex(hash(Concat(RecordDigests(hash, lines))))
      && UniqueReferences(items) && ResolvedLinks(items)
    ensures Conclude(hash, g).Ok? ==> Conclude(hash, g).value == ReadBack(RecordDigests(hash, lines), f.counts)
  {
    assert forall ss: seq<string> :: [] + ss == ss;
    assert g.lines == lines && g.footer == Some(f) && g.refs == ReferencesOf(items) && g.endpoints == EndsOf(items);
    assert g.entityKinds == EntityKindsOf(items) && g.relationshipKinds == RelationshipKindsOf(items);
    hide WithItems, CountsMatch, UniqueReferences, ResolvedLinks, Tally, FirstRepeat, FirstDangling, Distinct, Hex,
         Concat, ReferencesOf, EndsOf, EntityKindsOf, RelationshipKindsOf;
    CountsMatchExactly(items, f.counts);
    UniqueExactly(items);
    ResolvedExactly(items);
    NoRepeatExactly(g.refs);
    NoDanglingExactly(g.endpoints, g.refs);
  }

  // -------------------------------------------------------------------- all of it

  /** A text of a header, items and a footer is accepted as its last checks say. */
  lemma VerifyItems(hash: Hash, lines: seq<string>, items: seq<Line>, f: Footer)
    requires |lines| == |items| + 2 && CheckHeader(lines[0]).None?
    requires ReadsAll(lines[1..|items| + 1], items) && ReadLine(lines[|items| + 1]) == Ok(FooterLine(f))
    ensures VerifyLines(hash, lines) ==
      Conclude(hash, WithItems(Gathered([], [], [], [], [], Some(f)), lines[..|items| + 1], items))
  {
    var (middle, last) := (lines[1..|items| + 1], lines[|items| + 1]);
    var start := Start(lines[0]);
    assert lines[1..] == middle + [last];
    GatherItems(start, middle, items);
    GatherAllAppend(start, middle, [last]);
    var g := WithItems(start, middle, items);
    GatherOne(g, last);
    assert lines[..|items| + 1] == [lines[0]] + middle;
    assert g.(footer := Some(f)) == WithItems(Gathered([], [], [], [], [], Some(f)), lines[..|items| + 1], items) by {
      assert [] + ([lines[0]] + middle) == [lines[0]] + middle;
    }
    hide WithItems, GatherAll, ReadLine, CheckHeader, Conclude;
  }

  lemma WholeReads(hash: Hash, lines: seq<string>, items: seq<Line>, f: Footer)
    requires |lines| == |items| + 2
    ensures Whole(hash, lines, items, f) <==>
      && CheckHeader(lines[0]).None?
      && ReadsAll(lines[1..|items| + 1], items)
      && ReadLine(lines[|items| + 1]) == Ok(FooterLine(f))
      && CountsMatch(items, f.counts)
      && f.digest == "sha256:" + Hex(hash(Concat(RecordDigests(hash, lines[..|items| + 1]))))
      && UniqueReferences(items) && ResolvedLinks(items)
  {
    var middle := lines[1..|items| + 1];
    HeaderExactly(lines[0]);
    FooterExactly(lines[|items| + 1], f);
    hide CheckHeader, ReadsHeader, ReadsFooter, ReadsItem, ReadLine, CountsMatch, UniqueReferences, ResolvedLinks, Hex,
         Concat, RecordDigests;
    forall i | 0 <= i < |items|
      ensures ReadsItem(lines[i + 1], items[i]) <==> ReadLine(middle[i]) == Ok(items[i]) && !items[i].FooterLine?
    {
      ItemExactly(lines[i + 1], items[i]);
    }
  }

  /** The items and the footer of an accepted text. */
  lemma AcceptedItems(hash: Hash, lines: seq<string>) returns (items: seq<Line>, f: Footer)
    requires VerifyLines(hash, lines).Ok?
    ensures |lines| == |items| + 2 && CheckHeader(lines[0]).None?
    ensures ReadsAll(lines[1..|items| + 1], items) && ReadLine(lines[|items| + 1]) == Ok(FooterLine(f))
  {
    AcceptedGathers(hash, lines);
    var g := GatherAll(Start(lines[0]), lines[1..]).value;
    ConcludedMatches(hash, g);
    assert CheckHeader(lines[0]).None?;
    hide VerifyLines, Conclude, CheckHeader, FoldDigest, RecordDigests;
    items := ItemsGathered(Start(lines[0]), lines[1..]);
    f := g.footer.value;
    assert lines[1..][..|lines| - 2] == lines[1..|lines| - 1];
    assert lines[1..][|lines| - 2] == lines[|lines| - 1];
    hide GatherAll, ReadLine;
  }

  lemma WholeAccepted(hash: Hash, lines: seq<string>, items: seq<Line>, f: Footer)
    requires |lines| == |items| + 2 && CheckHeader(lines[0]).None?
    requires ReadsAll(lines[1..|items| + 1], items) && ReadLine(lines[|items| + 1]) == Ok(FooterLine(f))
    ensures VerifyLines(hash, lines).Ok? <==> Whole(hash, lines, items, f)
    ensures VerifyLines(hash, lines).Ok? ==>
      VerifyLines(hash, lines).value == ReadBack(RecordDigests(hash, lines[..|items| + 1]), f.counts)
  {
    hide VerifyLines, Conclude, CheckHeader, ReadLine, WithItems, ReadsAll, Whole, CountsMatch, UniqueReferences,
         ResolvedLinks, Hex, Concat, RecordDigests;
    VerifyItems(hash, lines, items, f);
    WholeReads(hash, lines, items, f);
    var g := WithItems(Gathered([], [], [], [], [], Some(f)), lines[..|items| + 1], items);
    ConcludeExactly(hash, g, lines[..|items| + 1], items, f);
  }

  /** A whole dump is accepted with the digests of its lines before the footer and
      with the footer's counts. */
  lemma WholeVerifies(hash: Hash, text: string, items: seq<Line>, f: Footer)
    requires Whole(hash, Lines(text), items, f)
    ensures |Lines(text)| == |items| + 2
    ensures Verify(hash, text) == Ok(ReadBack(RecordDigests(hash, Lines(text)[..|items| + 1]), f.counts))
  {
    var lines := Lines(text);
    assert Verify(hash, text) == VerifyLines(hash, lines);
    hide Lines, VerifyLines, CheckHeader, ReadLine, ReadsAll, RecordDigests;
    WholeReads(hash, lines, items, f);
    WholeAccepted(hash, lines, items, f);
  }

  lemma AcceptedIsWhole(hash: Hash, text: string)
    requires Verify(hash, text).Ok?
    ensures exists items, f :: Whole(hash, Lines(text), items, f)
  {
    var lines := Lines(text);
    assert Verify(hash, text) == VerifyLines(hash, lines);
    hide Lines, VerifyLines, CheckHeader, ReadLine, ReadsAll, RecordDigests, Whole;
    var items, f := AcceptedItems(hash, lines);
    WholeAccepted(hash, lines, items, f);
  }

  /** A text is accepted exactly when it is a whole dump. */
  lemma AcceptedExactly(hash: Hash, text: string)
    ensures Verify(hash, text).Ok? <==> exists items, f :: Whole(hash, Lines(text), items, f)
  {
    hide Whole, Verify, Lines;
    if Verify(hash, text).Ok? {
      AcceptedIsWhole(hash, text);
    } else if exists items, f :: Whole(hash, Lines(text), items, f) {
      var items, f :| Whole(hash, Lines(text), items, f);
      WholeVerifies(hash, text, items, f);
    }
  }
}
