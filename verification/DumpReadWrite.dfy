/** The dump writer and the dump reader as the program runs them, each proved to
    compute what `DumpFormat` says a dump and its verdict are. */
module DumpReadWrite {
  import opened Text
  import opened Digest
  import opened DumpFormat
  import opened DumpProofs
  import opened DumpContents
  import opened DumpAccepted

  // --------------------------------------------------------------------- writing

  lemma TallySnoc(ks: seq<string>, k: string)
    ensures Tally(ks + [k]) == Bump(Tally(ks), k)
  {
    assert (ks + [k])[..|ks|] == ks;
  }

  /** Count one more record. */
  method CountRecord(counts: Counts, r: Record, ghost before: seq<Record>) returns (c: Counts)
    requires counts == CountsOf(before)
    ensures c == CountsOf(before + [r])
  {
    GatheredSnoc(before, r);
    if r.RelationshipRecord? {
      TallySnoc(RelationshipKinds(before), r.relationship.kind);
      assert EntityKinds(before) + [] == EntityKinds(before);
      c := counts.(relationship := Bump(counts.relationship, r.relationship.kind));
    } else {
      var kind := EntityKind(r)[0];
      TallySnoc(EntityKinds(before), kind);
      assert EntityKind(r) == [kind];
      assert RelationshipKinds(before) + [] == RelationshipKinds(before);
      c := counts.(entity := Bump(counts.entity, kind));
    }
  }

  method CountMore(counts: Counts, rs: seq<Record>, ghost before: seq<Record>) returns (c: Counts)
    requires counts == CountsOf(before)
    ensures c == CountsOf(before + rs)
  {
    hide CountsOf;
    c := counts;
    ghost var sofar := before;
    for i := 0 to |rs|
      invariant sofar == before + rs[..i]
      invariant c == CountsOf(sofar)
    {
      c := CountRecord(c, rs[i], sofar);
      sofar := sofar + [rs[i]];
    }
    assert sofar == before + rs;
  }

  method CountRecords(d: Dump) returns (c: Counts)
    ensures c == CountsOf(Records(d))
  {
    var (es, ps, us, ls) := (EntryRecords(d.entries), ProjectRecords(d.projects),
                             UsageRecords(d.usage), RelationshipRecords(d.relationships));
    c := CountMore(Counts(map[], map[]), es, []);
    assert [] + es == es;
    c := CountMore(c, ps, es);
    c := CountMore(c, us, es + ps);
    c := CountMore(c, ls, es + ps + us);
  }

  lemma DigestNext(hash: Hash, lines: seq<string>, line: string)
    ensures RecordDigests(hash, lines + [line]) == RecordDigests(hash, lines) + [RecordDigest(hash, line)]
  {
  }

  lemma UnlinesSnoc(lines: seq<string>, line: string)
    ensures Unlines(lines + [line]) == Unlines(lines) + line + "\n"
  {
    UnlinesAppend(lines, [line]);
    assert Unlines([line]) == line + "\n" + Unlines([]);
    assert Unlines(lines) + (line + "\n") == Unlines(lines) + line + "\n";
  }

  /** Digest a line and append it to the output. */
  method Push(dig: Digester, text: string, line: string, ghost before: seq<string>) returns (out: string)
    requires text == Unlines(before) && dig.perRecord == RecordDigests(dig.hash, before)
    modifies dig
    ensures out == Unlines(before + [line])
    ensures dig.perRecord == RecordDigests(dig.hash, before + [line])
  {
    DigestNext(dig.hash, before, line);
    UnlinesSnoc(before, line);
    dig.PushLine(line);
    out := text + line + "\n";
  }

  method PushRecords(dig: Digester, text: string, rs: seq<Record>, ghost before: seq<string>) returns (out: string)
    requires text == Unlines(before) && dig.perRecord == RecordDigests(dig.hash, before)
    modifies dig
    ensures out == Unlines(before + RecordLines(rs))
    ensures dig.perRecord == RecordDigests(dig.hash, before + RecordLines(rs))
  {
    out := text;
    ghost var lines := before;
    for i := 0 to |rs|
      invariant lines == before + RecordLines(rs[..i])
      invariant out == Unlines(lines) && dig.perRecord == RecordDigests(dig.hash, lines)
    {
      var line := LineOf(RecordFields(rs[i]));
      out := Push(dig, out, line, lines);
      RecordLinesNext(rs, i);
      lines := lines + [line];
    }
    assert rs[..|rs|] == rs;
  }

  lemma RecordLinesNext(rs: seq<Record>, i: nat)
    requires i < |rs|
    ensures RecordLines(rs[..i + 1]) == RecordLines(rs[..i]) + [LineOf(RecordFields(rs[i]))]
  {
    hide LineOf, RecordFields;
  }

  lemma RecordLinesAppend(a: seq<Record>, b: seq<Record>)
    ensures RecordLines(a + b) == RecordLines(a) + RecordLines(b)
  {
    hide LineOf, RecordFields;
  }

  lemma DigestedLinesParts(d: Dump, at: Int64, generator: string)
    ensures DigestedLines(d, at, generator)
         == [LineOf(HeaderFields(at, generator))] + RecordLines(EntryRecords(d.entries))
            + RecordLines(ProjectRecords(d.projects)) + RecordLines(UsageRecords(d.usage))
            + RecordLines(RelationshipRecords(d.relationships))
  {
    var (es, ps, us, ls) := (EntryRecords(d.entries), ProjectRecords(d.projects),
                             UsageRecords(d.usage), RelationshipRecords(d.relationships));
    RecordLinesAppend(es, ps);
    RecordLinesAppend(es + ps, us);
    RecordLinesAppend(es + ps + us, ls);
  }

  lemma RenderedMeans(hash: Hash, d: Dump, generatedAt: Int64, generator: string)
    ensures var (lines, perRecord, footer) := (
        Lines(DumpText(hash, d, generatedAt, generator)),
        RecordDigests(hash, DigestedLines(d, generatedAt, generator)),
        FooterOf(hash, d, generatedAt, generator));
      && ShowsDump(lines, d, generatedAt, generator, footer)
      && |perRecord| == |lines| - 1
      && (forall i :: 0 <= i < |perRecord| ==> perRecord[i] == Hex(hash(lines[i])))
      && footer.digest == "sha256:" + Hex(hash(Concat(perRecord)))
  {
    RenderedDumpShown(hash, d, generatedAt, generator);
    LinesOfDump(hash, d, generatedAt, generator);
    hide ShowsDump, Lines, DumpText, LineOf, Hex, Concat, Records, DigestedLines;
  }

  method Render(hash: Hash, d: Dump, generatedAt: Int64, generator: string)
    returns (out: string, perRecord: seq<string>, footer: Footer)
    ensures out == DumpText(hash, d, generatedAt, generator)
    ensures perRecord == RecordDigests(hash, DigestedLines(d, generatedAt, generator))
    ensures footer == FooterOf(hash, d, generatedAt, generator)
    ensures ShowsDump(Lines(out), d, generatedAt, generator, footer)
    ensures |perRecord| == |Lines(out)| - 1
    ensures forall i :: 0 <= i < |perRecord| ==> perRecord[i] == Hex(hash(Lines(out)[i]))
    ensures footer.digest == "sha256:" + Hex(hash(Concat(perRecord)))
  {
    hide ShowsDump, Lines, Hex, Concat;
    var dig := new Digester(hash);
    var header := LineOf(HeaderFields(generatedAt, generator));
    dig.PushLine(header);
    out := header + "\n";
    ghost var lines := [header];
    assert dig.perRecord == RecordDigests(hash, lines);
    assert Unlines(lines) == header + "\n" + Unlines([]);
    out := PushRecords(dig, out, EntryRecords(d.entries), lines);
    lines := lines + RecordLines(EntryRecords(d.entries));
    out := PushRecords(dig, out, ProjectRecords(d.projects), lines);
    lines := lines + RecordLines(ProjectRecords(d.projects));
    out := PushRecords(dig, out, UsageRecords(d.usage), lines);
    lines := lines + RecordLines(UsageRecords(d.usage));
    out := PushRecords(dig, out, RelationshipRecords(d.relationships), lines);
    DigestedLinesParts(d, generatedAt, generator);
    var counts := CountRecords(d);
    var digest := dig.Finish();
    footer := Footer(counts, digest);
    perRecord := dig.perRecord;
    var last := LineOf(FooterFields(footer));
    UnlinesSnoc(DigestedLines(d, generatedAt, generator), last);
    out := out + last + "\n";
    RenderedMeans(hash, d, generatedAt, generator);
  }

  // --------------------------------------------------------------------- reading

  /** The variables of the reader's loop. */
  class Reader {
    const dig: Digester
    var entity: map<string, nat>
    var relationship: map<string, nat>
    var refs: seq<string>
    var endpoints: seq<string>
    var footer: Option<Footer>

    /** The variables hold what has been gathered. */
    ghost predicate Holds(g: Gathered)
      reads this, dig
    {
      && dig.perRecord == RecordDigests(dig.hash, g.lines)
      && entity == Tally(g.entityKinds) && relationship == Tally(g.relationshipKinds)
      && refs == g.refs && endpoints == g.endpoints && footer == g.footer
    }

    constructor (hash: Hash, header: string)
      ensures fresh(dig) && dig.hash == hash && Holds(Start(header))
    {
      dig := new Digester(hash);
      entity, relationship, refs, endpoints, footer := map[], map[], [], [], None;
      new;
      dig.PushLine(header);
      assert RecordDigests(hash, [header]) == [RecordDigest(hash, header)];
    }

    /** Take in one line, or say why it is refused. */
    method Take(line: string, ghost g: Gathered) returns (refused: Option<Refusal>)
      requires Holds(g)
      modifies this, dig
      ensures refused.Some? <==> Gather(g, line).Err?
      ensures refused.Some? ==> refused.value == Gather(g, line).error
      ensures refused.None? ==> Holds(Gather(g, line).value)
    {
      if footer.Some? {
        return Some(RecordsAfterFooter);
      }
      var read := ReadLine(line);
      match read {
        case Err(e) =>
          return Some(e);
        case Ok(FooterLine(f)) =>
          footer := Some(f);
        case Ok(EntityLine(kind, reference)) =>
          refs := refs + [reference];
          TallySnoc(g.entityKinds, kind);
          entity := Bump(entity, kind);
          DigestNext(dig.hash, g.lines, line);
          dig.PushLine(line);
        case Ok(RelationshipLine(kind, from, to)) =>
          endpoints := endpoints + [from, to];
          TallySnoc(g.relationshipKinds, kind);
          relationship := Bump(relationship, kind);
          DigestNext(dig.hash, g.lines, line);
          dig.PushLine(line);
      }
      return None;
    }

    /** The checks after the last line. */
    method Finish(ghost g: Gathered) returns (r: Result<ReadBack, Refusal>)
      requires Holds(g)
      ensures r == Conclude(dig.hash, g)
    {
      if footer.None? {
        return Err(NoFooter);
      }
      if footer.value.counts != Counts(entity, relationship) {
        return Err(CountsMismatch);
      }
      var digest := dig.Finish();
      if footer.value.digest != digest {
        return Err(DigestMismatch);
      }
      var refused := CheckLinks(refs, endpoints);
      return if refused.Some? then Err(refused.value)
             else Ok(ReadBack(dig.perRecord, Counts(entity, relationship)));
    }
  }

  /** The first repeated reference, else the first link end that is no reference. */
  method CheckLinks(refs: seq<string>, endpoints: seq<string>) returns (refused: Option<Refusal>)
    ensures refused ==
      if FirstRepeat(refs, 0).Some? then Some(DuplicateReference(FirstRepeat(refs, 0).value))
      else if FirstDangling(endpoints, refs).Some? then Some(DanglingEndpoint(FirstDangling(endpoints, refs).value))
      else None
  {
    var seen: set<string> := {};
    for i := 0 to |refs|
      invariant seen == set s | s in refs[..i]
      invariant FirstRepeat(refs, 0) == FirstRepeat(refs, i)
    {
      if refs[i] in seen {
        return Some(DuplicateReference(refs[i]));
      }
      seen := seen + {refs[i]};
    }
    assert refs[..|refs|] == refs;
    for i := 0 to |endpoints|
      invariant FirstDangling(endpoints, refs) == FirstDangling(endpoints[i..], refs)
    {
      if endpoints[i] !in seen {
        return Some(DanglingEndpoint(endpoints[i]));
      }
      assert endpoints[i..][1..] == endpoints[i + 1..];
    }
    return None;
  }

  method VerifyRendered(hash: Hash, text: string) returns (r: Result<ReadBack, Refusal>)
    ensures r == Verify(hash, text)
    ensures r.Ok? <==> exists items, f :: Whole(hash, Lines(text), items, f)
  {
    AcceptedExactly(hash, text);
    hide Whole;
    var lines := Lines(text);
    if lines == [] {
      return Err(EmptyDump);
    }
    var unheaded := CheckHeader(lines[0]);
    if unheaded.Some? {
      return Err(unheaded.value);
    }
    var reader := new Reader(hash, lines[0]);
    ghost var g := Start(lines[0]);
    for i := 1 to |lines|
      invariant GatherAll(Start(lines[0]), lines[1..]) == GatherAll(g, lines[i..])
      invariant reader.Holds(g)
    {
      var refused := reader.Take(lines[i], g);
      assert lines[i..][1..] == lines[i + 1..];
      if refused.Some? {
        return Err(refused.value);
      }
      g := Gather(g, lines[i]).value;
    }
    assert lines[|lines|..] == [];
    r := reader.Finish(g);
  }
}
