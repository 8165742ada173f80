/** Putting a dump in place: write a sibling temporary, read it back, and rename
    it only when it proves to be the dump that was rendered. */
module Publish {
  import opened Text
  import opened Digest
  import opened DumpFormat
  import opened DumpProofs
  import opened DumpIdentity
  import opened DumpContents
  import opened DumpAccepted
  import opened DumpReadWrite
  import opened StoreExtract
  import opened ExtractContents
  import opened StoreReader

  class Disk {
    var files: map<string, string>
  }

  /** What may go wrong under way. `lands` is what the disk keeps of a text that
      was written to it: a short write or a flipped bit is such a function. */
  datatype Faults = Faults(
    createFails: bool,
    writeFails: bool,
    lands: string -> string,
    readFails: bool,
    removeFails: bool,
    renameFails: bool)

  datatype WriteError =
    | TempExists
    | CreateFailed
    | WriteFailed
    | ReadBackFailed
    | Unverified(refusal: Refusal)
    | NotWhatWasRendered
    | RenameFailed

  /** A path without the separators and the dots of this directory at its end. */
  function Trimmed(path: string): (p: string)
    ensures p <= path
    ensures p == "" || p[|p| - 1] != '/'
  {
    if path == "" then ""
    else if path[|path| - 1] == '/' then Trimmed(path[..|path| - 1])
    else if |path| > 1 && path[|path| - 2..] == "/." then Trimmed(path[..|path| - 1])
    else path
  }

  /** Where the last component of a path begins. */
  function NameStart(path: string): (n: nat)
    ensures n <= |path| && '/' !in path[n..]
    ensures n > 0 ==> path[n - 1] == '/'
  {
    if path == "" || path[|path| - 1] == '/' then |path|
    else
      var (init, n) := (path[..|path| - 1], NameStart(path[..|path| - 1]));
      assert path[n..] == init[n..] + [path[|path| - 1]];
      n
  }

  /** Where the extension of a name begins, dot included; a leading dot does not
      start an extension. */
  function ExtensionStart(name: string): (n: nat)
    ensures n <= |name|
  {
    if |name| < 2 then |name|
    else if name[|name| - 1] == '.' then |name| - 1
    else
      var n := ExtensionStart(name[..|name| - 1]);
      if n == |name| - 1 then |name| else n
  }

  /** Whether a path ends in the name of a file. */
  predicate Named(path: string) {
    var p := Trimmed(path);
    p[NameStart(p)..] != "" && p[NameStart(p)..] != "." && p[NameStart(p)..] != ".."
  }

  /** A path that ends in no name is left as it is. */
  function WithExtension(path: string, extension: string): string {
    if !Named(path) then path
    else
      var p := Trimmed(path);
      var n := NameStart(p);
      p[..n] + p[n..][..ExtensionStart(p[n..])] + "." + extension
  }

  lemma JoinedParts(dir: string, stem: string, extension: string)
    ensures
      var q := dir + stem + "." + extension;
      |dir| <= |q| && q[..|dir|] == dir && q[|dir|..] == stem + "." + extension
  {
  }

  lemma NoSeparator(stem: string, extension: string)
    requires '/' !in stem && '/' !in extension
    ensures '/' !in stem + "." + extension
  {
  }

  /** The new path is in the directory of the old one. */
  lemma WithExtensionSibling(path: string, extension: string)
    requires Named(path) && '/' !in extension
    ensures
      var (p, q) := (Trimmed(path), WithExtension(path, extension));
      var n := NameStart(p);
      n <= |q| && q[..n] == p[..n] && '/' !in q[n..]
  {
    var p := Trimmed(path);
    var n := NameStart(p);
    var stem := p[n..][..ExtensionStart(p[n..])];
    assert WithExtension(path, extension) == p[..n] + stem + "." + extension;
    assert '/' !in stem;
    JoinedParts(p[..n], stem, extension);
    NoSeparator(stem, extension);
    hide *;
  }

  /** The temporary file of an output takes the place of its extension. */
  lemma TempPathBeside(dir: string, stem: string, extension: string)
    requires dir == "" || dir[|dir| - 1] == '/'
    requires stem != "" && stem[0] != '.' && '/' !in stem && '/' !in extension && '.' !in extension
    ensures TempPath(dir + stem + "." + extension) == dir + stem + ".partial"
  {
    hide *;
    var (name, path) := (stem + "." + extension, dir + stem + "." + extension);
    JoinedName(dir, stem, extension);
    NoSeparator(stem, extension);
    TrimmedName(dir, name);
    NameStartAt(dir, name);
    ExtensionAt(stem, extension);
    WithExtensionOf(path, |dir|, |stem|);
    JoinedEnd(dir + stem, ".", "partial");
  }

  lemma JoinedName(dir: string, stem: string, extension: string)
    ensures
      var (name, path) := (stem + "." + extension, dir + stem + "." + extension);
      path == dir + name && path[..|dir|] == dir && path[|dir|..] == name && name[..|stem|] == stem
  {
  }

  lemma WithExtensionOf(path: string, n: nat, m: nat)
    requires Trimmed(path) == path && NameStart(path) == n && n < |path| && ExtensionStart(path[n..]) == m
    requires path[n] != '.'
    ensures TempPath(path) == path[..n] + path[n..][..m] + "." + "partial"
  {
    hide Trimmed, NameStart, ExtensionStart;
    assert path[n..][0] == path[n];
  }

  lemma JoinedEnd(a: string, b: string, c: string)
    ensures a + b + c == a + (b + c)
  {
  }

  lemma TrimmedName(dir: string, name: string)
    requires |name| > 1 && '/' !in name && name[0] != '.'
    ensures Trimmed(dir + name) == dir + name
  {
    var path := dir + name;
    assert path[|path| - 1] == name[|name| - 1] && path[|path| - 2] == name[|name| - 2];
    assert name[|name| - 1] in name && name[|name| - 2] in name;
  }

  lemma {:induction false} NameStartAt(dir: string, name: string)
    requires dir == "" || dir[|dir| - 1] == '/'
    requires '/' !in name
    ensures NameStart(dir + name) == |dir|
  {
    if name == "" {
      assert dir + name == dir;
    } else {
      var init := name[..|name| - 1];
      NameStartAt(dir, init);
      assert (dir + name)[..|dir + name| - 1] == dir + init;
      assert (dir + name)[|dir + name| - 1] == name[|name| - 1] && name[|name| - 1] in name;
    }
  }

  lemma {:induction false} ExtensionAt(stem: string, extension: string)
    requires stem != "" && '.' !in extension
    ensures ExtensionStart(stem + "." + extension) == |stem|
  {
    var name := stem + "." + extension;
    if extension == "" {
      assert name[|name| - 1] == '.';
    } else {
      var init := extension[..|extension| - 1];
      ExtensionAt(stem, init);
      assert name[..|name| - 1] == stem + "." + init;
      assert name[|name| - 1] == extension[|extension| - 1] && extension[|extension| - 1] in extension;
    }
  }

  function TempPath(out: string): string { WithExtension(out, "partial") }

  /** No path but the temporary one is any different. */
  ghost predicate OthersKept(before: map<string, string>, after: map<string, string>, temp: string) {
    forall p :: p != temp ==> (p in after <==> p in before) && (p in before ==> after[p] == before[p])
  }

  /** A file is published exactly when everything went well and what landed
      reads back as a whole dump with the rendered digests. */
  predicate Publishes(hash: Hash, before: map<string, string>, text: string, expected: seq<string>,
                      out: string, f: Faults)
  {
    && TempPath(out) !in before
    && !f.createFails && !f.writeFails && !f.readFails && !f.renameFails
    && Verify(hash, f.lands(text)).Ok?
    && Verify(hash, f.lands(text)).value.perRecord == expected
  }

  /** The first thing that goes wrong on the way. */
  function FirstFailure(hash: Hash, before: map<string, string>, text: string, expected: seq<string>,
                        out: string, f: Faults): WriteError
    requires !Publishes(hash, before, text, expected, out, f)
  {
    if TempPath(out) in before then TempExists
    else if f.createFails then CreateFailed
    else if f.writeFails then WriteFailed
    else if f.readFails then ReadBackFailed
    else if Verify(hash, f.lands(text)).Err? then Unverified(Verify(hash, f.lands(text)).error)
    else if Verify(hash, f.lands(text)).value.perRecord != expected then NotWhatWasRendered
    else RenameFailed
  }

  /** Whether a failed run leaves its temporary file behind: the rename failed, or
      the removal that another failure called for. */
  predicate LeavesTemp(error: WriteError, f: Faults) {
    error.RenameFailed? || (f.removeFails && !error.TempExists? && !error.CreateFailed?)
  }

  /** A failed run leaves its temporary file exactly when it got as far as making
      one and then could not take it away: the last step failed, or the removal. */
  lemma TempLeftExactly(hash: Hash, before: map<string, string>, text: string, expected: seq<string>,
                        out: string, f: Faults)
    requires !Publishes(hash, before, text, expected, out, f)
    ensures
      var verified := Verify(hash, f.lands(text)).Ok? && Verify(hash, f.lands(text)).value.perRecord == expected;
      LeavesTemp(FirstFailure(hash, before, text, expected, out, f), f) <==>
        TempPath(out) !in before && !f.createFails &&
        (f.removeFails || (!f.writeFails && !f.readFails && verified))
  {
    hide Verify, TempPath;
  }

  method RemoveTemp(disk: Disk, temp: string, f: Faults)
    modifies disk
    ensures disk.files == if f.removeFails then old(disk.files) else old(disk.files) - {temp}
  {
    if !f.removeFails {
      disk.files := disk.files - {temp};
    }
  }

  method WriteVerified(disk: Disk, hash: Hash, text: string, expected: seq<string>, out: string, f: Faults)
    returns (r: Result<(), WriteError>)
    modifies disk
    ensures r.Ok? <==> Publishes(hash, old(disk.files), text, expected, out, f)
    ensures r.Ok? ==> disk.files == (old(disk.files) - {TempPath(out)})[out := f.lands(text)]
    ensures r.Err? ==> r.error == FirstFailure(hash, old(disk.files), text, expected, out, f)
    ensures r.Err? ==>
      disk.files ==
        if LeavesTemp(r.error, f) then old(disk.files)[TempPath(out) := f.lands(text)] else old(disk.files)
    // Nothing that was there before is lost, no failure is passed over, and what is
    // published is what landed.
    ensures r.Ok? ==>
      && TempPath(out) !in old(disk.files)
      && !f.createFails && !f.writeFails && !f.readFails && !f.renameFails
      && out in disk.files && disk.files[out] == f.lands(text)
    ensures TempPath(out) in old(disk.files) ==> r == Err(TempExists) && disk.files == old(disk.files)
    ensures r.Err? && !f.removeFails && !f.renameFails ==> disk.files == old(disk.files)
  {
    hide TempPath, Verify, Whole, Lines;
    var temp := TempPath(out);
    if temp in disk.files {
      return Err(TempExists);
    }
    if f.createFails {
      return Err(CreateFailed);
    }
    disk.files := disk.files[temp := f.lands(text)];
    if f.writeFails {
      RemoveTemp(disk, temp, f);
      return Err(WriteFailed);
    }
    if f.readFails {
      RemoveTemp(disk, temp, f);
      return Err(ReadBackFailed);
    }
    var written := disk.files[temp];
    var readBack := VerifyRendered(hash, written);
    if readBack.Err? {
      RemoveTemp(disk, temp, f);
      return Err(Unverified(readBack.error));
    }
    if readBack.value.perRecord != expected {
      RemoveTemp(disk, temp, f);
      return Err(NotWhatWasRendered);
    }
    if f.renameFails {
      return Err(RenameFailed);
    }
    disk.files := (disk.files - {temp})[out := written];
    return Ok(());
  }

  datatype ExportError = NotRead(failure: ReadError) | NotWritten(error: WriteError)

  datatype ExportOutcome = ExportOutcome(counts: Counts, warnings: seq<string>)

  /** The file holds the header and records of a dump, or names a collision. */
  predicate HoldsDump(hash: Hash, file: string, d: Dump, at: Int64, generator: string) {
    var (held, rendered) := (CoveredLines(file), DigestedLines(d, at, generator));
    held == rendered
    || (FirstDifference(held, rendered).Some? && Collides(hash, FirstDifference(held, rendered).value))
  }

  /** A file holds one dump, up to a collision between its lines and those of one
      of two. */
  lemma HeldDumpUnique(hash: Hash, file: string, a: Dump, at: Int64, generator: string,
                       b: Dump, at': Int64, generator': string)
    requires HoldsDump(hash, file, a, at, generator) && HoldsDump(hash, file, b, at', generator')
    ensures
      var (held, la, lb) := (CoveredLines(file), DigestedLines(a, at, generator), DigestedLines(b, at', generator'));
      (a == b && at == at' && generator == generator') ||
      (FirstDifference(held, la).Some? && Collides(hash, FirstDifference(held, la).value)) ||
      (FirstDifference(held, lb).Some? && Collides(hash, FirstDifference(held, lb).value))
  {
    hide CoveredLines, DigestedLines, FirstDifference, Collides;
    if DigestedLines(a, at, generator) == DigestedLines(b, at', generator') {
      LinesFixDump(a, at, generator, b, at', generator');
    }
  }

  /** Whatever a store holds, the text of its extract is accepted, with exactly
      the digests and counts that rendering it gives. */
  lemma ExtractAccepted(hash: Hash, s: Store, x: Extract, carried: seq<Relationship>, at: Int64, generator: string)
    requires ValidStore(s) && IsExtract(s, x, carried) && |Records(x.dump)| < TWO_64
    ensures Verify(hash, DumpText(hash, x.dump, at, generator))
         == Ok(ReadBack(RecordDigests(hash, DigestedLines(x.dump, at, generator)), CountsOf(Records(x.dump))))
  {
    ExtractWellLinked(s, x, carried);
    RenderedDumpAccepted(hash, x.dump, at, generator);
    hide *;
  }

  lemma PublishedHolds(hash: Hash, before: map<string, string>, text: string, d: Dump, at: Int64, generator: string,
                       out: string, f: Faults)
    requires Publishes(hash, before, text, RecordDigests(hash, DigestedLines(d, at, generator)), out, f)
    ensures HoldsDump(hash, f.lands(text), d, at, generator)
  {
    hide Verify, TempPath, DigestedLines, CoveredLines, FirstDifference, Collides, RecordDigests;
    AcceptedIsWhatWasRendered(hash, f.lands(text), DigestedLines(d, at, generator));
  }

  lemma HonestPublishes(hash: Hash, before: map<string, string>, text: string, expected: seq<string>, out: string,
                        f: Faults)
    ensures
      && f.lands(text) == text && !f.createFails && !f.writeFails && !f.readFails && !f.renameFails
      && TempPath(out) !in before && Verify(hash, text).Ok? && Verify(hash, text).value.perRecord == expected
      ==> Publishes(hash, before, text, expected, out, f)
  {
    hide Verify, TempPath;
  }

  /** Read a store and publish its dump. */
  method Export(disk: Disk, hash: Hash, s: Store, out: string, at: Int64, generator: string, f: Faults)
    returns (r: Result<ExportOutcome, ExportError>, ghost x: Extract, ghost carried: seq<Relationship>)
    requires ValidStore(s)
    modifies disk
    ensures r.Ok? ==>
      && IsExtract(s, x, carried) && Contents(s, x.dump) && Links(s, x)
      && r.value == ExportOutcome(CountsOf(Records(x.dump)), x.warnings) && CountsAre(r.value.counts, x.dump)
      && out in disk.files && HoldsDump(hash, disk.files[out], x.dump, at, generator)
    ensures ReadFailure(s).Some? ==> r == Err(NotRead(ReadFailure(s).value)) && disk.files == old(disk.files)
    ensures r.Err? ==> OthersKept(old(disk.files), disk.files, TempPath(out))
    // On a disk that keeps what is written to it, a readable store is published.
    ensures
      (forall t :: f.lands(t) == t) && !f.createFails && !f.writeFails && !f.readFails && !f.renameFails
      && TempPath(out) !in old(disk.files)
      && ReadFailure(s) == None
      && |Records(x.dump)| < TWO_64
      ==> r.Ok? && disk.files == old(disk.files)[out := DumpText(hash, x.dump, at, generator)]
          && ShowsRecords(Lines(disk.files[out]), x.dump)
  {
    hide Verify, DumpText, DigestedLines, HoldsDump, CoveredLines, CountsOf, Records, WellLinked, IsExtract,
      FirstDifference, Collides, RecordDigests, Contents, Links, CountsAre, ShowsRecords, Lines,
      Publishes, ReadFailure, TempPath, Hex, Concat;
    var extracted;
    extracted, carried := ExtractSnapshot(s);
    if extracted.Err? {
      x := Extract(Dump([], [], [], []), []);
      return Err(NotRead(extracted.error)), x, carried;
    }
    x := extracted.value;
    var dump := extracted.value.dump;
    var text, perRecord, footer := Render(hash, dump, at, generator);
    var written := WriteVerified(disk, hash, text, perRecord, out, f);
    if |Records(dump)| < TWO_64 {
      ExtractAccepted(hash, s, x, carried, at, generator);
    }
    HonestPublishes(hash, old(disk.files), text, perRecord, out, f);
    if written.Err? {
      return Err(NotWritten(written.error)), x, carried;
    }
    PublishedHolds(hash, old(disk.files), text, dump, at, generator, out, f);
    return Ok(ExportOutcome(footer.counts, extracted.value.warnings)), x, carried;
  }
}
