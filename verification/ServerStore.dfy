/** The team server's store: projects with their embedding stamps, and memory
    notes under server-minted ids. Tables are a map and a sequence of rows. */
module ServerStore {
  import opened Text
  import Int8

  datatype Project = Project(id: nat, slug: string, embeddingDim: nat, embeddingModel: Option<string>)

  /** A row of the notes table. `content` stands for the columns that no
      operation here reads. Rows older than the sync id column have none. */
  datatype Note = Note(
    id: nat,
    project: nat,
    content: string,
    active: bool,
    supersededBy: Option<nat>,
    remoteId: Option<string>,
    syncId: Option<int>)

  datatype StoreError =
    | DimensionMismatch(slug: string, expectedDim: nat, gotDim: nat)
    | ModelMismatch(slug: string, expectedModel: string, gotModel: string)
    | ConstraintFailed
    | EmbeddingRefused

  // ---------------------------------------------------------------------- stamps

  type Projects = map<string, Project>

  predicate StampRefuses(p: Project, dim: nat, model: string) {
    (p.embeddingDim != 0 && p.embeddingDim != dim) || (p.embeddingModel.Some? && p.embeddingModel.value != model)
  }

  /** A write to a project, on values: the new table, or why it is refused. The
      dimension is compared first. */
  function Upserted(projects: Projects, freshId: nat, slug: string, dim: nat, model: string)
    : Result<Projects, StoreError>
  {
    if slug !in projects then
      Ok(projects[slug := Project(freshId, slug, dim, Some(model))])
    else
      var p := projects[slug];
      if !StampRefuses(p, dim, model) then
        Ok(projects[slug := p.(embeddingDim := dim, embeddingModel := Some(model))])
      else if p.embeddingDim != 0 && p.embeddingDim != dim then
        Err(DimensionMismatch(slug, p.embeddingDim, dim))
      else
        Err(ModelMismatch(slug, p.embeddingModel.value, model))
  }

  predicate ProjectExists(projects: Projects, id: nat) {
    exists slug :: slug in projects && projects[slug].id == id
  }

  // ------------------------------------------------------------------ note tables

  /** The notes, the next row id, and the last sync id minted. */
  datatype Store = Store(notes: seq<Note>, nextId: nat, minted: int)

  predicate IdsAscend(notes: seq<Note>) { forall i, j :: 0 <= i < j < |notes| ==> notes[i].id < notes[j].id }

  predicate SyncIdsDistinct(notes: seq<Note>) {
    forall i, j :: 0 <= i < j < |notes| && notes[i].syncId.Some? ==> notes[i].syncId != notes[j].syncId
  }

  predicate WellFormed(s: Store) {
    && IdsAscend(s.notes)
    && SyncIdsDistinct(s.notes)
    && (forall n :: n in s.notes ==> n.id < s.nextId && (n.syncId.Some? ==> n.syncId.value <= s.minted))
  }

  predicate RemoteIdTaken(notes: seq<Note>, project: nat, remoteId: Option<string>) {
    remoteId.Some? && exists n :: n in notes && n.project == project && n.remoteId == remoteId
  }

  predicate HasId(notes: seq<Note>, id: nat) { exists n :: n in notes && n.id == id }

  /** Whether a note other than itself names a note as its successor. */
  predicate IsSuccessor(notes: seq<Note>, id: nat) {
    exists n :: n in notes && n.id != id && n.supersededBy == Some(id)
  }

  /** Whether a note is the active one that an archiving statement names. */
  predicate Retires(n: Note, project: nat, id: nat) { n.id == id && n.project == project && n.active }

  function RetiredNote(n: Note, project: nat, id: nat, successor: Option<nat>): Note {
    if Retires(n, project, id) then
      n.(active := false, supersededBy := if successor.Some? then successor else n.supersededBy)
    else n
  }

  function Added(s: Store, project: nat, content: string, remoteId: Option<string>, syncId: int): Store {
    Store(s.notes + [Note(s.nextId, project, content, true, None, remoteId, Some(syncId))], s.nextId + 1, syncId)
  }

  /** Archiving, with the successor's id if there is one. */
  function Retired(s: Store, project: nat, id: nat, successor: Option<nat>): (r: Store)
    ensures |r.notes| == |s.notes|
    ensures forall i :: 0 <= i < |s.notes| ==> r.notes[i] == RetiredNote(s.notes[i], project, id, successor)
  {
    s.(notes := seq(|s.notes|, i requires 0 <= i < |s.notes| => RetiredNote(s.notes[i], project, id, successor)))
  }

  predicate Names(n: Note, project: nat, id: nat) { n.id == id && n.project == project }

  predicate HasNote(notes: seq<Note>, project: nat, id: nat) { exists n :: n in notes && Names(n, project, id) }

  function Without(notes: seq<Note>, project: nat, id: nat): seq<Note> {
    if notes == [] then []
    else
      var (init, n) := (notes[..|notes| - 1], notes[|notes| - 1]);
      Without(init, project, id) + if Names(n, project, id) then [] else [n]
  }

  lemma {:induction false} WithoutKeepsOthers(notes: seq<Note>, project: nat, id: nat)
    ensures
      var r := Without(notes, project, id);
      |r| <= |notes| && (|r| == |notes| <==> !HasNote(notes, project, id)) &&
      forall n :: n in r <==> n in notes && !Names(n, project, id)
  {
    if notes != [] {
      var (init, n) := (notes[..|notes| - 1], notes[|notes| - 1]);
      WithoutKeepsOthers(init, project, id);
      assert notes == init + [n];
    }
  }

  function Deleted(s: Store, project: nat, id: nat): Store { s.(notes := Without(s.notes, project, id)) }

  lemma AddedWellFormed(s: Store, project: nat, content: string, remoteId: Option<string>, syncId: int)
    requires WellFormed(s) && syncId > s.minted
    ensures WellFormed(Added(s, project, content, remoteId, syncId))
  {
  }

  lemma RetiredWellFormed(s: Store, project: nat, id: nat, successor: Option<nat>)
    requires WellFormed(s)
    ensures WellFormed(Retired(s, project, id, successor))
  {
    var r := Retired(s, project, id, successor);
    assert forall i :: 0 <= i < |r.notes| ==> r.notes[i].id == s.notes[i].id && r.notes[i].syncId == s.notes[i].syncId;
    hide Retired;
    forall n | n in r.notes ensures n.id < r.nextId && (n.syncId.Some? ==> n.syncId.value <= r.minted) {
      var i :| 0 <= i < |r.notes| && r.notes[i] == n;
      assert s.notes[i] in s.notes;
    }
  }

  lemma {:induction false} WithoutKeepsOrder(notes: seq<Note>, project: nat, id: nat)
    requires IdsAscend(notes)
    ensures IdsAscend(Without(notes, project, id))
  {
    if notes != [] {
      var (init, n) := (notes[..|notes| - 1], notes[|notes| - 1]);
      WithoutKeepsOrder(init, project, id);
      WithoutKeepsOthers(init, project, id);
      forall m | m in Without(init, project, id) ensures m.id < n.id {
        assert m in init;
      }
    }
  }

  lemma {:induction false} WithoutKeepsDistinct(notes: seq<Note>, project: nat, id: nat)
    requires SyncIdsDistinct(notes)
    ensures SyncIdsDistinct(Without(notes, project, id))
  {
    if notes != [] {
      var (init, n) := (notes[..|notes| - 1], notes[|notes| - 1]);
      WithoutKeepsDistinct(init, project, id);
      WithoutKeepsOthers(init, project, id);
      forall m | m in Without(init, project, id) && m.syncId.Some? ensures m.syncId != n.syncId {
        assert m in init;
      }
    }
  }

  lemma DeletedWellFormed(s: Store, project: nat, id: nat)
    requires WellFormed(s)
    ensures WellFormed(Deleted(s, project, id))
  {
    WithoutKeepsOrder(s.notes, project, id);
    WithoutKeepsDistinct(s.notes, project, id);
    WithoutKeepsOthers(s.notes, project, id);
    hide IdsAscend, SyncIdsDistinct;
  }

  lemma WithoutCounts(notes: seq<Note>, project: nat, id: nat)
    ensures |Without(notes, project, id)| < |notes| <==> HasNote(notes, project, id)
  {
    WithoutKeepsOthers(notes, project, id);
  }

  lemma WithoutMeans(notes: seq<Note>, project: nat, id: nat)
    ensures HasNote(notes, project, id) <==> exists n :: n in notes && n.id == id && n.project == project
    ensures IsSuccessor(notes, id) <==> exists n :: n in notes && n.id != id && n.supersededBy == Some(id)
    ensures forall n ::
      n in Without(notes, project, id) <==> n in notes && !(n.id == id && n.project == project)
  {
    WithoutKeepsOthers(notes, project, id);
  }

  lemma NothingWithout(notes: seq<Note>, project: nat, id: nat)
    ensures Without(notes[..0], project, id) == []
  {
  }

  lemma WithoutNext(notes: seq<Note>, project: nat, id: nat, i: nat)
    requires i < |notes|
    ensures Without(notes[..i + 1], project, id) ==
      Without(notes[..i], project, id) + if Names(notes[i], project, id) then [] else [notes[i]]
  {
    assert notes[..i + 1][..i] == notes[..i];
  }

  // ----------------------------------------------------------------- sync backfill

  predicate Stale(n: Note) { n.syncId.None? }

  /** A table in which every stale row got a fresh sync id, in row order. */
  predicate Backfills(before: seq<Note>, after: seq<Note>, mintedBefore: int, minted: int) {
    && |after| == |before|
    && (forall i :: 0 <= i < |before| && !Stale(before[i]) ==> after[i] == before[i])
    && (forall i :: 0 <= i < |before| && Stale(before[i]) ==>
          after[i].syncId.Some? && mintedBefore < after[i].syncId.value <= minted &&
          after[i] == before[i].(syncId := after[i].syncId))
    && (forall i, j :: 0 <= i < j < |before| && Stale(before[i]) && Stale(before[j]) ==>
          after[i].syncId.value < after[j].syncId.value)
  }

  lemma BackfilledWellFormed(before: Store, after: Store)
    requires WellFormed(before) && after.nextId == before.nextId && after.minted >= before.minted
    requires Backfills(before.notes, after.notes, before.minted, after.minted)
    ensures WellFormed(after)
  {
    var (b, a) := (before.notes, after.notes);
    forall i | 0 <= i < |a|
      ensures a[i].id == b[i].id < after.nextId && a[i].syncId.Some? && a[i].syncId.value <= after.minted
    {
      assert b[i] in b;
    }
    forall i, j | 0 <= i < j < |a| ensures a[i].syncId != a[j].syncId {
      assert b[i] in b && b[j] in b;
    }
  }

  lemma BackfilledRows(before: seq<Note>, after: seq<Note>, mintedBefore: int, minted: int)
    requires Backfills(before, after, mintedBefore, minted)
    ensures |after| == |before|
    ensures forall i :: 0 <= i < |before| ==>
      && after[i].id == before[i].id && after[i].syncId.Some?
      && after[i] == before[i].(syncId := after[i].syncId)
      && (before[i].syncId != None ==> after[i].syncId == before[i].syncId)
      && (before[i].syncId == None ==> mintedBefore < after[i].syncId.value <= minted)
  {
    forall i | 0 <= i < |before|
      ensures
        && after[i].id == before[i].id && after[i].syncId.Some?
        && after[i] == before[i].(syncId := after[i].syncId)
        && (before[i].syncId != None ==> after[i].syncId == before[i].syncId)
        && (before[i].syncId == None ==> mintedBefore < after[i].syncId.value <= minted)
    {
      assert Stale(before[i]) || after[i] == before[i];
    }
  }

  /** A table without stale rows is left as it is. */
  lemma BackfillIdempotent(before: seq<Note>, after: seq<Note>, again: seq<Note>,
      mintedBefore: int, minted: int, later: int)
    requires Backfills(before, after, mintedBefore, minted) && Backfills(after, again, minted, later)
    ensures again == after
  {
    forall i | 0 <= i < |after| ensures !Stale(after[i]) {
      assert Stale(before[i]) || after[i] == before[i];
    }
  }

  /** The positions of the rows without a sync id, in order. */
  ghost predicate StaleRows(notes: seq<Note>, rows: seq<nat>) {
    && (forall k, l :: 0 <= k < l < |rows| ==> rows[k] < rows[l])
    && (forall j: nat :: j in rows <==> j < |notes| && Stale(notes[j]))
  }

  /** The table once the rows in `done` have their sync ids. */
  predicate Filled(before: seq<Note>, now: seq<Note>, done: seq<nat>, mintedBefore: int, minted: int) {
    && |now| == |before|
    && (forall i :: 0 <= i < |before| && i !in done ==> now[i] == before[i])
    && (forall k :: 0 <= k < |done| ==>
          done[k] < |before| && now[done[k]].syncId.Some? &&
          mintedBefore < now[done[k]].syncId.value <= minted &&
          now[done[k]] == before[done[k]].(syncId := now[done[k]].syncId))
    && (forall k, l :: 0 <= k < l < |done| ==> now[done[k]].syncId.value < now[done[l]].syncId.value)
  }

  lemma FillOne(before: seq<Note>, now: seq<Note>, done: seq<nat>, row: nat,
      mintedBefore: int, minted: int, syncId: int)
    requires row < |before| && (forall k :: 0 <= k < |done| ==> done[k] < row)
    requires Filled(before, now, done, mintedBefore, minted) && mintedBefore <= minted < syncId
    ensures Filled(before, now[row := now[row].(syncId := Some(syncId))], done + [row], mintedBefore, syncId)
  {
    var next := now[row := now[row].(syncId := Some(syncId))];
    assert row !in done;
    forall k | 0 <= k < |done| ensures (done + [row])[k] == done[k] && next[done[k]] == now[done[k]] {
    }
    forall i | 0 <= i < |before| && i !in done + [row] ensures next[i] == before[i] {
      assert (done + [row])[|done|] == row;
      assert i !in done && i != row;
    }
  }

  lemma FillNext(before: seq<Note>, now: seq<Note>, rows: seq<nat>, k: nat, mintedBefore: int, minted: int, syncId: int)
    requires StaleRows(before, rows) && k < |rows| && mintedBefore <= minted < syncId
    requires Filled(before, now, rows[..k], mintedBefore, minted)
    ensures rows[k] < |now|
    ensures Filled(before, now[rows[k] := now[rows[k]].(syncId := Some(syncId))], rows[..k + 1], mintedBefore, syncId)
  {
    assert forall l :: 0 <= l < k ==> rows[..k][l] == rows[l] < rows[k];
    assert rows[k] in rows;
    assert rows[..k + 1] == rows[..k] + [rows[k]];
    FillOne(before, now, rows[..k], rows[k], mintedBefore, minted, syncId);
    hide StaleRows;
  }

  lemma NoneFilled(notes: seq<Note>, rows: seq<nat>, minted: int)
    ensures Filled(notes, notes, rows[..0], minted, minted)
  {
  }

  lemma NoRows(notes: seq<Note>)
    ensures StaleRows(notes[..0], [])
  {
  }

  lemma StaleRowsNext(notes: seq<Note>, i: nat, rows: seq<nat>)
    requires i < |notes| && StaleRows(notes[..i], rows)
    ensures StaleRows(notes[..i + 1], if Stale(notes[i]) then rows + [i] else rows)
  {
    assert forall j: nat :: j in rows + [i] <==> j in rows || j == i;
    assert forall k :: 0 <= k < |rows| ==> rows[k] in rows;
  }

  lemma AllFilled(before: seq<Note>, now: seq<Note>, rows: seq<nat>, mintedBefore: int, minted: int)
    requires StaleRows(before, rows) && Filled(before, now, rows, mintedBefore, minted)
    ensures Backfills(before, now, mintedBefore, minted)
  {
    forall i, j | 0 <= i < j < |before| && Stale(before[i]) && Stale(before[j])
      ensures now[i].syncId.Some? && now[j].syncId.Some? && now[i].syncId.value < now[j].syncId.value
    {
      var k :| 0 <= k < |rows| && rows[k] == i;
      var l :| 0 <= l < |rows| && rows[l] == j;
      assert k < l;
    }
    forall i | 0 <= i < |before| && !Stale(before[i]) ensures now[i] == before[i] {
      assert i !in rows;
    }
  }

  /** Embeddings by the id of their note, as the bytes of the vector table. */
  type Embeddings = map<nat, seq<Int8.Byte>>

  /** Every embedding has its note. */
  predicate Owned(embeddings: Embeddings, notes: seq<Note>) { forall id :: id in embeddings ==> HasId(notes, id) }

  lemma OwnedStays(embeddings: Embeddings, before: seq<Note>, after: seq<Note>)
    requires Owned(embeddings, before) && |before| <= |after|
    requires forall i :: 0 <= i < |before| ==> after[i].id == before[i].id
    ensures Owned(embeddings, after)
  {
    forall id | id in embeddings ensures HasId(after, id) {
      var n :| n in before && n.id == id;
      var i :| 0 <= i < |before| && before[i] == n;
      assert after[i] in after;
    }
  }

  lemma OwnedWithout(embeddings: Embeddings, notes: seq<Note>, project: nat, id: nat)
    requires Owned(embeddings, notes)
    ensures Owned(embeddings - {id}, notes) && Owned(embeddings - {id}, Without(notes, project, id))
  {
    WithoutKeepsOthers(notes, project, id);
    forall k | k in embeddings - {id} ensures HasId(Without(notes, project, id), k) {
      var n :| n in notes && n.id == k;
      assert n in Without(notes, project, id);
    }
  }

  class ServerDb {
    var projects: Projects
    var nextProjectId: nat
    var notes: seq<Note>
    var nextNoteId: nat
    /** The last sync id minted; a later one is always greater. */
    var minted: int
    var embeddings: Embeddings
    /** The dimension that the vector table was created with. */
    const embeddingDim: nat

    ghost function Current(): Store
      reads this
    {
      Store(notes, nextNoteId, minted)
    }

    ghost predicate Valid()
      reads this
    {
      WellFormed(Current()) && Owned(embeddings, notes)
    }

    /** A time-ordered id: some number greater than every earlier one. */
    method Mint() returns (id: int)
      modifies this`minted
      ensures id == minted > old(minted)
    {
      assert minted + 1 > minted;
      id :| id > minted;
      minted := id;
    }

    method UpsertProject(slug: string, dim: nat, model: string) returns (r: Result<Project, StoreError>)
      modifies this`projects, this`nextProjectId
      ensures nextProjectId == old(nextProjectId) + if slug in old(projects) then 0 else 1
      ensures
        match Upserted(old(projects), old(nextProjectId), slug, dim, model)
        case Ok(table) => projects == table && r == Ok(table[slug])
        case Err(e) => projects == old(projects) && r == Err(e)
      // A new slug is created with the stamp; a dimension of zero and a missing
      // model are stamped; any other difference is refused, the dimension's first.
      ensures slug !in old(projects) ==>
        r == Ok(Project(old(nextProjectId), slug, dim, Some(model))) && projects == old(projects)[slug := r.value]
      ensures slug in old(projects) ==>
        var p := old(projects)[slug];
        if p.embeddingDim != 0 && p.embeddingDim != dim then
          r == Err(DimensionMismatch(slug, p.embeddingDim, dim)) && projects == old(projects)
        else if p.embeddingModel != None && p.embeddingModel != Some(model) then
          r == Err(ModelMismatch(slug, p.embeddingModel.value, model)) && projects == old(projects)
        else
          r == Ok(Project(p.id, p.slug, dim, Some(model))) && projects == old(projects)[slug := r.value]
    {
      if slug in projects {
        var p := projects[slug];
        if p.embeddingDim != 0 && p.embeddingDim != dim {
          return Err(DimensionMismatch(slug, p.embeddingDim, dim));
        }
        if p.embeddingModel.Some? && p.embeddingModel.value != model {
          return Err(ModelMismatch(slug, p.embeddingModel.value, model));
        }
        if p.embeddingDim == 0 {
          p := p.(embeddingDim := dim);
          projects := projects[slug := p];
        }
        if p.embeddingModel.None? {
          p := p.(embeddingModel := Some(model));
          projects := projects[slug := p];
        }
        return Ok(p);
      }
      var created := Project(nextProjectId, slug, dim, Some(model));
      projects := projects[slug := created];
      nextProjectId := nextProjectId + 1;
      return Ok(created);
    }

    /** Inserts a note under a new sync id and returns both its ids. The row is
        refused if its project does not exist or its remote id is in use there.
        An embedding of the wrong dimension is refused after that: the note stays,
        without one. */
    method AddNote(project: nat, content: string, remoteId: Option<string>, embedding: Option<seq<Int8.Word>>)
      returns (r: Result<(nat, int), StoreError>)
      requires Valid()
      modifies this`notes, this`nextNoteId, this`minted, this`embeddings
      ensures Valid() && minted > old(minted)
      ensures
        if !ProjectExists(projects, project) || RemoteIdTaken(old(notes), project, remoteId) then
          r == Err(ConstraintFailed) && Current() == old(Current()).(minted := minted) && embeddings == old(embeddings)
        else
          Current() == Added(old(Current()), project, content, remoteId, minted) &&
          if embedding.None? then
            r == Ok((old(nextNoteId), minted)) && embeddings == old(embeddings)
          else if |embedding.value| == embeddingDim then
            r == Ok((old(nextNoteId), minted)) &&
            embeddings == old(embeddings)[old(nextNoteId) := Int8.VecToBlob(embedding.value)]
          else
            r == Err(EmbeddingRefused) && embeddings == old(embeddings)
      ensures r == Err(ConstraintFailed) <==>
        || !(exists slug :: slug in projects && projects[slug].id == project)
        || (remoteId != None && exists n :: n in old(notes) && n.project == project && n.remoteId == remoteId)
      ensures r != Err(ConstraintFailed) ==>
        && |notes| == |old(notes)| + 1 && notes[..|old(notes)|] == old(notes)
        && notes[|old(notes)|] == Note(old(nextNoteId), project, content, true, None, remoteId, Some(minted))
        && nextNoteId == old(nextNoteId) + 1
    {
      var syncId := Mint();
      if !ProjectExists(projects, project) || RemoteIdTaken(notes, project, remoteId) {
        return Err(ConstraintFailed);
      }
      AddedWellFormed(old(Current()), project, content, remoteId, syncId);
      var noteId := nextNoteId;
      notes := notes + [Note(noteId, project, content, true, None, remoteId, Some(syncId))];
      nextNoteId := nextNoteId + 1;
      OwnedStays(embeddings, old(notes), notes);
      hide WellFormed;
      if embedding.Some? {
        if |embedding.value| != embeddingDim {
          return Err(EmbeddingRefused);
        }
        assert notes[|notes| - 1].id == noteId && notes[|notes| - 1] in notes;
        embeddings := embeddings[noteId := Int8.VecToBlob(embedding.value)];
      }
      return Ok((noteId, syncId));
    }

    /** The statement behind archiving and superseding: how many rows changed. */
    method Retire(project: nat, id: nat, successor: Option<nat>) returns (changed: nat)
      requires Valid()
      modifies this`notes
      ensures Valid() && Current() == Retired(old(Current()), project, id, successor)
      ensures changed > 0 <==> exists n :: n in old(notes) && Retires(n, project, id)
    {
      changed := 0;
      for i := 0 to |notes|
        invariant |notes| == |old(notes)|
        invariant forall j :: 0 <= j < i ==> notes[j] == RetiredNote(old(notes)[j], project, id, successor)
        invariant forall j :: i <= j < |notes| ==> notes[j] == old(notes)[j]
        invariant changed > 0 <==> exists j :: 0 <= j < i && Retires(old(notes)[j], project, id)
      {
        if Retires(notes[i], project, id) {
          notes := notes[i := RetiredNote(notes[i], project, id, successor)];
          changed := changed + 1;
        }
      }
      RetiredWellFormed(old(Current()), project, id, successor);
      OwnedStays(embeddings, old(notes), notes);
      assert notes == Retired(old(Current()), project, id, successor).notes;
    }

    method ArchiveNote(project: nat, id: nat) returns (changed: bool)
      requires Valid()
      modifies this`notes
      ensures Valid() && Current() == Retired(old(Current()), project, id, None)
      // The active row with that id in that project is archived, no other row changes.
      ensures |notes| == |old(notes)|
      ensures forall i :: 0 <= i < |notes| ==>
        var before := old(notes)[i];
        if before.id == id && before.project == project && before.active
        then notes[i] == before.(active := false)
        else notes[i] == before
      ensures changed <==> exists n :: n in old(notes) && n.id == id && n.project == project && n.active
    {
      var rows := Retire(project, id, None);
      return rows > 0;
    }

    /** A successor that is no row breaks a foreign key, once a row refers to it. */
    method SupersedeNote(project: nat, oldId: nat, newId: nat) returns (r: Result<bool, StoreError>)
      requires Valid()
      modifies this`notes
      ensures Valid()
      ensures
        var found := exists n :: n in old(notes) && Retires(n, project, oldId);
        if found && !HasId(old(notes), newId) then r == Err(ConstraintFailed) && Current() == old(Current())
        else r == Ok(found) && Current() == Retired(old(Current()), project, oldId, Some(newId))
      // The active row with the old id in that project is archived and names its
      // successor, no other row changes.
      ensures |notes| == |old(notes)|
      ensures forall i :: 0 <= i < |notes| ==>
        var before := old(notes)[i];
        if before.id == oldId && before.project == project && before.active && r.Ok?
        then notes[i] == before.(active := false, supersededBy := Some(newId))
        else notes[i] == before
      ensures
        var found := exists n :: n in old(notes) && n.id == oldId && n.project == project && n.active;
        if found && !(exists n :: n in old(notes) && n.id == newId) then r == Err(ConstraintFailed) else r == Ok(found)
    {
      if (exists n :: n in notes && Retires(n, project, oldId)) && !HasId(notes, newId) {
        return Err(ConstraintFailed);
      }
      var rows := Retire(project, oldId, Some(newId));
      return Ok(rows > 0);
    }

    /** The scan behind a deletion: the rows that stay. */
    static method Kept(rows: seq<Note>, project: nat, id: nat) returns (kept: seq<Note>)
      ensures kept == Without(rows, project, id)
    {
      kept := [];
      NothingWithout(rows, project, id);
      for i := 0 to |rows|
        invariant kept == Without(rows[..i], project, id)
      {
        WithoutNext(rows, project, id, i);
        if !Names(rows[i], project, id) {
          kept := kept + [rows[i]];
        }
      }
      assert rows[..|rows|] == rows;
    }

    /** The embedding goes first, whatever project its note belongs to. A note that
        others name as their successor is not deleted. */
    method DeleteNote(project: nat, id: nat) returns (r: Result<bool, StoreError>)
      requires Valid()
      modifies this`notes, this`embeddings
      ensures Valid() && embeddings == old(embeddings) - {id}
      ensures
        var found := HasNote(old(notes), project, id);
        if found && IsSuccessor(old(notes), id) then r == Err(ConstraintFailed) && Current() == old(Current())
        else r == Ok(found) && Current() == Deleted(old(Current()), project, id)
      // The row with that id in that project goes, unless another row names it as
      // its successor; the others stay, in their order.
      ensures
        var found := exists n :: n in old(notes) && n.id == id && n.project == project;
        if found && exists n :: n in old(notes) && n.id != id && n.supersededBy == Some(id)
        then r == Err(ConstraintFailed) && notes == old(notes)
        else r == Ok(found)
      ensures r.Ok? ==> forall n :: n in notes <==> n in old(notes) && !(n.id == id && n.project == project)
    {
      WithoutMeans(notes, project, id);
      OwnedWithout(embeddings, notes, project, id);
      DeletedWellFormed(Current(), project, id);
      WithoutCounts(notes, project, id);
      hide WellFormed, Without, IsSuccessor, Names, HasNote, Owned;
      var rows := notes;
      embeddings := embeddings - {id};
      var kept := Kept(rows, project, id);
      var found := |kept| < |rows|;
      if found && IsSuccessor(rows, id) {
        return Err(ConstraintFailed);
      }
      notes := kept;
      return Ok(found);
    }

    /** Gives every row without a sync id a fresh one, oldest row first. */
    method BackfillMissingSyncIds()
      requires Valid()
      modifies this`notes, this`minted
      ensures Valid() && nextNoteId == old(nextNoteId) && minted >= old(minted)
      ensures Backfills(old(notes), notes, old(minted), minted)
      ensures |notes| == |old(notes)|
      ensures forall i :: 0 <= i < |notes| ==>
        && notes[i].syncId.Some?
        && notes[i] == old(notes)[i].(syncId := notes[i].syncId)
        && (old(notes)[i].syncId != None ==> notes[i].syncId == old(notes)[i].syncId)
        && (old(notes)[i].syncId == None ==> old(minted) < notes[i].syncId.value <= minted)
    {
      hide WellFormed, Filled, StaleRows, Backfills;
      var stale: seq<nat> := [];
      NoRows(notes);
      for i := 0 to |notes|
        invariant notes == old(notes) && minted == old(minted) && StaleRows(notes[..i], stale)
      {
        StaleRowsNext(notes, i, stale);
        if Stale(notes[i]) {
          stale := stale + [i];
        }
      }
      assert notes[..|notes|] == notes;
      NoneFilled(notes, stale, minted);
      for k := 0 to |stale|
        invariant StaleRows(old(notes), stale) && minted >= old(minted)
        invariant Filled(old(notes), notes, stale[..k], old(minted), minted)
      {
        ghost var last := minted;
        var id := Mint();
        FillNext(old(notes), notes, stale, k, old(minted), last, id);
        notes := notes[stale[k] := notes[stale[k]].(syncId := Some(id))];
      }
      assert stale[..|stale|] == stale;
      AllFilled(old(notes), notes, stale, old(minted), minted);
      BackfilledWellFormed(old(Current()), Current());
      BackfilledRows(old(notes), notes, old(minted), minted);
      OwnedStays(embeddings, old(notes), notes);
    }
  }

  // ------------------------------------------------------------ stamps over a run

  datatype Write = Write(slug: string, dim: nat, model: string, freshId: nat)

  /** The project table after a run of writes; refused ones change nothing. */
  function AfterWrites(projects: Projects, run: seq<Write>): Projects {
    if run == [] then projects
    else
      var (before, w) := (AfterWrites(projects, run[..|run| - 1]), run[|run| - 1]);
      match Upserted(before, w.freshId, w.slug, w.dim, w.model)
      case Ok(table) => table
      case Err(_) => before
  }

  predicate Accepted(projects: Projects, run: seq<Write>, i: nat)
    requires i < |run|
  {
    var w := run[i];
    Upserted(AfterWrites(projects, run[..i]), w.freshId, w.slug, w.dim, w.model).Ok?
  }

  /** What a write leaves in force for its project. */
  predicate StampedWith(projects: Projects, w: Write) {
    w.slug in projects && projects[w.slug].embeddingModel == Some(w.model) &&
    (w.dim != 0 ==> projects[w.slug].embeddingDim == w.dim)
  }

  lemma {:induction false} StampStays(projects: Projects, run: seq<Write>, i: nat)
    requires i < |run| && Accepted(projects, run, i)
    ensures StampedWith(AfterWrites(projects, run), run[i])
    decreases |run|
  {
    var n := |run| - 1;
    var before := AfterWrites(projects, run[..n]);
    if i < n {
      assert run[..n][..i] == run[..i];
      StampStays(projects, run[..n], i);
    }
  }

  /** A project's stamp is written once: all writes it accepts agree on the model,
      and on the dimension from the first that gives one. */
  lemma StampsAgree(projects: Projects, run: seq<Write>, i: nat, j: nat)
    requires i < j < |run| && run[i].slug == run[j].slug
    requires Accepted(projects, run, i) && Accepted(projects, run, j)
    ensures run[i].model == run[j].model
    ensures run[i].dim != 0 ==> run[j].dim == run[i].dim
  {
    assert run[..j][..i] == run[..i];
    StampStays(projects, run[..j], i);
  }

  /** Once a project has been stamped with a dimension, exactly the writes that
      repeat the stamp are accepted. */
  lemma StampDecides(projects: Projects, run: seq<Write>, i: nat, j: nat)
    requires i < j < |run| && run[i].slug == run[j].slug
    requires Accepted(projects, run, i) && run[i].dim != 0
    ensures Accepted(projects, run, j) <==> run[j].model == run[i].model && run[j].dim == run[i].dim
  {
    assert run[..j][..i] == run[..i];
    StampStays(projects, run[..j], i);
  }
}
