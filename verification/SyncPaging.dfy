/** The delta pull over sync ids: the cursor query, a client that pages through
    it, and deliveries while other clients keep writing. */
module SyncPaging {
  import opened Text
  import opened ServerStore

  // ------------------------------------------------------------------- the query

  predicate Matches(n: Note, project: nat, cursor: int) {
    n.project == project && n.active && n.syncId.Some? && n.syncId.value > cursor
  }

  type Synced = n: Note | n.syncId.Some? witness Note(0, 0, "", true, None, None, Some(0))

  function Key(n: Synced): int { n.syncId.value }

  /** Puts a row into its place by sync id. */
  function Insert(n: Synced, rows: seq<Synced>): seq<Synced> {
    if rows == [] || Key(rows[|rows| - 1]) < Key(n) then rows + [n]
    else Insert(n, rows[..|rows| - 1]) + [rows[|rows| - 1]]
  }

  /** The rows after a cursor, by ascending sync id. */
  function Since(notes: seq<Note>, project: nat, cursor: int): seq<Synced> {
    if notes == [] then []
    else
      var (init, n) := (notes[..|notes| - 1], notes[|notes| - 1]);
      var rows := Since(init, project, cursor);
      if Matches(n, project, cursor) then Insert(n, rows) else rows
  }

  function Clamp(limit: int): nat { if limit < 1 then 1 else if limit > 500 then 500 else limit }

  function NotesSinceId(notes: seq<Note>, project: nat, cursor: int, limit: int): seq<Synced> {
    var rows := Since(notes, project, cursor);
    if |rows| <= Clamp(limit) then rows else rows[..Clamp(limit)]
  }

  predicate Ascending(rows: seq<Synced>) { forall i, j :: 0 <= i < j < |rows| ==> Key(rows[i]) < Key(rows[j]) }

  lemma {:induction false} InsertAscends(n: Synced, rows: seq<Synced>)
    requires Ascending(rows) && forall m :: m in rows ==> Key(m) != Key(n)
    ensures Ascending(Insert(n, rows))
    ensures forall m :: m in Insert(n, rows) <==> m == n || m in rows
  {
    if rows != [] && Key(rows[|rows| - 1]) >= Key(n) {
      var (init, last) := (rows[..|rows| - 1], rows[|rows| - 1]);
      assert rows == init + [last];
      InsertAscends(n, init);
      assert forall m :: m in init ==> Key(m) < Key(last);
    }
  }

  /** The query answers with exactly the matching rows, in strictly ascending order. */
  lemma {:induction false} SinceSelects(notes: seq<Note>, project: nat, cursor: int)
    requires SyncIdsDistinct(notes)
    ensures Ascending(Since(notes, project, cursor))
    ensures forall n :: n in Since(notes, project, cursor) <==>
      n in notes && n.project == project && n.active && n.syncId.Some? && n.syncId.value > cursor
  {
    if notes != [] {
      var (init, n) := (notes[..|notes| - 1], notes[|notes| - 1]);
      assert notes == init + [n];
      SinceSelects(init, project, cursor);
      if Matches(n, project, cursor) {
        forall m | m in Since(init, project, cursor) ensures Key(m) != Key(n) {
          var i :| 0 <= i < |init| && init[i] == m;
          assert notes[i] == m;
        }
        InsertAscends(n, Since(init, project, cursor));
      }
    }
  }

  /** Strictly ascending lists of the same rows are equal. */
  lemma {:induction false} AscendingUnique(a: seq<Synced>, b: seq<Synced>)
    requires Ascending(a) && Ascending(b) && forall n :: n in a <==> n in b
    ensures a == b
  {
    if b != [] {
      assert b[0] in a;
    }
    if a != [] {
      assert a[0] in b;
      assert a[0] == b[0];
      TailElements(a);
      TailElements(b);
      AscendingUnique(a[1..], b[1..]);
      assert a == [a[0]] + a[1..] && b == [b[0]] + b[1..];
    }
  }

  lemma TailElements(a: seq<Synced>)
    requires Ascending(a) && a != []
    ensures forall n :: n in a[1..] <==> n in a && n != a[0]
  {
    assert a == [a[0]] + a[1..];
    assert forall n :: n in a[1..] ==> Key(n) > Key(a[0]);
  }

  lemma DropAscending(rows: seq<Synced>, k: nat)
    requires Ascending(rows) && 0 < k <= |rows|
    ensures Ascending(rows[k..])
    ensures forall n :: n in rows[k..] <==> n in rows && Key(n) > Key(rows[k - 1])
  {
    forall n: Synced | n in rows && Key(n) > Key(rows[k - 1]) ensures n in rows[k..] {
      var i :| 0 <= i < |rows| && rows[i] == n;
      assert i >= k && rows[k..][i - k] == n;
    }
  }

  /** The query from a row's own id answers with the rows after it. */
  lemma SinceRow(notes: seq<Note>, project: nat, cursor: int, k: nat)
    requires SyncIdsDistinct(notes) && 0 < k <= |Since(notes, project, cursor)|
    ensures
      var rows := Since(notes, project, cursor);
      Since(notes, project, Key(rows[k - 1])) == rows[k..]
  {
    var rows := Since(notes, project, cursor);
    var last := Key(rows[k - 1]);
    SinceSelects(notes, project, cursor);
    SinceSelects(notes, project, last);
    DropAscending(rows, k);
    hide Since, SyncIdsDistinct, Ascending;
    assert rows[k - 1] in rows;
    forall n: Synced ensures n in rows[k..] <==> n in Since(notes, project, last) {
    }
    AscendingUnique(rows[k..], Since(notes, project, last));
  }

  /** A page leaves for later exactly the rows after its last one, and a page
      shorter than the clamped limit leaves none. */
  lemma PageThenRest(notes: seq<Note>, project: nat, cursor: int, limit: int)
    requires SyncIdsDistinct(notes)
    ensures
      var page := NotesSinceId(notes, project, cursor, limit);
      var size := if limit < 1 then 1 else if limit > 500 then 500 else limit;
      |page| <= size && Ascending(page) &&
      (forall n :: n in page ==>
        n in notes && n.project == project && n.active && n.syncId.Some? && n.syncId.value > cursor) &&
      (page == [] <==> Since(notes, project, cursor) == []) &&
      (|page| < size ==> page == Since(notes, project, cursor)) &&
      (page != [] ==>
        Since(notes, project, cursor) == page + Since(notes, project, Key(page[|page| - 1])))
  {
    var (all, page) := (Since(notes, project, cursor), NotesSinceId(notes, project, cursor, limit));
    SinceSelects(notes, project, cursor);
    assert page == all[..|page|];
    assert Ascending(page);
    assert forall n :: n in page ==> n in all;
    if page != [] {
      SinceRow(notes, project, cursor, |page|);
      hide Since, SyncIdsDistinct, Ascending, Matches;
      assert all == page + all[|page|..];
    }
  }

  // ------------------------------------------------------- paging a fixed store

  /** Pages one after another until an empty one, each from the last row of the
      one before. */
  function AllPages(notes: seq<Note>, project: nat, cursor: int, limit: int): seq<Synced>
    requires SyncIdsDistinct(notes)
    decreases |Since(notes, project, cursor)|
  {
    var page := NotesSinceId(notes, project, cursor, limit);
    PageThenRest(notes, project, cursor, limit);
    if page == [] then [] else page + AllPages(notes, project, Key(page[|page| - 1]), limit)
  }

  /** Paging a fixed store ends, whatever limit is asked for, and delivers what
      one unlimited query would. */
  lemma {:induction false} PagesAreTheQuery(notes: seq<Note>, project: nat, cursor: int, limit: int)
    requires SyncIdsDistinct(notes)
    ensures AllPages(notes, project, cursor, limit) == Since(notes, project, cursor)
    decreases |Since(notes, project, cursor)|
  {
    var page := NotesSinceId(notes, project, cursor, limit);
    PageThenRest(notes, project, cursor, limit);
    if page != [] {
      PagesAreTheQuery(notes, project, Key(page[|page| - 1]), limit);
    }
  }

  const PULL_LIMIT := 100

  /** The client's pull: pages until one is shorter than the limit it asks for. */
  method PullSince(notes: seq<Note>, project: nat, start: int) returns (entries: seq<Synced>)
    requires SyncIdsDistinct(notes)
    ensures forall i, j :: 0 <= i < j < |entries| ==> entries[i].syncId.value < entries[j].syncId.value
    ensures forall n :: n in entries <==>
      n in notes && n.project == project && n.active && n.syncId.Some? && n.syncId.value > start
  {
    entries := [];
    var cursor := start;
    SinceSelects(notes, project, start);
    while true
      invariant Since(notes, project, start) == entries + Since(notes, project, cursor)
      decreases |Since(notes, project, cursor)|
    {
      var page := NotesSinceId(notes, project, cursor, PULL_LIMIT);
      PageThenRest(notes, project, cursor, PULL_LIMIT);
      hide Since, NotesSinceId, Ascending, SyncIdsDistinct, Matches;
      entries := entries + page;
      if |page| < PULL_LIMIT {
        break;
      }
      cursor := Key(page[|page| - 1]);
    }
    assert entries == Since(notes, project, start);
  }

  // -------------------------------------------------------- paging while others write

  /** What can happen between and during pulls of one project. `syncId` is the
      id that an insert mints, `filled` the rows after a backfill. */
  datatype Event =
    | Add(project: nat, content: string, remoteId: Option<string>, syncId: int)
    | Retire(project: nat, id: nat, successor: Option<nat>)
    | Delete(project: nat, id: nat)
    | Backfill(filled: seq<Note>, minted: int)
    | Pull(limit: int)

  datatype State = State(store: Store, cursor: int, delivered: seq<Synced>)

  /** What is minted is greater than every earlier id. */
  predicate Allowed(e: Event, s: State) {
    && (e.Add? ==> e.syncId > s.store.minted)
    && (e.Backfill? ==> e.minted >= s.store.minted && Backfills(s.store.notes, e.filled, s.store.minted, e.minted))
  }

  function Next(s: State, e: Event, puller: nat): State {
    match e
    case Add(project, content, remoteId, syncId) => s.(store := Added(s.store, project, content, remoteId, syncId))
    case Retire(project, id, successor) => s.(store := Retired(s.store, project, id, successor))
    case Delete(project, id) => s.(store := Deleted(s.store, project, id))
    case Backfill(filled, minted) => s.(store := s.store.(notes := filled, minted := minted))
    case Pull(limit) =>
      var page := NotesSinceId(s.store.notes, puller, s.cursor, limit);
      if page == [] then s
      else s.(cursor := Key(page[|page| - 1]), delivered := s.delivered + page)
  }

  /** A run of allowed events from a state to another. */
  predicate Reaches(from: State, run: seq<Event>, puller: nat, to: State)
    decreases |run|
  {
    if run == [] then to == from
    else
      var e := run[0];
      Allowed(e, from) && Reaches(Next(from, e, puller), run[1..], puller, to)
  }

  /** Deliveries are active rows of the project, they ascend from the starting
      cursor to the present one, and no active note between the
      two is missing from them. */
  predicate Consistent(s: State, start: int, puller: nat) {
    && WellFormed(s.store)
    && Ascending(s.delivered)
    && (forall n :: n in s.delivered ==> start < Key(n) <= s.store.minted && n.project == puller && n.active)
    && s.cursor == (if s.delivered == [] then start else Key(s.delivered[|s.delivered| - 1]))
    && (forall n :: n in s.store.notes && Matches(n, puller, start) && Key(n) <= s.cursor ==> Delivered(s, n))
  }

  /** Whether a note's sync id has been delivered. */
  predicate Delivered(s: State, n: Synced) { exists m :: m in s.delivered && Key(m) == Key(n) }

  lemma AddKeepsConsistent(s: State, project: nat, content: string, remoteId: Option<string>, syncId: int,
      start: int, puller: nat)
    requires Consistent(s, start, puller) && syncId > s.store.minted
    ensures Consistent(Next(s, Add(project, content, remoteId, syncId), puller), start, puller)
  {
    AddedWellFormed(s.store, project, content, remoteId, syncId);
    var next := Next(s, Add(project, content, remoteId, syncId), puller);
    hide Ascending, WellFormed;
    assert s.delivered != [] ==> s.cursor <= s.store.minted;
    forall n | n in next.store.notes && Matches(n, puller, start) && Key(n) <= next.cursor ensures Delivered(next, n) {
      assert n in s.store.notes;
      assert Delivered(s, n);
    }
  }

  lemma RetireKeepsConsistent(s: State, project: nat, id: nat, successor: Option<nat>, start: int, puller: nat)
    requires Consistent(s, start, puller)
    ensures Consistent(Next(s, Retire(project, id, successor), puller), start, puller)
  {
    RetiredWellFormed(s.store, project, id, successor);
    var next := Next(s, Retire(project, id, successor), puller);
    hide Ascending, WellFormed;
    forall n | n in next.store.notes && Matches(n, puller, start) && Key(n) <= next.cursor ensures Delivered(next, n) {
      var i :| 0 <= i < |next.store.notes| && next.store.notes[i] == n;
      assert s.store.notes[i] == n;
      assert Delivered(s, n);
    }
  }

  lemma DeleteKeepsConsistent(s: State, project: nat, id: nat, start: int, puller: nat)
    requires Consistent(s, start, puller)
    ensures Consistent(Next(s, Delete(project, id), puller), start, puller)
  {
    DeletedWellFormed(s.store, project, id);
    WithoutKeepsOthers(s.store.notes, project, id);
    var next := Next(s, Delete(project, id), puller);
    hide Ascending, WellFormed, Without;
    forall n | n in next.store.notes && Matches(n, puller, start) && Key(n) <= next.cursor ensures Delivered(next, n) {
      assert n in s.store.notes;
      assert Delivered(s, n);
    }
  }

  /** A row that a backfill makes visible comes after everything delivered. */
  lemma BackfillKeepsConsistent(s: State, filled: seq<Note>, minted: int, start: int, puller: nat)
    requires Consistent(s, start, puller) && minted >= s.store.minted
    requires Backfills(s.store.notes, filled, s.store.minted, minted)
    ensures Consistent(Next(s, Backfill(filled, minted), puller), start, puller)
  {
    var next := Next(s, Backfill(filled, minted), puller);
    BackfilledWellFormed(s.store, next.store);
    assert s.delivered != [] ==> s.cursor <= s.store.minted by {
      assert s.delivered != [] ==> s.delivered[|s.delivered| - 1] in s.delivered;
    }
    hide Ascending, WellFormed;
    forall n | n in filled && Matches(n, puller, start) && Key(n) <= next.cursor ensures Delivered(next, n) {
      var i :| 0 <= i < |filled| && filled[i] == n;
      assert !Stale(s.store.notes[i]) && s.store.notes[i] in s.store.notes;
      assert Delivered(s, n);
    }
  }

  lemma LastIsGreatest(rows: seq<Synced>)
    requires Ascending(rows)
    ensures forall n :: n in rows ==> Key(n) <= Key(rows[|rows| - 1])
  {
  }

  lemma JoinAscends(a: seq<Synced>, b: seq<Synced>)
    requires Ascending(a) && Ascending(b)
    requires forall m, n :: m in a && n in b ==> Key(m) < Key(n)
    ensures Ascending(a + b)
  {
    forall i, j | 0 <= i < j < |a + b| ensures Key((a + b)[i]) < Key((a + b)[j]) {
      if i < |a| <= j {
        assert a[i] in a && b[j - |a|] in b;
      }
    }
  }

  lemma PageAscendsFurther(s: State, limit: int, start: int, puller: nat)
    requires Consistent(s, start, puller)
    ensures
      var page := NotesSinceId(s.store.notes, puller, s.cursor, limit);
      && Ascending(s.delivered + page)
      && forall n :: n in page ==> start < Key(n) <= s.store.minted && n.project == puller && n.active
  {
    var page := NotesSinceId(s.store.notes, puller, s.cursor, limit);
    PageThenRest(s.store.notes, puller, s.cursor, limit);
    LastIsGreatest(s.delivered);
    hide NotesSinceId, SyncIdsDistinct, IdsAscend, Ascending, Since;
    if s.delivered != [] {
      assert s.delivered[|s.delivered| - 1] in s.delivered;
    }
    JoinAscends(s.delivered, page);
  }

  lemma PageLeavesNoGap(s: State, limit: int, start: int, puller: nat, n: Synced)
    requires Consistent(s, start, puller) && n in s.store.notes && Matches(n, puller, start)
    requires Key(n) <= Next(s, Pull(limit), puller).cursor
    ensures Delivered(Next(s, Pull(limit), puller), n)
  {
    var (notes, next) := (s.store.notes, Next(s, Pull(limit), puller));
    PageThenRest(notes, puller, s.cursor, limit);
    SinceSelects(notes, puller, s.cursor);
    SinceSelects(notes, puller, next.cursor);
    hide Since, NotesSinceId, SyncIdsDistinct, IdsAscend, Ascending;
    if Key(n) <= s.cursor {
      assert Delivered(s, n);
      var m :| m in s.delivered && Key(m) == Key(n);
      assert m in next.delivered;
    } else {
      assert n in Since(notes, puller, s.cursor) && n !in Since(notes, puller, next.cursor);
      assert n in next.delivered;
    }
  }

  /** A page continues the deliveries without a gap. */
  lemma PullKeepsConsistent(s: State, limit: int, start: int, puller: nat)
    requires Consistent(s, start, puller)
    ensures Consistent(Next(s, Pull(limit), puller), start, puller)
  {
    PageAscendsFurther(s, limit, start, puller);
    var next := Next(s, Pull(limit), puller);
    forall n | n in next.store.notes && Matches(n, puller, start) && Key(n) <= next.cursor ensures Delivered(next, n) {
      PageLeavesNoGap(s, limit, start, puller, n);
    }
    hide NotesSinceId, WellFormed, Ascending, Delivered, Matches;
  }

  /** Every run from a consistent state ends in one. */
  lemma {:induction false} RunsKeepConsistent(s: State, run: seq<Event>, start: int, puller: nat, to: State)
    requires Consistent(s, start, puller) && Reaches(s, run, puller, to)
    ensures Consistent(to, start, puller)
    decreases |run|
  {
    if run != [] {
      match run[0] {
        case Add(project, content, remoteId, syncId) =>
          AddKeepsConsistent(s, project, content, remoteId, syncId, start, puller);
        case Retire(project, id, successor) => RetireKeepsConsistent(s, project, id, successor, start, puller);
        case Delete(project, id) => DeleteKeepsConsistent(s, project, id, start, puller);
        case Backfill(filled, minted) => BackfillKeepsConsistent(s, filled, minted, start, puller);
        case Pull(limit) => PullKeepsConsistent(s, limit, start, puller);
      }
      hide Consistent, Next, Allowed;
      RunsKeepConsistent(Next(s, run[0], puller), run[1..], start, puller, to);
    }
  }

  /** Whatever is written in between, deliveries are of the project, ascend
      strictly and never repeat; and at a page shorter than its clamped limit, so at an empty one, every
      active note of the project above the starting cursor has been delivered. */
  lemma DeliveryComplete(store: Store, start: int, run: seq<Event>, puller: nat, s: State, limit: int)
    requires WellFormed(store) && Reaches(State(store, start, []), run, puller, s)
    ensures
      var next := Next(s, Pull(limit), puller);
      Ascending(s.delivered) && Ascending(next.delivered) &&
      (forall m :: m in next.delivered ==> m.project == puller && m.active && m.syncId.value > start) &&
      (|NotesSinceId(s.store.notes, puller, s.cursor, limit)|
          < (if limit < 1 then 1 else if limit > 500 then 500 else limit) ==>
        forall n ::
          n in s.store.notes && n.project == puller && n.active && n.syncId.Some? && n.syncId.value > start
          ==> exists m :: m in next.delivered && m.syncId == n.syncId)
  {
    RunsKeepConsistent(State(store, start, []), run, start, puller, s);
    PullKeepsConsistent(s, limit, start, puller);
    var notes := s.store.notes;
    var page := NotesSinceId(notes, puller, s.cursor, limit);
    var next := Next(s, Pull(limit), puller);
    PageThenRest(notes, puller, s.cursor, limit);
    SinceSelects(notes, puller, s.cursor);
    hide NotesSinceId, Since, Reaches;
    if |page| < Clamp(limit) {
      forall n | n in notes && n.project == puller && n.active && n.syncId.Some? && n.syncId.value > start
        ensures exists m :: m in next.delivered && m.syncId == n.syncId
      {
        assert Matches(n, puller, start);
        if n.syncId.value > s.cursor {
          assert Matches(n, puller, s.cursor) && n in page;
          assert n in next.delivered;
        } else {
          assert Delivered(next, n);
        }
      }
    }
  }
}
