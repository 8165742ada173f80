/** The fixed-window rate limiter of the server, and what it guarantees over
    whole timed runs. Times are ticks of a clock. */
module RateLimiter {

  datatype WindowEntry = WindowEntry(count: nat, start: int)

  /** Time since an earlier instant; zero if it is in fact later. */
  function Since(now: int, earlier: int): nat { if now >= earlier then now - earlier else 0 }

  function Lookup(entries: map<string, WindowEntry>, principal: string, now: int): WindowEntry {
    if principal in entries then entries[principal] else WindowEntry(0, now)
  }

  /** The entry a check works on: a window that is over begins anew. */
  function Current(entry: WindowEntry, window: nat, now: int): WindowEntry {
    if Since(now, entry.start) >= window then WindowEntry(0, now) else entry
  }

  /** A check, on values: the new entries and whether the request is admitted. */
  function Checked(entries: map<string, WindowEntry>, max: nat, window: nat, principal: string, now: int)
    : (map<string, WindowEntry>, bool)
  {
    var entry := Current(Lookup(entries, principal, now), window, now);
    if entry.count >= max then (entries[principal := entry], false)
    else (entries[principal := entry.(count := entry.count + 1)], true)
  }

  class Limiter {
    var entries: map<string, WindowEntry>
    const max: nat
    const window: nat

    constructor (max: nat, window: nat)
      ensures this.max == max && this.window == window && entries == map[]
    {
      this.max := max;
      this.window := window;
      entries := map[];
    }

    method Check(principal: string, now: int) returns (admitted: bool)
      modifies this
      ensures (entries, admitted) == Checked(old(entries), max, window, principal, now)
      // The window runs on if it was opened less than its length ago; else one opens now.
      ensures var running := principal in old(entries) && now < old(entries)[principal].start + window && window > 0;
        var used := if running then old(entries)[principal].count else 0;
        && principal in entries
        && entries[principal].start == (if running then old(entries)[principal].start else now)
        && entries[principal].count == (if admitted then used + 1 else used)
        && (admitted <==> used < max)
      ensures forall p :: p != principal && p in old(entries) ==> p in entries && entries[p] == old(entries)[p]
      ensures forall p :: p != principal && p in entries ==> p in old(entries)
    {
      if principal !in entries {
        entries := entries[principal := WindowEntry(0, now)];
      }
      var entry := entries[principal];
      if Since(now, entry.start) >= window {
        entry := WindowEntry(0, now);
        entries := entries[principal := entry];
      }
      if entry.count >= max {
        assert entries == old(entries)[principal := entry];
        return false;
      }
      entry := entry.(count := entry.count + 1);
      assert entries[principal := entry] == old(entries)[principal := entry];
      entries := entries[principal := entry];
      return true;
    }
  }

  // ------------------------------------------------------------------ timed runs

  datatype Request = Request(principal: string, at: int)

  type Run = seq<Request>

  predicate Timed(run: Run) { forall i, j :: 0 <= i < j < |run| ==> run[i].at <= run[j].at }

  function After(max: nat, window: nat, run: Run): map<string, WindowEntry> {
    if run == [] then map[]
    else
      var r := run[|run| - 1];
      Checked(After(max, window, run[..|run| - 1]), max, window, r.principal, r.at).0
  }

  /** Whether the last request of a run is admitted. */
  predicate LastAdmitted(max: nat, window: nat, run: Run)
    requires run != []
  {
    var r := run[|run| - 1];
    Checked(After(max, window, run[..|run| - 1]), max, window, r.principal, r.at).1
  }

  /** Admissions of a principal at times in `[from, from + window)`. */
  function Admitted(max: nat, window: nat, run: Run, principal: string, from: int): nat {
    if run == [] then 0
    else
      var (init, r) := (run[..|run| - 1], run[|run| - 1]);
      Admitted(max, window, init, principal, from)
      + (if r.principal == principal && from <= r.at < from + window && LastAdmitted(max, window, run) then 1 else 0)
  }

  /** What a run leaves for one principal, seen from one interval: how many of
      its admissions can lie in the interval, by where its window stands. */
  predicate Bounded(max: nat, window: nat, entry: WindowEntry, from: int, admitted: nat) {
    && entry.count <= max && (max > 0 ==> entry.count > 0)
    && (from >= entry.start + window ==> admitted == 0)
    && (entry.start == from ==> admitted <= entry.count)
    && (entry.start < from < entry.start + window ==> admitted <= (if entry.count == 0 then 0 else entry.count - 1))
    && (from < entry.start < from + window ==> admitted + 1 <= max + entry.count || max == 0 == admitted)
    && (from + window <= entry.start ==> admitted + 1 <= 2 * max || max == 0 == admitted)
  }

  lemma {:induction false} RunBounded(max: nat, window: nat, run: Run, principal: string, from: int)
    requires Timed(run)
    ensures var entries := After(max, window, run);
      var admitted := Admitted(max, window, run, principal, from);
      if principal in entries then
        Bounded(max, window, entries[principal], from, admitted)
        && run != [] && entries[principal].start <= run[|run| - 1].at
      else admitted == 0
  {
    if run != [] {
      RunBounded(max, window, run[..|run| - 1], principal, from);
    }
  }

  /** In any interval of one window length a principal is admitted fewer than
      twice its limit. */
  lemma WindowBound(max: nat, window: nat, run: Run, principal: string, from: int)
    requires Timed(run)
    ensures Admitted(max, window, run, principal, from) <= if max == 0 then 0 else 2 * max - 1
  {
    RunBounded(max, window, run, principal, from);
  }

  // ------------------------------------------------- refused only by a full window

  /** Each admission an entry counts was made in the window that began at its start. */
  lemma {:induction false} EntryCountsAdmissions(max: nat, window: nat, run: Run, principal: string)
    requires Timed(run) && window > 0
    ensures var entries := After(max, window, run);
      principal in entries ==>
        run != []
        && entries[principal].count <= Admitted(max, window, run, principal, entries[principal].start)
        && entries[principal].start <= run[|run| - 1].at
  {
    if run != [] {
      var init := run[..|run| - 1];
      EntryCountsAdmissions(max, window, init, principal);
    }
  }

  /** A request is refused only if its principal was already admitted `max`
      times in some interval of one window that reaches to the request. A limiter
      of no requests and no window refuses everything, in no interval. */
  lemma RefusedOnlyWhenFull(max: nat, window: nat, run: Run)
    requires Timed(run) && run != []
    requires max > 0 || window > 0
    requires !LastAdmitted(max, window, run)
    ensures var (init, r) := (run[..|run| - 1], run[|run| - 1]);
      exists from :: from <= r.at < from + window && Admitted(max, window, init, r.principal, from) >= max
  {
    var (init, r) := (run[..|run| - 1], run[|run| - 1]);
    if window > 0 {
      EntryCountsAdmissions(max, window, init, r.principal);
      var entry := Current(Lookup(After(max, window, init), r.principal, r.at), window, r.at);
      assert entry.start <= r.at < entry.start + window;
      assert Admitted(max, window, init, r.principal, entry.start) >= max;
    }
  }

  lemma {:induction false} AnAdmission(max: nat, window: nat, run: Run, principal: string, from: int)
    requires Admitted(max, window, run, principal, from) > 0
    ensures exists i :: 0 <= i < |run| && run[i].principal == principal && from <= run[i].at < from + window
                        && LastAdmitted(max, window, run[..i + 1])
  {
    var (init, r) := (run[..|run| - 1], run[|run| - 1]);
    if r.principal == principal && from <= r.at < from + window && LastAdmitted(max, window, run) {
      assert run[..|run| - 1 + 1] == run;
    } else {
      AnAdmission(max, window, init, principal, from);
      var i :| 0 <= i < |init| && init[i].principal == principal && from <= init[i].at < from + window
               && LastAdmitted(max, window, init[..i + 1]);
      assert run[..i + 1] == init[..i + 1] && run[i] == init[i];
    }
  }

  /** A principal whose every admission lies a window or more back is let in,
      whatever it was refused since: refusals do not extend its wait. */
  lemma AdmittedOnceQuiet(max: nat, window: nat, run: Run)
    requires Timed(run) && run != [] && max > 0
    requires var r := run[|run| - 1];
      forall i :: 0 <= i < |run| - 1 && run[i].principal == r.principal && LastAdmitted(max, window, run[..i + 1])
        ==> run[i].at + window <= r.at
    ensures LastAdmitted(max, window, run)
  {
    var (init, r) := (run[..|run| - 1], run[|run| - 1]);
    assert forall i :: 0 <= i < |init| ==> init[i] == run[i] && init[..i + 1] == run[..i + 1];
    if !LastAdmitted(max, window, run) {
      RefusedOnlyWhenFull(max, window, run);
      var from :| from <= r.at < from + window && Admitted(max, window, init, r.principal, from) >= max;
      AnAdmission(max, window, init, r.principal, from);
      assert false;
    }
  }

  // ------------------------------------------------------- the bound is attained

  /** One principal's requests, `n` of them at one time. */
  function Burst(principal: string, n: nat, at: int): Run {
    if n == 0 then [] else Burst(principal, n - 1, at) + [Request(principal, at)]
  }

  lemma Snoc(max: nat, window: nat, run: Run, r: Request, from: int)
    ensures After(max, window, run + [r])
         == Checked(After(max, window, run), max, window, r.principal, r.at).0
    ensures Admitted(max, window, run + [r], r.principal, from)
         == Admitted(max, window, run, r.principal, from)
            + (if from <= r.at < from + window
                  && Checked(After(max, window, run), max, window, r.principal, r.at).1 then 1 else 0)
  {
    assert (run + [r])[..|run|] == run;
  }

  /** A burst within a window is admitted as far as the window has room. */
  lemma {:induction false} BurstAdmitted(max: nat, window: nat, run: Run, p: string, n: nat, at: int, from: int)
    requires p in After(max, window, run)
    requires var e := After(max, window, run)[p]; e.start <= at < e.start + window && e.count + n <= max
    ensures p in After(max, window, run + Burst(p, n, at))
    ensures After(max, window, run + Burst(p, n, at))[p]
         == After(max, window, run)[p].(count := After(max, window, run)[p].count + n)
    ensures Admitted(max, window, run + Burst(p, n, at), p, from)
         == Admitted(max, window, run, p, from) + if from <= at < from + window then n else 0
  {
    hide After, Admitted;
    if n == 0 {
      assert run + Burst(p, 0, at) == run;
    } else {
      BurstAdmitted(max, window, run, p, n - 1, at, from);
      var shorter := run + Burst(p, n - 1, at);
      assert run + Burst(p, n, at) == shorter + [Request(p, at)];
      Snoc(max, window, shorter, Request(p, at), from);
    }
  }

  /** One request at 0, the rest of the window's budget at its very end, and the
      next window's budget at its start. */
  function WorstRun(max: nat, window: nat, principal: string): Run
    requires max > 0 && window > 0
  {
    [Request(principal, 0)] + Burst(principal, max - 1, window - 1)
    + [Request(principal, window)] + Burst(principal, max - 1, window)
  }

  lemma {:induction false} BurstTimes(principal: string, n: nat, at: int)
    ensures |Burst(principal, n, at)| == n && forall r :: r in Burst(principal, n, at) ==> r.at == at
  {
    if n > 0 {
      BurstTimes(principal, n - 1, at);
    }
  }

  lemma WorstRunTimed(max: nat, window: nat, p: string)
    requires max > 0 && window > 0
    ensures Timed(WorstRun(max, window, p))
  {
    BurstTimes(p, max - 1, window - 1);
    BurstTimes(p, max - 1, window);
    var (a, b) := (Burst(p, max - 1, window - 1), Burst(p, max - 1, window));
    var run := WorstRun(max, window, p);
    forall i | 0 <= i < |run|
      ensures run[i].at == if i == 0 then 0 else if i < max then window - 1 else window
    {
      if 0 < i < max {
        assert run[i] == a[i - 1] && a[i - 1] in a;
      } else if i > max {
        assert run[i] == b[i - max - 1] && b[i - max - 1] in b;
      }
    }
  }

  /** No smaller bound holds: for every limit and every window of two ticks or
      more, some run has an interval of one window with exactly that many. */
  lemma WindowBoundAttained(max: nat, window: nat, principal: string)
    requires max > 0 && window > 1
    ensures Timed(WorstRun(max, window, principal))
    ensures Admitted(max, window, WorstRun(max, window, principal), principal, window - 1) == 2 * max - 1
  {
    var (p, from) := (principal, window - 1);
    WorstRunTimed(max, window, p);
    var first := [Request(p, 0)];
    assert first == [] + first;
    Snoc(max, window, [], Request(p, 0), from);
    BurstAdmitted(max, window, first, p, max - 1, window - 1, from);
    var second := first + Burst(p, max - 1, window - 1);
    Snoc(max, window, second, Request(p, window), from);
    BurstAdmitted(max, window, second + [Request(p, window)], p, max - 1, window, from);
  }

  // --------------------------------------------------- principals are independent

  /** The requests of one principal. */
  function Own(run: Run, principal: string): Run {
    if run == [] then []
    else
      Own(run[..|run| - 1], principal)
      + (if run[|run| - 1].principal == principal then [run[|run| - 1]] else [])
  }

  lemma OwnSnoc(run: Run, principal: string)
    requires run != [] && run[|run| - 1].principal == principal
    ensures Own(run, principal) != [] && Own(run, principal)[|Own(run, principal)| - 1] == run[|run| - 1]
    ensures Own(run, principal)[..|Own(run, principal)| - 1] == Own(run[..|run| - 1], principal)
  {
  }

  /** A principal's entry is what a limiter fed only its own requests holds. */
  lemma {:induction false} EntriesIndependent(max: nat, window: nat, run: Run, principal: string)
    ensures var (all, own) := (After(max, window, run), After(max, window, Own(run, principal)));
      (principal in all <==> principal in own) && (principal in all ==> all[principal] == own[principal])
  {
    if run != [] {
      EntriesIndependent(max, window, run[..|run| - 1], principal);
      if run[|run| - 1].principal == principal {
        OwnSnoc(run, principal);
      } else {
        assert Own(run, principal) == Own(run[..|run| - 1], principal);
      }
    }
  }

  /** A request is admitted exactly when it would be without the others'. */
  lemma DecisionsIndependent(max: nat, window: nat, run: Run)
    requires run != []
    ensures Own(run, run[|run| - 1].principal) != []
    ensures LastAdmitted(max, window, run) <==> LastAdmitted(max, window, Own(run, run[|run| - 1].principal))
  {
    var p := run[|run| - 1].principal;
    OwnSnoc(run, p);
    EntriesIndependent(max, window, run[..|run| - 1], p);
  }
}
