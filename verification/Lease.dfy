/** One sync of a source at a time across replicas: the claim in `sync_source`, `is_due`,
    `trigger_sync` and `sync_due_sources` (app/catalog_sync/service.py).

Times are whole microseconds, as the program's timestamps are. */
module Lease {
  import opened Text

  const MINUTE := 60000000
  const STALE_AFTER := 45 * MINUTE
  const ERROR_RETRY_AFTER := 30 * MINUTE
  const MAX_CONCURRENT := 2

  datatype Status = Pending | Syncing | Good | Failed

  datatype Row = Row(status: Status, startedAt: Option<int>)

  /** The guard of the claiming UPDATE. */
  predicate Claimable(row: Row, now: int) {
    row.status != Syncing || row.startedAt.None? || row.startedAt.value < now - STALE_AFTER
  }

  // ---------- the machine ----------

  /** One call of `sync_source`: it reads the clock, then claims, then works. */
  datatype Phase = Ready | Working | Over

  datatype Worker = Worker(source: nat, stamp: int, phase: Phase)

  datatype Fleet = Fleet(clock: int, rows: map<nat, Row>, workers: seq<Worker>)

  datatype Event =
    | Tick(elapsed: nat)             // time passes
    | Begin(source: nat)             // some replica starts a sync and reads the clock
    | Claim(worker: nat)             // its conditional UPDATE, which may find nothing to claim
    | Finish(worker: nat, good: bool)  // it writes the outcome, whoever holds the claim by then
    | Crash(worker: nat)             // its process dies

  predicate Enabled(f: Fleet, e: Event) {
    match e
    case Tick(_) => true
    case Begin(source) => source in f.rows
    case Claim(w) => w < |f.workers| && f.workers[w].phase == Ready
    case Finish(w, _) => w < |f.workers| && f.workers[w].phase == Working
    case Crash(w) => w < |f.workers| && f.workers[w].phase != Over
  }

  ghost predicate Consistent(f: Fleet) {
    forall w :: 0 <= w < |f.workers| ==> f.workers[w].source in f.rows
  }

  function Next(f: Fleet, e: Event): (f': Fleet)
    requires Consistent(f) && Enabled(f, e)
    ensures Consistent(f')
  {
    match e
    case Tick(elapsed) => f.(clock := f.clock + elapsed)
    case Begin(source) => f.(workers := f.workers + [Worker(source, f.clock, Ready)])
    case Claim(w) =>
      var worker := f.workers[w];
      if Claimable(f.rows[worker.source], worker.stamp)
      then f.(rows := f.rows[worker.source := Row(Syncing, Some(worker.stamp))],
              workers := f.workers[w := worker.(phase := Working)])
      else f.(workers := f.workers[w := worker.(phase := Over)])
    case Finish(w, good) =>
      var worker := f.workers[w];
      f.(rows := f.rows[worker.source := f.rows[worker.source].(status := if good then Good else Failed)],
         workers := f.workers[w := worker.(phase := Over)])
    case Crash(w) => f.(workers := f.workers[w := f.workers[w].(phase := Over)])
  }

  /** Nothing holds a replica up: time can always pass, any source be begun, a sync that has not
      claimed claim, one at work finish, and one that is not over die. */
  lemma NothingBlocks(f: Fleet, elapsed: nat, source: nat, w: nat, good: bool)
    ensures Enabled(f, Tick(elapsed)) && (Enabled(f, Begin(source)) <==> source in f.rows)
    ensures w < |f.workers| ==>
              match f.workers[w].phase
              case Ready => Enabled(f, Claim(w)) && !Enabled(f, Finish(w, good)) && Enabled(f, Crash(w))
              case Working => !Enabled(f, Claim(w)) && Enabled(f, Finish(w, good)) && Enabled(f, Crash(w))
              case Over => !Enabled(f, Claim(w)) && !Enabled(f, Finish(w, good)) && !Enabled(f, Crash(w))
  {
  }

  /** A sync that ends well leaves its source good, one that fails leaves it failed, and either
      leaves the time of the last claim; other sources are untouched. */
  lemma FinishIsRecorded(f: Fleet, w: nat, good: bool)
    requires Consistent(f) && Enabled(f, Finish(w, good))
    ensures var source, after := f.workers[w].source, Next(f, Finish(w, good));
            && after.rows[source] == Row(if good then Good else Failed, f.rows[source].startedAt)
            && (forall s :: s in f.rows && s != source ==> s in after.rows && after.rows[s] == f.rows[s])
  {
  }

  // ---------- mutual exclusion ----------

  /** No two syncs of one source are at work. */
  ghost predicate Exclusive(f: Fleet) {
    forall v, w :: 0 <= v < w < |f.workers| && f.workers[v].phase == Working && f.workers[w].phase == Working ==>
      f.workers[v].source != f.workers[w].source
  }

  /** Every sync at work is within 45 minutes of its claim's time. */
  ghost predicate Prompt(f: Fleet) {
    forall w :: 0 <= w < |f.workers| && f.workers[w].phase == Working ==> f.clock <= f.workers[w].stamp + STALE_AFTER
  }

  /** Whoever is at work is recorded as the claim holder, with its own time. */
  ghost predicate Held(f: Fleet) {
    && Consistent(f)
    && forall w :: 0 <= w < |f.workers| ==>
         && f.workers[w].stamp <= f.clock
         && (f.workers[w].phase == Working ==> f.rows[f.workers[w].source] == Row(Syncing, Some(f.workers[w].stamp)))
  }

  ghost predicate Safe(f: Fleet) {
    Exclusive(f) && Held(f)
  }

  lemma StepKeepsSafe(f: Fleet, e: Event)
    requires Safe(f) && Prompt(f) && Enabled(f, e)
    ensures Safe(Next(f, e))
  {
  }

  /** The states a schedule passes through. */
  ghost predicate IsRun(states: seq<Fleet>, events: seq<Event>) {
    && |states| == |events| + 1
    && (forall n :: 0 <= n < |states| ==> Consistent(states[n]))
    && forall n :: 0 <= n < |events| ==> Enabled(states[n], events[n]) && states[n + 1] == Next(states[n], events[n])
  }

  /** Under every interleaving of replicas starting, claiming, finishing, failing and crashing,
      if every sync ends within 45 minutes of its claim, two syncs of one source never overlap. */
  lemma {:induction false} NeverOverlap(states: seq<Fleet>, events: seq<Event>, n: nat)
    requires IsRun(states, events) && n < |states|
    requires Safe(states[0])
    requires forall m :: 0 <= m < n ==> Prompt(states[m])
    ensures Safe(states[n])
  {
    if n > 0 {
      NeverOverlap(states, events, n - 1);
      StepKeepsSafe(states[n - 1], events[n - 1]);
    }
  }

  lemma NobodyWorkingIsSafe(f: Fleet)
    requires Consistent(f)
    requires forall w :: 0 <= w < |f.workers| ==> f.workers[w].phase != Working && f.workers[w].stamp <= f.clock
    ensures Safe(f)
  {
  }

  /** The promptness is needed, step by step: while v works, a claim by w for the same source
      makes the two overlap exactly if w's time is more than 45 minutes after v's. */
  lemma OverlapExactly(f: Fleet, v: nat, w: nat)
    requires Safe(f) && v < |f.workers| && w < |f.workers| && f.workers[v].source == f.workers[w].source
    requires f.workers[v].phase == Working && f.workers[w].phase == Ready
    ensures !Exclusive(Next(f, Claim(w))) <==> f.workers[w].stamp > f.workers[v].stamp + STALE_AFTER
  {
    var worker, next := f.workers[w], Next(f, Claim(w));
    assert next.workers[v] == f.workers[v];
    if Claimable(f.rows[worker.source], worker.stamp) {
      assert next.workers[w].phase == Working;
    } else {
      assert next.workers[w].phase == Over;
    }
  }

  /** And as soon as a sync is overdue, a replica that starts one can claim over it. */
  lemma OverdueCanBeOverlapped(f: Fleet, v: nat)
    requires Safe(f) && v < |f.workers| && f.workers[v].phase == Working
    ensures var begun := Next(f, Begin(f.workers[v].source));
            !Exclusive(Next(begun, Claim(|f.workers|))) <==> f.clock > f.workers[v].stamp + STALE_AFTER
  {
    var begun := Next(f, Begin(f.workers[v].source));
    assert Safe(begun) by {
      StepBeginSafe(f, f.workers[v].source);
    }
    OverlapExactly(begun, v, |f.workers|);
  }

  lemma StepBeginSafe(f: Fleet, source: nat)
    requires Safe(f) && source in f.rows
    ensures Safe(Next(f, Begin(source)))
  {
  }

  // ---------- a claim whose holder died ----------

  /** The claim of the source stands with this time, and nobody is at work on it. */
  ghost predicate Abandoned(f: Fleet, source: nat, stamp: int) {
    && source in f.rows && f.rows[source] == Row(Syncing, Some(stamp))
    && forall w :: 0 <= w < |f.workers| && f.workers[w].phase == Working ==> f.workers[w].source != source
  }

  /** The event is a claim of the source, and it is won. */
  ghost predicate Wins(f: Fleet, e: Event, source: nat) {
    && e.Claim? && e.worker < |f.workers| && f.workers[e.worker].source == source
    && source in f.rows && Claimable(f.rows[source], f.workers[e.worker].stamp)
  }

  lemma AbandonedStays(f: Fleet, e: Event, source: nat, stamp: int)
    requires Consistent(f) && Enabled(f, e) && Abandoned(f, source, stamp) && !Wins(f, e, source)
    ensures Abandoned(Next(f, e), source, stamp)
  {
  }

  /** In state m of the run, worker v is at work on the source since `stamp`, and dies there. */
  ghost predicate DiesAt(states: seq<Fleet>, events: seq<Event>, m: nat, v: nat, source: nat, stamp: int) {
    && IsRun(states, events) && m < |events| && Safe(states[m])
    && v < |states[m].workers| && states[m].workers[v] == Worker(source, stamp, Working)
    && events[m] == Crash(v)
  }

  ghost predicate NobodyWins(states: seq<Fleet>, events: seq<Event>, source: nat, m: nat, n: nat)
    requires |states| >= n && |events| >= n
  {
    forall k :: m < k < n ==> !Wins(states[k], events[k], source)
  }

  /** Whatever else happens, the claim of a dead holder stands until another one is won. */
  lemma {:induction false} DeadClaimStands(states: seq<Fleet>, events: seq<Event>, m: nat, n: nat, v: nat,
                                          source: nat, stamp: int)
    requires DiesAt(states, events, m, v, source, stamp)
    requires m < n < |states| && NobodyWins(states, events, source, m, n)
    ensures Abandoned(states[n], source, stamp)
    decreases n
  {
    if n > m + 1 {
      DeadClaimStands(states, events, m, n - 1, v, source, stamp);
      AbandonedStays(states[n - 1], events[n - 1], source, stamp);
    }
  }

  /** Over every run after the crash, the first claim to be won is the first one made with a time
      more than 45 minutes after the dead holder's, however prompt that holder was. */
  lemma CrashedClaimIsTakenOver(states: seq<Fleet>, events: seq<Event>, m: nat, n: nat, v: nat, w: nat,
                                source: nat, stamp: int)
    requires DiesAt(states, events, m, v, source, stamp)
    requires m < n < |events| && NobodyWins(states, events, source, m, n)
    requires events[n] == Claim(w) && states[n].workers[w].source == source
    ensures states[n + 1].workers[w].phase == Working <==> states[n].workers[w].stamp > stamp + STALE_AFTER
  {
    DeadClaimStands(states, events, m, n, v, source, stamp);
  }

  /** A worker's source and time never change. */
  lemma {:induction false} WorkersKeep(states: seq<Fleet>, events: seq<Event>, a: nat, b: nat, w: nat)
    requires IsRun(states, events) && a <= b < |states| && w < |states[a].workers|
    ensures w < |states[b].workers| && states[b].workers[w].source == states[a].workers[w].source
    ensures states[b].workers[w].stamp == states[a].workers[w].stamp
    decreases b
  {
    if a < b {
      WorkersKeep(states, events, a, b - 1, w);
    }
  }

  /** So the source is never stuck: if a replica begins when the dead claim is more than 45
      minutes old and gets to claim, some claim has been won by then. */
  lemma CrashedClaimIsFreed(states: seq<Fleet>, events: seq<Event>, m: nat, b: nat, n: nat, v: nat,
                            source: nat, stamp: int)
    requires DiesAt(states, events, m, v, source, stamp)
    requires m < b < n < |events| && events[b] == Begin(source) && states[b].clock > stamp + STALE_AFTER
    requires events[n] == Claim(|states[b].workers|)
    ensures exists k :: m < k <= n && Wins(states[k], events[k], source)
  {
    var w := |states[b].workers|;
    WorkersKeep(states, events, b + 1, n, w);
    if NobodyWins(states, events, source, m, n) {
      DeadClaimStands(states, events, m, n, v, source, stamp);
      assert Wins(states[n], events[n], source);
    }
  }

  /** An overdue sync does harm beyond its own overlap: when it finishes it frees the claim that
      another one holds, so a third can start however promptly that other one works. */
  lemma LateFinishFreesTheClaim(f: Fleet, late: nat, w: nat, good: bool)
    requires Consistent(f) && late < |f.workers| && w < |f.workers| && late != w
    requires f.workers[late].phase == Working && f.workers[w].phase == Working
    requires f.workers[late].source == f.workers[w].source
    ensures var source := f.workers[w].source;
            var after := Next(Next(Next(f, Finish(late, good)), Begin(source)), Claim(|f.workers|));
            after.workers[w].phase == Working && after.workers[|f.workers|].phase == Working && !Exclusive(after)
  {
  }

  // ---------- the scheduler ----------

  datatype Source = Source(id: nat, enabled: bool, interval: int, row: Row)

  /** `interval` is in minutes; 0 stands for unset. */
  function Interval(s: Source): int {
    var minutes := if s.interval == 0 then 60 else s.interval;
    var usual := (if minutes < 5 then 5 else minutes) * MINUTE;
    if s.row.status == Failed && ERROR_RETRY_AFTER < usual then ERROR_RETRY_AFTER else usual
  }

  predicate IsDue(s: Source, now: int) {
    && s.enabled
    && !(s.row.status == Syncing && s.row.startedAt.Some? && now - s.row.startedAt.value < STALE_AFTER)
    && (s.row.startedAt.Some? ==> now - s.row.startedAt.value >= Interval(s))
  }

  /** The configured interval in minutes: an hour if unset, and never less than five. */
  function Configured(s: Source): int {
    if s.interval == 0 then 60 else if s.interval < 5 then 5 else s.interval
  }

  /** When a source is due, by the minutes since it last started: a source that never did is due at
      once; after a failure half an hour is enough; and a sync under way is left alone for three
      quarters of an hour. */
  lemma DueExactly(s: Source, now: int)
    ensures s.row.startedAt.None? ==> (IsDue(s, now) <==> s.enabled)
    ensures s.row.startedAt.Some? ==>
              var age, minutes := now - s.row.startedAt.value, Configured(s);
              var wait := match s.row.status
                          case Failed => if minutes < 30 then minutes else 30
                          case Syncing => if minutes < 45 then 45 else minutes
                          case _ => minutes;
              IsDue(s, now) <==> s.enabled && age >= wait * 60 * 1000000
  {
  }

  /** What the scheduler calls due can be claimed at that time, except a sync that is exactly 45
      minutes old: there the scheduler says yes and the claim says no. */
  lemma DueMeetsClaim(s: Source, now: int)
    requires IsDue(s, now)
    ensures Claimable(s.row, now)
       <==> !(s.row.status == Syncing && s.row.startedAt == Some(now - STALE_AFTER))
  {
  }

  /** Sources sorted by when they last started, those never started first. */
  ghost predicate OldestFirst(sources: seq<Source>) {
    forall i, j :: 0 <= i < j < |sources| ==> StartedNoLater(sources[i], sources[j])
  }

  predicate StartedNoLater(s: Source, t: Source) {
    s.row.startedAt.None? || (t.row.startedAt.Some? && s.row.startedAt.value <= t.row.startedAt.value)
  }

  /** Where a source goes among sorted ones: after all that started no later. */
  function Insert(sorted: seq<Source>, s: Source): seq<Source> {
    if sorted == [] || StartedNoLater(sorted[|sorted| - 1], s) then sorted + [s]
    else Insert(sorted[..|sorted| - 1], s) + [sorted[|sorted| - 1]]
  }

  function Sorted(sources: seq<Source>): seq<Source> {
    if sources == [] then [] else Insert(Sorted(sources[..|sources| - 1]), sources[|sources| - 1])
  }

  /** The sources with this start time, in order. */
  function StartedAt(sources: seq<Source>, startedAt: Option<int>): seq<Source> {
    if sources == [] then []
    else
      var last := sources[|sources| - 1];
      StartedAt(sources[..|sources| - 1], startedAt) + (if last.row.startedAt == startedAt then [last] else [])
  }

  lemma StartedAtSnoc(sources: seq<Source>, s: Source, startedAt: Option<int>)
    ensures StartedAt(sources + [s], startedAt)
         == StartedAt(sources, startedAt) + (if s.row.startedAt == startedAt then [s] else [])
  {
    assert (sources + [s])[..|sources|] == sources;
  }

  lemma {:induction false} InsertAdds(sorted: seq<Source>, s: Source)
    ensures multiset(Insert(sorted, s)) == multiset(sorted) + multiset{s}
  {
    if sorted != [] && !StartedNoLater(sorted[|sorted| - 1], s) {
      InsertAdds(sorted[..|sorted| - 1], s);
      assert sorted == sorted[..|sorted| - 1] + [sorted[|sorted| - 1]];
    }
  }

  lemma {:induction false} InsertSorts(sorted: seq<Source>, s: Source)
    requires OldestFirst(sorted)
    ensures OldestFirst(Insert(sorted, s))
  {
    if sorted != [] && !StartedNoLater(sorted[|sorted| - 1], s) {
      var init, last := sorted[..|sorted| - 1], sorted[|sorted| - 1];
      InsertSorts(init, s);
      forall x | x in Insert(init, s)
        ensures StartedNoLater(x, last)
      {
        InsertAdds(init, s);
        assert x in multiset(Insert(init, s));
        assert x in init || x == s;
      }
    }
  }

  lemma {:induction false} InsertIsStable(sorted: seq<Source>, s: Source, startedAt: Option<int>)
    requires OldestFirst(sorted)
    ensures StartedAt(Insert(sorted, s), startedAt)
         == StartedAt(sorted, startedAt) + (if s.row.startedAt == startedAt then [s] else [])
  {
    if sorted == [] || StartedNoLater(sorted[|sorted| - 1], s) {
      StartedAtSnoc(sorted, s, startedAt);
    } else {
      var init, last := sorted[..|sorted| - 1], sorted[|sorted| - 1];
      InsertIsStable(init, s, startedAt);
      StartedAtSnoc(Insert(init, s), last, startedAt);
    }
  }

  /** Sorting is by start time, never started first, and drops and adds nothing. */
  lemma SortedIsSorted(sources: seq<Source>)
    ensures OldestFirst(Sorted(sources)) && multiset(Sorted(sources)) == multiset(sources)
    ensures forall i, j :: 0 <= i < j < |Sorted(sources)| ==>
              match (Sorted(sources)[i].row.startedAt, Sorted(sources)[j].row.startedAt)
              case (None, _) => true
              case (Some(_), None) => false
              case (Some(s), Some(t)) => s <= t
  {
    SortingSorts(sources);
    forall i, j | 0 <= i < j < |Sorted(sources)|
      ensures StartedNoLater(Sorted(sources)[i], Sorted(sources)[j])
    {
    }
  }

  lemma {:induction false} SortingSorts(sources: seq<Source>)
    ensures OldestFirst(Sorted(sources)) && multiset(Sorted(sources)) == multiset(sources)
  {
    if sources != [] {
      var init, last := sources[..|sources| - 1], sources[|sources| - 1];
      SortingSorts(init);
      InsertAdds(Sorted(init), last);
      InsertSorts(Sorted(init), last);
      assert sources == init + [last];
    }
  }

  /** It leaves sources that started at the same time in the order they came in. */
  lemma {:induction false} SortedIsStable(sources: seq<Source>, startedAt: Option<int>)
    ensures StartedAt(Sorted(sources), startedAt) == StartedAt(sources, startedAt)
  {
    if sources != [] {
      var init, last := sources[..|sources| - 1], sources[|sources| - 1];
      SortedIsStable(init, startedAt);
      SortingSorts(init);
      InsertIsStable(Sorted(init), last, startedAt);
    }
  }

  /** What one tick has running after looking at the first n sources. */
  function RunningAfter(sources: seq<Source>, now: int, running: set<nat>, n: nat): set<nat>
    requires n <= |sources|
  {
    if n == 0 then running
    else
      var before := RunningAfter(sources, now, running, n - 1);
      if |before| < MAX_CONCURRENT && IsDue(sources[n - 1], now) then before + {sources[n - 1].id} else before
  }

  lemma {:induction false} AtTheLimit(sources: seq<Source>, now: int, running: set<nat>, m: nat, n: nat)
    requires m <= n <= |sources| && |RunningAfter(sources, now, running, m)| >= MAX_CONCURRENT
    ensures RunningAfter(sources, now, running, n) == RunningAfter(sources, now, running, m)
    decreases n
  {
    if m < n {
      AtTheLimit(sources, now, running, m, n - 1);
    }
  }

  /** A tick only adds, never beyond the limit, and only ids of sources that are due. */
  lemma {:induction false} TickStartsDueSources(sources: seq<Source>, now: int, running: set<nat>, n: nat, id: nat)
    requires n <= |sources|
    ensures running <= RunningAfter(sources, now, running, n)
    ensures || |RunningAfter(sources, now, running, n)| <= 2
            || RunningAfter(sources, now, running, n) == running
    ensures id in RunningAfter(sources, now, running, n) && id !in running ==>
              exists i :: 0 <= i < n && sources[i].id == id && IsDue(sources[i], now)
  {
    if n > 0 {
      TickStartsDueSources(sources, now, running, n - 1, id);
    }
  }

  /** A due source is left waiting only at the limit, and whatever the tick starts has been
      waiting at least as long. */
  lemma TickIsFair(sources: seq<Source>, now: int, running: set<nat>, j: nat, id: nat)
    requires OldestFirst(sources) && j < |sources| && IsDue(sources[j], now)
    requires sources[j].id !in RunningAfter(sources, now, running, |sources|)
    ensures |RunningAfter(sources, now, running, |sources|)| >= 2
    ensures id in RunningAfter(sources, now, running, |sources|) && id !in running ==>
              exists i :: 0 <= i < |sources| && sources[i].id == id && StartedNoLater(sources[i], sources[j])
  {
    StillRunning(sources, now, running, j + 1, |sources|, sources[j].id);
    AtTheLimit(sources, now, running, j, |sources|);
    TickStartsDueSources(sources, now, running, j, id);
  }

  lemma {:induction false} StillRunning(sources: seq<Source>, now: int, running: set<nat>, m: nat, n: nat, id: nat)
    requires m <= n <= |sources|
    ensures id in RunningAfter(sources, now, running, m) ==> id in RunningAfter(sources, now, running, n)
    decreases n
  {
    if m < n {
      StillRunning(sources, now, running, m, n - 1, id);
    }
  }

  /** One process; `running` are the sources it is syncing. */
  class Syncer {
    var running: set<nat>

    constructor ()
      ensures running == {}
    {
      running := {};
    }

    /** Starts a background sync unless this process already has one for the source. */
    method TriggerSync(source: nat) returns (started: bool)
      modifies this
      ensures started <==> source !in old(running)
      ensures running == old(running) + {source}
    {
      if source in running {
        return false;
      }
      running := running + {source};
      return true;
    }

    method Done(source: nat)
      modifies this
      ensures running == old(running) - {source}
    {
      running := running - {source};
    }

    /** One tick of the scheduler, oldest source first. */
    method SyncDueSources(sources: seq<Source>, now: int) returns (started: nat)
      modifies this
      ensures running == RunningAfter(Sorted(sources), now, old(running), |Sorted(sources)|)
      ensures started == |running| - |old(running)|
    {
      started := 0;
      var oldest, n := Sorted(sources), 0;
      while n < |oldest| && |running| < MAX_CONCURRENT
        invariant n <= |oldest|
        invariant running == RunningAfter(oldest, now, old(running), n)
        invariant started == |running| - |old(running)|
      {
        if IsDue(oldest[n], now) {
          var ok := TriggerSync(oldest[n].id);
          if ok {
            started := started + 1;
          } else {
            assert running + {oldest[n].id} == running;
          }
        }
        n := n + 1;
      }
      if n < |oldest| {
        AtTheLimit(oldest, now, old(running), n, |oldest|);
      }
    }
  }
}
