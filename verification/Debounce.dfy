/** Turning bursts of change events into syncs: `_schedule_sync` and `_fire_after` of
    RealtimeWatcher (app/catalog_sync/realtime.py).  A lost live connection schedules a sync the
    same way a change does. */
module Debounce {
  import opened Text

  const DEBOUNCE := 1.5
  const MAX_DELAY := 10.0

  /** The pending task: none, asleep before its first attempt, or asleep before a retry. */
  datatype Timer = Idle | Sleeping(due: real) | Retrying(due: real)

  datatype State = State(firstChangeAt: Option<real>, timer: Timer)

  const START := State(None, Idle)

  function Min(x: real, y: real): real {
    if x <= y then x else y
  }

  function Max(x: real, y: real): real {
    if x >= y then x else y
  }

  // ---------- the watcher ----------

  class RealtimeWatcher {
    var firstChangeAt: Option<real>
    var debounce: Timer

    constructor ()
      ensures Now() == START
    {
      firstChangeAt, debounce := None, Idle;
    }

    ghost function Now(): State
      reads this
    {
      State(firstChangeAt, debounce)
    }

    /** A change arrives: (re)start the timer, unless the pending one is overdue already. */
    method ScheduleSync(now: real)
      modifies this
      ensures Now() == Next(old(Now()), Change(now))
    {
      if firstChangeAt.None? {
        firstChangeAt := Some(now);
      }
      if debounce != Idle && now - firstChangeAt.value >= MAX_DELAY {
        return;
      }
      var delay := Min(DEBOUNCE, Max(0.0, MAX_DELAY - (now - firstChangeAt.value)));
      debounce := Sleeping(now + delay);
    }

    /** The pending task wakes up and calls back; `accepted` is the answer.  Refused, it sleeps
        and tries again. */
    method Wake(now: real, accepted: bool)
      requires debounce != Idle
      modifies this
      ensures Now() == Next(old(Now()), Attempt(now, accepted))
    {
      if debounce.Sleeping? {
        firstChangeAt := None;
      }
      debounce := if accepted then Idle else Retrying(now + DEBOUNCE);
    }
  }

  datatype Event =
    | Change(at: real)
    | Attempt(at: real, accepted: bool)
    | Quiet(at: real)

  function Next(s: State, e: Event): State {
    match e
    case Change(now) =>
      var first := if s.firstChangeAt.Some? then s.firstChangeAt.value else now;
      if s.timer != Idle && now - first >= MAX_DELAY then State(Some(first), s.timer)
      else State(Some(first), Sleeping(now + Min(DEBOUNCE, Max(0.0, MAX_DELAY - (now - first)))))
    case Attempt(now, accepted) =>
      State(if s.timer.Sleeping? then None else s.firstChangeAt, if accepted then Idle else Retrying(now + DEBOUNCE))
    case Quiet(_) => s
  }

  /** A change puts the attempt off to a second and a half after it, but not beyond ten seconds after
      the first change, and not into the past; one that finds the attempt overdue leaves it.  A
      refused attempt is put off by a second and a half. */
  lemma TimerIs(s: State, now: real)
    requires s.firstChangeAt.Some? ==> s.firstChangeAt.value <= now
    ensures var first, timer := Next(s, Change(now)).firstChangeAt, Next(s, Change(now)).timer;
            && first == (if s.firstChangeAt.Some? then s.firstChangeAt else Some(now))
            && (s.timer != Idle && now >= first.value + 10.0 ==> timer == s.timer)
            && (s.timer == Idle || now < first.value + 10.0 ==>
                  && timer.Sleeping? && now <= timer.due <= now + 1.5
                  && (now < first.value + 10.0 ==> timer.due <= first.value + 10.0)
                  && timer.due in {now, now + 1.5, first.value + 10.0})
    ensures Next(s, Attempt(now, false)).timer == Retrying(now + 1.5) && Next(s, Attempt(now, true)).timer == Idle
  {
  }

  // ---------- timed runs ----------

  function After(events: seq<Event>): State {
    if events == [] then START else Next(After(events[..|events| - 1]), events[|events| - 1])
  }

  /** An attempt comes when the timer is due; nothing can happen later than `slack` after a due
      time without the attempt (`slack` is how late the event loop may run a timer). */
  predicate Timely(s: State, e: Event, slack: real) {
    && (e.Attempt? ==> s.timer != Idle && s.timer.due <= e.at)
    && (s.timer != Idle ==> e.at <= s.timer.due + slack)
  }

  ghost predicate Legal(events: seq<Event>, slack: real) {
    events == [] ||
    var init, last := events[..|events| - 1], events[|events| - 1];
    && Legal(init, slack)
    && Timely(After(init), last, slack)
    && (init != [] ==> init[|init| - 1].at <= last.at)
  }

  lemma {:induction false} LegalAt(events: seq<Event>, slack: real, n: nat)
    requires Legal(events, slack) && n < |events|
    ensures Timely(After(events[..n]), events[n], slack)
    ensures n > 0 ==> events[n - 1].at <= events[n].at
  {
    var init := events[..|events| - 1];
    if n < |init| {
      LegalAt(init, slack, n);
      assert init[..n] == events[..n];
    }
  }

  lemma {:induction false} InOrder(events: seq<Event>, slack: real, i: nat, j: nat)
    requires Legal(events, slack) && i <= j < |events|
    ensures events[i].at <= events[j].at
    decreases j
  {
    if i < j {
      InOrder(events, slack, i, j - 1);
      LegalAt(events, slack, j);
    }
  }

  /** Between attempts the first change is remembered, and the timer is due within MAX_DELAY. */
  predicate Settled(s: State, now: real) {
    match s.timer
    case Idle => s.firstChangeAt.None?
    case Retrying(due) => s.firstChangeAt.None? && due <= now + DEBOUNCE
    case Sleeping(due) => && s.firstChangeAt.Some? && s.firstChangeAt.value <= now
                          && due <= s.firstChangeAt.value + MAX_DELAY
  }

  lemma AfterSnoc(events: seq<Event>, n: nat)
    requires n < |events|
    ensures After(events[..n + 1]) == Next(After(events[..n]), events[n])
  {
    assert events[..n + 1][..n] == events[..n];
  }

  lemma {:induction false} AlwaysSettled(events: seq<Event>, slack: real, n: nat)
    requires Legal(events, slack) && slack >= 0.0 && n < |events|
    ensures Settled(After(events[..n]), events[n].at)
    ensures Settled(After(events[..n + 1]), events[n].at)
  {
    if n > 0 {
      AlwaysSettled(events, slack, n - 1);
    }
    LegalAt(events, slack, n);
    AfterSnoc(events, n);
  }

  ghost predicate NoAttempt(events: seq<Event>, i: nat, j: nat)
    requires j <= |events|
  {
    forall k :: i < k < j ==> !events[k].Attempt?
  }

  // ---------- no change is lost ----------

  /** Asleep, with the first change no later than c and the timer due within MAX_DELAY of it. */
  predicate Awaits(s: State, c: real) {
    && s.timer.Sleeping? && s.firstChangeAt.Some? && s.firstChangeAt.value <= c
    && s.timer.due <= s.firstChangeAt.value + MAX_DELAY
  }

  lemma ChangeAwaits(s: State, now: real)
    requires Settled(s, now)
    ensures Awaits(Next(s, Change(now)), now)
  {
  }

  lemma StillAwaits(s: State, c: real, e: Event)
    requires Awaits(s, c) && !e.Attempt?
    ensures Awaits(Next(s, e), c)
  {
  }

  /** From a change until the next attempt, a timer is pending and due at most MAX_DELAY after
      the change, however many changes follow. */
  lemma {:induction false} Waiting(events: seq<Event>, slack: real, i: nat, j: nat)
    requires Legal(events, slack) && slack >= 0.0
    requires i < j <= |events| && events[i].Change? && NoAttempt(events, i, j)
    ensures Awaits(After(events[..j]), events[i].at)
    decreases j
  {
    AfterSnoc(events, j - 1);
    if i < j - 1 {
      Waiting(events, slack, i, j - 1);
      StillAwaits(After(events[..j - 1]), events[i].at, events[j - 1]);
    } else {
      AlwaysSettled(events, slack, i);
      ChangeAwaits(After(events[..i]), events[i].at);
    }
  }

  /** Whatever happens next, no event up to and including the next attempt is later than
      MAX_DELAY after the change. */
  lemma NothingLater(events: seq<Event>, slack: real, i: nat, j: nat)
    requires Legal(events, slack) && slack >= 0.0
    requires i < j < |events| && events[i].Change? && NoAttempt(events, i, j)
    ensures events[i].at <= events[j].at <= events[i].at + MAX_DELAY + slack
  {
    Waiting(events, slack, i, j);
    LegalAt(events, slack, j);
    InOrder(events, slack, i, j);
  }

  lemma {:induction false} FirstAttempt(events: seq<Event>, i: nat, j: nat) returns (k: nat)
    requires i < j <= |events|
    ensures i < k <= j && NoAttempt(events, i, k)
    ensures k < j ==> events[k].Attempt?
    decreases j
  {
    if i + 1 == j {
      k := j;
    } else {
      k := FirstAttempt(events, i, j - 1);
      if k == j - 1 && !events[k].Attempt? {
        k := j;
      }
    }
  }

  /** Every change is followed by an attempt no earlier than it and at most MAX_DELAY (and the
      event loop's slack) after it, as soon as that much time has passed at all. */
  lemma ChangeIsAttempted(events: seq<Event>, slack: real, i: nat, j: nat)
    requires Legal(events, slack) && slack >= 0.0
    requires i < j < |events| && events[i].Change? && events[j].at > events[i].at + MAX_DELAY + slack
    ensures exists k :: && i < k < j && events[k].Attempt?
                        && events[i].at <= events[k].at <= events[i].at + MAX_DELAY + slack
  {
    var k := FirstAttempt(events, i, j);
    NothingLater(events, slack, i, k);
  }

  /** The watcher rests only when every change so far was followed by an accepted attempt: a
      refused one is retried, or replaced by a later change's timer. */
  lemma {:induction false} RestsOnlyWhenDelivered(events: seq<Event>, n: nat, i: nat)
    requires i < n <= |events| && events[i].Change? && After(events[..n]).timer == Idle
    ensures exists k :: i < k < n && events[k].Attempt? && events[k].accepted
    decreases n
  {
    AfterSnoc(events, n - 1);
    if events[n - 1].Quiet? {
      RestsOnlyWhenDelivered(events, n - 1, i);
    }
  }

  /** A refused attempt is due again a DEBOUNCE later, unless a change comes first. */
  lemma RefusedIsPending(events: seq<Event>, n: nat)
    requires n < |events| && events[n].Attempt? && !events[n].accepted
    ensures After(events[..n + 1]).timer == Retrying(events[n].at + DEBOUNCE)
  {
  }

  // ---------- refused attempts are retried in time ----------

  /** Within this time of a moment with a pending timer there is an attempt: a retry may be
      replaced, at the last moment, by the timer of a change. */
  function Patience(slack: real): real {
    DEBOUNCE + MAX_DELAY + 2.0 * slack
  }

  /** A retry due a DEBOUNCE after c, or a timer for a change no later than that retry's last
      moment. */
  predicate Pending(s: State, c: real, slack: real) {
    match s.timer
    case Idle => false
    case Retrying(due) => s.firstChangeAt.None? && due <= c + DEBOUNCE
    case Sleeping(due) => && s.firstChangeAt.Some? && s.firstChangeAt.value <= c + DEBOUNCE + slack
                          && due <= s.firstChangeAt.value + MAX_DELAY
  }

  lemma StillPending(s: State, c: real, slack: real, e: Event)
    requires Pending(s, c, slack) && !e.Attempt? && Timely(s, e, slack)
    ensures Pending(Next(s, e), c, slack)
  {
  }

  lemma {:induction false} StaysPending(events: seq<Event>, slack: real, p: nat, j: nat)
    requires Legal(events, slack) && slack >= 0.0
    requires p < j <= |events| && After(events[..p + 1]).timer != Idle && NoAttempt(events, p, j)
    ensures Pending(After(events[..j]), events[p].at, slack)
    decreases j
  {
    if j == p + 1 {
      AlwaysSettled(events, slack, p);
    } else {
      StaysPending(events, slack, p, j - 1);
      LegalAt(events, slack, j - 1);
      AfterSnoc(events, j - 1);
      StillPending(After(events[..j - 1]), events[p].at, slack, events[j - 1]);
    }
  }

  /** Whenever a timer is pending after event p, an attempt follows in time. */
  lemma PendingIsAttempted(events: seq<Event>, slack: real, p: nat, j: nat)
    requires Legal(events, slack) && slack >= 0.0
    requires p < j < |events| && After(events[..p + 1]).timer != Idle && events[j].at > events[p].at + Patience(slack)
    ensures exists k :: && p < k < j && events[k].Attempt?
                        && events[p].at <= events[k].at <= events[p].at + Patience(slack)
  {
    var k := FirstAttempt(events, p, j);
    StaysPending(events, slack, p, k);
    LegalAt(events, slack, k);
    InOrder(events, slack, p, k);
  }

  /** A refused attempt is followed by another one in time. */
  lemma RefusedIsRetried(events: seq<Event>, slack: real, n: nat, j: nat)
    requires Legal(events, slack) && slack >= 0.0
    requires n < j < |events| && events[n].Attempt? && !events[n].accepted
    requires events[j].at > events[n].at + Patience(slack)
    ensures exists k :: && n < k < j && events[k].Attempt?
                        && events[n].at <= events[k].at <= events[n].at + Patience(slack)
  {
    RefusedIsPending(events, n);
    PendingIsAttempted(events, slack, n, j);
  }

  /** From event p on, attempts are accepted. */
  ghost predicate AcceptedAfter(events: seq<Event>, p: nat) {
    forall k :: p < k < |events| && events[k].Attempt? ==> events[k].accepted
  }

  /** Once attempts are accepted, every change, before or after that moment, gets an accepted
      attempt after it, in time. */
  lemma ChangeIsDelivered(events: seq<Event>, slack: real, i: nat, p: nat, j: nat)
    requires Legal(events, slack) && slack >= 0.0
    requires i < j < |events| && p < j && events[i].Change? && AcceptedAfter(events, p)
    requires events[j].at > Max(events[i].at, events[p].at) + Patience(slack)
    ensures exists k :: && i < k < j && events[k].Attempt? && events[k].accepted
                        && events[k].at <= Max(events[i].at, events[p].at) + Patience(slack)
  {
    if p <= i {
      ChangeIsAttempted(events, slack, i, j);
    } else if k :| i < k <= p && events[k].Attempt? && events[k].accepted {
      InOrder(events, slack, k, p);
    } else {
      if After(events[..p + 1]).timer == Idle {
        RestsOnlyWhenDelivered(events, p + 1, i);
      }
      PendingIsAttempted(events, slack, p, j);
    }
  }

  // ---------- a burst is one sync ----------

  /** The latest change before position n, given that there is one at i. */
  function LatestChange(events: seq<Event>, i: nat, n: nat): (last: nat)
    requires i < n <= |events| && events[i].Change?
    ensures i <= last < n && events[last].Change?
    decreases n
  {
    if events[n - 1].Change? then n - 1 else LatestChange(events, i, n - 1)
  }

  /** Changes from i to j, each within DEBOUNCE of the one before, all in less than MAX_DELAY. */
  ghost predicate Burst(events: seq<Event>, i: nat, j: nat) {
    && i <= j < |events| && events[i].Change? && events[j].Change?
    && events[j].at - events[i].at < MAX_DELAY
    && forall m {:trigger CloseToLatest(events, i, m)} :: i < m <= j && events[m].Change? ==>
         CloseToLatest(events, i, m)
  }

  ghost predicate CloseToLatest(events: seq<Event>, i: nat, m: nat)
    requires i < m < |events| && events[i].Change?
  {
    events[m].at - events[LatestChange(events, i, m)].at < DEBOUNCE
  }

  /** So nothing that happens during the burst is DEBOUNCE or more after its latest change. */
  lemma {:induction false} BurstGap(events: seq<Event>, slack: real, i: nat, j: nat, n: nat)
    requires Legal(events, slack) && Burst(events, i, j) && i < n <= j
    ensures CloseToLatest(events, i, n)
    decreases j - n
  {
    if !events[n].Change? {
      BurstGap(events, slack, i, j, n + 1);
      LegalAt(events, slack, n + 1);
    }
  }

  /** The state a burst keeps: its first change, and the timer set by its latest one. */
  function Held(first: real, last: real): State {
    State(Some(first), Sleeping(last + Min(DEBOUNCE, MAX_DELAY - (last - first))))
  }

  /** An event less than DEBOUNCE after the latest change and less than MAX_DELAY after the first
      one cannot be an attempt, and keeps the burst held. */
  lemma HoldsBack(first: real, last: real, e: Event, slack: real)
    requires first <= last <= e.at && e.at - last < DEBOUNCE && e.at - first < MAX_DELAY
    requires Timely(Held(first, last), e, slack)
    ensures !e.Attempt?
    ensures Next(Held(first, last), e) == Held(first, if e.Change? then e.at else last)
  {
  }

  lemma BurstStep(events: seq<Event>, slack: real, i: nat, j: nat, m: nat)
    requires Legal(events, slack) && Burst(events, i, j) && i < m <= j
    requires After(events[..m]) == Held(events[i].at, events[LatestChange(events, i, m)].at)
    ensures !events[m].Attempt?
    ensures Next(After(events[..m]), events[m]) == Held(events[i].at, events[LatestChange(events, i, m + 1)].at)
  {
    var last := LatestChange(events, i, m);
    BurstGap(events, slack, i, j, m);
    InOrder(events, slack, i, last);
    InOrder(events, slack, last, m);
    InOrder(events, slack, m, j);
    LegalAt(events, slack, m);
    HoldsBack(events[i].at, events[last].at, events[m], slack);
  }

  /** While a burst goes on there is no attempt, whether it finds the watcher at rest or waiting to
      retry a refused one: no change is waiting when it begins. */
  lemma {:induction false} BurstHoldsBack(events: seq<Event>, slack: real, i: nat, j: nat, n: nat)
    requires Legal(events, slack) && Burst(events, i, j) && After(events[..i]).firstChangeAt.None?
    requires i < n <= j + 1
    ensures NoAttempt(events, i, n)
    ensures After(events[..n]) == Held(events[i].at, events[LatestChange(events, i, n)].at)
    decreases n
  {
    AfterSnoc(events, n - 1);
    if n > i + 1 {
      BurstHoldsBack(events, slack, i, j, n - 1);
      BurstStep(events, slack, i, j, n - 1);
    }
  }

  function Attempts(events: seq<Event>, i: nat, n: nat): nat
    requires n <= |events|
    decreases n
  {
    if n <= i then 0 else Attempts(events, i, n - 1) + (if events[n - 1].Attempt? then 1 else 0)
  }

  lemma {:induction false} AttemptsIsNumber(events: seq<Event>, i: nat, n: nat, counted: nat -> bool)
    requires n <= |events| && forall k: nat :: k < n ==> (counted(k) <==> i <= k && events[k].Attempt?)
    ensures Attempts(events, i, n) == |set k: nat | k < n && counted(k)|
    decreases n
  {
    if n > i {
      AttemptsIsNumber(events, i, n - 1, counted);
      OneMoreCounted(n - 1, counted);
    }
  }

  lemma {:induction false} NoneCounted(events: seq<Event>, i: nat, n: nat)
    requires i < n <= |events| && events[i].Change? && NoAttempt(events, i, n)
    ensures Attempts(events, i, n) == 0
    decreases n
  {
    if n > i + 1 {
      NoneCounted(events, i, n - 1);
    } else {
      assert Attempts(events, i, i) == 0;
    }
  }

  /** No change after position j, and every attempt is accepted. */
  ghost predicate CalmAfter(events: seq<Event>, j: nat) {
    forall k :: j < k < |events| ==> !events[k].Change? && (events[k].Attempt? ==> events[k].accepted)
  }

  /** After the burst, in the calm: one attempt, then rest. */
  lemma {:induction false} OneAttemptAfter(events: seq<Event>, slack: real, i: nat, j: nat, n: nat)
    requires Legal(events, slack) && Burst(events, i, j) && After(events[..i]).firstChangeAt.None?
    requires j < n <= |events| && CalmAfter(events, j)
    ensures Attempts(events, i, n) == if After(events[..n]).timer == Idle then 1 else 0
    decreases n
  {
    if n == j + 1 {
      BurstHoldsBack(events, slack, i, j, n);
      NoneCounted(events, i, n);
    } else {
      OneAttemptAfter(events, slack, i, j, n - 1);
      AfterSnoc(events, n - 1);
      LegalAt(events, slack, n - 1);
    }
  }

  /** In the calm, once enough time has passed since the last change, the watcher is at rest. */
  lemma RestsAfterBurst(events: seq<Event>, slack: real, j: nat)
    requires Legal(events, slack) && slack >= 0.0 && j < |events| && events[j].Change? && CalmAfter(events, j)
    requires events[|events| - 1].at > events[j].at + MAX_DELAY + slack
    ensures After(events).timer == Idle
  {
    ChangeIsAttempted(events, slack, j, |events| - 1);
    var k :| j < k < |events| - 1 && events[k].Attempt?;
    RestsAfter(events, slack, j, k, |events|);
    assert events[..|events|] == events;
  }

  /** A burst causes one attempt in all: none while it goes on, at most one afterwards, and
      exactly one once MAX_DELAY has passed since its last change. */
  lemma BurstIsOneAttempt(events: seq<Event>, slack: real, i: nat, j: nat)
    requires Legal(events, slack) && slack >= 0.0 && Burst(events, i, j) && After(events[..i]).firstChangeAt.None?
    requires CalmAfter(events, j)
    ensures NoAttempt(events, i, j + 1)
    ensures Attempts(events, i, |events|) <= 1
    ensures events[|events| - 1].at > events[j].at + MAX_DELAY + slack ==> Attempts(events, i, |events|) == 1
  {
    BurstHoldsBack(events, slack, i, j, j + 1);
    OneAttemptAfter(events, slack, i, j, |events|);
    assert events[..|events|] == events;
    if events[|events| - 1].at > events[j].at + MAX_DELAY + slack {
      RestsAfterBurst(events, slack, j);
    }
  }

  /** Without a change, the watcher stays at rest after an accepted attempt. */
  lemma {:induction false} RestsAfter(events: seq<Event>, slack: real, j: nat, k: nat, n: nat)
    requires Legal(events, slack) && j < k < n <= |events| && events[k].Attempt? && CalmAfter(events, j)
    ensures After(events[..n]).timer == Idle
    decreases n
  {
    AfterSnoc(events, n - 1);
    if n > k + 1 {
      RestsAfter(events, slack, j, k, n - 1);
      LegalAt(events, slack, n - 1);
    }
  }
}
