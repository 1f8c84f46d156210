/** Whole schedules of concurrent message handling: what holds after every run of the steps of
    `Ingest` (app/webhook/router.py, app/db/crud.py). */
module IngestRuns {
  import opened Text
  import opened Ingest

  // ---------- every run is sound ----------

  ghost predicate Sound(w: World) {
    && OwnCustomers(w.tasks, w.customers) && CustomersApart(w.customers)
    && RowsFit(w.log, w.tasks, w.customers) && RowsFit(w.dispatches, w.tasks, w.customers)
    && OneOwner(w.tasks, w.processed) && Counted(w) && CustomersCommitted(w.tasks, w.customers, w.enrolled)
    && LocksApart(w.locks) && OwnLocks(w.tasks, w.locks) && Holders(w.tasks, w.holder)
  }

  lemma {:induction false} RunIsSound(steps: seq<Step>)
    ensures Exec(steps).Some? ==> Sound(Exec(steps).value)
  {
    if steps != [] && Exec(steps).Some? {
      RunIsSound(steps[..|steps| - 1]);
      var w, s := Exec(steps[..|steps| - 1]).value, steps[|steps| - 1];
      StepKeepsOneOwner(w, s);
      StepKeepsCounted(w, s);
      StepKeepsCustomers(w, s);
      StepKeepsLocks(w, s);
      StepKeepsHolders(w, s);
      StepKeepsOwnCustomers(w, s);
      StepKeepsRows(w, s);
    }
  }

  // ---------- main results ----------

  /** Under every interleaving, each message id is ingested, logged and dispatched at most once,
      and never dispatched without having been logged. */
  lemma AtMostOnce(steps: seq<Step>, message: string)
    requires Exec(steps).Some?
    ensures var w := Exec(steps).value;
            && Count(w.dispatches, message) <= Count(w.log, message) <= 1
            && (message in w.processed <==> Count(w.log, message) == 1)
  {
    RunIsSound(steps);
  }

  /** A task works for its sender's customer, which is nobody else's. */
  lemma EachToItsOwnCustomer(steps: seq<Step>, i: nat)
    requires Exec(steps).Some? && i < |Exec(steps).value.tasks| && CustomerOf(Exec(steps).value.tasks[i].phase).Some?
    ensures var w, sender := Exec(steps).value, Exec(steps).value.tasks[i].sender;
            && sender in w.customers
            && CustomerOf(w.tasks[i].phase) == Some(w.customers[sender])
            && forall s :: s in w.customers && s != sender ==> w.customers[s] != w.customers[sender]
  {
    RunIsSound(steps);
  }

  /** Every inbound log row, and every agent turn, is of a committed message and carries the
      customer of whoever sent it. */
  lemma RowsAreTheSenders(steps: seq<Step>, k: nat)
    requires Exec(steps).Some?
    ensures var w := Exec(steps).value;
            && (k < |w.log| ==> RowFits(w.log[k], w.tasks, w.customers))
            && (k < |w.dispatches| ==> RowFits(w.dispatches[k], w.tasks, w.customers))
  {
    RunIsSound(steps);
  }

  /** Two agent turns for one sender, or for one customer, never overlap. */
  lemma TurnsNeverOverlap(steps: seq<Step>, i: nat, j: nat)
    requires Exec(steps).Some?
    requires i < |Exec(steps).value.tasks| && j < |Exec(steps).value.tasks|
    requires Exec(steps).value.tasks[i].phase.Dispatching? && Exec(steps).value.tasks[j].phase.Dispatching?
    requires || Exec(steps).value.tasks[i].sender == Exec(steps).value.tasks[j].sender
             || Exec(steps).value.tasks[i].phase.customer == Exec(steps).value.tasks[j].phase.customer
    ensures i == j
  {
    RunIsSound(steps);
    EachToItsOwnCustomer(steps, i);
    EachToItsOwnCustomer(steps, j);
  }

  /** A message that reaches its commit is ingested, unless the customer was unknown when this
      task looked and is known by now.  Then the message is gone, although no copy of it was ever
      ingested: the customer was enrolled from elsewhere, or a different message of theirs got in
      first. */
  lemma CommitIngestsExactly(steps: seq<Step>, i: nat)
    requires Exec(steps).Some? && i < |Exec(steps).value.tasks| && Exec(steps).value.tasks[i].phase.Looked?
    ensures var w, after := Exec(steps).value, Next(Exec(steps).value, Commit(i));
            var task := w.tasks[i];
            && (task.message in after.processed <==> task.phase.found.Some? || task.sender !in w.customers)
            && (task.message !in after.processed ==>
                  && after.tasks[i].phase == Dropped(LostCustomerRace)
                  && (task.sender in w.enrolled || AnotherCameFirst(w.tasks, task)))
  {
    RunIsSound(steps);
    var w := Exec(steps).value;
    if w.tasks[i].sender in w.customers && w.tasks[i].sender !in w.enrolled {
      assert CommittedFor(w.tasks, w.tasks[i].sender);
      var j :| 0 <= j < |w.tasks| && w.tasks[j].sender == w.tasks[i].sender && Committed(w.tasks[j].phase);
      assert w.tasks[j].message in w.processed && w.tasks[i].message !in w.processed;
    }
  }

  /** Another message of the same sender has been committed. */
  ghost predicate AnotherCameFirst(tasks: seq<Task>, task: Task) {
    exists j :: && 0 <= j < |tasks| && tasks[j].sender == task.sender
                && tasks[j].message != task.message && Committed(tasks[j].phase)
  }

  /** Whoever is dropped as a copy leaves its message committed, by another task. */
  lemma CopiesAreCommitted(steps: seq<Step>, s: Step)
    requires Exec(steps).Some? && Enabled(Exec(steps).value, s) && (s.Check? || s.Mark?)
    requires Next(Exec(steps).value, s).tasks[s.task].phase.Dropped?
    ensures Next(Exec(steps).value, s).log == Exec(steps).value.log
    ensures Count(Exec(steps).value.log, Exec(steps).value.tasks[s.task].message) == 1
  {
    RunIsSound(steps);
  }

  lemma ExecSnoc(steps: seq<Step>, s: Step)
    requires Exec(steps).Some? && Enabled(Exec(steps).value, s)
    ensures Exec(steps + [s]) == Some(Next(Exec(steps).value, s))
  {
  }

  lemma BothChecked(m: string, m': string, sender: Sender) returns (steps: seq<Step>)
    ensures Exec(steps) == Some(EMPTY.(tasks := [Task(m, sender, Checked), Task(m', sender, Checked)]))
  {
    steps := Extend([], Deliver(m, sender), [Task(m, sender, Arrived)]);
    steps := Extend(steps, Deliver(m', sender), [Task(m, sender, Arrived), Task(m', sender, Arrived)]);
    steps := Extend(steps, Check(0), [Task(m, sender, Checked), Task(m', sender, Arrived)]);
    steps := Extend(steps, Check(1), [Task(m, sender, Checked), Task(m', sender, Checked)]);
  }

  lemma BothLooked(m: string, m': string, sender: Sender) returns (steps: seq<Step>)
    requires m != m'
    ensures Exec(steps) == Some(EMPTY.(tasks := [Task(m, sender, Looked(None)), Task(m', sender, Looked(None))]))
  {
    steps := BothChecked(m, m', sender);
    steps := Extend(steps, Mark(0), [Task(m, sender, Marked), Task(m', sender, Checked)]);
    steps := Extend(steps, Mark(1), [Task(m, sender, Marked), Task(m', sender, Marked)]);
    steps := Extend(steps, Look(0), [Task(m, sender, Looked(None)), Task(m', sender, Marked)]);
    steps := Extend(steps, Look(1), [Task(m, sender, Looked(None)), Task(m', sender, Looked(None))]);
  }

  /** Such a loss can happen with two first messages of a new customer that are handled together. */
  lemma FirstMessagesCanBeLost(m: string, m': string, sender: Sender)
    requires m != m'
    ensures exists steps :: && Exec(steps).Some? && |Exec(steps).value.tasks| == 2
                            && Exec(steps).value.tasks[1] == Task(m', sender, Dropped(LostCustomerRace))
                            && Exec(steps).value.processed == {m}
  {
    var steps := BothLooked(m, m', sender);
    ExecSnoc(steps, Commit(0));
    steps := steps + [Commit(0)];
    ExecSnoc(steps, Commit(1));
    steps := steps + [Commit(1)];
  }

  lemma OneLooked(m: string, sender: Sender) returns (steps: seq<Step>)
    ensures Exec(steps) == Some(EMPTY.(tasks := [Task(m, sender, Looked(None))]))
  {
    steps := Extend([], Deliver(m, sender), [Task(m, sender, Arrived)]);
    steps := Extend(steps, Check(0), [Task(m, sender, Checked)]);
    steps := Extend(steps, Mark(0), [Task(m, sender, Marked)]);
    steps := Extend(steps, Look(0), [Task(m, sender, Looked(None))]);
  }

  /** And one message is enough: the answer to a notice that has been sent, but whose customer row
      is committed only after this task has looked for it. */
  lemma LoneFirstMessageCanBeLost(m: string, sender: Sender)
    ensures exists steps :: && Exec(steps).Some?
                            && Exec(steps).value.tasks == [Task(m, sender, Dropped(LostCustomerRace))]
                            && Exec(steps).value.processed == {}
  {
    var steps := OneLooked(m, sender);
    ExecSnoc(steps, Enroll(sender));
    steps := steps + [Enroll(sender)];
    ExecSnoc(steps, Commit(0));
    steps := steps + [Commit(0)];
  }

  /** A task can fail as long as nothing of it is committed, and leaves nothing behind: a copy of the
      message delivered later is a new message. */
  lemma FailsWithoutTrace(w: World, i: nat)
    requires i < |w.tasks|
    ensures Enabled(w, Fail(i)) <==>
              var p := w.tasks[i].phase; p.Arrived? || p.Checked? || p.Marked? || p.Looked?
    ensures Enabled(w, Fail(i)) ==>
              && Next(w, Fail(i)).tasks[i].phase.Dropped?
              && Next(w, Fail(i)) == w.(tasks := Next(w, Fail(i)).tasks)
  {
  }

  // ---------- a message left alone ----------

  /** All the steps of a task, with nothing in between. */
  function Undisturbed(i: nat, message: string, sender: Sender): seq<Step> {
    [Deliver(message, sender), Check(i), Mark(i), Look(i), Commit(i), GetLock(i), Acquire(i), Release(i)]
  }

  /** The sender's customer, or the one that is next. */
  function OwnOrNew(w: World, sender: Sender): nat {
    if sender in w.customers then w.customers[sender] else |w.customers|
  }

  ghost predicate NoCopyOpen(tasks: seq<Task>, message: string) {
    forall t :: t in tasks ==> !(t.message == message && (t.phase.Marked? || t.phase.Looked?))
  }

  ghost predicate NoTurnOf(tasks: seq<Task>, sender: Sender) {
    forall t :: t in tasks ==> !(t.sender == sender && t.phase.Dispatching?)
  }

  /** The world after them: the message is logged and gets one agent turn, for its sender's customer, who
      is a new one if the sender was unknown.  Nothing else changes but that customer's lock. */
  ghost predicate Handled(w: World, after: World, message: string, sender: Sender) {
    var c := OwnOrNew(w, sender);
    && after.tasks == w.tasks + [Task(message, sender, Finished(c))]
    && after.processed == w.processed + {message} && after.customers == w.customers[sender := c]
    && after.log == w.log + [LogRow(message, c)] && after.dispatches == w.dispatches + [LogRow(message, c)]
    && after.holder == w.holder && after.enrolled == w.enrolled && after.locks == WithLock(w.locks, c)
  }

  /** A new message that nothing gets between always gets its turn, whatever else is going on, if no
      copy of it is open and no turn of its sender is under way. */
  lemma QuietMessageIsHandled(steps: seq<Step>, message: string, sender: Sender)
    requires Exec(steps).Some? && message !in Exec(steps).value.processed
    requires NoCopyOpen(Exec(steps).value.tasks, message) && NoTurnOf(Exec(steps).value.tasks, sender)
    ensures var w, after := Exec(steps).value, Exec(steps + Undisturbed(|Exec(steps).value.tasks|, message, sender));
            after.Some? && Handled(w, after.value, message, sender)
  {
    var w, i := Exec(steps).value, |Exec(steps).value.tasks|;
    var committed := CommitsAlone(steps, message, sender);
    LockIsFree(steps, sender);
    TurnTaken(committed, i, OwnOrNew(w, sender));
    assert steps + Undisturbed(i, message, sender) == committed + [GetLock(i), Acquire(i), Release(i)];
  }

  lemma CommitsAlone(steps: seq<Step>, message: string, sender: Sender) returns (committed: seq<Step>)
    requires Exec(steps).Some? && message !in Exec(steps).value.processed
    requires NoCopyOpen(Exec(steps).value.tasks, message)
    ensures var w, i, c := Exec(steps).value, |Exec(steps).value.tasks|, OwnOrNew(Exec(steps).value, sender);
            && committed == steps + [Deliver(message, sender), Check(i), Mark(i), Look(i), Commit(i)]
            && Exec(committed) == Some(w.(tasks := w.tasks + [Task(message, sender, Ingested(c))],
                                          processed := w.processed + {message},
                                          customers := w.customers[sender := c],
                                          log := w.log + [LogRow(message, c)]))
  {
    var w, i, c := Exec(steps).value, |Exec(steps).value.tasks|, OwnOrNew(Exec(steps).value, sender);
    var looked := LooksAlone(steps, message, sender);
    ExecSnoc(looked, Commit(i));
    committed := looked + [Commit(i)];
    assert sender in w.customers ==> w.customers[sender := c] == w.customers;
    assert Exec(looked).value.tasks[i := Task(message, sender, Ingested(c))]
        == w.tasks + [Task(message, sender, Ingested(c))];
  }

  lemma LooksAlone(steps: seq<Step>, message: string, sender: Sender) returns (looked: seq<Step>)
    requires Exec(steps).Some? && message !in Exec(steps).value.processed
    requires NoCopyOpen(Exec(steps).value.tasks, message)
    ensures var w, i := Exec(steps).value, |Exec(steps).value.tasks|;
            && looked == steps + [Deliver(message, sender), Check(i), Mark(i), Look(i)]
            && Exec(looked) == Some(w.(tasks := w.tasks + [Task(message, sender, Looked(
                 if sender in w.customers then Some(w.customers[sender]) else None))]))
  {
    var w, i := Exec(steps).value, |Exec(steps).value.tasks|;
    looked := Extend(steps, Deliver(message, sender), w.tasks + [Task(message, sender, Arrived)]);
    looked := Extend(looked, Check(i), w.tasks + [Task(message, sender, Checked)]);
    assert !Blocked(Exec(looked).value, message);
    looked := Extend(looked, Mark(i), w.tasks + [Task(message, sender, Marked)]);
    looked := Extend(looked, Look(i), w.tasks + [Task(message, sender, Looked(
                if sender in w.customers then Some(w.customers[sender]) else None))]);
  }

  /** Where no turn of a sender is under way, its customer's lock is free, or yet to be made. */
  lemma LockIsFree(steps: seq<Step>, sender: Sender)
    requires Exec(steps).Some? && NoTurnOf(Exec(steps).value.tasks, sender)
    ensures var w, c := Exec(steps).value, OwnOrNew(Exec(steps).value, sender); WithLock(w.locks, c)[c] !in w.holder
  {
    RunIsSound(steps);
    var w := Exec(steps).value;
    forall l | l in w.holder
      ensures w.tasks[w.holder[l]].sender != sender && l == w.locks[w.tasks[w.holder[l]].phase.customer]
    {
      assert w.tasks[w.holder[l]] in w.tasks;
    }
  }

  /** A committed task whose customer's lock is free takes its turn and gives the lock back. */
  lemma TurnTaken(steps: seq<Step>, i: nat, c: nat)
    requires Exec(steps).Some? && i < |Exec(steps).value.tasks| && Exec(steps).value.tasks[i].phase == Ingested(c)
    requires WithLock(Exec(steps).value.locks, c)[c] !in Exec(steps).value.holder
    ensures Exec(steps + [GetLock(i), Acquire(i), Release(i)])
         == Some(AfterTurn(Exec(steps).value, i, c).(locks := WithLock(Exec(steps).value.locks, c)))
  {
    var w := Exec(steps).value;
    ExecSnoc(steps, GetLock(i));
    var waiting := Exec(steps + [GetLock(i)]).value;
    TurnInLock(steps + [GetLock(i)], i, c, WithLock(w.locks, c)[c]);
    assert steps + [GetLock(i), Acquire(i), Release(i)] == steps + [GetLock(i)] + [Acquire(i), Release(i)];
    assert waiting.tasks[i := waiting.tasks[i].(phase := Finished(c))]
        == w.tasks[i := w.tasks[i].(phase := Finished(c))];
  }

  lemma TurnInLock(steps: seq<Step>, i: nat, c: nat, lock: nat)
    requires Exec(steps).Some? && i < |Exec(steps).value.tasks|
    requires Exec(steps).value.tasks[i].phase == Waiting(c, lock) && lock !in Exec(steps).value.holder
    ensures Exec(steps + [Acquire(i), Release(i)]) == Some(AfterTurn(Exec(steps).value, i, c))
  {
    TurnOfTask(Exec(steps).value, i, c, lock);
    ExecSnoc(steps, Acquire(i));
    ExecSnoc(steps + [Acquire(i)], Release(i));
    assert steps + [Acquire(i), Release(i)] == steps + [Acquire(i)] + [Release(i)];
  }

  function AfterTurn(w: World, i: nat, c: nat): World
    requires i < |w.tasks|
  {
    w.(tasks := w.tasks[i := w.tasks[i].(phase := Finished(c))],
       dispatches := w.dispatches + [LogRow(w.tasks[i].message, c)])
  }

  lemma TurnOfTask(w: World, i: nat, c: nat, lock: nat)
    requires i < |w.tasks| && w.tasks[i].phase == Waiting(c, lock) && lock !in w.holder
    ensures Enabled(w, Acquire(i)) && Enabled(Next(w, Acquire(i)), Release(i))
    ensures Next(Next(w, Acquire(i)), Release(i)) == AfterTurn(w, i, c)
  {
    var t := w.tasks[i];
    assert w.tasks[i := t.(phase := Dispatching(c, lock))][i := t.(phase := Finished(c))]
        == w.tasks[i := t.(phase := Finished(c))];
    assert w.holder[lock := i] - {lock} == w.holder;
  }

  /** One step that changes the tasks only. */
  lemma Extend(steps: seq<Step>, s: Step, tasks: seq<Task>) returns (more: seq<Step>)
    requires Exec(steps).Some? && Enabled(Exec(steps).value, s)
    requires Next(Exec(steps).value, s) == Exec(steps).value.(tasks := tasks)
    ensures more == steps + [s] && Exec(more) == Some(Exec(steps).value.(tasks := tasks))
  {
    ExecSnoc(steps, s);
    more := steps + [s];
  }
}
