/** Concurrent handling of inbound messages in one process: `ingest_message`,
    `_process_message_background` and `_get_customer_lock` (app/webhook/router.py) over the
    message helpers of app/db/crud.py.

Each delivery runs as a task of its own.  A task's steps are its database statements and lock
operations, and the steps of different tasks interleave in any order. */
module Ingest {
  import opened Text

  /** Who wrote: the tenant and the WhatsApp number. */
  datatype Sender = Sender(tenant: nat, number: string)

  datatype Why = Duplicate | LostMessageRace | LostCustomerRace | Failed

  datatype Phase =
    | Arrived                                  // delivered
    | Checked                                  // the message id was not in the table
    | Marked                                   // its id is inserted, not yet committed
    | Looked(found: Option<nat>)               // the customer has been looked up
    | Ingested(customer: nat)                  // committed
    | Waiting(customer: nat, lock: nat)        // for the customer's lock
    | Dispatching(customer: nat, lock: nat)    // the agent's turn
    | Finished(customer: nat)
    | Dropped(why: Why)

  datatype Task = Task(message: string, sender: Sender, phase: Phase)

  datatype LogRow = LogRow(message: string, customer: nat)

  datatype World = World(
    tasks: seq<Task>,
    processed: set<string>,          // committed message ids: the primary key
    customers: map<Sender, nat>,     // committed customers, unique per sender
    enrolled: set<Sender>,           // those that something else than a message brought in
    log: seq<LogRow>,                // committed inbound message rows
    dispatches: seq<LogRow>,         // agent turns begun, in order
    locks: map<nat, nat>,            // customer to lock object
    holder: map<nat, nat>)           // lock object to the task inside

  const EMPTY := World([], {}, map[], {}, [], [], map[], map[])

  // ---------- the lock table ----------

  /** `_customer_locks`: a lock object, once made for a customer, stays that customer's. */
  class CustomerLocks {
    var locks: map<nat, nat>

    constructor ()
      ensures locks == map[]
    {
      locks := map[];
    }

    method GetCustomerLock(customer: nat) returns (lock: nat)
      modifies this
      ensures locks == WithLock(old(locks), customer) && customer in locks && lock == locks[customer]
    {
      if customer in locks {
        return locks[customer];
      }
      lock := |locks|;
      locks := locks[customer := lock];
    }
  }

  function WithLock(locks: map<nat, nat>, customer: nat): map<nat, nat> {
    if customer in locks then locks else locks[customer := |locks|]
  }

  // ---------- steps ----------

  datatype Step =
    | Deliver(message: string, sender: Sender)
    | Enroll(who: Sender)   // a dashboard notice, a campaign or an order alert commits a new customer
    | Check(task: nat)
    | Mark(task: nat)
    | Look(task: nat)
    | Commit(task: nat)
    | Fail(task: nat)
    | GetLock(task: nat)
    | Acquire(task: nat)
    | Release(task: nat)

  predicate Uncommitted(p: Phase) {
    p.Marked? || p.Looked?
  }

  predicate Committed(p: Phase) {
    p.Ingested? || p.Waiting? || p.Dispatching? || p.Finished?
  }

  predicate Begun(p: Phase) {
    p.Dispatching? || p.Finished?
  }

  /** Inserting a key that another open transaction has inserted blocks until that one ends. */
  predicate Blocked(w: World, message: string) {
    exists j :: 0 <= j < |w.tasks| && Uncommitted(w.tasks[j].phase) && w.tasks[j].message == message
  }

  /** The step is one of a task's own. */
  predicate OfTask(s: Step) {
    !s.Deliver? && !s.Enroll?
  }

  predicate Enabled(w: World, s: Step) {
    if s.Deliver? then true
    else if s.Enroll? then s.who !in w.customers
    else
      && s.task < |w.tasks|
      && var p := w.tasks[s.task].phase;
         match s
         case Check(_) => p.Arrived?
         case Mark(_) => p.Checked? && !Blocked(w, w.tasks[s.task].message)
         case Look(_) => p.Marked?
         case Commit(_) => p.Looked?
         case Fail(_) => p.Arrived? || p.Checked? || Uncommitted(p)
         case GetLock(_) => p.Ingested?
         case Acquire(_) => p.Waiting? && p.lock !in w.holder
         case Release(_) => p.Dispatching?
  }

  function Move(w: World, i: nat, p: Phase): World
    requires i < |w.tasks|
  {
    w.(tasks := w.tasks[i := w.tasks[i].(phase := p)])
  }

  /** Everything a task wrote becomes visible at once. */
  function Committing(w: World, i: nat, customer: nat): World
    requires i < |w.tasks|
  {
    Move(w, i, Ingested(customer)).(
      processed := w.processed + {w.tasks[i].message},
      log := w.log + [LogRow(w.tasks[i].message, customer)])
  }

  function Next(w: World, s: Step): World
    requires Enabled(w, s)
  {
    match s
    case Deliver(message, sender) => w.(tasks := w.tasks + [Task(message, sender, Arrived)])
    case Enroll(who) => w.(customers := w.customers[who := |w.customers|], enrolled := w.enrolled + {who})
    case Check(i) => Move(w, i, if w.tasks[i].message in w.processed then Dropped(Duplicate) else Checked)
    case Mark(i) => Move(w, i, if w.tasks[i].message in w.processed then Dropped(LostMessageRace) else Marked)
    case Look(i) =>
      var sender := w.tasks[i].sender;
      Move(w, i, Looked(if sender in w.customers then Some(w.customers[sender]) else None))
    case Commit(i) =>
      var task := w.tasks[i];
      if task.phase.found.Some? then Committing(w, i, task.phase.found.value)
      else if task.sender in w.customers then Move(w, i, Dropped(LostCustomerRace))
      else Committing(w, i, |w.customers|).(customers := w.customers[task.sender := |w.customers|])
    case Fail(i) => Move(w, i, Dropped(Failed))
    case GetLock(i) =>
      var c := w.tasks[i].phase.customer;
      Move(w, i, Waiting(c, WithLock(w.locks, c)[c])).(locks := WithLock(w.locks, c))
    case Acquire(i) =>
      var p := w.tasks[i].phase;
      Move(w, i, Dispatching(p.customer, p.lock)).(
        holder := w.holder[p.lock := i],
        dispatches := w.dispatches + [LogRow(w.tasks[i].message, p.customer)])
    case Release(i) =>
      var p := w.tasks[i].phase;
      Move(w, i, Finished(p.customer)).(holder := w.holder - {p.lock})
  }

  /** The world a schedule leads to, if every step of it can be taken. */
  function Exec(steps: seq<Step>): Option<World> {
    if steps == [] then Some(EMPTY)
    else
      match Exec(steps[..|steps| - 1])
      case Some(w) => if Enabled(w, steps[|steps| - 1]) then Some(Next(w, steps[|steps| - 1])) else None
      case None => None
  }

  // ---------- messages ----------

  predicate Owns(p: Phase) {
    Uncommitted(p) || Committed(p)
  }

  /** A message has one task at most that is past the dedupe check, an open one only while the
      id is not committed, and a committed one only when it is. */
  ghost predicate OneOwner(tasks: seq<Task>, processed: set<string>) {
    && (forall i, j :: 0 <= i < j < |tasks| && Owns(tasks[i].phase) && Owns(tasks[j].phase) ==>
          tasks[i].message != tasks[j].message)
    && (forall i :: 0 <= i < |tasks| && Uncommitted(tasks[i].phase) ==> tasks[i].message !in processed)
    && (forall i :: 0 <= i < |tasks| && Committed(tasks[i].phase) ==> tasks[i].message in processed)
  }

  /** A task's step moves that task; what is committed stays so, and only acquiring begins a turn.
      Tasks add a customer only by committing a message of theirs. */
  lemma MovesOne(w: World, s: Step)
    requires Enabled(w, s) && OfTask(s)
    ensures var w' := Next(w, s);
            && |w'.tasks| == |w.tasks|
            && w'.tasks == w.tasks[s.task := w.tasks[s.task].(phase := w'.tasks[s.task].phase)]
            && (Committed(w.tasks[s.task].phase) ==> Committed(w'.tasks[s.task].phase))
            && (Begun(w'.tasks[s.task].phase) <==> Begun(w.tasks[s.task].phase) || s.Acquire?)
            && w'.enrolled == w.enrolled
  {
    match s {
      case Commit(i) => CommitMoves(w, i);
      case _ =>
    }
  }

  lemma CommitMoves(w: World, i: nat)
    requires Enabled(w, Commit(i))
    ensures var w' := Next(w, Commit(i));
            && |w'.tasks| == |w.tasks|
            && w'.tasks == w.tasks[i := w.tasks[i].(phase := w'.tasks[i].phase)] && !Begun(w'.tasks[i].phase)
            && (w'.customers != w.customers ==>
                  && Committed(w'.tasks[i].phase)
                  && w'.customers == w.customers[w.tasks[i].sender := |w.customers|])
  {
    var task := w.tasks[i];
    if task.phase.found.Some? {
      MoveIs(w, i, Ingested(task.phase.found.value));
    } else if task.sender in w.customers {
      MoveIs(w, i, Dropped(LostCustomerRace));
    } else {
      MoveIs(w, i, Ingested(|w.customers|));
    }
  }

  lemma MoveIs(w: World, i: nat, p: Phase)
    requires i < |w.tasks|
    ensures Move(w, i, p).tasks == w.tasks[i := w.tasks[i].(phase := p)] && Move(w, i, p).tasks[i].phase == p
    ensures Move(w, i, p).customers == w.customers
  {
  }

  /** Nobody owns a message that is not committed and not being inserted. */
  lemma Unowned(w: World, message: string)
    requires OneOwner(w.tasks, w.processed) && !Blocked(w, message) && message !in w.processed
    ensures forall j :: 0 <= j < |w.tasks| && w.tasks[j].message == message ==> !Owns(w.tasks[j].phase)
  {
  }

  lemma AppendKeepsOneOwner(tasks: seq<Task>, processed: set<string>, t: Task)
    requires OneOwner(tasks, processed) && !Owns(t.phase)
    ensures OneOwner(tasks + [t], processed)
  {
  }

  /** Moving one task to a phase that does not change who owns what. */
  lemma MoveKeepsOneOwner(tasks: seq<Task>, processed: set<string>, i: nat, p: Phase)
    requires OneOwner(tasks, processed) && i < |tasks|
    requires || !Owns(p) || Owns(tasks[i].phase)
             || (forall j :: 0 <= j < |tasks| && tasks[j].message == tasks[i].message ==> !Owns(tasks[j].phase))
    requires Uncommitted(p) ==> tasks[i].message !in processed
    requires Committed(p) ==> Committed(tasks[i].phase)
    ensures OneOwner(tasks[i := tasks[i].(phase := p)], processed)
  {
  }

  /** Committing an open task: nobody else has that message open. */
  lemma CommitKeepsOneOwner(tasks: seq<Task>, processed: set<string>, i: nat, p: Phase)
    requires OneOwner(tasks, processed) && i < |tasks| && Uncommitted(tasks[i].phase) && p.Ingested?
    ensures OneOwner(tasks[i := tasks[i].(phase := p)], processed + {tasks[i].message})
  {
  }

  lemma StepKeepsOneOwner(w: World, s: Step)
    requires OneOwner(w.tasks, w.processed) && Enabled(w, s)
    ensures OneOwner(Next(w, s).tasks, Next(w, s).processed)
  {
    if s.Deliver? {
      AppendKeepsOneOwner(w.tasks, w.processed, Task(s.message, s.sender, Arrived));
    } else if OfTask(s) {
      var task, p := w.tasks[s.task], Next(w, s).tasks[s.task].phase;
      assert Next(w, s).tasks == w.tasks[s.task := task.(phase := p)];
      if s.Commit? && p.Ingested? {
        CommitKeepsOneOwner(w.tasks, w.processed, s.task, p);
      } else {
        if s.Mark? && p.Marked? {
          Unowned(w, task.message);
        }
        MoveKeepsOneOwner(w.tasks, w.processed, s.task, p);
      }
    }
  }

  function Count(rows: seq<LogRow>, message: string): nat {
    if rows == [] then 0
    else Count(rows[..|rows| - 1], message) + (if rows[|rows| - 1].message == message then 1 else 0)
  }

  /** It is the number of rows with that message: `counted` says of each place whether it holds one. */
  lemma {:induction false} CountIsNumber(rows: seq<LogRow>, message: string, counted: nat -> bool)
    requires forall k: nat :: k < |rows| ==> (counted(k) <==> rows[k].message == message)
    ensures Count(rows, message) == |set k: nat | k < |rows| && counted(k)|
  {
    if rows != [] {
      CountIsNumber(rows[..|rows| - 1], message, counted);
      OneMoreCounted(|rows| - 1, counted);
    }
  }

  lemma CountSnoc(rows: seq<LogRow>, row: LogRow, message: string)
    ensures Count(rows + [row], message) == Count(rows, message) + (if row.message == message then 1 else 0)
  {
  }

  ghost predicate HasBegun(w: World, message: string) {
    exists i :: 0 <= i < |w.tasks| && w.tasks[i].message == message && Begun(w.tasks[i].phase)
  }

  /** The log holds each committed message once, and no other. */
  ghost predicate LogCounted(log: seq<LogRow>, processed: set<string>) {
    forall m :: Count(log, m) == if m in processed then 1 else 0
  }

  /** And a turn has been begun for a message exactly as often as it has a task that began one. */
  ghost predicate Counted(w: World) {
    && LogCounted(w.log, w.processed)
    && (forall m :: Count(w.dispatches, m) == if HasBegun(w, m) then 1 else 0)
  }

  /** A step changes which tasks have begun only by acquiring. */
  lemma BegunMoves(w: World, s: Step, i: nat)
    requires Enabled(w, s) && i < |Next(w, s).tasks|
    ensures i < |w.tasks| ==> Next(w, s).tasks[i].message == w.tasks[i].message
    ensures Begun(Next(w, s).tasks[i].phase)
       <==> i < |w.tasks| && (Begun(w.tasks[i].phase) || (s.Acquire? && i == s.task))
  {
    if OfTask(s) {
      MovesOne(w, s);
    }
  }

  lemma BegunOnlyByAcquire(w: World, s: Step, m: string)
    requires Enabled(w, s)
    ensures HasBegun(Next(w, s), m) <==> HasBegun(w, m) || (s.Acquire? && w.tasks[s.task].message == m)
  {
    if HasBegun(w, m) {
      var i :| 0 <= i < |w.tasks| && w.tasks[i].message == m && Begun(w.tasks[i].phase);
      BegunMoves(w, s, i);
    }
    if s.Acquire? {
      BegunMoves(w, s, s.task);
    }
    if HasBegun(Next(w, s), m) {
      var i :| 0 <= i < |Next(w, s).tasks| && Next(w, s).tasks[i].message == m && Begun(Next(w, s).tasks[i].phase);
      BegunMoves(w, s, i);
    }
  }

  lemma AcquireIsFirst(w: World, i: nat)
    requires OneOwner(w.tasks, w.processed) && Enabled(w, Acquire(i))
    ensures !HasBegun(w, w.tasks[i].message)
  {
  }

  lemma StepKeepsCounted(w: World, s: Step)
    requires OneOwner(w.tasks, w.processed) && Counted(w) && Enabled(w, s)
    ensures Counted(Next(w, s))
  {
    LogStaysCounted(w, s);
    if s.Acquire? {
      AcquireIsFirst(w, s.task);
    }
    forall m
      ensures Count(Next(w, s).dispatches, m) == if HasBegun(Next(w, s), m) then 1 else 0
    {
      BegunOnlyByAcquire(w, s, m);
      if s.Acquire? {
        CountSnoc(w.dispatches, LogRow(w.tasks[s.task].message, w.tasks[s.task].phase.customer), m);
      }
    }
  }

  lemma CommitStaysCounted(log: seq<LogRow>, processed: set<string>, row: LogRow)
    requires LogCounted(log, processed) && row.message !in processed
    ensures LogCounted(log + [row], processed + {row.message})
  {
  }

  lemma LogStaysCounted(w: World, s: Step)
    requires OneOwner(w.tasks, w.processed) && Enabled(w, s) && LogCounted(w.log, w.processed)
    ensures LogCounted(Next(w, s).log, Next(w, s).processed)
  {
    if s.Commit? && Next(w, s).tasks[s.task].phase.Ingested? {
      CommitStaysCounted(w.log, w.processed, LogRow(w.tasks[s.task].message, Next(w, s).tasks[s.task].phase.customer));
    }
  }

  // ---------- locks ----------

  /** Lock objects are numbered apart. */
  ghost predicate LocksApart(locks: map<nat, nat>) {
    && (forall c :: c in locks ==> locks[c] < |locks|)
    && (forall c, d :: c in locks && d in locks && c != d ==> locks[c] != locks[d])
  }

  lemma WithLockKeepsApart(locks: map<nat, nat>, customer: nat)
    requires LocksApart(locks)
    ensures LocksApart(WithLock(locks, customer)) && customer in WithLock(locks, customer)
    ensures forall c :: c in locks ==> c in WithLock(locks, customer) && WithLock(locks, customer)[c] == locks[c]
  {
  }

  /** Whoever waits for a lock or is inside has its own customer's. */
  ghost predicate OwnLocks(tasks: seq<Task>, locks: map<nat, nat>) {
    forall i :: 0 <= i < |tasks| && (tasks[i].phase.Waiting? || tasks[i].phase.Dispatching?) ==>
      tasks[i].phase.customer in locks && locks[tasks[i].phase.customer] == tasks[i].phase.lock
  }

  /** A task is inside a lock exactly when it is recorded as the holder. */
  ghost predicate Holders(tasks: seq<Task>, holder: map<nat, nat>) {
    && (forall i :: 0 <= i < |tasks| && tasks[i].phase.Dispatching? ==>
          tasks[i].phase.lock in holder && holder[tasks[i].phase.lock] == i)
    && (forall l :: l in holder ==>
          holder[l] < |tasks| && tasks[holder[l]].phase.Dispatching? && tasks[holder[l]].phase.lock == l)
  }

  lemma MoveKeepsOwnLocks(tasks: seq<Task>, locks: map<nat, nat>, i: nat, p: Phase)
    requires OwnLocks(tasks, locks) && i < |tasks|
    requires p.Waiting? || p.Dispatching? ==> p.customer in locks && locks[p.customer] == p.lock
    ensures OwnLocks(tasks[i := tasks[i].(phase := p)], locks)
  {
  }

  lemma WithLockKeepsOwn(tasks: seq<Task>, locks: map<nat, nat>, customer: nat)
    requires LocksApart(locks) && OwnLocks(tasks, locks)
    ensures OwnLocks(tasks, WithLock(locks, customer))
  {
  }

  lemma AppendKeepsOwnLocks(tasks: seq<Task>, locks: map<nat, nat>, t: Task)
    requires OwnLocks(tasks, locks) && t.phase.Arrived?
    ensures OwnLocks(tasks + [t], locks)
  {
  }

  lemma GettingKeepsLocks(w: World, i: nat)
    requires LocksApart(w.locks) && OwnLocks(w.tasks, w.locks) && Enabled(w, GetLock(i))
    ensures LocksApart(Next(w, GetLock(i)).locks) && OwnLocks(Next(w, GetLock(i)).tasks, Next(w, GetLock(i)).locks)
  {
    var c := w.tasks[i].phase.customer;
    var locks := WithLock(w.locks, c);
    WithLockKeepsApart(w.locks, c);
    WithLockKeepsOwn(w.tasks, w.locks, c);
    MoveKeepsOwnLocks(w.tasks, locks, i, Waiting(c, locks[c]));
  }

  lemma StepKeepsLocks(w: World, s: Step)
    requires LocksApart(w.locks) && OwnLocks(w.tasks, w.locks) && Enabled(w, s)
    ensures LocksApart(Next(w, s).locks) && OwnLocks(Next(w, s).tasks, Next(w, s).locks)
  {
    match s {
      case Deliver(message, sender) => AppendKeepsOwnLocks(w.tasks, w.locks, Task(message, sender, Arrived));
      case Enroll(_) =>
      case GetLock(i) => GettingKeepsLocks(w, i);
      case _ =>
        MovesOne(w, s);
        MoveKeepsOwnLocks(w.tasks, w.locks, s.task, Next(w, s).tasks[s.task].phase);
    }
  }

  /** A task outside every lock before and after does not matter. */
  lemma OutsideKeepsHolders(tasks: seq<Task>, holder: map<nat, nat>, i: nat, p: Phase)
    requires Holders(tasks, holder) && i < |tasks| && !tasks[i].phase.Dispatching? && !p.Dispatching?
    ensures Holders(tasks[i := tasks[i].(phase := p)], holder)
  {
  }

  lemma AcquireKeepsHolders(tasks: seq<Task>, holder: map<nat, nat>, i: nat, customer: nat, lock: nat)
    requires Holders(tasks, holder) && i < |tasks| && !tasks[i].phase.Dispatching? && lock !in holder
    ensures Holders(tasks[i := tasks[i].(phase := Dispatching(customer, lock))], holder[lock := i])
  {
  }

  lemma ReleaseKeepsHolders(tasks: seq<Task>, holder: map<nat, nat>, i: nat)
    requires Holders(tasks, holder) && i < |tasks| && tasks[i].phase.Dispatching?
    ensures Holders(tasks[i := tasks[i].(phase := Finished(tasks[i].phase.customer))], holder - {tasks[i].phase.lock})
  {
  }

  lemma StepKeepsHolders(w: World, s: Step)
    requires Holders(w.tasks, w.holder) && Enabled(w, s)
    ensures Holders(Next(w, s).tasks, Next(w, s).holder)
  {
    match s {
      case Deliver(_, _) =>
      case Enroll(_) =>
      case Acquire(i) => AcquireKeepsHolders(w.tasks, w.holder, i, w.tasks[i].phase.customer, w.tasks[i].phase.lock);
      case Release(i) => ReleaseKeepsHolders(w.tasks, w.holder, i);
      case _ =>
        MovesOne(w, s);
        OutsideKeepsHolders(w.tasks, w.holder, s.task, Next(w, s).tasks[s.task].phase);
    }
  }

  ghost predicate CommittedFor(tasks: seq<Task>, sender: Sender) {
    exists i :: 0 <= i < |tasks| && tasks[i].sender == sender && Committed(tasks[i].phase)
  }

  /** A customer row, once there, was written by a task that committed for that sender, or from
      elsewhere. */
  ghost predicate CustomersCommitted(tasks: seq<Task>, customers: map<Sender, nat>, enrolled: set<Sender>) {
    forall s :: s in customers ==> s in enrolled || CommittedFor(tasks, s)
  }

  lemma AppendKeepsCustomers(tasks: seq<Task>, customers: map<Sender, nat>, enrolled: set<Sender>, t: Task)
    requires CustomersCommitted(tasks, customers, enrolled)
    ensures CustomersCommitted(tasks + [t], customers, enrolled)
  {
    forall s | s in customers && s !in enrolled
      ensures CommittedFor(tasks + [t], s)
    {
      var i :| 0 <= i < |tasks| && tasks[i].sender == s && Committed(tasks[i].phase);
      assert (tasks + [t])[i] == tasks[i];
    }
  }

  lemma MoveKeepsCustomers(tasks: seq<Task>, customers: map<Sender, nat>, enrolled: set<Sender>, i: nat, p: Phase)
    requires CustomersCommitted(tasks, customers, enrolled) && i < |tasks|
    requires Committed(tasks[i].phase) ==> Committed(p)
    ensures CustomersCommitted(tasks[i := tasks[i].(phase := p)], customers, enrolled)
  {
    forall s | s in customers && s !in enrolled
      ensures CommittedFor(tasks[i := tasks[i].(phase := p)], s)
    {
      var k :| 0 <= k < |tasks| && tasks[k].sender == s && Committed(tasks[k].phase);
      assert tasks[i := tasks[i].(phase := p)][k].sender == s;
    }
  }

  lemma CommitAddsCustomer(tasks: seq<Task>, customers: map<Sender, nat>, enrolled: set<Sender>, i: nat, id: nat)
    requires CustomersCommitted(tasks, customers, enrolled) && i < |tasks| && Committed(tasks[i].phase)
    ensures CustomersCommitted(tasks, customers[tasks[i].sender := id], enrolled)
  {
    assert CommittedFor(tasks, tasks[i].sender);
  }

  lemma StepKeepsCustomers(w: World, s: Step)
    requires CustomersCommitted(w.tasks, w.customers, w.enrolled) && Enabled(w, s)
    ensures CustomersCommitted(Next(w, s).tasks, Next(w, s).customers, Next(w, s).enrolled)
  {
    if s.Deliver? {
      AppendKeepsCustomers(w.tasks, w.customers, w.enrolled, Task(s.message, s.sender, Arrived));
    } else if OfTask(s) {
      MovesOne(w, s);
      MoveKeepsCustomers(w.tasks, w.customers, w.enrolled, s.task, Next(w, s).tasks[s.task].phase);
      if Next(w, s).customers != w.customers {
        CommitMoves(w, s.task);
        CommitAddsCustomer(Next(w, s).tasks, w.customers, w.enrolled, s.task, |w.customers|);
      }
    }
  }

  // ---------- whose customer it is ----------

  /** The customer a task has found or committed for. */
  function CustomerOf(p: Phase): Option<nat> {
    match p
    case Looked(found) => found
    case Ingested(customer) => Some(customer)
    case Waiting(customer, _) => Some(customer)
    case Dispatching(customer, _) => Some(customer)
    case Finished(customer) => Some(customer)
    case _ => None
  }

  ghost predicate IsSenders(customers: map<Sender, nat>, sender: Sender, customer: nat) {
    sender in customers && customers[sender] == customer
  }

  /** A task's customer is its sender's. */
  ghost predicate OwnCustomers(tasks: seq<Task>, customers: map<Sender, nat>) {
    forall i :: 0 <= i < |tasks| && CustomerOf(tasks[i].phase).Some? ==>
      IsSenders(customers, tasks[i].sender, CustomerOf(tasks[i].phase).value)
  }

  /** Different senders are different customers. */
  ghost predicate CustomersApart(customers: map<Sender, nat>) {
    && (forall s :: s in customers ==> customers[s] < |customers|)
    && (forall s, t :: s in customers && t in customers && s != t ==> customers[s] != customers[t])
  }

  lemma NewCustomerKeepsOwn(tasks: seq<Task>, customers: map<Sender, nat>, who: Sender)
    requires OwnCustomers(tasks, customers) && CustomersApart(customers) && who !in customers
    ensures OwnCustomers(tasks, customers[who := |customers|]) && CustomersApart(customers[who := |customers|])
  {
  }

  lemma MoveKeepsOwnCustomers(tasks: seq<Task>, customers: map<Sender, nat>, i: nat, p: Phase)
    requires OwnCustomers(tasks, customers) && i < |tasks|
    requires CustomerOf(p).Some? ==> IsSenders(customers, tasks[i].sender, CustomerOf(p).value)
    ensures OwnCustomers(tasks[i := tasks[i].(phase := p)], customers)
  {
  }

  lemma CommitKeepsOwnCustomers(w: World, i: nat)
    requires OwnCustomers(w.tasks, w.customers) && CustomersApart(w.customers) && Enabled(w, Commit(i))
    ensures var w' := Next(w, Commit(i)); OwnCustomers(w'.tasks, w'.customers) && CustomersApart(w'.customers)
  {
    var task := w.tasks[i];
    if task.phase.found.Some? {
      MoveKeepsOwnCustomers(w.tasks, w.customers, i, Ingested(task.phase.found.value));
    } else if task.sender in w.customers {
      MoveKeepsOwnCustomers(w.tasks, w.customers, i, Dropped(LostCustomerRace));
    } else {
      NewCustomerKeepsOwn(w.tasks, w.customers, task.sender);
      MoveKeepsOwnCustomers(w.tasks, w.customers[task.sender := |w.customers|], i, Ingested(|w.customers|));
    }
  }

  /** Apart from looking and committing, a step keeps a task's customer or drops the task. */
  lemma CustomerStays(w: World, s: Step)
    requires Enabled(w, s) && OfTask(s) && !s.Look? && !s.Commit?
    ensures var w' := Next(w, s);
            && w'.customers == w.customers
            && CustomerOf(w'.tasks[s.task].phase) in {None, CustomerOf(w.tasks[s.task].phase)}
  {
  }

  lemma StepKeepsOwnCustomers(w: World, s: Step)
    requires OwnCustomers(w.tasks, w.customers) && CustomersApart(w.customers) && Enabled(w, s)
    ensures OwnCustomers(Next(w, s).tasks, Next(w, s).customers) && CustomersApart(Next(w, s).customers)
  {
    match s {
      case Deliver(_, _) =>
      case Enroll(who) => NewCustomerKeepsOwn(w.tasks, w.customers, who);
      case Commit(i) => CommitKeepsOwnCustomers(w, i);
      case Look(i) =>
        MovesOne(w, s);
        MoveKeepsOwnCustomers(w.tasks, w.customers, i, Next(w, s).tasks[i].phase);
      case _ =>
        MovesOne(w, s);
        CustomerStays(w, s);
        MoveKeepsOwnCustomers(w.tasks, w.customers, s.task, Next(w, s).tasks[s.task].phase);
    }
  }

  /** The row carries the message of a committed task, and that task's sender's customer. */
  ghost predicate RowFits(row: LogRow, tasks: seq<Task>, customers: map<Sender, nat>) {
    exists i :: && 0 <= i < |tasks| && tasks[i].message == row.message && Committed(tasks[i].phase)
                && IsSenders(customers, tasks[i].sender, row.customer)
  }

  ghost predicate RowsFit(rows: seq<LogRow>, tasks: seq<Task>, customers: map<Sender, nat>) {
    forall k :: 0 <= k < |rows| ==> RowFits(rows[k], tasks, customers)
  }

  /** Tasks keep what they are and stay committed; customers stay who they are. */
  ghost predicate Grows(tasks: seq<Task>, customers: map<Sender, nat>, tasks': seq<Task>,
                        customers': map<Sender, nat>)
  {
    && |tasks| <= |tasks'|
    && (forall i :: 0 <= i < |tasks| ==>
          && tasks'[i].message == tasks[i].message && tasks'[i].sender == tasks[i].sender
          && (Committed(tasks[i].phase) ==> Committed(tasks'[i].phase)))
    && (forall s :: s in customers ==> IsSenders(customers', s, customers[s]))
  }

  lemma StepGrows(w: World, s: Step)
    requires Enabled(w, s)
    ensures Grows(w.tasks, w.customers, Next(w, s).tasks, Next(w, s).customers)
  {
    if OfTask(s) {
      MovesOne(w, s);
      if s.Commit? {
        CommitMoves(w, s.task);
      } else if !s.Look? {
        CustomerStays(w, s);
      }
    }
  }

  lemma RowsStillFit(rows: seq<LogRow>, tasks: seq<Task>, customers: map<Sender, nat>,
                     tasks': seq<Task>, customers': map<Sender, nat>)
    requires RowsFit(rows, tasks, customers) && Grows(tasks, customers, tasks', customers')
    ensures RowsFit(rows, tasks', customers')
  {
    forall k | 0 <= k < |rows|
      ensures RowFits(rows[k], tasks', customers')
    {
      assert RowFits(rows[k], tasks, customers);
      var i :| && 0 <= i < |tasks| && tasks[i].message == rows[k].message && Committed(tasks[i].phase)
               && IsSenders(customers, tasks[i].sender, rows[k].customer);
      assert tasks'[i].message == rows[k].message;
    }
  }

  /** A row that a step writes is for the task that takes the step. */
  lemma RowsWritten(w: World, s: Step)
    requires Enabled(w, s)
    ensures var w' := Next(w, s);
            w'.log == w.log ||
            (s.Commit? && Committed(w'.tasks[s.task].phase) && w'.log == w.log + [RowOf(w'.tasks[s.task])])
    ensures var w' := Next(w, s);
            w'.dispatches == w.dispatches ||
            (&& s.Acquire? && Committed(w'.tasks[s.task].phase)
             && w'.dispatches == w.dispatches + [RowOf(w'.tasks[s.task])])
  {
    if s.Commit? {
      CommitMoves(w, s.task);
    }
  }

  function RowOf(task: Task): LogRow
    requires Committed(task.phase)
  {
    LogRow(task.message, CustomerOf(task.phase).value)
  }

  lemma OwnRowFits(tasks: seq<Task>, customers: map<Sender, nat>, i: nat, rows: seq<LogRow>)
    requires OwnCustomers(tasks, customers) && i < |tasks| && Committed(tasks[i].phase)
    requires RowsFit(rows, tasks, customers)
    ensures RowsFit(rows + [RowOf(tasks[i])], tasks, customers)
  {
    assert RowFits(RowOf(tasks[i]), tasks, customers);
  }

  lemma StepKeepsRows(w: World, s: Step)
    requires OwnCustomers(w.tasks, w.customers) && CustomersApart(w.customers) && Enabled(w, s)
    requires RowsFit(w.log, w.tasks, w.customers) && RowsFit(w.dispatches, w.tasks, w.customers)
    ensures var w' := Next(w, s);
            RowsFit(w'.log, w'.tasks, w'.customers) && RowsFit(w'.dispatches, w'.tasks, w'.customers)
  {
    var w' := Next(w, s);
    StepGrows(w, s);
    RowsStillFit(w.log, w.tasks, w.customers, w'.tasks, w'.customers);
    RowsStillFit(w.dispatches, w.tasks, w.customers, w'.tasks, w'.customers);
    StepKeepsOwnCustomers(w, s);
    RowsWritten(w, s);
    if s.Commit? && Committed(w'.tasks[s.task].phase) {
      OwnRowFits(w'.tasks, w'.customers, s.task, w.log);
    }
    if s.Acquire? {
      OwnRowFits(w'.tasks, w'.customers, s.task, w.dispatches);
    }
  }
}
