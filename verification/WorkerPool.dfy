/** The worker pool of one outbox poll, as interleaved steps of the dispatching
    loop and of the goroutines it starts. */
module WorkerPool {
  import opened Basics

  /** Capacity of the channel that bounds the goroutines. */
  const MAX_GOROUTINES: nat := 20

  /** Where the goroutine of one message stands. `ok` is the outcome of its
      dispatch; a header that cannot be decoded counts as a failed dispatch. */
  datatype Worker =
    | NotStarted
    | Dispatching
    | Classifying(ok: bool)                     // about to lock the mutex
    | Locked(ok: bool)                          // holds the mutex
    | Loaded(ok: bool, copy: seq<nat>)          // has read the list it appends to
    | Stored(ok: bool)                          // has written the list back
    | Unlocked(ok: bool)
    | SlotFreed(ok: bool)
    | Finished(ok: bool)
  {
    predicate Started() { !NotStarted? }

    /** The goroutine occupies one place of the channel. */
    predicate HoldsSlot() { Started() && !SlotFreed? && !Finished? }

    /** The wait group still counts the goroutine. */
    predicate Counted() { Started() && !Finished? }

    predicate Critical() { Locked? || Loaded? || Stored? }

    /** The goroutine has appended its message to one of the two lists. */
    predicate Recorded() { Stored? || Unlocked? || SlotFreed? || Finished? }

    /** Steps that the goroutine and the loop still have to take for its message. */
    function Rank(): nat {
      match this
      case NotStarted => 9
      case Dispatching => 7
      case Classifying(_) => 6
      case Locked(_) => 5
      case Loaded(_, _) => 4
      case Stored(_) => 3
      case Unlocked(_) => 2
      case SlotFreed(_) => 1
      case Finished(_) => 0
    }
  }

  /** The dispatching loop: at the channel send (or, past the last message, at
      the wait), between the send and the start of the goroutine, or returned. */
  datatype Main = Sending | Starting | Returned

  datatype Pool = Pool(
    ids: seq<nat>,
    main: Main,
    next: nat,
    slots: nat,
    counter: nat,
    mutex: Option<nat>,
    workers: seq<Worker>,
    sent: seq<nat>,
    failed: seq<nat>
  )

  datatype Action =
    | Acquire
    | Start
    | Dispatch(i: nat, ok: bool)
    | Lock(i: nat)
    | Load(i: nat)
    | Store(i: nat)
    | Unlock(i: nat)
    | FreeSlot(i: nat)
    | Done(i: nat)
    | Return

  function Initial(ids: seq<nat>): Pool {
    Pool(ids, Sending, 0, 0, 0, None, seq(|ids|, _ => NotStarted), [], [])
  }

  predicate Enabled(p: Pool, a: Action) {
    match a
    case Acquire => p.main == Sending && p.next < |p.ids| && p.slots < MAX_GOROUTINES
    case Start => p.main == Starting && p.next < |p.workers|
    case Dispatch(i, _) => i < |p.workers| && p.workers[i].Dispatching?
    case Lock(i) => i < |p.workers| && p.workers[i].Classifying? && p.mutex == None
    case Load(i) => i < |p.workers| && p.workers[i].Locked?
    case Store(i) => i < |p.workers| && i < |p.ids| && p.workers[i].Loaded?
    case Unlock(i) => i < |p.workers| && p.workers[i].Stored?
    case FreeSlot(i) => i < |p.workers| && p.workers[i].Unlocked? && 0 < p.slots
    case Done(i) => i < |p.workers| && p.workers[i].SlotFreed? && 0 < p.counter
    case Return => p.main == Sending && p.next == |p.ids| && p.counter == 0
  }

  function Apply(p: Pool, a: Action): Pool
    requires Enabled(p, a)
  {
    match a
    case Acquire => p.(main := Starting, slots := p.slots + 1)
    case Start =>
      p.(main := Sending, next := p.next + 1, counter := p.counter + 1,
         workers := p.workers[p.next := Dispatching])
    case Dispatch(i, ok) => p.(workers := p.workers[i := Classifying(ok)])
    case Lock(i) => p.(mutex := Some(i), workers := p.workers[i := Worker.Locked(p.workers[i].ok)])
    case Load(i) =>
      var ok := p.workers[i].ok;
      p.(workers := p.workers[i := Loaded(ok, if ok then p.sent else p.failed)])
    case Store(i) =>
      var w := p.workers[i];
      var grown := w.copy + [p.ids[i]];
      var q := p.(workers := p.workers[i := Stored(w.ok)]);
      if w.ok then q.(sent := grown) else q.(failed := grown)
    case Unlock(i) => p.(mutex := None, workers := p.workers[i := Unlocked(p.workers[i].ok)])
    case FreeSlot(i) => p.(slots := p.slots - 1, workers := p.workers[i := SlotFreed(p.workers[i].ok)])
    case Done(i) => p.(counter := p.counter - 1, workers := p.workers[i := Finished(p.workers[i].ok)])
    case Return => p.(main := Returned)
  }

  // ---------------------------------------------------------------- counting

  function Holding(ws: seq<Worker>): nat {
    if ws == [] then 0 else (if ws[0].HoldsSlot() then 1 else 0) + Holding(ws[1..])
  }

  function Live(ws: seq<Worker>): nat {
    if ws == [] then 0 else (if ws[0].Counted() then 1 else 0) + Live(ws[1..])
  }

  function Ranks(ws: seq<Worker>): nat {
    if ws == [] then 0 else ws[0].Rank() + Ranks(ws[1..])
  }

  lemma {:induction false} Replace(ws: seq<Worker>, i: nat, w: Worker)
    requires i < |ws|
    ensures Holding(ws[i := w]) + (if ws[i].HoldsSlot() then 1 else 0) == Holding(ws) + (if w.HoldsSlot() then 1 else 0)
    ensures Live(ws[i := w]) + (if ws[i].Counted() then 1 else 0) == Live(ws) + (if w.Counted() then 1 else 0)
    ensures Ranks(ws[i := w]) + ws[i].Rank() == Ranks(ws) + w.Rank()
  {
    if i == 0 {
      assert ws[i := w][1..] == ws[1..];
    } else {
      assert ws[i := w][1..] == ws[1..][i - 1 := w];
      Replace(ws[1..], i - 1, w);
    }
  }

  lemma {:induction false} FreshCounts(ws: seq<Worker>)
    requires forall i :: 0 <= i < |ws| ==> ws[i] == NotStarted
    ensures Holding(ws) == 0 && Live(ws) == 0 && Ranks(ws) == 9 * |ws|
  {
    if ws != [] {
      FreshCounts(ws[1..]);
    }
  }

  lemma {:induction false} SomeHolder(ws: seq<Worker>) returns (i: nat)
    requires 0 < Holding(ws)
    ensures i < |ws| && ws[i].HoldsSlot()
  {
    if ws[0].HoldsSlot() {
      i := 0;
    } else {
      i := SomeHolder(ws[1..]);
      i := i + 1;
    }
  }

  lemma {:induction false} SomeCounted(ws: seq<Worker>) returns (i: nat)
    requires 0 < Live(ws)
    ensures i < |ws| && ws[i].Counted()
  {
    if ws[0].Counted() {
      i := 0;
    } else {
      i := SomeCounted(ws[1..]);
      i := i + 1;
    }
  }

  lemma {:induction false} NoneCounted(ws: seq<Worker>, i: nat)
    requires Live(ws) == 0
    requires i < |ws|
    ensures !ws[i].Counted()
  {
    if i > 0 {
      NoneCounted(ws[1..], i - 1);
    }
  }

  lemma {:induction false} HoldersCounted(ws: seq<Worker>, i: nat)
    requires i < |ws|
    ensures ws[i].HoldsSlot() ==> 0 < Holding(ws)
    ensures ws[i].Counted() ==> 0 < Live(ws)
  {
    if i > 0 {
      HoldersCounted(ws[1..], i - 1);
    }
  }

  // --------------------------------------------------------------- invariant

  /** Bookkeeping of the channel, the wait group and the loop. */
  ghost predicate CountersAgree(p: Pool) {
    && |p.workers| == |p.ids|
    && p.next <= |p.ids|
    && (forall i :: 0 <= i < |p.ids| ==> (p.workers[i].Started() <==> i < p.next))
    && p.slots == Holding(p.workers) + (if p.main == Starting then 1 else 0)
    && p.slots <= MAX_GOROUTINES
    && p.counter == Live(p.workers)
    && (p.main == Starting ==> p.next < |p.ids|)
    && (p.main == Returned ==> p.next == |p.ids| && p.counter == 0)
  }

  /** At most one goroutine is inside the mutex, and a list read inside it is current. */
  ghost predicate MutexHeld(p: Pool) {
    && |p.workers| == |p.ids|
    && (forall i :: 0 <= i < |p.ids| ==> (p.workers[i].Critical() <==> p.mutex == Some(i)))
    && (p.mutex.Some? ==> p.mutex.value < |p.ids|)
    && (forall i :: 0 <= i < |p.ids| && p.workers[i].Loaded? ==>
          p.workers[i].copy == if p.workers[i].ok then p.sent else p.failed)
  }

  /** Each list holds exactly the recorded messages of its outcome, once. */
  ghost predicate ListsExact(p: Pool) {
    && |p.workers| == |p.ids|
    && NoDup(p.sent) && NoDup(p.failed)
    && (forall x :: x in p.sent ==> x in p.ids)
    && (forall x :: x in p.failed ==> x in p.ids)
    && (forall i :: 0 <= i < |p.ids| ==> (p.ids[i] in p.sent <==> p.workers[i].Recorded() && p.workers[i].ok))
    && (forall i :: 0 <= i < |p.ids| ==> (p.ids[i] in p.failed <==> p.workers[i].Recorded() && !p.workers[i].ok))
  }

  ghost predicate Inv(p: Pool) {
    NoDup(p.ids) && CountersAgree(p) && MutexHeld(p) && ListsExact(p)
  }

  /** Steps left until the loop has returned. */
  function Measure(p: Pool): nat {
    Ranks(p.workers) + if p.main == Sending then 1 else 0
  }

  lemma InitialInv(ids: seq<nat>)
    requires NoDup(ids)
    ensures Inv(Initial(ids)) && Measure(Initial(ids)) == 9 * |ids| + 1
  {
    FreshCounts(Initial(ids).workers);
  }

  function Moved(p: Pool, a: Action): nat
    requires Enabled(p, a)
  {
    match a
    case Acquire => 0
    case Return => 0
    case Start => p.next
    case Dispatch(i, _) => i
    case Lock(i) => i
    case Load(i) => i
    case Store(i) => i
    case Unlock(i) => i
    case FreeSlot(i) => i
    case Done(i) => i
  }

  /** A goroutine's own step. */
  lemma WorkerCounters(p: Pool, q: Pool, i: nat)
    requires CountersAgree(p) && i < |p.ids| && |q.workers| == |p.workers|
    requires q.ids == p.ids && q.main == p.main && q.next == p.next
    requires q.workers == p.workers[i := q.workers[i]]
    requires p.workers[i].Started() && q.workers[i].Started()
    requires q.workers[i].Rank() + 1 == p.workers[i].Rank()
    requires q.slots == p.slots - (if p.workers[i].HoldsSlot() && !q.workers[i].HoldsSlot() then 1 else 0)
    requires q.counter == p.counter - (if p.workers[i].Counted() && !q.workers[i].Counted() then 1 else 0)
    ensures CountersAgree(q)
    ensures Measure(q) == Measure(p) - 1
  {
    Replace(p.workers, i, q.workers[i]);
  }

  lemma WorkerStep(p: Pool, a: Action)
    requires Enabled(p, a) && !a.Acquire? && !a.Start? && !a.Return?
    ensures var q, i := Apply(p, a), Moved(p, a);
            && q.ids == p.ids && q.main == p.main && q.next == p.next
            && i < |p.workers| && q.workers == p.workers[i := q.workers[i]]
            && p.workers[i].Started() && q.workers[i].Started()
            && q.workers[i].Rank() + 1 == p.workers[i].Rank()
            && q.slots == p.slots - (if p.workers[i].HoldsSlot() && !q.workers[i].HoldsSlot() then 1 else 0)
            && q.counter == p.counter - (if p.workers[i].Counted() && !q.workers[i].Counted() then 1 else 0)
  {
  }

  lemma StepCounters(p: Pool, a: Action)
    requires Inv(p) && Enabled(p, a)
    ensures CountersAgree(Apply(p, a))
    ensures Measure(Apply(p, a)) == Measure(p) - 1
  {
    if a.Start? {
      Replace(p.workers, p.next, Dispatching);
    } else if !a.Acquire? && !a.Return? {
      WorkerStep(p, a);
      WorkerCounters(p, Apply(p, a), Moved(p, a));
    }
  }

  /** A step outside the critical section and away from its borders. */
  lemma OutsideMutex(p: Pool, q: Pool)
    requires MutexHeld(p) && q.ids == p.ids && |q.workers| == |p.workers|
    requires q.mutex == p.mutex && q.sent == p.sent && q.failed == p.failed
    requires forall i :: 0 <= i < |p.ids| ==>
               p.workers[i] == q.workers[i] || (!p.workers[i].Critical() && !q.workers[i].Critical())
    ensures MutexHeld(q)
  {
  }

  /** The steps that take, use and release the mutex. */
  lemma InsideMutex(p: Pool, a: Action)
    requires MutexHeld(p) && Enabled(p, a) && (a.Lock? || a.Load? || a.Store? || a.Unlock?)
    ensures MutexHeld(Apply(p, a))
  {
  }

  lemma StepMutex(p: Pool, a: Action)
    requires Inv(p) && Enabled(p, a)
    ensures MutexHeld(Apply(p, a))
  {
    if a.Lock? || a.Load? || a.Store? || a.Unlock? {
      InsideMutex(p, a);
    } else {
      OutsideMutex(p, Apply(p, a));
    }
  }

  lemma Append(ids: seq<nat>, list: seq<nat>, i: nat)
    requires NoDup(ids) && NoDup(list) && i < |ids| && ids[i] !in list
    requires forall x :: x in list ==> x in ids
    ensures NoDup(list + [ids[i]])
    ensures forall x :: x in list + [ids[i]] ==> x in ids
    ensures forall j :: 0 <= j < |ids| ==> (ids[j] in list + [ids[i]] <==> ids[j] in list || j == i)
  {
    NoDupSnoc(list, ids[i]);
  }

  lemma StoreLists(p: Pool, i: nat)
    requires Inv(p) && Enabled(p, Store(i))
    ensures ListsExact(Apply(p, Store(i)))
  {
    Append(p.ids, p.workers[i].copy, i);
  }

  /** A step that records nothing. */
  lemma SameLists(p: Pool, q: Pool)
    requires ListsExact(p) && |q.workers| == |p.workers|
    requires q.ids == p.ids && q.sent == p.sent && q.failed == p.failed
    requires forall i :: 0 <= i < |p.ids| ==>
               p.workers[i] == q.workers[i] ||
               (p.workers[i].Recorded() && q.workers[i].Recorded() && p.workers[i].ok == q.workers[i].ok) ||
               (!p.workers[i].Recorded() && !q.workers[i].Recorded())
    ensures ListsExact(q)
  {
  }

  lemma StepLists(p: Pool, a: Action)
    requires Inv(p) && Enabled(p, a)
    ensures ListsExact(Apply(p, a))
  {
    if a.Store? {
      StoreLists(p, a.i);
    } else {
      SameLists(p, Apply(p, a));
    }
  }

  /** Every step keeps the invariant and uses up exactly one of the remaining steps. */
  lemma StepInv(p: Pool, a: Action)
    requires Inv(p) && Enabled(p, a)
    ensures Inv(Apply(p, a))
    ensures Measure(Apply(p, a)) == Measure(p) - 1
  {
    StepCounters(p, a);
    StepMutex(p, a);
    StepLists(p, a);
  }

  // ---------------------------------------------------------------- progress

  lemma CanMove(p: Pool, i: nat) returns (a: Action)
    requires Inv(p)
    requires i < |p.ids| && p.workers[i].Counted()
    ensures Enabled(p, a)
  {
    HoldersCounted(p.workers, i);
    var j := if p.workers[i].Classifying? && p.mutex.Some? then p.mutex.value else i;
    match p.workers[j]
    case Dispatching => a := Dispatch(j, true);
    case Classifying(_) => a := Lock(j);
    case Locked(_) => a := Load(j);
    case Loaded(_, _) => a := Store(j);
    case Stored(_) => a := Unlock(j);
    case Unlocked(_) => a := FreeSlot(j);
    case SlotFreed(_) => a := Done(j);
  }

  /** No deadlock: unless the loop has returned, some step is possible. */
  lemma Progress(p: Pool) returns (a: Action)
    requires Inv(p) && p.main != Returned
    ensures Enabled(p, a)
  {
    if p.main == Starting {
      a := Start;
    } else if p.next < |p.ids| && p.slots < MAX_GOROUTINES {
      a := Acquire;
    } else if p.next < |p.ids| {
      var i := SomeHolder(p.workers);
      a := CanMove(p, i);
    } else if p.counter == 0 {
      a := Return;
    } else {
      var i := SomeCounted(p.workers);
      a := CanMove(p, i);
    }
  }

  // -------------------------------------------------------------------- runs

  /** `actions` is a possible interleaving from `p`. */
  ghost predicate IsRun(p: Pool, actions: seq<Action>)
    decreases |actions|
  {
    actions == [] || (Enabled(p, actions[0]) && IsRun(Apply(p, actions[0]), actions[1..]))
  }

  ghost function Outcome(p: Pool, actions: seq<Action>): Pool
    requires IsRun(p, actions)
    decreases |actions|
  {
    if actions == [] then p else Outcome(Apply(p, actions[0]), actions[1..])
  }

  lemma {:induction false} RunInv(p: Pool, actions: seq<Action>)
    requires Inv(p) && IsRun(p, actions)
    ensures Inv(Outcome(p, actions))
    ensures Measure(Outcome(p, actions)) + |actions| == Measure(p)
    ensures Outcome(p, actions).ids == p.ids
    decreases |actions|
  {
    if actions != [] {
      StepInv(p, actions[0]);
      RunInv(Apply(p, actions[0]), actions[1..]);
    }
  }

  /** What the two lists are when the loop has returned. */
  ghost predicate Partitioned(ids: seq<nat>, sent: seq<nat>, failed: seq<nat>) {
    && NoDup(sent) && NoDup(failed)
    && (forall x :: x in ids <==> x in sent || x in failed)
    && (forall x :: !(x in sent && x in failed))
  }

  lemma ReturnedPartition(p: Pool)
    requires Inv(p) && p.main == Returned
    ensures Partitioned(p.ids, p.sent, p.failed)
    ensures forall i :: 0 <= i < |p.ids| ==> p.workers[i].Finished?
    ensures forall i :: 0 <= i < |p.ids| ==> (p.ids[i] in p.sent <==> p.workers[i].ok)
    ensures Measure(p) == 0
  {
    forall i | 0 <= i < |p.ids| ensures p.workers[i].Finished? {
      NoneCounted(p.workers, i);
    }
    AllFinished(p.workers);
  }

  lemma {:induction false} AllFinished(ws: seq<Worker>)
    requires forall i :: 0 <= i < |ws| ==> ws[i].Finished?
    ensures Ranks(ws) == 0
  {
    if ws != [] {
      AllFinished(ws[1..]);
    }
  }

  /** Every interleaving, with any outcomes: at most 20 goroutines hold a
      slot, the run can go on unless the loop has returned, and it has returned
      exactly when 9n + 1 steps are taken, with both lists exact. */
  lemma PoolCorrect(ids: seq<nat>, actions: seq<Action>)
    requires NoDup(ids)
    requires IsRun(Initial(ids), actions)
    ensures var p := Outcome(Initial(ids), actions);
            && Holding(p.workers) <= 20
            && |actions| <= 9 * |ids| + 1
            && (p.main == Returned <==> |actions| == 9 * |ids| + 1)
            && (p.main != Returned ==> exists a :: Enabled(p, a))
            && (p.main == Returned ==> Partitioned(ids, p.sent, p.failed))
  {
    InitialInv(ids);
    RunInv(Initial(ids), actions);
    var p := Outcome(Initial(ids), actions);
    if p.main == Returned {
      ReturnedPartition(p);
    } else {
      var a := Progress(p);
      StepInv(p, a);
    }
  }
}
