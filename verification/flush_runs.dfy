/**
 Flushing as a transition system: the steps of `flush_all_pending` and `flush_intent` between which other processes
 may add, remove, clear or recover intents, and at any of which the flushing process may crash.
 */
module FlushRuns {
  import opened Store

  // ---------------------------------------------------------------- states

  /** Where the flushing process stands; `id` is the intent in hand. */
  datatype Phase =
    | Ready                             // between two intents
    | Dispatching(id: string)           // status set to sending, nothing sent yet
    | Dispatched(id: string)            // sent, attempt not counted yet
    | Erred(id: string)                 // dispatch raised, attempt not counted yet
    | ErrCounted(id: string)            // counted, status not read yet
    | ErrRead(id: string, status: Status)  // status read, about to be written back with the error
    | Waiting(id: string)               // counted, waiting for the result
    | Replied(id: string)               // a failure or no result, status not read yet
    | Requeue(id: string)               // status read and not failed, about to become pending

  datatype Flush = Idle | Running(queue: seq<string>, phase: Phase)

  /** What has happened to one id since it was added: messages sent, dispatches that raised, and attempts of either
      kind that a crash kept from being counted. */
  datatype Ledger = Ledger(limit: nat, dispatched: nat, erred: nat, lost: nat)

  datatype System = System(store: seq<Intent>, flush: Flush, ledger: map<string, Ledger>, crashes: nat)

  datatype Step =
    | Add(x: Intent)
    | Remove(gone: string)
    | Clear(status: Option<Status>)
    | Recover
    | Start
    | Skip
    | Begin
    | Dispatch
    | WrongPassphrase(error: string)
    | Raise
    | CountRaised
    | ReadRaised
    | WriteRaised(error: string)
    | Count
    | Succeed(txHash: string)
    | FailReply
    | ReadReply
    | WritePending(error: string)
    | Finish
    | Crash

  const INITIAL := System([], Idle, map[], 0)

  function Ids(xs: seq<Intent>): (ids: seq<string>)
    ensures |ids| == |xs|
  {
    seq(|xs|, i requires 0 <= i < |xs| => xs[i].id)
  }

  predicate InFlight(flush: Flush, id: string) {
    flush.Running? && (flush.phase == Dispatched(id) || flush.phase == Erred(id))
  }

  function CurrentId(flush: Flush): Option<string> {
    if flush.Running? && !flush.phase.Ready? then Some(flush.phase.id) else None
  }

  // ---------------------------------------------------------------- steps

  /** One step; a step that is not possible in the state changes nothing. */
  function Next(s: System, step: Step): System {
    match step
    case Add(x) =>
      if x.id !in s.ledger && x.status == Pending && x.attempts == 0 && x.maxAttempts > 0 && !IsDuplicate(s.store, x)
      then s.(store := s.store + [x], ledger := s.ledger[x.id := Ledger(x.maxAttempts, 0, 0, 0)]) else s
    case Remove(gone) => s.(store := Filter(s.store, (x: Intent) => x.id != gone))
    case Clear(status) => s.(store := Filter(s.store, (x: Intent) => status.Some? && x.status != status.value))
    case Recover => s.(store := Recovered(s.store))
    case Start => if s.flush.Idle? then s.(flush := Running(Ids(PendingOf(s.store)), Ready)) else s
    case Crash =>
      if s.flush.Idle? then s
      else
        var losing := s.flush.phase.Dispatched? || s.flush.phase.Erred?;
        var ledger := if losing && s.flush.phase.id in s.ledger
                      then Charged(s.ledger, s.flush.phase.id, 0, 0, 1) else s.ledger;
        System(s.store, Idle, ledger, s.crashes + 1)
    case _ => if s.flush.Running? then FlushStep(s, step) else s
  }

  function Charged(ledger: map<string, Ledger>, id: string, dispatched: nat, erred: nat, lost: nat): map<string, Ledger>
    requires id in ledger
  {
    var l := ledger[id];
    ledger[id := Ledger(l.limit, l.dispatched + dispatched, l.erred + erred, l.lost + lost)]
  }

  function Moved(s: System, phase: Phase): System
    requires s.flush.Running?
  {
    s.(flush := Running(s.flush.queue, phase))
  }

  function FlushStep(s: System, step: Step): System
    requires s.flush.Running?
  {
    var queue := s.flush.queue;
    match (s.flush.phase, step)
    case (Ready, Skip) => if queue == [] then s else s.(flush := Running(queue[1..], Ready))
    case (Ready, Finish) => s.(flush := Idle)
    case (Ready, Begin) =>
      if queue == [] then s
      else s.(store := StatusUpdated(s.store, queue[0], Sending, None, None),
              flush := Running(queue[1..], Dispatching(queue[0])))
    case (Dispatching(id), Dispatch) =>
      if id in s.ledger then Moved(s.(ledger := Charged(s.ledger, id, 1, 0, 0)), Dispatched(id)) else s
    case (Dispatching(id), WrongPassphrase(error)) =>
      Moved(s.(store := StatusUpdated(s.store, id, Pending, Some(error), None)), Ready)
    case (Dispatching(id), Raise) =>
      if id in s.ledger then Moved(s.(ledger := Charged(s.ledger, id, 0, 1, 0)), Erred(id)) else s
    case (Erred(id), CountRaised) => Moved(s.(store := AttemptCounted(s.store, id)), ErrCounted(id))
    case (ErrCounted(id), ReadRaised) =>
      var current := Lookup(s.store, id);
      Moved(s, ErrRead(id, if current.Some? then current.value.status else Pending))
    case (ErrRead(id, status), WriteRaised(error)) =>
      Moved(s.(store := StatusUpdated(s.store, id, status, Some(error), None)), Ready)
    case (Dispatched(id), Count) => Moved(s.(store := AttemptCounted(s.store, id)), Waiting(id))
    case (Waiting(id), Succeed(txHash)) =>
      Moved(s.(store := StatusUpdated(s.store, id, Sent, None, Some(txHash))), Ready)
    case (Waiting(id), FailReply) => Moved(s, Replied(id))
    case (Replied(id), ReadReply) =>
      var current := Lookup(s.store, id);
      Moved(s, if current.Some? && current.value.status != Failed then Requeue(id) else Ready)
    case (Requeue(id), WritePending(error)) =>
      Moved(s.(store := StatusUpdated(s.store, id, Pending, Some(error), None)), Ready)
    case _ => s
  }

  function From(s: System, steps: seq<Step>): System {
    if steps == [] then s else Next(From(s, steps[..|steps| - 1]), steps[|steps| - 1])
  }

  lemma FromMore(s: System, steps: seq<Step>, step: Step)
    ensures From(s, steps + [step]) == Next(From(s, steps), step)
  {
    assert (steps + [step])[..|steps|] == steps;
  }

  function Run(steps: seq<Step>): System {
    From(INITIAL, steps)
  }

  // ---------------------------------------------------------------- the invariant

  ghost predicate Distinct(xs: seq<Intent>) {
    forall i, j :: 0 <= i < j < |xs| ==> xs[i].id != xs[j].id
  }

  ghost predicate NoRepeats(ids: seq<string>) {
    forall i, j :: 0 <= i < j < |ids| ==> ids[i] != ids[j]
  }

  /** Status and attempts agree. */
  predicate Consistent(x: Intent) {
    && (x.status == Pending || x.status == Sending ==> x.attempts < x.maxAttempts)
    && (x.status == Failed ==> x.attempts == x.maxAttempts)
    && (x.status == Sent ==> 1 <= x.attempts <= x.maxAttempts)
  }

  predicate Open(x: Intent) {
    x.status == Pending || x.status == Sending
  }

  /** What the phase says about the intent in hand. */
  predicate PhaseAllows(phase: Phase, x: Intent) {
    match phase
    case Ready => true
    case Dispatching(id) => x.id == id ==> Open(x)
    case Dispatched(id) => x.id == id ==> Open(x)
    case Erred(id) => x.id == id ==> Open(x)
    case ErrCounted(id) => x.id == id ==> x.status != Sent && x.attempts > 0
    case ErrRead(id, status) =>
      x.id == id ==> x.status != Sent && x.attempts > 0 && (status == Failed <==> x.status == Failed)
    case Waiting(id) => x.id == id ==> x.status != Sent && x.attempts > 0
    case Replied(id) => x.id == id ==> x.status != Sent && x.attempts > 0
    case Requeue(id) => x.id == id ==> Open(x) && x.attempts > 0
  }

  /** Every dispatch and every exception is an attempt counted, lost to a crash, or about to be counted. */
  predicate Accounted(x: Intent, flush: Flush, ledger: map<string, Ledger>) {
    && x.id in ledger
    && var l := ledger[x.id];
       && l.limit == x.maxAttempts
       && l.dispatched + l.erred == x.attempts + l.lost + if InFlight(flush, x.id) then 1 else 0
  }

  predicate IntentOk(x: Intent, flush: Flush, ledger: map<string, Ledger>) {
    && Consistent(x)
    && Accounted(x, flush, ledger)
    && (flush.Running? ==> (x.id in flush.queue ==> x.status == Pending) && PhaseAllows(flush.phase, x))
  }

  /** This flush may still dispatch the id once. */
  predicate Upcoming(flush: Flush, id: string) {
    flush.Running? && (id in flush.queue || flush.phase == Dispatching(id))
  }

  predicate LedgerOk(l: Ledger, upcoming: bool, crashes: nat) {
    l.dispatched + l.erred + (if upcoming then 1 else 0) <= l.limit + l.lost && l.lost <= crashes
  }

  ghost predicate FlushOk(flush: Flush, ledger: map<string, Ledger>) {
    flush.Running? ==>
      && NoRepeats(flush.queue)
      && (forall id :: id in flush.queue ==> id in ledger)
      && (!flush.phase.Ready? ==> flush.phase.id in ledger && flush.phase.id !in flush.queue)
      && (flush.phase.ErrRead? ==> flush.phase.status != Sent)
  }

  ghost predicate Inv(s: System) {
    && Distinct(s.store)
    && FlushOk(s.flush, s.ledger)
    && (forall x :: x in s.store ==> IntentOk(x, s.flush, s.ledger))
    && (forall id :: id in s.ledger ==> LedgerOk(s.ledger[id], Upcoming(s.flush, id), s.crashes))
  }

  // ---------------------------------------------------------------- list facts

  lemma FoundIn(xs: seq<Intent>, id: string)
    ensures Lookup(xs, id).Some? ==> Lookup(xs, id).value in xs && Lookup(xs, id).value.id == id
    ensures Lookup(xs, id).None? ==> forall x :: x in xs ==> x.id != id
  {}

  lemma OneWithId(xs: seq<Intent>, x: Intent)
    requires Distinct(xs) && x in xs
    ensures Lookup(xs, x.id) == Some(x)
  {}

  /** Replacing the intent found under an id by one with the same id. */
  lemma Replaced(xs: seq<Intent>, id: string, y: Intent)
    requires Distinct(xs) && IndexOf(xs, id) < |xs| && y.id == id
    ensures var ys := xs[IndexOf(xs, id) := y];
            Distinct(ys) && forall x :: x in ys ==> x == y || (x in xs && x.id != id)
  {}

  lemma {:induction false} FilterDistinct(xs: seq<Intent>, keep: Intent -> bool)
    requires Distinct(xs)
    ensures Distinct(Filter(xs, keep)) && forall x :: x in Filter(xs, keep) <==> x in xs && keep(x)
  {
    if xs != [] {
      var front := xs[..|xs| - 1];
      FilterDistinct(front, keep);
      assert xs == front + [xs[|xs| - 1]];
      assert forall i :: 0 <= i < |Filter(front, keep)| ==> Filter(front, keep)[i] in Filter(front, keep);
    }
  }

  predicate PendingWith(x: Intent, id: string) {
    x.status == Pending && x.id == id
  }

  /** The ids of the pending intents, each once. */
  lemma PendingIds(xs: seq<Intent>)
    requires Distinct(xs)
    ensures NoRepeats(Ids(PendingOf(xs)))
    ensures forall id :: id in Ids(PendingOf(xs)) <==> exists x :: x in xs && PendingWith(x, id)
  {
    var found := Filter(xs, (x: Intent) => x.status == Pending);
    FilterDistinct(xs, (x: Intent) => x.status == Pending);
    OldestFirstSorts(found);
    OldestFirstDistinct(found);
    forall id ensures id in Ids(PendingOf(xs)) <==> exists x :: x in xs && PendingWith(x, id) {
      IdsOf(PendingOf(xs), found, id);
      assert forall x :: x in found <==> x in xs && x.status == Pending;
      if x :| x in xs && PendingWith(x, id) {
        assert x in found;
      }
    }
  }

  /** Reordering keeps the ids. */
  lemma IdsOf(sorted: seq<Intent>, found: seq<Intent>, id: string)
    requires multiset(sorted) == multiset(found)
    ensures id in Ids(sorted) <==> exists x :: x in found && x.id == id
  {
    if id in Ids(sorted) {
      var i :| 0 <= i < |sorted| && Ids(sorted)[i] == id;
      assert sorted[i] in multiset(sorted);
      assert sorted[i] in found;
    }
    if x :| x in found && x.id == id {
      assert x in multiset(sorted);
      var i :| 0 <= i < |sorted| && sorted[i] == x;
      assert Ids(sorted)[i] == id;
    }
  }

  lemma {:induction false} OldestFirstDistinct(xs: seq<Intent>)
    requires Distinct(xs)
    ensures Distinct(OldestFirst(xs))
  {
    if xs != [] {
      var front, last := xs[..|xs| - 1], xs[|xs| - 1];
      OldestFirstDistinct(front);
      OldestFirstSorts(front);
      forall y | y in OldestFirst(front) ensures y.id != last.id {
        assert y in multiset(front);
      }
      InsertedDistinct(OldestFirst(front), last);
    }
  }

  lemma {:induction false} InsertedDistinct(xs: seq<Intent>, x: Intent)
    requires Distinct(xs) && forall y :: y in xs ==> y.id != x.id
    ensures Distinct(Inserted(xs, x))
  {
    if !(xs == [] || xs[|xs| - 1].createdAt <= x.createdAt) {
      var front, last := xs[..|xs| - 1], xs[|xs| - 1];
      InsertedDistinct(front, x);
      InsertedMultiset(front, x);
      assert forall y :: y in front ==> y in xs && y.id != last.id;
      forall i | 0 <= i < |Inserted(front, x)| ensures Inserted(front, x)[i].id != last.id {
        assert Inserted(front, x)[i] in multiset(Inserted(front, x));
      }
    }
  }

  // ---------------------------------------------------------------- every step keeps the invariant

  lemma AddKeeps(s: System, x: Intent)
    requires Inv(s)
    ensures Inv(Next(s, Add(x)))
  {
    var s' := Next(s, Add(x));
    if s' != s {
      forall i | 0 <= i < |s.store| ensures s.store[i].id != x.id {
        assert s.store[i] in s.store;
      }
      forall y | y in s'.store ensures IntentOk(y, s'.flush, s'.ledger) {
        assert y == x || y in s.store;
      }
    }
  }

  lemma FilteringKeeps(s: System, keep: Intent -> bool)
    requires Inv(s)
    ensures Inv(s.(store := Filter(s.store, keep)))
  {
    FilterDistinct(s.store, keep);
  }

  lemma RecoverKeeps(s: System)
    requires Inv(s)
    ensures Inv(Next(s, Recover))
  {
    var ys := Recovered(s.store);
    forall y | y in ys ensures IntentOk(y, s.flush, s.ledger) {
      var i :| 0 <= i < |ys| && ys[i] == y;
      assert s.store[i] in s.store;
    }
  }

  lemma StartKeeps(s: System)
    requires Inv(s)
    ensures Inv(Next(s, Start))
  {
    var s' := Next(s, Start);
    if s' != s {
      PendingIds(s.store);
      forall x | x in s'.store ensures IntentOk(x, s'.flush, s'.ledger) {
        if x.id in s'.flush.queue {
          var y :| y in s.store && PendingWith(y, x.id);
          OneWithId(s.store, x);
          OneWithId(s.store, y);
        }
      }
      forall id | id in s'.ledger ensures LedgerOk(s'.ledger[id], Upcoming(s'.flush, id), s'.crashes) {
        if id in s'.flush.queue {
          var y :| y in s.store && PendingWith(y, id);
          assert IntentOk(y, s.flush, s.ledger);
        }
      }
    }
  }

  lemma CrashKeeps(s: System)
    requires Inv(s)
    ensures Inv(Next(s, Crash))
  {}

  /** A phase change that leaves queue and store alone. */
  lemma PhaseKeeps(s: System, phase: Phase)
    requires Inv(s) && s.flush.Running?
    requires phase.Ready? || CurrentId(s.flush) == Some(phase.id)
    requires forall id :: InFlight(s.flush, id) <==> InFlight(Running(s.flush.queue, phase), id)
    requires forall x :: x in s.store ==> PhaseAllows(phase, x)
    requires !phase.Dispatching? && (phase.ErrRead? ==> phase.status != Sent)
    ensures Inv(Moved(s, phase))
  {}

  /** A write to the intent in hand, with the next phase. */
  lemma WriteKeeps(s: System, id: string, y: Intent, phase: Phase)
    requires Inv(s) && CurrentId(s.flush) == Some(id) && IndexOf(s.store, id) < |s.store|
    requires phase.Ready? || phase.id == id
    requires !phase.Dispatching? && !phase.ErrRead?
    requires y.id == id && y.maxAttempts == s.store[IndexOf(s.store, id)].maxAttempts
    requires IntentOk(y, Running(s.flush.queue, phase), s.ledger)
    ensures Inv(Moved(s.(store := s.store[IndexOf(s.store, id) := y]), phase))
  {
    Replaced(s.store, id, y);
  }

  /** The same when the intent in hand has been removed meanwhile. */
  lemma GoneKeeps(s: System, id: string, phase: Phase)
    requires Inv(s) && CurrentId(s.flush) == Some(id) && IndexOf(s.store, id) == |s.store|
    requires phase.Ready? || phase.id == id
    requires !phase.Dispatching? && !phase.ErrRead?
    ensures Inv(Moved(s, phase))
  {
    FoundIn(s.store, id);
  }

  lemma BeginKeeps(s: System)
    requires Inv(s) && s.flush.Running? && s.flush.phase.Ready? && s.flush.queue != []
    ensures Inv(FlushStep(s, Begin))
  {
    var id, rest := s.flush.queue[0], s.flush.queue[1..];
    var s' := FlushStep(s, Begin);
    assert forall q :: q in s.flush.queue <==> q == id || q in rest;
    var i := IndexOf(s.store, id);
    if i < |s.store| {
      assert s.store[i] in s.store;
      Replaced(s.store, id, WithStatus(s.store[i], Sending, None, None));
    } else {
      FoundIn(s.store, id);
    }
    forall x | x in s'.store ensures IntentOk(x, s'.flush, s'.ledger) {
      if x.id != id {
        assert IntentOk(x, s.flush, s.ledger);
      }
    }
  }

  lemma SkipKeeps(s: System)
    requires Inv(s) && s.flush.Running? && s.flush.phase.Ready? && s.flush.queue != []
    ensures Inv(FlushStep(s, Skip))
  {
    var rest := s.flush.queue[1..];
    assert forall q :: q in rest ==> q in s.flush.queue;
  }

  lemma DispatchKeeps(s: System)
    requires Inv(s) && s.flush.Running? && s.flush.phase.Dispatching?
    ensures Inv(FlushStep(s, Dispatch))
  {}

  lemma RaiseKeeps(s: System)
    requires Inv(s) && s.flush.Running? && s.flush.phase.Dispatching?
    ensures Inv(FlushStep(s, Raise))
  {}

  lemma StatusKeeps(s: System, id: string, status: Status, error: Option<string>, txHash: Option<string>)
    requires Inv(s) && CurrentId(s.flush) == Some(id) && !InFlight(s.flush, id)
    requires forall x :: x in s.store && x.id == id ==> Consistent(x.(status := status))
    ensures Inv(Moved(s.(store := StatusUpdated(s.store, id, status, error, txHash)), Ready))
  {
    var i := IndexOf(s.store, id);
    if i < |s.store| {
      assert s.store[i] in s.store;
      WriteKeeps(s, id, WithStatus(s.store[i], status, error, txHash), Ready);
    } else {
      GoneKeeps(s, id, Ready);
    }
  }

  lemma CountKeeps(s: System, id: string, phase: Phase)
    requires Inv(s) && InFlight(s.flush, id) && s.flush.phase.id == id
    requires phase == Waiting(id) || phase == ErrCounted(id)
    ensures Inv(Moved(s.(store := AttemptCounted(s.store, id)), phase))
  {
    var i := IndexOf(s.store, id);
    if i < |s.store| {
      assert s.store[i] in s.store;
      WriteKeeps(s, id, Counted(s.store[i]), phase);
    } else {
      GoneKeeps(s, id, phase);
    }
  }

  lemma OnlyIntentRead(s: System, id: string)
    requires Inv(s)
    ensures forall x :: x in s.store && x.id == id ==> Lookup(s.store, id) == Some(x)
  {
    forall x | x in s.store && x.id == id ensures Lookup(s.store, id) == Some(x) {
      OneWithId(s.store, x);
    }
  }

  lemma ReadRaisedKeeps(s: System)
    requires Inv(s) && s.flush.Running? && s.flush.phase.ErrCounted?
    ensures Inv(FlushStep(s, ReadRaised))
  {
    OnlyIntentRead(s, s.flush.phase.id);
    FoundIn(s.store, s.flush.phase.id);
    PhaseKeeps(s, FlushStep(s, ReadRaised).flush.phase);
  }

  lemma ReadReplyKeeps(s: System)
    requires Inv(s) && s.flush.Running? && s.flush.phase.Replied?
    ensures Inv(FlushStep(s, ReadReply))
  {
    OnlyIntentRead(s, s.flush.phase.id);
    PhaseKeeps(s, FlushStep(s, ReadReply).flush.phase);
  }

  lemma ReadyKeeps(s: System, step: Step)
    requires Inv(s) && s.flush.Running? && s.flush.phase.Ready?
    ensures Inv(FlushStep(s, step))
  {
    if s.flush.queue != [] {
      if step.Begin? {
        BeginKeeps(s);
      } else if step.Skip? {
        SkipKeeps(s);
      }
    }
  }

  lemma DispatchingKeeps(s: System, step: Step)
    requires Inv(s) && s.flush.Running? && s.flush.phase.Dispatching?
    ensures Inv(FlushStep(s, step))
  {
    if step.WrongPassphrase? {
      StatusKeeps(s, s.flush.phase.id, Pending, Some(step.error), None);
    } else if step.Dispatch? {
      DispatchKeeps(s);
    } else if step.Raise? {
      RaiseKeeps(s);
    }
  }

  lemma FlushStepKeeps(s: System, step: Step)
    requires Inv(s) && s.flush.Running?
    ensures Inv(FlushStep(s, step))
  {
    match s.flush.phase
    case Ready => ReadyKeeps(s, step);
    case Dispatching(id) => DispatchingKeeps(s, step);
    case Erred(id) => if step.CountRaised? { CountKeeps(s, id, ErrCounted(id)); }
    case Dispatched(id) => if step.Count? { CountKeeps(s, id, Waiting(id)); }
    case ErrCounted(id) => if step.ReadRaised? { ReadRaisedKeeps(s); }
    case ErrRead(id, status) => if step.WriteRaised? { StatusKeeps(s, id, status, Some(step.error), None); }
    case Waiting(id) =>
      if step.Succeed? {
        StatusKeeps(s, id, Sent, None, Some(step.txHash));
      } else if step.FailReply? {
        PhaseKeeps(s, Replied(id));
      }
    case Replied(id) => if step.ReadReply? { ReadReplyKeeps(s); }
    case Requeue(id) => if step.WritePending? { StatusKeeps(s, id, Pending, Some(step.error), None); }
  }

  lemma NextKeeps(s: System, step: Step)
    requires Inv(s)
    ensures Inv(Next(s, step))
  {
    match step
    case Add(x) => AddKeeps(s, x);
    case Remove(gone) => FilteringKeeps(s, (x: Intent) => x.id != gone);
    case Clear(status) => FilteringKeeps(s, (x: Intent) => status.Some? && x.status != status.value);
    case Recover => RecoverKeeps(s);
    case Start => StartKeeps(s);
    case Crash => CrashKeeps(s);
    case _ => if s.flush.Running? { FlushStepKeeps(s, step); }
  }

  lemma {:induction false} RunKeeps(steps: seq<Step>)
    ensures Inv(Run(steps))
  {
    if steps != [] {
      RunKeeps(steps[..|steps| - 1]);
      NextKeeps(Run(steps[..|steps| - 1]), steps[|steps| - 1]);
    }
  }

  // ---------------------------------------------------------------- what every run guarantees

  /** After any steps, the status and the attempts of every intent agree. */
  lemma StatusesConsistent(steps: seq<Step>, x: Intent)
    requires x in Run(steps).store
    ensures Consistent(x)
  {
    RunKeeps(steps);
  }

  /** While an intent is queued, its messages and raised dispatches are exactly its attempts, those a crash lost, and
      the one about to be counted. */
  lemma DispatchesAccounted(steps: seq<Step>, x: Intent)
    requires x in Run(steps).store
    ensures x.id in Run(steps).ledger
    ensures var l := Run(steps).ledger[x.id];
            l.dispatched + l.erred == x.attempts + l.lost + if InFlight(Run(steps).flush, x.id) then 1 else 0
  {
    RunKeeps(steps);
  }

  /** An intent, removed or not, is never sent more often than its limit and the crashes allow. */
  lemma DispatchesBounded(steps: seq<Step>, id: string)
    requires id in Run(steps).ledger
    ensures var l := Run(steps).ledger[id];
            l.dispatched + l.erred <= l.limit + l.lost && l.lost <= Run(steps).crashes
  {
    RunKeeps(steps);
  }

  /** The intent has been sent and no flush has it in hand or in its queue. */
  ghost predicate Settled(s: System, x: Intent) {
    && x.status == Sent && x.id in s.ledger
    && (forall y :: y in s.store && y.id == x.id ==> y == x)
    && (s.flush.Running? ==> x.id !in s.flush.queue && CurrentId(s.flush) != Some(x.id))
  }

  lemma SentIsSettled(s: System, x: Intent)
    requires Inv(s) && x in s.store && x.status == Sent
    ensures Settled(s, x)
  {
    forall y | y in s.store && y.id == x.id ensures y == x {
      OneWithId(s.store, x);
      OneWithId(s.store, y);
    }
    assert IntentOk(x, s.flush, s.ledger);
  }

  lemma SettledOverWrite(s: System, x: Intent, id: string, y: Intent)
    requires Inv(s) && Settled(s, x) && id != x.id && IndexOf(s.store, id) < |s.store| && y.id == id
    ensures forall z :: z in s.store[IndexOf(s.store, id) := y] && z.id == x.id ==> z == x
  {
    Replaced(s.store, id, y);
  }

  lemma SettledStoreWrites(s: System, x: Intent, id: string)
    requires Inv(s) && Settled(s, x) && id != x.id
    ensures forall w :: w in AttemptCounted(s.store, id) && w.id == x.id ==> w == x
    ensures forall status, error, txHash ::
              forall w :: w in StatusUpdated(s.store, id, status, error, txHash) && w.id == x.id ==> w == x
  {
    var i := IndexOf(s.store, id);
    if i < |s.store| {
      SettledOverWrite(s, x, id, Counted(s.store[i]));
      forall status, error, txHash
        ensures forall w :: w in StatusUpdated(s.store, id, status, error, txHash) && w.id == x.id ==> w == x
      {
        SettledOverWrite(s, x, id, WithStatus(s.store[i], status, error, txHash));
      }
    }
  }

  lemma SettledReady(s: System, x: Intent, step: Step)
    requires Inv(s) && Settled(s, x) && s.flush.Running? && s.flush.phase.Ready?
    ensures Settled(FlushStep(s, step), x) && FlushStep(s, step).ledger[x.id] == s.ledger[x.id]
  {
    if s.flush.queue != [] {
      assert s.flush.queue[0] in s.flush.queue;
      assert forall q :: q in s.flush.queue[1..] ==> q in s.flush.queue;
      SettledStoreWrites(s, x, s.flush.queue[0]);
    }
  }

  lemma SettledFlushStep(s: System, x: Intent, step: Step)
    requires Inv(s) && Settled(s, x) && s.flush.Running?
    ensures Settled(FlushStep(s, step), x) && FlushStep(s, step).ledger[x.id] == s.ledger[x.id]
  {
    if s.flush.phase.Ready? {
      SettledReady(s, x, step);
    } else {
      SettledStoreWrites(s, x, s.flush.phase.id);
    }
  }

  lemma SettledStep(s: System, x: Intent, step: Step)
    requires Inv(s) && Settled(s, x)
    ensures Settled(Next(s, step), x) && Next(s, step).ledger[x.id] == s.ledger[x.id]
  {
    match step
    case Remove(gone) => FilterKeeps(s.store, (y: Intent) => y.id != gone);
    case Clear(status) => FilterKeeps(s.store, (y: Intent) => status.Some? && y.status != status.value);
    case Recover =>
      forall y | y in Recovered(s.store) && y.id == x.id ensures y == x {
        var i :| 0 <= i < |s.store| && Recovered(s.store)[i] == y;
        assert s.store[i] in s.store;
      }
    case Start =>
      if s.flush.Idle? {
        PendingIds(s.store);
      }
    case Add(_) =>
    case Crash =>
    case _ => if s.flush.Running? { SettledFlushStep(s, x, step); }
  }

  /** Once sent, an intent stays as it is until it is removed, and is never sent again. */
  lemma {:induction false} SentStays(steps: seq<Step>, more: seq<Step>, x: Intent)
    requires x in Run(steps).store && x.status == Sent
    ensures var s := Run(steps + more);
            && (forall y :: y in s.store && y.id == x.id ==> y == x)
            && x.id in Run(steps).ledger && x.id in s.ledger && s.ledger[x.id] == Run(steps).ledger[x.id]
    ensures Settled(Run(steps + more), x)
  {
    RunKeeps(steps + more);
    if more == [] {
      assert steps + more == steps;
      SentIsSettled(Run(steps), x);
    } else {
      var front, last := more[..|more| - 1], more[|more| - 1];
      assert (steps + more)[..|steps + more| - 1] == steps + front;
      SentStays(steps, front, x);
      RunKeeps(steps + front);
      SettledStep(Run(steps + front), x, last);
    }
  }

  // ---------------------------------------------------------------- recovery

  /** Starting a flush after recovering queues every intent that was pending or sending. */
  lemma RecoveredQueue(s: System)
    requires Distinct(s.store) && s.flush.Idle?
    ensures Next(Next(s, Recover), Start).flush.Running?
    ensures forall x :: x in s.store && (x.status == Pending || x.status == Sending) ==>
              x.(status := Pending) in Next(s, Recover).store && x.id in Next(Next(s, Recover), Start).flush.queue
  {
    var recovered := Next(s, Recover).store;
    assert Distinct(recovered);
    PendingIds(recovered);
    forall x | x in s.store && (x.status == Pending || x.status == Sending)
      ensures x.(status := Pending) in recovered && x.id in Ids(PendingOf(recovered))
    {
      var i :| 0 <= i < |s.store| && s.store[i] == x;
      assert recovered[i] == x.(status := Pending);
      assert PendingWith(recovered[i], x.id);
    }
  }

  /** After a crash at any point of any run, an intent it left in sending is pending again once the queue is reopened,
      and the next flush has it in its queue. */
  lemma CrashedIsFlushed(steps: seq<Step>, x: Intent)
    requires x in Run(steps + [Crash]).store && x.status == Sending
    ensures x.(status := Pending) in Run(steps + [Crash] + [Recover]).store
    ensures forall y :: y in Run(steps + [Crash] + [Recover]).store ==> y.status != Sending
    ensures var flush := Run(steps + [Crash] + [Recover] + [Start]).flush;
            flush.Running? && x.id in flush.queue
  {
    FromMore(INITIAL, steps, Crash);
    FromMore(INITIAL, steps + [Crash], Recover);
    FromMore(INITIAL, steps + [Crash] + [Recover], Start);
    RunKeeps(steps + [Crash]);
    RecoveredQueue(Run(steps + [Crash]));
  }

  // ---------------------------------------------------------------- progress

  function Room(x: Intent): nat {
    if Open(x) && x.attempts < x.maxAttempts then x.maxAttempts - x.attempts else 0
  }

  /** The attempts left to the intents still to be sent. */
  function Potential(xs: seq<Intent>): nat {
    if xs == [] then 0 else Potential(xs[..|xs| - 1]) + Room(xs[|xs| - 1])
  }

  lemma {:induction false} PotentialUpdate(xs: seq<Intent>, i: nat, y: Intent)
    requires i < |xs|
    ensures Potential(xs[i := y]) + Room(xs[i]) == Potential(xs) + Room(y)
  {
    var front := xs[..|xs| - 1];
    if i == |xs| - 1 {
      assert xs[i := y][..|xs| - 1] == front;
    } else {
      PotentialUpdate(front, i, y);
      assert xs[i := y][..|xs| - 1] == front[i := y];
    }
  }

  lemma {:induction false} PotentialFilter(xs: seq<Intent>, keep: Intent -> bool)
    ensures Potential(Filter(xs, keep)) <= Potential(xs)
  {
    if xs != [] {
      var front, last := xs[..|xs| - 1], xs[|xs| - 1];
      PotentialFilter(front, keep);
      assert keep(last) ==> Filter(xs, keep)[..|Filter(xs, keep)| - 1] == Filter(front, keep);
    }
  }

  /** Recovery costs nothing. */
  lemma {:induction false} PotentialRecovered(xs: seq<Intent>)
    ensures Potential(Recovered(xs)) == Potential(xs)
  {
    if xs != [] {
      PotentialRecovered(xs[..|xs| - 1]);
      assert Recovered(xs)[..|xs| - 1] == Recovered(xs[..|xs| - 1]);
    }
  }

  lemma PotentialOfStatus(xs: seq<Intent>, id: string, status: Status, error: Option<string>, txHash: Option<string>)
    requires forall x :: x in xs && x.id == id ==> Room(x.(status := status)) <= Room(x)
    ensures Potential(StatusUpdated(xs, id, status, error, txHash)) <= Potential(xs)
  {
    var i := IndexOf(xs, id);
    if i < |xs| {
      assert xs[i] in xs;
      PotentialUpdate(xs, i, WithStatus(xs[i], status, error, txHash));
    }
  }

  /** Counting an attempt of an intent still queued uses up one. */
  lemma CountingLowersPotential(s: System, step: Step)
    requires Inv(s) && s.flush.Running?
    requires (step.Count? && s.flush.phase.Dispatched?) || (step.CountRaised? && s.flush.phase.Erred?)
    requires Lookup(s.store, s.flush.phase.id).Some?
    ensures Potential(Next(s, step).store) < Potential(s.store)
  {
    var i := IndexOf(s.store, s.flush.phase.id);
    assert s.store[i] in s.store;
    PotentialUpdate(s.store, i, Counted(s.store[i]));
  }

  /** No step but adding an intent gives anything back. */
  lemma PotentialNeverRises(s: System, step: Step)
    requires Inv(s) && !step.Add?
    ensures Potential(Next(s, step).store) <= Potential(s.store)
  {
    match step
    case Remove(gone) => PotentialFilter(s.store, (y: Intent) => y.id != gone);
    case Clear(status) => PotentialFilter(s.store, (y: Intent) => status.Some? && y.status != status.value);
    case Recover => PotentialRecovered(s.store);
    case _ => if s.flush.Running? { PotentialOfFlushStep(s, step); }
  }

  lemma PotentialOfReady(s: System, step: Step)
    requires Inv(s) && s.flush.Running? && s.flush.phase.Ready?
    ensures Potential(FlushStep(s, step).store) <= Potential(s.store)
  {
    if step.Begin? && s.flush.queue != [] {
      PotentialOfStatus(s.store, s.flush.queue[0], Sending, None, None);
    }
  }

  lemma PotentialOfWrite(s: System, step: Step)
    requires Inv(s) && s.flush.Running? && (s.flush.phase.Dispatching? || s.flush.phase.ErrRead?)
    ensures Potential(FlushStep(s, step).store) <= Potential(s.store)
  {
    var id := s.flush.phase.id;
    if s.flush.phase.Dispatching? && step.WrongPassphrase? {
      PotentialOfStatus(s.store, id, Pending, Some(step.error), None);
    } else if s.flush.phase.ErrRead? && step.WriteRaised? {
      PotentialOfStatus(s.store, id, s.flush.phase.status, Some(step.error), None);
    }
  }

  lemma PotentialOfResult(s: System, step: Step)
    requires Inv(s) && s.flush.Running? && (s.flush.phase.Waiting? || s.flush.phase.Requeue?)
    ensures Potential(FlushStep(s, step).store) <= Potential(s.store)
  {
    var id := s.flush.phase.id;
    if s.flush.phase.Waiting? && step.Succeed? {
      PotentialOfStatus(s.store, id, Sent, None, Some(step.txHash));
    } else if s.flush.phase.Requeue? && step.WritePending? {
      PotentialOfStatus(s.store, id, Pending, Some(step.error), None);
    }
  }

  lemma PotentialOfCounting(s: System, step: Step)
    requires Inv(s) && s.flush.Running? && (s.flush.phase.Dispatched? || s.flush.phase.Erred?)
    ensures Potential(FlushStep(s, step).store) <= Potential(s.store)
  {
    if CountsAttempt(s, step) {
      CountingLowersPotential(s, step);
    }
  }

  lemma PotentialOfFlushStep(s: System, step: Step)
    requires Inv(s) && s.flush.Running?
    ensures Potential(FlushStep(s, step).store) <= Potential(s.store)
  {
    match s.flush.phase
    case Ready => PotentialOfReady(s, step);
    case Dispatching(_) => PotentialOfWrite(s, step);
    case ErrRead(_, _) => PotentialOfWrite(s, step);
    case Waiting(_) => PotentialOfResult(s, step);
    case Requeue(_) => PotentialOfResult(s, step);
    case Dispatched(_) => PotentialOfCounting(s, step);
    case Erred(_) => PotentialOfCounting(s, step);
    case _ =>
  }

  /** Whether the step counts an attempt of an intent still queued. */
  predicate CountsAttempt(s: System, step: Step) {
    && s.flush.Running?
    && ((step.Count? && s.flush.phase.Dispatched?) || (step.CountRaised? && s.flush.phase.Erred?))
    && Lookup(s.store, s.flush.phase.id).Some?
  }

  function AttemptsCounted(steps: seq<Step>): nat {
    if steps == [] then 0
    else
      var front, last := steps[..|steps| - 1], steps[|steps| - 1];
      AttemptsCounted(front) + if CountsAttempt(Run(front), last) then 1 else 0
  }

  /** The limits of the intents accepted so far, added up. */
  function LimitsAdded(steps: seq<Step>): nat {
    if steps == [] then 0
    else
      var front, last := steps[..|steps| - 1], steps[|steps| - 1];
      LimitsAdded(front) + if last.Add? && Next(Run(front), last) != Run(front) then last.x.maxAttempts else 0
  }

  lemma AddRaisesPotential(s: System, x: Intent)
    ensures Potential(Next(s, Add(x)).store) <= Potential(s.store) + if Next(s, Add(x)) != s then x.maxAttempts else 0
  {
    assert (s.store + [x])[..|s.store|] == s.store;
  }

  lemma CountedWithinPotential(s: System, step: Step)
    requires Inv(s) && !step.Add?
    ensures Potential(Next(s, step).store) + (if CountsAttempt(s, step) then 1 else 0) <= Potential(s.store)
  {
    if CountsAttempt(s, step) {
      CountingLowersPotential(s, step);
    } else {
      PotentialNeverRises(s, step);
    }
  }

  /** However flushes, crashes and recoveries interleave, no more attempts are counted than the intents allow. */
  lemma {:induction false} AttemptsBounded(steps: seq<Step>)
    ensures AttemptsCounted(steps) + Potential(Run(steps).store) <= LimitsAdded(steps)
  {
    if steps != [] {
      var front, last := steps[..|steps| - 1], steps[|steps| - 1];
      AttemptsBounded(front);
      RunKeeps(front);
      if last.Add? {
        AddRaisesPotential(Run(front), last.x);
      } else {
        CountedWithinPotential(Run(front), last);
      }
    }
  }
}
