/** `flush_intent` and `flush_all_pending` of client.py, run without interruption. */
module ClientFlush {
  import opened Store
  import opened FlushRuns

  /** How the dispatch of a request or relay ends; a wrong passphrase is the InvalidTag exception. */
  datatype Sending = Accepted(msgId: nat) | InvalidTag(error: string) | Exception(error: string)

  /** What waiting for the result yields. */
  datatype Reply = Success(signature: string) | Failure(error: string) | NoReply

  datatype Answer = Delivered(signature: string) | Undelivered(error: string) | Raised(error: string)

  const UNSUPPORTED_MODE: string := "Unsupported intent mode"
  const TIMEOUT: string := "Timeout waiting for result"
  const WRONG_PASSPHRASE: string := "Wrong passphrase: "

  /** An intent of another mode than 1 and 3 raises whatever the mesh does. */
  function Effective(intent: Intent, sending: Sending): Sending {
    if intent.mode == 1 || intent.mode == 3 then sending else Exception(UNSUPPORTED_MODE)
  }

  function AnswerTo(sending: Sending, reply: Reply): Answer {
    match sending
    case InvalidTag(error) => Raised(error)
    case Exception(error) => Undelivered(error)
    case Accepted(_) =>
      match reply
      case Success(signature) => Delivered(signature)
      case Failure(error) => Undelivered(error)
      case NoReply => Undelivered("Timeout")
  }

  function ReplySteps(reply: Reply): seq<Step> {
    match reply
    case Success(signature) => [Succeed(signature)]
    case Failure(error) => [FailReply, ReadReply, WritePending(error)]
    case NoReply => [FailReply, ReadReply, WritePending(TIMEOUT)]
  }

  /** The steps one flush takes, in order. */
  function StepsOf(sending: Sending, reply: Reply): seq<Step> {
    match sending
    case InvalidTag(error) => [Begin, WrongPassphrase(WRONG_PASSPHRASE + error)]
    case Exception(error) => [Begin, Raise, CountRaised] + [ReadRaised, WriteRaised(error)]
    case Accepted(_) => [Begin, Dispatch, Count] + ReplySteps(reply)
  }

  /** The queue after flushing one intent without interruption. */
  function Flushed(xs: seq<Intent>, id: string, sending: Sending, reply: Reply): seq<Intent> {
    var begun := StatusUpdated(xs, id, Status.Sending, None, None);
    match sending
    case InvalidTag(error) => StatusUpdated(begun, id, Pending, Some(WRONG_PASSPHRASE + error), None)
    case Exception(error) =>
      var counted := AttemptCounted(begun, id);
      var current := Lookup(counted, id);
      StatusUpdated(counted, id, if current.Some? then current.value.status else Pending, Some(error), None)
    case Accepted(_) =>
      var counted := AttemptCounted(begun, id);
      var current := Lookup(counted, id);
      var retry := current.Some? && current.value.status != Failed;
      match reply
      case Success(signature) => StatusUpdated(counted, id, Sent, None, Some(signature))
      case Failure(error) => if retry then StatusUpdated(counted, id, Pending, Some(error), None) else counted
      case NoReply => if retry then StatusUpdated(counted, id, Pending, Some(TIMEOUT), None) else counted
  }

  // ---------------------------------------------------------------- uninterrupted flushing is a run

  lemma {:induction false} FromConcat(s: System, a: seq<Step>, b: seq<Step>)
    ensures From(s, a + b) == From(From(s, a), b)
  {
    if b == [] {
      assert a + b == a;
    } else {
      assert (a + b)[..|a + b| - 1] == a + b[..|b| - 1];
      FromConcat(s, a, b[..|b| - 1]);
    }
  }

  lemma FromOne(s: System, a: Step)
    ensures From(s, [a]) == Next(s, a)
  {
    assert [a][..0] == [];
  }

  lemma FromTwo(s: System, a: Step, b: Step)
    ensures From(s, [a, b]) == Next(Next(s, a), b)
  {
    FromOne(s, a);
    FromMore(s, [a], b);
    assert [a] + [b] == [a, b];
  }

  lemma FromThree(s: System, a: Step, b: Step, c: Step)
    ensures From(s, [a, b, c]) == Next(Next(Next(s, a), b), c)
  {
    FromTwo(s, a, b);
    FromMore(s, [a, b], c);
    assert [a, b] + [c] == [a, b, c];
  }

  predicate AboutTo(s: System) {
    s.flush.Running? && s.flush.phase.Ready? && s.flush.queue != [] && s.flush.queue[0] in s.ledger
  }

  /** The system between two intents of a flush. */
  predicate Between(s: System, store: seq<Intent>, queue: seq<string>, ids: set<string>) {
    s.store == store && s.flush == Running(queue, Ready) && s.ledger.Keys == ids
  }

  lemma Begun(s: System)
    requires AboutTo(s)
    ensures var id := s.flush.queue[0];
            Next(s, Begin) == System(StatusUpdated(s.store, id, Status.Sending, None, None),
                                     Running(s.flush.queue[1..], Dispatching(id)), s.ledger, s.crashes)
  {}

  lemma PutBack(s: System, id: string, error: string)
    requires s.flush.Running? && s.flush.phase == Dispatching(id)
    ensures Next(s, WrongPassphrase(error))
         == Moved(s.(store := StatusUpdated(s.store, id, Pending, Some(error), None)), Ready)
  {}

  lemma TagRun(s: System, error: string)
    requires AboutTo(s)
    ensures var s' := From(s, [Begin, WrongPassphrase(WRONG_PASSPHRASE + error)]);
            && Between(s', Flushed(s.store, s.flush.queue[0], InvalidTag(error), NoReply), s.flush.queue[1..],
                       s.ledger.Keys)
            && s'.ledger == s.ledger
  {
    FromTwo(s, Begin, WrongPassphrase(WRONG_PASSPHRASE + error));
    Begun(s);
    PutBack(Next(s, Begin), s.flush.queue[0], WRONG_PASSPHRASE + error);
  }

  lemma RaisedAndCounted(s: System, id: string)
    requires s.flush.Running? && s.flush.phase == Dispatching(id) && id in s.ledger
    ensures var s' := Next(Next(s, Raise), CountRaised);
            && s'.store == AttemptCounted(s.store, id) && s'.flush == Running(s.flush.queue, ErrCounted(id))
            && s'.ledger.Keys == s.ledger.Keys
  {
    var s1 := Next(s, Raise);
    assert s1.flush == Running(s.flush.queue, Erred(id)) && s1.store == s.store && s1.ledger.Keys == s.ledger.Keys;
  }

  lemma RaiseRun(s: System)
    requires AboutTo(s)
    ensures var s' := From(s, [Begin, Raise, CountRaised]);
            var id := s.flush.queue[0];
            && s'.store == AttemptCounted(StatusUpdated(s.store, id, Status.Sending, None, None), id)
            && s'.flush == Running(s.flush.queue[1..], ErrCounted(id)) && s'.ledger.Keys == s.ledger.Keys
  {
    FromThree(s, Begin, Raise, CountRaised);
    Begun(s);
    RaisedAndCounted(Next(s, Begin), s.flush.queue[0]);
  }

  lemma ReadBack(s: System, id: string)
    requires s.flush.Running? && s.flush.phase == ErrCounted(id)
    ensures var current := Lookup(s.store, id);
            Next(s, ReadRaised) == Moved(s, ErrRead(id, if current.Some? then current.value.status else Pending))
  {}

  lemma WrittenBack(s: System, id: string, status: Status, error: string)
    requires s.flush.Running? && s.flush.phase == ErrRead(id, status)
    ensures Next(s, WriteRaised(error))
         == Moved(s.(store := StatusUpdated(s.store, id, status, Some(error), None)), Ready)
  {}

  lemma WriteBackRun(s: System, id: string, error: string)
    requires s.flush.Running? && s.flush.phase == ErrCounted(id)
    ensures var current := Lookup(s.store, id);
            Between(From(s, [ReadRaised, WriteRaised(error)]),
                    StatusUpdated(s.store, id, if current.Some? then current.value.status else Pending, Some(error),
                                  None),
                    s.flush.queue, s.ledger.Keys)
  {
    FromTwo(s, ReadRaised, WriteRaised(error));
    ReadBack(s, id);
    WrittenBack(Next(s, ReadRaised), id, Next(s, ReadRaised).flush.phase.status, error);
  }

  lemma ExceptionRun(s: System, error: string)
    requires AboutTo(s)
    ensures Between(From(s, [Begin, Raise, CountRaised] + [ReadRaised, WriteRaised(error)]),
                    Flushed(s.store, s.flush.queue[0], Exception(error), NoReply), s.flush.queue[1..], s.ledger.Keys)
  {
    FromConcat(s, [Begin, Raise, CountRaised], [ReadRaised, WriteRaised(error)]);
    RaiseRun(s);
    WriteBackRun(From(s, [Begin, Raise, CountRaised]), s.flush.queue[0], error);
  }

  lemma DispatchedAndCounted(s: System, id: string)
    requires s.flush.Running? && s.flush.phase == Dispatching(id) && id in s.ledger
    ensures var s' := Next(Next(s, Dispatch), Count);
            && s'.store == AttemptCounted(s.store, id) && s'.flush == Running(s.flush.queue, Waiting(id))
            && s'.ledger.Keys == s.ledger.Keys
  {
    var s1 := Next(s, Dispatch);
    assert s1.flush == Running(s.flush.queue, Dispatched(id)) && s1.store == s.store && s1.ledger.Keys == s.ledger.Keys;
  }

  lemma CountRun(s: System)
    requires AboutTo(s)
    ensures var s' := From(s, [Begin, Dispatch, Count]);
            var id := s.flush.queue[0];
            && s'.store == AttemptCounted(StatusUpdated(s.store, id, Status.Sending, None, None), id)
            && s'.flush == Running(s.flush.queue[1..], Waiting(id)) && s'.ledger.Keys == s.ledger.Keys
  {
    FromThree(s, Begin, Dispatch, Count);
    Begun(s);
    DispatchedAndCounted(Next(s, Begin), s.flush.queue[0]);
  }

  predicate MayRetry(s: System, id: string) {
    Lookup(s.store, id).Some? && Lookup(s.store, id).value.status != Failed
  }

  lemma FailureRead(s: System, id: string)
    requires s.flush.Running? && s.flush.phase == Waiting(id)
    ensures Next(Next(s, FailReply), ReadReply) == Moved(s, if MayRetry(s, id) then Requeue(id) else Ready)
  {
    assert Next(s, FailReply) == Moved(s, Replied(id));
  }

  lemma Requeued(s: System, id: string, error: string)
    requires s.flush.Running? && s.flush.phase == Requeue(id)
    ensures Next(s, WritePending(error))
         == Moved(s.(store := StatusUpdated(s.store, id, Pending, Some(error), None)), Ready)
  {}

  lemma NotRequeued(s: System, error: string)
    requires s.flush.Running? && s.flush.phase.Ready?
    ensures Next(s, WritePending(error)) == s
  {}

  lemma ReplyRun(s: System, id: string, error: string)
    requires s.flush.Running? && s.flush.phase == Waiting(id)
    ensures Between(From(s, [FailReply, ReadReply, WritePending(error)]),
                    if MayRetry(s, id) then StatusUpdated(s.store, id, Pending, Some(error), None) else s.store,
                    s.flush.queue, s.ledger.Keys)
  {
    FromThree(s, FailReply, ReadReply, WritePending(error));
    FailureRead(s, id);
    if MayRetry(s, id) {
      Requeued(Moved(s, Requeue(id)), id, error);
    } else {
      NotRequeued(Moved(s, Ready), error);
    }
  }

  lemma SuccessRun(s: System, id: string, signature: string)
    requires s.flush.Running? && s.flush.phase == Waiting(id)
    ensures Between(From(s, [Succeed(signature)]), StatusUpdated(s.store, id, Sent, None, Some(signature)),
                    s.flush.queue, s.ledger.Keys)
  {
    FromOne(s, Succeed(signature));
  }

  /** An uninterrupted flush of one intent is the run of its steps. */
  lemma FlushIsRun(s: System, sending: Sending, reply: Reply)
    requires AboutTo(s)
    ensures Between(From(s, StepsOf(sending, reply)), Flushed(s.store, s.flush.queue[0], sending, reply),
                    s.flush.queue[1..], s.ledger.Keys)
  {
    var id := s.flush.queue[0];
    match sending
    case InvalidTag(error) => TagRun(s, error);
    case Exception(error) => ExceptionRun(s, error);
    case Accepted(_) =>
      CountRun(s);
      FromConcat(s, [Begin, Dispatch, Count], ReplySteps(reply));
      var mid := From(s, [Begin, Dispatch, Count]);
      match reply {
        case Success(signature) => SuccessRun(mid, id, signature);
        case Failure(error) => ReplyRun(mid, id, error);
        case NoReply => ReplyRun(mid, id, TIMEOUT);
      }
  }

  // ---------------------------------------------------------------- attempts

  lemma IndexUnmoved(xs: seq<Intent>, id: string, y: Intent)
    requires IndexOf(xs, id) < |xs| && y.id == id
    ensures IndexOf(xs[IndexOf(xs, id) := y], id) == IndexOf(xs, id)
  {
    var i := IndexOf(xs, id);
    var ys := xs[i := y];
    assert ys[i].id == id;
    assert forall j :: 0 <= j < i ==> ys[j].id == xs[j].id;
  }

  /** What one flush makes of the intent itself. */
  function FlushedIntent(x: Intent, sending: Sending, reply: Reply): Intent {
    var counted := Counted(x.(status := Status.Sending));
    match sending
    case InvalidTag(error) => x.(status := Pending, lastError := Some(WRONG_PASSPHRASE + error))
    case Exception(error) => counted.(lastError := Some(error))
    case Accepted(_) =>
      match reply
      case Success(signature) => counted.(status := Sent, resultTxHash := Some(signature))
      case _ =>
        if counted.status == Failed then counted
        else counted.(status := Pending, lastError := Some(if reply.Failure? then reply.error else TIMEOUT))
  }

  lemma StatusUpdatedTwice(xs: seq<Intent>, i: nat, id: string, y: Intent, status: Status, error: Option<string>,
                           txHash: Option<string>)
    requires i == IndexOf(xs, id) < |xs| && y.id == id
    ensures StatusUpdated(xs[i := y], id, status, error, txHash) == xs[i := WithStatus(y, status, error, txHash)]
    ensures AttemptCounted(xs[i := y], id) == xs[i := Counted(y)]
    ensures Lookup(xs[i := y], id) == Some(y)
  {
    IndexUnmoved(xs, id, y);
  }

  lemma FlushedInPlace(xs: seq<Intent>, id: string, sending: Sending, reply: Reply)
    ensures var i := IndexOf(xs, id);
            Flushed(xs, id, sending, reply) == if i < |xs| then xs[i := FlushedIntent(xs[i], sending, reply)] else xs
  {
    var i := IndexOf(xs, id);
    if i < |xs| {
      var begun := WithStatus(xs[i], Status.Sending, None, None);
      var counted := Counted(begun);
      assert StatusUpdated(xs, id, Status.Sending, None, None) == xs[i := begun];
      match sending {
        case InvalidTag(error) => StatusUpdatedTwice(xs, i, id, begun, Pending, Some(WRONG_PASSPHRASE + error), None);
        case Exception(error) =>
          StatusUpdatedTwice(xs, i, id, begun, Pending, None, None);
          StatusUpdatedTwice(xs, i, id, counted, counted.status, Some(error), None);
        case Accepted(_) =>
          StatusUpdatedTwice(xs, i, id, begun, Pending, None, None);
          match reply {
            case Success(signature) => StatusUpdatedTwice(xs, i, id, counted, Sent, None, Some(signature));
            case Failure(error) => StatusUpdatedTwice(xs, i, id, counted, Pending, Some(error), None);
            case NoReply => StatusUpdatedTwice(xs, i, id, counted, Pending, Some(TIMEOUT), None);
          }
      }
    }
  }

  /** A completed flush uses up an attempt unless the passphrase was wrong, which costs nothing. */
  lemma FlushLowersPotential(xs: seq<Intent>, id: string, sending: Sending, reply: Reply)
    requires Lookup(xs, id).Some? && Open(Lookup(xs, id).value) && Consistent(Lookup(xs, id).value)
    ensures if sending.InvalidTag? then Potential(Flushed(xs, id, sending, reply)) == Potential(xs)
            else Potential(Flushed(xs, id, sending, reply)) < Potential(xs)
  {
    var i := IndexOf(xs, id);
    FlushedInPlace(xs, id, sending, reply);
    PotentialUpdate(xs, i, FlushedIntent(xs[i], sending, reply));
  }

  /** What the caller is told agrees with what the queue keeps. */
  lemma AnswerAgrees(x: Intent, sending: Sending, reply: Reply)
    requires Open(x) && Consistent(x)
    ensures var y, answer := FlushedIntent(x, sending, reply), AnswerTo(sending, reply);
            && (answer.Delivered? <==> y.status == Sent)
            && (answer.Delivered? ==> y.resultTxHash == Some(answer.signature))
            && (answer.Raised? <==> y.attempts == x.attempts)
            && (answer.Raised? ==> y.status == Pending && y.lastError == Some("Wrong passphrase: " + answer.error))
            && (y.status == Pending && sending.Accepted? && reply.NoReply? ==>
                  y.lastError == Some("Timeout waiting for result"))
            && (!answer.Raised? ==> y.attempts == x.attempts + 1)
            && (answer.Undelivered? ==> y.status != Sent && (y.status == Failed <==> y.attempts == y.maxAttempts))
  {}

  lemma FlushedAt(xs: seq<Intent>, ys: seq<Intent>, x: Intent, sending: Sending, reply: Reply) returns (k: nat)
    requires Distinct(xs) && x in xs && |ys| == |xs|
    requires forall i :: 0 <= i < |xs| ==> ys[i].id == xs[i].id && (xs[i] == x ==> ys[i] == x)
    ensures k < |xs| && xs[k] == x && Flushed(ys, x.id, sending, reply) == ys[k := FlushedIntent(x, sending, reply)]
  {
    FlushedInPlace(ys, x.id, sending, reply);
    k :| 0 <= k < |xs| && xs[k] == x;
    assert IndexOf(ys, x.id) == k;
  }

  lemma IdKept(x: Intent, sending: Sending, reply: Reply)
    ensures FlushedIntent(x, sending, reply).id == x.id
  {}

  lemma StatusLeft(x: Intent, sending: Sending, reply: Reply)
    requires Open(x) && Consistent(x)
    ensures var status := FlushedIntent(x, sending, reply).status;
            var left := sending.InvalidTag?
                        || (x.attempts + 1 < x.maxAttempts && !(sending.Accepted? && reply.Success?));
            && (status == Pending <==> left && !sending.Exception?)
            && (status == Status.Sending <==> left && sending.Exception?)
  {}

  lemma QueuedAt(xs: seq<Intent>, k: nat, y: Intent)
    requires Distinct(xs) && k < |xs| && y.id == xs[k].id
    ensures y.id in Ids(PendingOf(xs[k := y])) <==> y.status == Pending
    ensures y.id in Ids(PendingOf(Recovered(xs[k := y]))) <==> Open(y)
  {
    var ys := xs[k := y];
    assert Distinct(ys);
    PendingExactly(ys, k);
    assert Distinct(Recovered(ys));
    PendingExactly(Recovered(ys), k);
  }

  lemma PendingExactly(xs: seq<Intent>, i: nat)
    requires Distinct(xs) && i < |xs|
    ensures xs[i].id in Ids(PendingOf(xs)) <==> xs[i].status == Pending
  {
    PendingIds(xs);
    if xs[i].status == Pending {
      assert PendingWith(xs[i], xs[i].id);
    }
  }

  /** A flushed intent that is neither sent nor out of attempts is taken by the next flush exactly when its dispatch did
      not raise, or raised for a wrong passphrase: any other exception leaves it in sending. The next flush after
      reopening the queue takes it in any case. */
  lemma RetriedExactlyWhen(xs: seq<Intent>, x: Intent, sending: Sending, reply: Reply)
    requires Distinct(xs) && x in xs && Open(x) && Consistent(x)
    ensures var ys := Flushed(xs, x.id, sending, reply);
            var left := sending.InvalidTag?
                        || (x.attempts + 1 < x.maxAttempts && !(sending.Accepted? && reply.Success?));
            && (x.id in Ids(PendingOf(ys)) <==> left && !sending.Exception?)
            && (x.id in Ids(PendingOf(Recovered(ys))) <==> left)
  {
    var k := FlushedAt(xs, xs, x, sending, reply);
    IdKept(x, sending, reply);
    StatusLeft(x, sending, reply);
    QueuedAt(xs, k, FlushedIntent(x, sending, reply));
  }

  /** A wrong passphrase sends nothing and counts nothing: the intent is pending again, with the error. */
  lemma WrongPassphraseCostsNothing(s: System, error: string)
    requires AboutTo(s)
    ensures var s' := From(s, StepsOf(InvalidTag(error), NoReply));
            var i, told := IndexOf(s.store, s.flush.queue[0]), Some(WRONG_PASSPHRASE + error);
            && s'.ledger == s.ledger
            && s'.store == if i < |s.store| then s.store[i := s.store[i].(status := Pending, lastError := told)]
                           else s.store
  {
    TagRun(s, error);
    FlushedInPlace(s.store, s.flush.queue[0], InvalidTag(error), NoReply);
  }

  // ---------------------------------------------------------------- the classes

  /** What the environment answers to the i-th intent of a flush. */
  datatype Turn = Turn(online: bool, sending: Sending, reply: Reply)

  function PassphraseFor(walletName: string, passphrases: map<string, string>, cache: map<string, string>)
    : Option<string>
  {
    if walletName in passphrases then Some(passphrases[walletName])
    else if walletName in cache then Some(cache[walletName]) else None
  }

  predicate Passed(x: Intent, walletFilter: string, passphrases: map<string, string>, cache: map<string, string>) {
    (walletFilter == "" || x.walletName == walletFilter) && PassphraseFor(x.walletName, passphrases, cache).Some?
  }

  datatype Progress = Progress(store: seq<Intent>, results: seq<(string, Answer)>, stopped: bool)

  /** One pending intent's turn: passed intents are flushed unless the gateway is offline, which ends the flush. */
  function Taken(before: Progress, x: Intent, passed: bool, turn: Turn): Progress {
    if before.stopped || !passed then before
    else if !turn.online then before.(stopped := true)
    else
      var sending := Effective(x, turn.sending);
      Progress(Flushed(before.store, x.id, sending, turn.reply),
               before.results + [(x.id, AnswerTo(sending, turn.reply))], false)
  }

  /** The steps of a turn: a flush, a skip, or none once the flush has ended. */
  function TurnSteps(before: Progress, x: Intent, passed: bool, turn: Turn): seq<Step> {
    if before.stopped || (passed && !turn.online) then []
    else if !passed then [Skip]
    else StepsOf(Effective(x, turn.sending), turn.reply)
  }

  /** How the first `n` pending intents fare. */
  function FlushedUpTo(xs: seq<Intent>, pending: seq<Intent>, n: nat, walletFilter: string,
                       passphrases: map<string, string>, cache: map<string, string>, turns: nat -> Turn): Progress
    requires n <= |pending|
  {
    if n == 0 then Progress(xs, [], false)
    else
      Taken(FlushedUpTo(xs, pending, n - 1, walletFilter, passphrases, cache, turns), pending[n - 1],
            Passed(pending[n - 1], walletFilter, passphrases, cache), turns(n - 1))
  }

  // ---------------------------------------------------------------- what a flush of all makes of the queue

  function NamesOf(results: seq<(string, Answer)>): (names: seq<string>)
    ensures |names| == |results| && forall i :: 0 <= i < |results| ==> names[i] == results[i].0
  {
    seq(|results|, i requires 0 <= i < |results| => results[i].0)
  }

  predicate AnsweredAs(r: (string, Answer), x: Intent, turn: Turn) {
    r == (x.id, AnswerTo(Effective(x, turn.sending), turn.reply))
  }

  predicate BecameOf(y: Intent, x: Intent, turn: Turn) {
    y == FlushedIntent(x, Effective(x, turn.sending), turn.reply)
  }

  /** The intents among the first `m` that are not passed over, in order. */
  function Due(pending: seq<Intent>, m: nat, walletFilter: string, passphrases: map<string, string>,
               cache: map<string, string>): seq<Intent>
    requires m <= |pending|
  {
    Filter(pending[..m], (x: Intent) => Passed(x, walletFilter, passphrases, cache))
  }

  lemma DueOneMore(pending: seq<Intent>, m: nat, walletFilter: string, passphrases: map<string, string>,
                   cache: map<string, string>)
    requires m < |pending|
    ensures Due(pending, m + 1, walletFilter, passphrases, cache)
         == Due(pending, m, walletFilter, passphrases, cache)
            + if Passed(pending[m], walletFilter, passphrases, cache) then [pending[m]] else []
  {
    assert pending[..m + 1][..m] == pending[..m];
  }

  lemma DueMembers(pending: seq<Intent>, m: nat, walletFilter: string, passphrases: map<string, string>,
                   cache: map<string, string>)
    requires m <= |pending|
    ensures forall x :: x in Due(pending, m, walletFilter, passphrases, cache)
                        <==> x in pending[..m] && Passed(x, walletFilter, passphrases, cache)
  {
    FilterKeeps(pending[..m], (x: Intent) => Passed(x, walletFilter, passphrases, cache));
  }

  /** The results name the due intents in order, each with the answer of its own turn. */
  ghost predicate ListsResults(results: seq<(string, Answer)>, pending: seq<Intent>, m: nat, due: seq<Intent>,
                               turns: nat -> Turn)
    requires m <= |pending|
  {
    && NamesOf(results) == Ids(due)
    && forall r :: r in results ==> exists l :: 0 <= l < m && AnsweredAs(r, pending[l], turns(l))
  }

  /** Each due intent has become what its own turn makes of it, and everything else is as before. */
  ghost predicate ChangesDue(xs: seq<Intent>, ys: seq<Intent>, pending: seq<Intent>, m: nat, due: seq<Intent>,
                             turns: nat -> Turn)
    requires m <= |pending|
  {
    && |ys| == |xs| && (forall i :: 0 <= i < |xs| ==> ys[i].id == xs[i].id)
    && (forall i :: 0 <= i < |xs| && xs[i] !in due ==> ys[i] == xs[i])
    && (forall i :: 0 <= i < |xs| && xs[i] in due ==>
          exists l :: 0 <= l < m && pending[l] == xs[i] && BecameOf(ys[i], xs[i], turns(l)))
  }

  lemma ListedOneMore(results: seq<(string, Answer)>, pending: seq<Intent>, m: nat, due: seq<Intent>,
                      turns: nat -> Turn, r: (string, Answer))
    requires m < |pending| && ListsResults(results, pending, m, due, turns) && AnsweredAs(r, pending[m], turns(m))
    ensures ListsResults(results + [r], pending, m + 1, due + [pending[m]], turns)
  {
    assert NamesOf(results + [r]) == NamesOf(results) + [r.0];
    assert Ids(due + [pending[m]]) == Ids(due) + [pending[m].id];
  }

  lemma ChangedAt(xs: seq<Intent>, ys: seq<Intent>, pending: seq<Intent>, m: nat, due: seq<Intent>,
                  turns: nat -> Turn, k: nat, y: Intent)
    requires m < |pending| && ChangesDue(xs, ys, pending, m, due, turns)
    requires Distinct(xs) && k < |xs| && xs[k] == pending[m] && y.id == xs[k].id && BecameOf(y, xs[k], turns(m))
    ensures ChangesDue(xs, ys[k := y], pending, m + 1, due + [pending[m]], turns)
  {
    var due' := due + [pending[m]];
    assert forall x :: x in due' <==> x in due || x == xs[k];
    forall i | 0 <= i < |xs| && xs[i] in due'
      ensures exists l :: 0 <= l < m + 1 && pending[l] == xs[i] && BecameOf(ys[k := y][i], xs[i], turns(l))
    {
      if i == k {
        assert BecameOf(ys[k := y][i], pending[m], turns(m));
      } else {
        var l :| 0 <= l < m && pending[l] == xs[i] && BecameOf(ys[i], xs[i], turns(l));
      }
    }
  }

  lemma ChangedOneMore(xs: seq<Intent>, ys: seq<Intent>, pending: seq<Intent>, m: nat, due: seq<Intent>,
                       turns: nat -> Turn)
    requires m < |pending| && ChangesDue(xs, ys, pending, m, due, turns)
    requires Distinct(xs) && pending[m] in xs && pending[m] !in due
    ensures var x := pending[m];
            ChangesDue(xs, Flushed(ys, x.id, Effective(x, turns(m).sending), turns(m).reply), pending, m + 1,
                       due + [x], turns)
  {
    var x, sending, reply := pending[m], Effective(pending[m], turns(m).sending), turns(m).reply;
    var k := FlushedAt(xs, ys, x, sending, reply);
    IdKept(x, sending, reply);
    ChangedAt(xs, ys, pending, m, due, turns, k, FlushedIntent(x, sending, reply));
  }

  ghost predicate DueDone(xs: seq<Intent>, p: Progress, pending: seq<Intent>, m: nat, due: seq<Intent>,
                          turns: nat -> Turn)
    requires m <= |pending|
  {
    ListsResults(p.results, pending, m, due, turns) && ChangesDue(xs, p.store, pending, m, due, turns)
  }

  lemma DoneOneMore(xs: seq<Intent>, p: Progress, pending: seq<Intent>, m: nat, due: seq<Intent>, turns: nat -> Turn)
    requires m < |pending| && DueDone(xs, p, pending, m, due, turns)
    requires Distinct(xs) && pending[m] in xs && pending[m] !in due && !p.stopped && turns(m).online
    ensures DueDone(xs, Taken(p, pending[m], true, turns(m)), pending, m + 1, due + [pending[m]], turns)
  {
    var x, turn := pending[m], turns(m);
    ListedOneMore(p.results, pending, m, due, turns, (x.id, AnswerTo(Effective(x, turn.sending), turn.reply)));
    ChangedOneMore(xs, p.store, pending, m, due, turns);
  }

  lemma NothingMore(xs: seq<Intent>, p: Progress, pending: seq<Intent>, m: nat, due: seq<Intent>, turns: nat -> Turn)
    requires m < |pending| && DueDone(xs, p, pending, m, due, turns)
    ensures DueDone(xs, p, pending, m + 1, due, turns)
  {}

  lemma DoneNext(xs: seq<Intent>, before: Progress, pending: seq<Intent>, m: nat, walletFilter: string,
                 passphrases: map<string, string>, cache: map<string, string>, turns: nat -> Turn)
    requires m < |pending| && Distinct(xs) && Distinct(pending) && pending[m] in xs && !before.stopped
    requires DueDone(xs, before, pending, m, Due(pending, m, walletFilter, passphrases, cache), turns)
    requires Passed(pending[m], walletFilter, passphrases, cache) ==> turns(m).online
    ensures DueDone(xs, Taken(before, pending[m], Passed(pending[m], walletFilter, passphrases, cache), turns(m)),
                    pending, m + 1, Due(pending, m + 1, walletFilter, passphrases, cache), turns)
  {
    var due := Due(pending, m, walletFilter, passphrases, cache);
    DueOneMore(pending, m, walletFilter, passphrases, cache);
    if Passed(pending[m], walletFilter, passphrases, cache) {
      DueMembers(pending, m, walletFilter, passphrases, cache);
      DoneOneMore(xs, before, pending, m, due, turns);
    } else {
      NothingMore(xs, before, pending, m, due, turns);
    }
  }

  lemma NothingDone(xs: seq<Intent>, pending: seq<Intent>, turns: nat -> Turn)
    ensures DueDone(xs, Progress(xs, [], false), pending, 0, [], turns)
  {}

  /** As long as no turn was offline, all that is due has been flushed. */
  lemma {:induction false} DueFlushed(xs: seq<Intent>, pending: seq<Intent>, n: nat, walletFilter: string,
      passphrases: map<string, string>, cache: map<string, string>, turns: nat -> Turn)
    requires n <= |pending| && Distinct(xs) && Distinct(pending) && (forall x :: x in pending ==> x in xs)
    requires !FlushedUpTo(xs, pending, n, walletFilter, passphrases, cache, turns).stopped
    ensures DueDone(xs, FlushedUpTo(xs, pending, n, walletFilter, passphrases, cache, turns), pending, n,
                    Due(pending, n, walletFilter, passphrases, cache), turns)
    ensures forall l :: 0 <= l < n && Passed(pending[l], walletFilter, passphrases, cache) ==> turns(l).online
  {
    if n == 0 {
      NothingDone(xs, pending, turns);
    } else {
      DueFlushed(xs, pending, n - 1, walletFilter, passphrases, cache, turns);
      DoneNext(xs, FlushedUpTo(xs, pending, n - 1, walletFilter, passphrases, cache, turns), pending, n - 1,
               walletFilter, passphrases, cache, turns);
    }
  }

  /** A flush that stopped did so at an offline turn of a due intent, and changed nothing after it. */
  lemma {:induction false} StoppedAt(xs: seq<Intent>, pending: seq<Intent>, n: nat, walletFilter: string,
      passphrases: map<string, string>, cache: map<string, string>, turns: nat -> Turn) returns (m: nat)
    requires n <= |pending| && FlushedUpTo(xs, pending, n, walletFilter, passphrases, cache, turns).stopped
    ensures m < n && Passed(pending[m], walletFilter, passphrases, cache) && !turns(m).online
    ensures FlushedUpTo(xs, pending, n, walletFilter, passphrases, cache, turns)
         == FlushedUpTo(xs, pending, m, walletFilter, passphrases, cache, turns).(stopped := true)
    ensures !FlushedUpTo(xs, pending, m, walletFilter, passphrases, cache, turns).stopped
  {
    if FlushedUpTo(xs, pending, n - 1, walletFilter, passphrases, cache, turns).stopped {
      m := StoppedAt(xs, pending, n - 1, walletFilter, passphrases, cache, turns);
    } else {
      m := n - 1;
    }
  }

  lemma PendingMembers(xs: seq<Intent>)
    requires Distinct(xs)
    ensures Distinct(PendingOf(xs)) && forall x :: x in PendingOf(xs) <==> x in xs && x.status == Pending
  {
    var found := Filter(xs, (x: Intent) => x.status == Pending);
    FilterDistinct(xs, (x: Intent) => x.status == Pending);
    OldestFirstSorts(found);
    OldestFirstDistinct(found);
    forall x ensures x in PendingOf(xs) <==> x in found {
      assert x in PendingOf(xs) <==> x in multiset(PendingOf(xs));
    }
  }

  /** What a flush of all pending intents does: it goes through them oldest first, up to the first due intent whose
      turn finds the gateway offline, and flushes the due ones among them. */
  ghost predicate FlushesDue(xs: seq<Intent>, ys: seq<Intent>, results: seq<(string, Answer)>, walletFilter: string,
      passphrases: map<string, string>, cache: map<string, string>, turns: nat -> Turn, m: nat)
  {
    var pending := PendingOf(xs);
    && m <= |pending|
    && (forall l :: 0 <= l < m && Passed(pending[l], walletFilter, passphrases, cache) ==> turns(l).online)
    && (m < |pending| ==> Passed(pending[m], walletFilter, passphrases, cache) && !turns(m).online)
    && var due := Due(pending, m, walletFilter, passphrases, cache);
       ListsResults(results, pending, m, due, turns) && ChangesDue(xs, ys, pending, m, due, turns)
  }

  lemma FlushesAllDue(xs: seq<Intent>, walletFilter: string, passphrases: map<string, string>,
                      cache: map<string, string>, turns: nat -> Turn) returns (m: nat)
    requires Distinct(xs)
    ensures var p := FlushedUpTo(xs, PendingOf(xs), |PendingOf(xs)|, walletFilter, passphrases, cache, turns);
            FlushesDue(xs, p.store, p.results, walletFilter, passphrases, cache, turns, m)
  {
    var pending := PendingOf(xs);
    PendingMembers(xs);
    m := |pending|;
    if FlushedUpTo(xs, pending, m, walletFilter, passphrases, cache, turns).stopped {
      m := StoppedAt(xs, pending, m, walletFilter, passphrases, cache, turns);
    }
    DueFlushed(xs, pending, m, walletFilter, passphrases, cache, turns);
  }

  /** Nothing happens to an intent that is not pending, belongs to another wallet than the one asked for, or has no
      passphrase. */
  lemma OnlyDueChanged(xs: seq<Intent>, walletFilter: string, passphrases: map<string, string>,
                       cache: map<string, string>, turns: nat -> Turn, i: nat)
    requires Distinct(xs) && i < |xs|
    ensures var p := FlushedUpTo(xs, PendingOf(xs), |PendingOf(xs)|, walletFilter, passphrases, cache, turns);
            && |p.store| == |xs|
            && (p.store[i] != xs[i] ==>
                  xs[i].status == Pending && (walletFilter == "" || xs[i].walletName == walletFilter)
                  && (xs[i].walletName in passphrases || xs[i].walletName in cache))
  {
    var m := FlushesAllDue(xs, walletFilter, passphrases, cache, turns);
    PendingMembers(xs);
    DueMembers(PendingOf(xs), m, walletFilter, passphrases, cache);
  }

  /** With the gateway online throughout, an intent is in the results exactly when it is pending, of the wallet asked
      for if there is one, and has a passphrase. */
  lemma AllDueListed(xs: seq<Intent>, walletFilter: string, passphrases: map<string, string>,
                        cache: map<string, string>, turns: nat -> Turn, x: Intent)
    requires Distinct(xs) && x in xs && forall n: nat :: turns(n).online
    ensures var p := FlushedUpTo(xs, PendingOf(xs), |PendingOf(xs)|, walletFilter, passphrases, cache, turns);
            x.id in NamesOf(p.results) <==>
              && x.status == Pending
              && (walletFilter == "" || x.walletName == walletFilter)
              && (x.walletName in passphrases || x.walletName in cache)
  {
    var pending := PendingOf(xs);
    var m := FlushesAllDue(xs, walletFilter, passphrases, cache, turns);
    PendingMembers(xs);
    DueMembers(pending, m, walletFilter, passphrases, cache);
    assert pending[..|pending|] == pending;
    var due := Due(pending, m, walletFilter, passphrases, cache);
    if x.id in Ids(due) {
      var k :| 0 <= k < |due| && due[k].id == x.id;
      assert due[k] in due;
    }
    if x in due {
      var k :| 0 <= k < |due| && due[k] == x;
      assert Ids(due)[k] == x.id;
    }
  }

  /** A flush of all pending intents takes the due ones in order, until the gateway is offline; changes at most the
      pending intents of the wallet asked for that have a passphrase; and with the gateway online throughout lists
      exactly these. */
  ghost predicate FlushesOnlyDue(xs: seq<Intent>, ys: seq<Intent>, results: seq<(string, Answer)>,
      walletFilter: string, passphrases: map<string, string>, cache: map<string, string>, turns: nat -> Turn)
  {
    && (exists m: nat :: FlushesDue(xs, ys, results, walletFilter, passphrases, cache, turns, m))
    && |ys| == |xs|
    && (forall i :: 0 <= i < |xs| ==>
          || ys[i] == xs[i]
          || (xs[i].status == Pending && (walletFilter == "" || xs[i].walletName == walletFilter)
              && (xs[i].walletName in passphrases || xs[i].walletName in cache)))
    && ((forall n: nat :: turns(n).online) ==> forall x :: x in xs ==>
          (x.id in NamesOf(results) <==>
            x.status == Pending && (walletFilter == "" || x.walletName == walletFilter)
            && (x.walletName in passphrases || x.walletName in cache)))
  }

  lemma FlushAllDue(xs: seq<Intent>, walletFilter: string, passphrases: map<string, string>,
                    cache: map<string, string>, turns: nat -> Turn)
    ensures var p := FlushedUpTo(xs, PendingOf(xs), |PendingOf(xs)|, walletFilter, passphrases, cache, turns);
            Distinct(xs) ==> FlushesOnlyDue(xs, p.store, p.results, walletFilter, passphrases, cache, turns)
  {
    if Distinct(xs) {
      var pending := PendingOf(xs);
      var p := FlushedUpTo(xs, pending, |pending|, walletFilter, passphrases, cache, turns);
      var m := FlushesAllDue(xs, walletFilter, passphrases, cache, turns);
      assert FlushesDue(xs, p.store, p.results, walletFilter, passphrases, cache, turns, m);
      forall i | 0 <= i < |xs| && p.store[i] != xs[i]
        ensures xs[i].status == Pending && (walletFilter == "" || xs[i].walletName == walletFilter)
                && (xs[i].walletName in passphrases || xs[i].walletName in cache)
      {
        OnlyDueChanged(xs, walletFilter, passphrases, cache, turns, i);
      }
      if forall n: nat :: turns(n).online {
        forall x | x in xs
          ensures x.id in NamesOf(p.results) <==>
                    x.status == Pending && (walletFilter == "" || x.walletName == walletFilter)
                    && (x.walletName in passphrases || x.walletName in cache)
        {
          AllDueListed(xs, walletFilter, passphrases, cache, turns, x);
        }
      }
    }
  }

  // ---------------------------------------------------------------- flushing all is a run

  /** The steps that takes. */
  function Script(xs: seq<Intent>, pending: seq<Intent>, n: nat, walletFilter: string,
                  passphrases: map<string, string>, cache: map<string, string>, turns: nat -> Turn): seq<Step>
    requires n <= |pending|
  {
    if n == 0 then []
    else
      Script(xs, pending, n - 1, walletFilter, passphrases, cache, turns)
      + TurnSteps(FlushedUpTo(xs, pending, n - 1, walletFilter, passphrases, cache, turns), pending[n - 1],
                  Passed(pending[n - 1], walletFilter, passphrases, cache), turns(n - 1))
  }

  /** The system has come as far as `p`; `queue` is left unless the flush has ended. */
  predicate At(s: System, p: Progress, queue: seq<string>, ids: set<string>) {
    && s.flush.Running? && s.flush.phase == Ready && s.store == p.store && s.ledger.Keys == ids
    && (!p.stopped ==> s.flush.queue == queue)
  }

  lemma TurnRuns(s: System, before: Progress, x: Intent, passed: bool, turn: Turn, queue: seq<string>, ids: set<string>)
    requires At(s, before, [x.id] + queue, ids) && x.id in ids
    ensures At(From(s, TurnSteps(before, x, passed, turn)), Taken(before, x, passed, turn), queue, ids)
  {
    if !before.stopped {
      assert s.flush.queue[1..] == queue;
      if !passed {
        FromOne(s, Skip);
      } else if turn.online {
        FlushIsRun(s, Effective(x, turn.sending), turn.reply);
      }
    }
  }

  lemma AtConcat(s: System, front: seq<Step>, more: seq<Step>, p: Progress, queue: seq<string>, ids: set<string>)
    requires At(From(From(s, front), more), p, queue, ids)
    ensures At(From(s, front + more), p, queue, ids)
  {
    FromConcat(s, front, more);
  }

  lemma {:induction false} ScriptRuns(s: System, pending: seq<Intent>, n: nat, walletFilter: string,
      passphrases: map<string, string>, cache: map<string, string>, turns: nat -> Turn)
    requires n <= |pending| && s.flush == Running(Ids(pending), Ready)
    requires forall id :: id in Ids(pending) ==> id in s.ledger
    ensures At(From(s, Script(s.store, pending, n, walletFilter, passphrases, cache, turns)),
               FlushedUpTo(s.store, pending, n, walletFilter, passphrases, cache, turns), Ids(pending)[n..],
               s.ledger.Keys)
  {
    if n > 0 {
      ScriptRuns(s, pending, n - 1, walletFilter, passphrases, cache, turns);
      var front := Script(s.store, pending, n - 1, walletFilter, passphrases, cache, turns);
      var before := FlushedUpTo(s.store, pending, n - 1, walletFilter, passphrases, cache, turns);
      var x, passed, turn := pending[n - 1], Passed(pending[n - 1], walletFilter, passphrases, cache), turns(n - 1);
      assert Ids(pending)[n - 1] in Ids(pending);
      assert Ids(pending)[n - 1..] == [x.id] + Ids(pending)[n..];
      TurnRuns(From(s, front), before, x, passed, turn, Ids(pending)[n..], s.ledger.Keys);
      AtConcat(s, front, TurnSteps(before, x, passed, turn), Taken(before, x, passed, turn), Ids(pending)[n..],
               s.ledger.Keys);
    }
  }

  lemma FlushStarted(s: System)
    requires Inv(s) && s.flush.Idle?
    ensures From(s, [Start]) == s.(flush := Running(Ids(PendingOf(s.store)), Ready))
    ensures forall id :: id in Ids(PendingOf(s.store)) ==> id in s.ledger
  {
    FromOne(s, Start);
    PendingIds(s.store);
  }

  lemma FlushFinished(s: System)
    requires s.flush.Running? && s.flush.phase.Ready?
    ensures From(s, [Finish]).flush.Idle? && From(s, [Finish]).store == s.store
  {
    FromOne(s, Finish);
  }

  /** Flushing all pending intents without interruption extends a run, so all that holds of runs holds of it. */
  lemma FlushAllIsRun(steps: seq<Step>, walletFilter: string, passphrases: map<string, string>,
                      cache: map<string, string>, turns: nat -> Turn) returns (more: seq<Step>)
    requires Run(steps).flush.Idle?
    ensures var xs := Run(steps).store;
            var pending := PendingOf(xs);
            var s' := Run(steps + more);
            && s'.flush.Idle?
            && s'.store == FlushedUpTo(xs, pending, |pending|, walletFilter, passphrases, cache, turns).store
  {
    RunKeeps(steps);
    more := FlushAllFrom(Run(steps), walletFilter, passphrases, cache, turns);
    FromConcat(INITIAL, steps, more);
  }

  lemma FlushAllFrom(s: System, walletFilter: string, passphrases: map<string, string>,
                     cache: map<string, string>, turns: nat -> Turn) returns (more: seq<Step>)
    requires Inv(s) && s.flush.Idle?
    ensures var pending := PendingOf(s.store);
            var s' := From(s, more);
            && s'.flush.Idle?
            && s'.store == FlushedUpTo(s.store, pending, |pending|, walletFilter, passphrases, cache, turns).store
  {
    var pending := PendingOf(s.store);
    var script := Script(s.store, pending, |pending|, walletFilter, passphrases, cache, turns);
    FlushStarted(s);
    FromConcat(s, [Start], script);
    ScriptRuns(From(s, [Start]), pending, |pending|, walletFilter, passphrases, cache, turns);
    FromConcat(s, [Start] + script, [Finish]);
    FlushFinished(From(s, [Start] + script));
    more := [Start] + script + [Finish];
  }

  class ClientNode {
    const intentStore: IntentStore
    var passphraseCache: map<string, string>

    constructor (intentStore: IntentStore)
      ensures this.intentStore == intentStore && passphraseCache == map[]
    {
      this.intentStore := intentStore;
      passphraseCache := map[];
    }

    method CachePassphrase(walletName: string, passphrase: string)
      modifies this
      ensures passphraseCache == old(passphraseCache)[walletName := passphrase]
      ensures forall name, given: map<string, string> ::
                PassphraseFor(name, given, passphraseCache)
                == if name == walletName && name !in given then Some(passphrase)
                   else PassphraseFor(name, given, old(passphraseCache))
    {
      passphraseCache := passphraseCache[walletName := passphrase];
    }

    method FlushIntent(intent: Intent, sending: Sending, reply: Reply) returns (answer: Answer)
      modifies intentStore
      ensures intentStore.intents == Flushed(old(intentStore.intents), intent.id, Effective(intent, sending), reply)
      ensures answer == AnswerTo(Effective(intent, sending), reply)
      ensures intent.mode != 1 && intent.mode != 3 ==> answer == Undelivered(UNSUPPORTED_MODE)
      ensures (intent.mode == 1 || intent.mode == 3) && !sending.Accepted? ==>
                answer == if sending.InvalidTag? then Raised(sending.error) else Undelivered(sending.error)
      ensures (intent.mode == 1 || intent.mode == 3) && sending.Accepted? ==>
                answer == if reply.Success? then Delivered(reply.signature)
                          else Undelivered(if reply.Failure? then reply.error else "Timeout")
    {
      var _ := intentStore.UpdateStatus(intent.id, Status.Sending, None, None);
      var outcome := sending;
      if intent.mode != 1 && intent.mode != 3 {
        outcome := Exception(UNSUPPORTED_MODE);
      }
      match outcome {
        case InvalidTag(error) =>
          var _ := intentStore.UpdateStatus(intent.id, Pending, Some(WRONG_PASSPHRASE + error), None);
          return Raised(error);
        case Exception(error) =>
          var _ := intentStore.IncrementAttempts(intent.id);
          var current := intentStore.Get(intent.id);
          var status := if current.Some? then current.value.status else Pending;
          var _ := intentStore.UpdateStatus(intent.id, status, Some(error), None);
          return Undelivered(error);
        case Accepted(_) =>
      }
      var _ := intentStore.IncrementAttempts(intent.id);
      if reply.Success? {
        var _ := intentStore.UpdateStatus(intent.id, Sent, None, Some(reply.signature));
        return Delivered(reply.signature);
      } else if reply.Failure? {
        var current := intentStore.Get(intent.id);
        if current.Some? && current.value.status != Failed {
          var _ := intentStore.UpdateStatus(intent.id, Pending, Some(reply.error), None);
        }
        return Undelivered(reply.error);
      } else {
        var current := intentStore.Get(intent.id);
        if current.Some? && current.value.status != Failed {
          var _ := intentStore.UpdateStatus(intent.id, Pending, Some(TIMEOUT), None);
        }
        return Undelivered("Timeout");
      }
    }

    /** `turns(i)` is what the i-th pending intent meets; an empty filter stands for none. Exactly the due intents
        before the first offline turn of one are flushed, in order. */
    method FlushAllPending(passphrases: map<string, string>, walletFilter: string, turns: nat -> Turn)
      returns (results: seq<(string, Answer)>)
      modifies intentStore
      ensures var xs := old(intentStore.intents);
              var p := FlushedUpTo(xs, PendingOf(xs), |PendingOf(xs)|, walletFilter, passphrases, passphraseCache,
                                   turns);
              intentStore.intents == p.store && results == p.results
      ensures Distinct(old(intentStore.intents)) ==>
                FlushesOnlyDue(old(intentStore.intents), intentStore.intents, results, walletFilter, passphrases,
                               passphraseCache, turns)
    {
      FlushAllDue(intentStore.intents, walletFilter, passphrases, passphraseCache, turns);
      var pending := intentStore.PendingIntents();
      results := FlushEach(pending, passphrases, walletFilter, turns);
    }

    /** The loop over the pending intents. */
    method FlushEach(pending: seq<Intent>, passphrases: map<string, string>, walletFilter: string, turns: nat -> Turn)
      returns (results: seq<(string, Answer)>)
      modifies intentStore
      ensures FlushedUpTo(old(intentStore.intents), pending, |pending|, walletFilter, passphrases, passphraseCache,
                          turns).(stopped := false)
           == Progress(intentStore.intents, results, false)
    {
      results := [];
      var n := 0;
      ghost var xs := intentStore.intents;
      while n < |pending|
        invariant n <= |pending|
        invariant FlushedUpTo(xs, pending, n, walletFilter, passphrases, passphraseCache, turns)
               == Progress(intentStore.intents, results, false)
      {
        var intent := pending[n];
        var passphrase := PassphraseFor(intent.walletName, passphrases, passphraseCache);
        n := n + 1;
        if walletFilter != "" && intent.walletName != walletFilter {
          continue;
        }
        if passphrase.None? {
          continue;
        }
        if !turns(n - 1).online {
          StoppedStays(xs, pending, n, walletFilter, passphrases, passphraseCache, turns);
          break;
        }
        var answer := FlushIntent(intent, turns(n - 1).sending, turns(n - 1).reply);
        results := results + [(intent.id, answer)];
      }
    }
  }

  lemma {:induction false} StoppedStays(xs: seq<Intent>, pending: seq<Intent>, n: nat, walletFilter: string,
      passphrases: map<string, string>, cache: map<string, string>, turns: nat -> Turn)
    requires n <= |pending| && FlushedUpTo(xs, pending, n, walletFilter, passphrases, cache, turns).stopped
    ensures FlushedUpTo(xs, pending, |pending|, walletFilter, passphrases, cache, turns)
         == FlushedUpTo(xs, pending, n, walletFilter, passphrases, cache, turns)
    decreases |pending| - n
  {
    if n < |pending| {
      StoppedStays(xs, pending, n + 1, walletFilter, passphrases, cache, turns);
    }
  }
}
