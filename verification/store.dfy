/** The intent queue of store.py: each operation loads the list, works on it and saves it, as one step. */
module Store {
  datatype Option<+T> = None | Some(value: T)

  datatype Status = Pending | Sending | Sent | Failed

  datatype Intent = Intent(
    id: string, mode: int, status: Status, createdAt: real, walletName: string, recipient: string, amount: real,
    tokenMint: Option<string>, tokenDecimals: nat, attempts: nat, maxAttempts: nat,
    lastError: Option<string>, resultTxHash: Option<string>)

  // ---------------------------------------------------------------- the operations, as functions of the list

  predicate SameParameters(x: Intent, y: Intent) {
    x.walletName == y.walletName && x.recipient == y.recipient && x.amount == y.amount && x.tokenMint == y.tokenMint
  }

  predicate IsDuplicate(xs: seq<Intent>, x: Intent) {
    exists y :: y in xs && y.status == Pending && SameParameters(x, y)
  }

  /** The position of the first intent with this id, or the length. */
  function IndexOf(xs: seq<Intent>, id: string): (i: nat)
    ensures i <= |xs| && (i < |xs| ==> xs[i].id == id)
    ensures forall j :: 0 <= j < i ==> xs[j].id != id
  {
    if xs == [] then 0 else if xs[0].id == id then 0 else 1 + IndexOf(xs[1..], id)
  }

  function Lookup(xs: seq<Intent>, id: string): Option<Intent> {
    var i := IndexOf(xs, id);
    if i < |xs| then Some(xs[i]) else None
  }

  function WithStatus(x: Intent, status: Status, error: Option<string>, txHash: Option<string>): Intent {
    x.(status := status,
       lastError := if error.Some? then error else x.lastError,
       resultTxHash := if txHash.Some? then txHash else x.resultTxHash)
  }

  function Counted(x: Intent): Intent {
    x.(attempts := x.attempts + 1, status := if x.attempts + 1 >= x.maxAttempts then Failed else x.status)
  }

  function StatusUpdated(xs: seq<Intent>, id: string, status: Status, error: Option<string>, txHash: Option<string>)
    : seq<Intent>
  {
    var i := IndexOf(xs, id);
    if i < |xs| then xs[i := WithStatus(xs[i], status, error, txHash)] else xs
  }

  function AttemptCounted(xs: seq<Intent>, id: string): seq<Intent> {
    var i := IndexOf(xs, id);
    if i < |xs| then xs[i := Counted(xs[i])] else xs
  }

  function Recovered(xs: seq<Intent>): (ys: seq<Intent>)
    ensures |ys| == |xs|
  {
    seq(|xs|, i requires 0 <= i < |xs| => if xs[i].status == Sending then xs[i].(status := Pending) else xs[i])
  }

  function Filter(xs: seq<Intent>, keep: Intent -> bool): seq<Intent> {
    if xs == [] then []
    else
      var front, last := xs[..|xs| - 1], xs[|xs| - 1];
      if keep(last) then Filter(front, keep) + [last] else Filter(front, keep)
  }

  /** Places `x` behind the intents created no later. */
  function Inserted(xs: seq<Intent>, x: Intent): seq<Intent> {
    if xs == [] || xs[|xs| - 1].createdAt <= x.createdAt then xs + [x]
    else Inserted(xs[..|xs| - 1], x) + [xs[|xs| - 1]]
  }

  function OldestFirst(xs: seq<Intent>): seq<Intent> {
    if xs == [] then [] else Inserted(OldestFirst(xs[..|xs| - 1]), xs[|xs| - 1])
  }

  function PendingOf(xs: seq<Intent>): seq<Intent> {
    OldestFirst(Filter(xs, (x: Intent) => x.status == Pending))
  }

  // ---------------------------------------------------------------- filtering and sorting

  lemma {:induction false} FilterKeeps(xs: seq<Intent>, keep: Intent -> bool)
    ensures forall x :: x in Filter(xs, keep) <==> x in xs && keep(x)
    ensures |Filter(xs, keep)| <= |xs|
  {
    if xs != [] {
      FilterKeeps(xs[..|xs| - 1], keep);
      assert xs == xs[..|xs| - 1] + [xs[|xs| - 1]];
    }
  }

  ghost predicate SortedByCreation(xs: seq<Intent>) {
    forall i, j :: 0 <= i < j < |xs| ==> xs[i].createdAt <= xs[j].createdAt
  }

  lemma {:induction false} InsertedMultiset(xs: seq<Intent>, x: Intent)
    ensures multiset(Inserted(xs, x)) == multiset(xs) + multiset{x}
  {
    if !(xs == [] || xs[|xs| - 1].createdAt <= x.createdAt) {
      InsertedMultiset(xs[..|xs| - 1], x);
      assert xs == xs[..|xs| - 1] + [xs[|xs| - 1]];
    }
  }

  lemma {:induction false} InsertedSorted(xs: seq<Intent>, x: Intent)
    requires SortedByCreation(xs)
    ensures SortedByCreation(Inserted(xs, x))
    ensures forall y :: y in Inserted(xs, x) ==> y == x || y in xs
  {
    if !(xs == [] || xs[|xs| - 1].createdAt <= x.createdAt) {
      var front := xs[..|xs| - 1];
      InsertedSorted(front, x);
      assert forall y :: y in front ==> y in xs && y.createdAt <= xs[|xs| - 1].createdAt;
      assert forall i :: 0 <= i < |Inserted(front, x)| ==> Inserted(front, x)[i] in Inserted(front, x);
    }
  }

  /** Pending intents come oldest first, each as often as it is queued. */
  lemma {:induction false} OldestFirstSorts(xs: seq<Intent>)
    ensures SortedByCreation(OldestFirst(xs)) && multiset(OldestFirst(xs)) == multiset(xs)
  {
    if xs != [] {
      var front, last := xs[..|xs| - 1], xs[|xs| - 1];
      OldestFirstSorts(front);
      InsertedSorted(OldestFirst(front), last);
      InsertedMultiset(OldestFirst(front), last);
      MultisetOfLast(xs);
    }
  }

  lemma MultisetOfLast(xs: seq<Intent>)
    requires xs != []
    ensures multiset(xs) == multiset(xs[..|xs| - 1]) + multiset{xs[|xs| - 1]}
  {
    assert xs == xs[..|xs| - 1] + [xs[|xs| - 1]];
  }

  /** Filtering treats every part of a list by itself and keeps the order. */
  lemma {:induction false} FilterConcat(xs: seq<Intent>, ys: seq<Intent>, keep: Intent -> bool)
    ensures Filter(xs + ys, keep) == Filter(xs, keep) + Filter(ys, keep)
  {
    if ys == [] {
      assert xs + ys == xs;
    } else {
      var front, last := ys[..|ys| - 1], ys[|ys| - 1];
      FilterConcat(xs, front, keep);
      assert xs + ys == (xs + front) + [last];
      FilterLast(xs + front, last, keep);
      assert ys == front + [last];
      FilterLast(front, last, keep);
    }
  }

  lemma FilterLast(xs: seq<Intent>, x: Intent, keep: Intent -> bool)
    ensures Filter(xs + [x], keep) == Filter(xs, keep) + if keep(x) then [x] else []
  {
    assert (xs + [x])[..|xs|] == xs;
  }

  lemma {:induction false} FilterCounts(xs: seq<Intent>, keep: Intent -> bool, x: Intent)
    ensures multiset(Filter(xs, keep))[x] == if keep(x) then multiset(xs)[x] else 0
  {
    if xs != [] {
      FilterCounts(xs[..|xs| - 1], keep, x);
      MultisetOfLast(xs);
    }
  }

  /** The intents created at one time, in order. */
  function CreatedAt(xs: seq<Intent>, t: real): seq<Intent> {
    if xs == [] then []
    else CreatedAt(xs[..|xs| - 1], t) + if xs[|xs| - 1].createdAt == t then [xs[|xs| - 1]] else []
  }

  lemma CreatedAtLast(xs: seq<Intent>, x: Intent, t: real)
    ensures CreatedAt(xs + [x], t) == CreatedAt(xs, t) + if x.createdAt == t then [x] else []
  {
    assert (xs + [x])[..|xs|] == xs;
  }

  /** Intents created at different times do not both count. */
  lemma OneOrTheOther(front: seq<Intent>, x: Intent, y: Intent, t: real)
    requires x.createdAt != y.createdAt
    ensures front + (if x.createdAt == t then [x] else []) + (if y.createdAt == t then [y] else [])
         == front + (if y.createdAt == t then [y] else []) + (if x.createdAt == t then [x] else [])
  {}

  lemma {:induction false} InsertedStable(xs: seq<Intent>, x: Intent, t: real)
    ensures CreatedAt(Inserted(xs, x), t) == CreatedAt(xs, t) + if x.createdAt == t then [x] else []
  {
    if xs == [] || xs[|xs| - 1].createdAt <= x.createdAt {
      CreatedAtLast(xs, x, t);
    } else {
      var front, last := xs[..|xs| - 1], xs[|xs| - 1];
      InsertedStable(front, x, t);
      assert Inserted(xs, x) == Inserted(front, x) + [last];
      CreatedAtLast(Inserted(front, x), last, t);
      OneOrTheOther(CreatedAt(front, t), x, last, t);
    }
  }

  /** The order is stable: intents created at the same time stay in the order of the queue. */
  lemma {:induction false} OldestFirstStable(xs: seq<Intent>, t: real)
    ensures CreatedAt(OldestFirst(xs), t) == CreatedAt(xs, t)
  {
    if xs != [] {
      var front, last := xs[..|xs| - 1], xs[|xs| - 1];
      OldestFirstStable(front, t);
      InsertedStable(OldestFirst(front), last, t);
    }
  }

  // ---------------------------------------------------------------- the class

  class IntentStore {
    var intents: seq<Intent>  // what the queue file holds

    /** Opens the queue and takes back what an earlier run left in sending. */
    constructor (queue: seq<Intent>)
      ensures intents == Recovered(queue) && |intents| == |queue|
      ensures forall i :: 0 <= i < |queue| ==>
                intents[i] == if queue[i].status == Status.Sending then queue[i].(status := Pending) else queue[i]
      ensures forall x :: x in intents ==> x.status != Status.Sending
    {
      intents := queue;
      new;
      RecoverSending();
    }

    method RecoverSending()
      modifies this
      ensures intents == Recovered(old(intents)) && |intents| == |old(intents)|
      ensures forall i :: 0 <= i < |intents| ==>
                var was := old(intents)[i];
                intents[i] == if was.status == Status.Sending then was.(status := Pending) else was
      ensures forall x :: x in intents ==> x.status != Status.Sending
    {
      var loaded := intents;
      var changed := false;
      for i := 0 to |loaded|
        invariant |loaded| == |intents|
        invariant forall j :: 0 <= j < i ==> loaded[j] == Recovered(intents)[j]
        invariant forall j :: i <= j < |loaded| ==> loaded[j] == intents[j]
        invariant !changed ==> loaded == intents
      {
        if loaded[i].status == Sending {
          loaded := loaded[i := loaded[i].(status := Pending)];
          changed := true;
        }
      }
      assert loaded == Recovered(intents);
      if changed {
        intents := loaded;
      }
    }

    /** Refuses an intent whose parameters equal those of a pending one. */
    method Add(intent: Intent) returns (added: bool)
      modifies this
      ensures added <==> !IsDuplicate(old(intents), intent)
      ensures added <==> !exists y :: y in old(intents) && y.status == Pending
                           && y.walletName == intent.walletName && y.recipient == intent.recipient
                           && y.amount == intent.amount && y.tokenMint == intent.tokenMint
      ensures intents == if added then old(intents) + [intent] else old(intents)
    {
      for i := 0 to |intents|
        invariant forall j :: 0 <= j < i ==> !(intents[j].status == Pending && SameParameters(intent, intents[j]))
      {
        if intents[i].status == Pending && SameParameters(intent, intents[i]) {
          return false;
        }
      }
      intents := intents + [intent];
      return true;
    }

    method Get(id: string) returns (r: Option<Intent>)
      ensures r == Lookup(intents, id)
    {
      for i := 0 to |intents|
        invariant forall j :: 0 <= j < i ==> intents[j].id != id
      {
        if intents[i].id == id {
          return Some(intents[i]);
        }
      }
      return None;
    }

    method UpdateStatus(id: string, status: Status, error: Option<string>, txHash: Option<string>)
      returns (found: bool)
      modifies this
      ensures found <==> Lookup(old(intents), id).Some?
      ensures intents == StatusUpdated(old(intents), id, status, error, txHash)
    {
      for i := 0 to |intents|
        invariant intents == old(intents) && forall j :: 0 <= j < i ==> intents[j].id != id
      {
        if intents[i].id == id {
          intents := intents[i := WithStatus(intents[i], status, error, txHash)];
          return true;
        }
      }
      return false;
    }

    method IncrementAttempts(id: string) returns (found: bool)
      modifies this
      ensures found <==> Lookup(old(intents), id).Some?
      ensures intents == AttemptCounted(old(intents), id)
    {
      for i := 0 to |intents|
        invariant intents == old(intents) && forall j :: 0 <= j < i ==> intents[j].id != id
      {
        if intents[i].id == id {
          var x := intents[i].(attempts := intents[i].attempts + 1);
          if x.attempts >= x.maxAttempts {
            x := x.(status := Failed);
          }
          intents := intents[i := x];
          return true;
        }
      }
      return false;
    }

    method Remove(id: string) returns (found: bool)
      modifies this
      ensures intents == Filter(old(intents), (x: Intent) => x.id != id)
      ensures found <==> |intents| < |old(intents)|
    {
      var before := |intents|;
      ghost var keep := (x: Intent) => x.id != id;
      var kept: seq<Intent> := [];
      for i := 0 to |intents|
        invariant kept == Filter(intents[..i], keep)
      {
        assert intents[..i + 1][..i] == intents[..i];
        if intents[i].id != id {
          kept := kept + [intents[i]];
        }
      }
      assert intents[..|intents|] == intents;
      found := |kept| < before;
      if found {
        intents := kept;
      } else {
        FilterKeeps(intents, keep);
        FilterAll(intents, keep);
      }
    }

    /** Drops the intents with the status, or all of them. */
    method Clear(status: Option<Status>) returns (count: nat)
      modifies this
      ensures intents == Filter(old(intents), (x: Intent) => status.Some? && x.status != status.value)
      ensures count == |old(intents)| - |intents|
    {
      ghost var keep := (x: Intent) => status.Some? && x.status != status.value;
      FilterKeeps(intents, keep);
      if status.None? {
        FilterNone(intents, keep);
        count := |intents|;
        intents := [];
        return;
      }
      var remaining: seq<Intent> := [];
      for i := 0 to |intents|
        invariant remaining == Filter(intents[..i], keep)
      {
        assert intents[..i + 1][..i] == intents[..i];
        if intents[i].status != status.value {
          remaining := remaining + [intents[i]];
        }
      }
      assert intents[..|intents|] == intents;
      count := |intents| - |remaining|;
      intents := remaining;
    }

    method PendingIntents() returns (pending: seq<Intent>)
      ensures pending == PendingOf(intents)
      ensures forall i, j :: 0 <= i < j < |pending| ==> pending[i].createdAt <= pending[j].createdAt
      ensures forall x :: multiset(pending)[x] == if x.status == Pending then multiset(intents)[x] else 0
    {
      ghost var keep := (x: Intent) => x.status == Pending;
      var found: seq<Intent> := [];
      for i := 0 to |intents|
        invariant found == Filter(intents[..i], keep)
      {
        assert intents[..i + 1][..i] == intents[..i];
        if intents[i].status == Pending {
          found := found + [intents[i]];
        }
      }
      assert intents[..|intents|] == intents;
      pending := OldestFirst(found);
      OldestFirstSorts(found);
      forall x ensures multiset(found)[x] == if x.status == Pending then multiset(intents)[x] else 0 {
        FilterCounts(intents, keep, x);
      }
    }
  }

  lemma {:induction false} FilterAll(xs: seq<Intent>, keep: Intent -> bool)
    requires |Filter(xs, keep)| == |xs|
    ensures Filter(xs, keep) == xs
  {
    if xs != [] {
      FilterKeeps(xs[..|xs| - 1], keep);
      FilterAll(xs[..|xs| - 1], keep);
      assert xs == xs[..|xs| - 1] + [xs[|xs| - 1]];
    }
  }

  lemma {:induction false} FilterNone(xs: seq<Intent>, keep: Intent -> bool)
    requires forall x :: !keep(x)
    ensures Filter(xs, keep) == []
  {
    if xs != [] {
      FilterNone(xs[..|xs| - 1], keep);
    }
  }
}
