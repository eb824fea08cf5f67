/** The window's timer queue: pending callbacks with the ids `setTimeout` returned.
    Delays are not modelled: callbacks run in the order they were scheduled. */
module Timers {

  datatype Timer<T> = Timer(id: nat, task: T)

  /** The ids are distinct positive numbers below the next id handed out. */
  ghost predicate QueueValid<T>(q: seq<Timer<T>>, nextId: nat) {
    && nextId >= 1
    && (forall i :: 0 <= i < |q| ==> 1 <= q[i].id < nextId)
    && (forall i, j :: 0 <= i < j < |q| ==> q[i].id != q[j].id)
  }

  /** `clearTimeout(id)`: the queue without the callback of that id; every other
      callback stays, in its order. */
  function Cancel<T>(q: seq<Timer<T>>, id: nat): (r: seq<Timer<T>>)
    ensures forall i :: 0 <= i < |r| ==> r[i] in q && r[i].id != id
    ensures forall i :: 0 <= i < |q| && q[i].id != id ==> q[i] in r
    ensures |r| <= |q|
    decreases |q|
  {
    if q == [] then []
    else
      var rest := Cancel(q[..|q| - 1], id);
      var t := q[|q| - 1];
      assert forall i :: 0 <= i < |q| - 1 ==> q[i] == q[..|q| - 1][i];
      if t.id == id then rest else rest + [t]
  }

  /** Order: cancelling in consecutive parts of the queue gives consecutive results,
      so the callbacks that stay keep their order. */
  lemma {:induction false} CancelConcat<T>(a: seq<Timer<T>>, b: seq<Timer<T>>, id: nat)
    ensures Cancel(a + b, id) == Cancel(a, id) + Cancel(b, id)
    decreases |b|
  {
    if b == [] {
      assert a + b == a;
    } else {
      var b' := b[..|b| - 1];
      var t := b[|b| - 1];
      assert (a + b)[..|a + b| - 1] == a + b';
      assert (a + b)[|a + b| - 1] == t;
      CancelConcat(a, b', id);
      if t.id != id {
        assert Cancel(a, id) + Cancel(b', id) + [t] == Cancel(a, id) + (Cancel(b', id) + [t]);
      }
    }
  }

  /** One callback is dropped exactly when it has the id. */
  lemma CancelOne<T>(t: Timer<T>, id: nat)
    ensures Cancel([t], id) == if t.id == id then [] else [t]
  {
    assert [t][..0] == [];
  }

  /** Cancelling an id nobody holds changes nothing. */
  lemma {:induction false} CancelAbsent<T>(q: seq<Timer<T>>, id: nat)
    requires forall i :: 0 <= i < |q| ==> q[i].id != id
    ensures Cancel(q, id) == q
    decreases |q|
  {
    if q != [] {
      CancelAbsent(q[..|q| - 1], id);
      assert q == q[..|q| - 1] + [q[|q| - 1]];
    }
  }

  /** Cancelling keeps the queue well formed. */
  lemma {:induction false} CancelValid<T>(q: seq<Timer<T>>, nextId: nat, id: nat)
    requires QueueValid(q, nextId)
    ensures QueueValid(Cancel(q, id), nextId)
    decreases |q|
  {
    if q != [] {
      var init := q[..|q| - 1];
      assert QueueValid(init, nextId) by {
        forall i, j | 0 <= i < j < |init| ensures init[i].id != init[j].id {
          assert init[i] == q[i] && init[j] == q[j];
        }
      }
      CancelValid(init, nextId, id);
      var t := q[|q| - 1];
      if t.id != id {
        forall x | x in init ensures x.id != t.id {
          var k :| 0 <= k < |init| && init[k] == x;
          assert q[k] == x;
        }
        AppendFresh(Cancel(init, id), init, nextId, t);
      }
    }
  }

  /** A callback whose id none of the callbacks of `q` come from keeps a well formed
      queue well formed. */
  lemma AppendFresh<T>(q: seq<Timer<T>>, from: seq<Timer<T>>, nextId: nat, t: Timer<T>)
    requires QueueValid(q, nextId) && 1 <= t.id < nextId
    requires forall i :: 0 <= i < |q| ==> q[i] in from
    requires forall x :: x in from ==> x.id != t.id
    ensures QueueValid(q + [t], nextId)
  {
  }

  /** Scheduling appends a callback under a fresh id. */
  lemma ScheduleValid<T>(q: seq<Timer<T>>, nextId: nat, task: T)
    requires QueueValid(q, nextId)
    ensures QueueValid(q + [Timer(nextId, task)], nextId + 1)
  {
  }
}
