/** The feed to the signal thread: a bounded queue that events are pushed to, best effort, and that
    the other thread empties at its own pace. */
module EventFeed {
  import opened Types
  import opened Arithmetic
  import Q = SpscQueue

  /** How many events the queue holds at most, 0 when there is no queue, and how many the other
      thread asks for just before event k is pushed. */
  datatype Outlet = Outlet(capacity: nat, asks: nat -> nat)

  /** `waiting` is what the queue holds and `popped` what the other thread has taken; slots are the
      log positions of the events that got in, and took[k] is how many had been taken when event
      k was pushed. */
  datatype Line = Line(waiting: seq<LOBEvent>, popped: seq<LOBEvent>, slots: seq<nat>, took: seq<nat>)

  const EMPTY_LINE := Line([], [], [], [])

  function Min(a: nat, b: nat): nat { if a < b then a else b }

  /** The other thread takes what it asks for, as far as there is any. */
  function Taken(out: Outlet, l: Line, k: nat): Line {
    var n := Min(out.asks(k), |l.waiting|);
    l.(waiting := l.waiting[n..], popped := l.popped + l.waiting[..n])
  }

  /** The push drops the event when the queue is full. */
  function Pushed(out: Outlet, l: Line, k: nat, ev: LOBEvent): Line {
    if |l.waiting| < out.capacity then Line(l.waiting + [ev], l.popped, l.slots + [k], l.took + [|l.popped|])
    else l.(took := l.took + [|l.popped|])
  }

  function Offered(out: Outlet, l: Line, k: nat, ev: LOBEvent): Line {
    Pushed(out, Taken(out, l, k), k, ev)
  }

  // ---- What gets in ----

  /** How many of these log positions are below k. */
  function Below(slots: seq<nat>, k: nat): (n: nat)
    ensures n <= |slots|
  {
    if slots == [] then 0
    else Below(slots[..|slots| - 1], k) + if slots[|slots| - 1] < k then 1 else 0
  }

  lemma {:induction false} BelowSnoc(slots: seq<nat>, x: nat, k: nat)
    ensures Below(slots + [x], k) == Below(slots, k) + if x < k then 1 else 0
  {
    assert (slots + [x])[..|slots|] == slots;
  }

  lemma {:induction false} AllBelow(slots: seq<nat>, k: nat)
    requires forall i :: 0 <= i < |slots| ==> slots[i] < k
    ensures Below(slots, k) == |slots|
  {
    if slots != [] {
      AllBelow(slots[..|slots| - 1], k);
    }
  }

  /** What has got into the queue so far. */
  function Enqueued(l: Line): seq<LOBEvent> {
    l.popped + l.waiting
  }

  /** Event k got in exactly when fewer than `capacity` of the events that got in before it were
      still there. */
  ghost predicate AdmittedAt(out: Outlet, l: Line, k: nat)
    requires k < |l.took|
  {
    && l.took[k] <= Below(l.slots, k) && Below(l.slots, k) - l.took[k] <= out.capacity
    && (k in l.slots <==> Below(l.slots, k) - l.took[k] < out.capacity)
  }

  ghost predicate InOrder(slots: seq<nat>, n: nat) {
    && (forall i :: 0 <= i < |slots| ==> slots[i] < n)
    && (forall i, j :: 0 <= i < j < |slots| ==> slots[i] < slots[j])
  }

  /** What was taken and what waits is the logged events that got in, in the order of the log, and
      an event was dropped exactly when the queue was full. */
  ghost predicate Orderly(out: Outlet, l: Line, log: seq<LOBEvent>) {
    && |l.took| == |log| && |l.slots| == |Enqueued(l)| && |l.waiting| <= out.capacity
    && InOrder(l.slots, |log|)
    && (forall i :: 0 <= i < |l.slots| ==> Enqueued(l)[i] == log[l.slots[i]])
    && (forall k :: 0 <= k < |log| ==> AdmittedAt(out, l, k))
  }

  lemma AdmittedStays(out: Outlet, l: Line, l': Line, log: seq<LOBEvent>, k: nat)
    requires Orderly(out, l, log) && k < |log|
    requires l'.slots == l.slots || l'.slots == l.slots + [|log|]
    requires |l'.took| > k && l'.took[k] == l.took[k]
    ensures AdmittedAt(out, l', k)
  {
    BelowSnoc(l.slots, |log|, k);
    assert AdmittedAt(out, l, k);
  }

  lemma TakenIsOrderly(out: Outlet, l: Line, log: seq<LOBEvent>)
    requires Orderly(out, l, log)
    ensures Orderly(out, Taken(out, l, |log|), log)
  {
    var t := Taken(out, l, |log|);
    assert Enqueued(t) == Enqueued(l);
    forall k | 0 <= k < |log|
      ensures AdmittedAt(out, t, k)
    {
      AdmittedStays(out, l, t, log, k);
    }
  }

  lemma {:induction false} NewestAdmitted(out: Outlet, l: Line, n: nat, ev: LOBEvent)
    requires |l.took| == n && |l.slots| == |Enqueued(l)| && |l.waiting| <= out.capacity && InOrder(l.slots, n)
    ensures AdmittedAt(out, Pushed(out, l, n, ev), n)
  {
    AllBelow(l.slots, n);
    BelowSnoc(l.slots, n, n);
    assert n !in l.slots && |l.slots| == |l.popped| + |l.waiting|;
    assert Pushed(out, l, n, ev).took[n] == |l.popped|;
  }

  lemma StillInOrder(l: Line, log: seq<LOBEvent>, ev: LOBEvent, all: seq<LOBEvent>)
    requires |l.slots| == |Enqueued(l)| && InOrder(l.slots, |log|) && all == Enqueued(l) + [ev]
    requires forall i :: 0 <= i < |l.slots| ==> Enqueued(l)[i] == log[l.slots[i]]
    ensures InOrder(l.slots + [|log|], |log| + 1)
    ensures forall i :: 0 <= i < |all| ==> all[i] == (log + [ev])[(l.slots + [|log|])[i]]
  {
  }

  lemma PushedIsOrderly(out: Outlet, l: Line, log: seq<LOBEvent>, ev: LOBEvent)
    requires Orderly(out, l, log)
    ensures Orderly(out, Pushed(out, l, |log|, ev), log + [ev])
  {
    var p, n := Pushed(out, l, |log|, ev), |log|;
    forall k | 0 <= k < |log + [ev]|
      ensures AdmittedAt(out, p, k)
    {
      if k < n {
        AdmittedStays(out, l, p, log, k);
      } else {
        NewestAdmitted(out, l, n, ev);
      }
    }
    if |l.waiting| < out.capacity {
      assert Enqueued(p) == Enqueued(l) + [ev];
      StillInOrder(l, log, ev, Enqueued(p));
    }
  }

  lemma OfferedIsOrderly(out: Outlet, l: Line, log: seq<LOBEvent>, ev: LOBEvent)
    requires Orderly(out, l, log)
    ensures Orderly(out, Offered(out, l, |log|, ev), log + [ev])
  {
    TakenIsOrderly(out, l, log);
    PushedIsOrderly(out, Taken(out, l, |log|), log, ev);
  }

  /** i of the events that waited have been taken. */
  ghost predicate Drained(was: seq<LOBEvent>, before: seq<LOBEvent>, i: nat,
                          popped: seq<LOBEvent>, waiting: seq<LOBEvent>)
  {
    i <= |was| && popped == before + was[..i] && waiting == was[i..]
  }

  lemma DrainOne(was: seq<LOBEvent>, before: seq<LOBEvent>, i: nat, popped: seq<LOBEvent>, waiting: seq<LOBEvent>,
                 item: LOBEvent, rest: seq<LOBEvent>)
    requires Drained(was, before, i, popped, waiting) && waiting == [item] + rest
    ensures Drained(was, before, i + 1, popped + [item], rest)
  {
    assert was[..i + 1] == was[..i] + [item];
  }

  // ---- The feed object ----

  class Feed {
    const queue: Q.SpscQueue?<LOBEvent>
    const asks: nat -> nat
    var popped: seq<LOBEvent>
    ghost var slots: seq<nat>
    ghost var took: seq<nat>
    ghost const Repr: set<object>

    ghost predicate Valid()
      reads this, Repr
    {
      && this in Repr
      && (queue != null ==> queue in Repr && queue.buf in Repr && queue.Valid())
    }

    ghost function Out(): Outlet {
      Outlet(if queue == null then 0 else Pow2(queue.k) - 1, asks)
    }

    ghost function Waiting(): seq<LOBEvent>
      requires Valid()
      reads Repr
    {
      if queue == null then [] else queue.Contents()
    }

    ghost function State(): Line
      requires Valid()
      reads Repr
    {
      Line(Waiting(), popped, slots, took)
    }

    constructor (queue: Q.SpscQueue?<LOBEvent>, asks: nat -> nat)
      requires queue != null ==> queue.Valid() && queue.Contents() == []
      ensures Valid() && State() == EMPTY_LINE && this.queue == queue && this.asks == asks
      ensures fresh(Repr - if queue == null then {} else {queue, queue.buf})
    {
      this.queue, this.asks := queue, asks;
      popped, slots, took := [], [], [];
      if queue == null {
        Repr := {this};
      } else {
        var q: Q.SpscQueue<LOBEvent> := queue;
        Repr := {this, q, q.buf};
      }
    }

    /** The other thread pops up to n events, until there is none. */
    method Take(n: nat)
      requires Valid()
      modifies Repr
      ensures Valid() && slots == old(slots) && took == old(took)
      ensures var k := Min(n, |old(Waiting())|);
              popped == old(popped) + old(Waiting())[..k] && Waiting() == old(Waiting())[k..]
    {
      if queue == null {
        return;
      }
      ghost var was, before := Waiting(), popped;
      var i := 0;
      while i < n
        invariant i <= n && Valid() && slots == old(slots) && took == old(took)
        invariant Drained(was, before, i, popped, Waiting())
      {
        ghost var left := Waiting();
        var item := queue.Pop();
        if item.None? {
          break;
        }
        DrainOne(was, before, i, popped, left, item.value, Waiting());
        popped := popped + [item.value];
        i := i + 1;
      }
    }

    /** The push of event number k, dropped when the queue is full. */
    method Push(ev: LOBEvent, ghost k: nat)
      requires Valid()
      modifies Repr
      ensures Valid() && State() == Pushed(Out(), old(State()), k, ev)
    {
      took := took + [|popped|];
      if queue != null {
        var ok := queue.Push(ev);
        slots := if ok then slots + [k] else slots;
      }
    }

    /** What happens to the queue around the push of event number k. */
    method Offer(ev: LOBEvent, k: nat)
      requires Valid()
      modifies Repr
      ensures Valid() && State() == Offered(Out(), old(State()), k, ev)
    {
      Take(asks(k));
      Push(ev, k);
    }
  }
}
