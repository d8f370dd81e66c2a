/** The bounded FIFO of unused callback connections. The broadcast channel that wakes waiters is a
    generation number: the channel handed out at generation g is closed exactly when the pool has
    moved past g. */
module CallbackPool {

  const CAPACITY := 16

  type LeaseId = nat

  /** The mutex-protected part of the pool. */
  datatype Contents = Contents(entries: seq<LeaseId>, generation: nat)

  function Notified(entries: seq<LeaseId>, before: Contents): Contents {
    Contents(entries, before.generation + 1)
  }

  predicate Admissible(p: Contents, done: bool) {
    !done && |p.entries| != CAPACITY
  }

  function Admitted(p: Contents, lease: LeaseId, done: bool): Contents {
    if Admissible(p, done) then Notified(p.entries + [lease], p) else p
  }

  /** Entries with the first occurrence of one lease dropped. */
  function Dropped(entries: seq<LeaseId>, lease: LeaseId): seq<LeaseId> {
    if entries == [] then []
    else if entries[0] == lease then entries[1..]
    else [entries[0]] + Dropped(entries[1..], lease)
  }

  function Removed(p: Contents, lease: LeaseId): Contents {
    if lease in p.entries then Notified(Dropped(p.entries, lease), p) else p
  }

  function Taken(p: Contents): Contents {
    if p.entries == [] then p else Notified(p.entries[1..], p)
  }

  /** Dropping keeps the order and every other lease, and removes one position. */
  lemma {:induction false} DroppedAt(entries: seq<LeaseId>, lease: LeaseId, index: nat)
    requires index < |entries| && entries[index] == lease && lease !in entries[..index]
    ensures Dropped(entries, lease) == entries[..index] + entries[index + 1..]
  {
    if index > 0 {
      assert entries[0] == entries[..index][0];
      assert entries[1..][..index - 1] == entries[..index][1..];
      DroppedAt(entries[1..], lease, index - 1);
    }
  }

  lemma {:induction false} DroppedFindsFirst(entries: seq<LeaseId>, lease: LeaseId) returns (index: nat)
    requires lease in entries
    ensures index < |entries| && entries[index] == lease && lease !in entries[..index]
    ensures Dropped(entries, lease) == entries[..index] + entries[index + 1..]
  {
    index := 0;
    while entries[index] != lease
      invariant index < |entries| && lease !in entries[..index]
      decreases |entries| - index
    {
      index := index + 1;
    }
    DroppedAt(entries, lease, index);
  }

  class Pool {
    var entries: seq<LeaseId>
    var generation: nat

    function Value(): Contents
      reads this
    {
      Contents(entries, generation)
    }

    constructor ()
      ensures Value() == Contents([], 0)
    {
      entries, generation := [], 0;
    }

    method Notify()
      modifies this`generation
      ensures generation == old(generation) + 1
    {
      generation := generation + 1;
    }

    /** Append an open lease when there is room; either way report the channel to wait on. */
    method Admit(lease: LeaseId, done: bool) returns (admitted: bool, changed: nat)
      modifies this
      ensures Value() == Admitted(old(Value()), lease, done)
      ensures admitted <==> Admissible(old(Value()), done)
      ensures changed == generation
    {
      if done { return false, generation; }
      if |entries| == CAPACITY { return false, generation; }
      entries := entries + [lease];
      Notify();
      return true, generation;
    }

    /** Drop a lease wherever it stands; say so only if it was there. */
    method Remove(lease: LeaseId)
      modifies this
      ensures Value() == Removed(old(Value()), lease)
    {
      var index := 0;
      while index < |entries|
        invariant index <= |entries| && lease !in entries[..index]
        invariant Value() == old(Value())
      {
        if entries[index] == lease {
          DroppedAt(entries, lease, index);
          entries := entries[..index] + entries[index + 1..];
          Notify();
          return;
        }
        index := index + 1;
      }
    }

    /** Take the oldest lease, or report the channel to wait on. */
    method Take() returns (lease: seq<LeaseId>, changed: nat)
      modifies this
      ensures Value() == Taken(old(Value()))
      ensures lease == if old(entries) == [] then [] else [old(entries)[0]]
      ensures changed == generation
    {
      if |entries| == 0 { return [], generation; }
      lease := [entries[0]];
      entries := entries[1..];
      Notify();
      changed := generation;
    }
  }

  /** The pool's state changes exactly when a new channel is made, so a channel still open means that
      nothing has been admitted, removed or taken since it was handed out. */
  lemma MutationsNotify(p: Contents, lease: LeaseId, done: bool)
    ensures forall q | q in {Admitted(p, lease, done), Removed(p, lease), Taken(p)} ::
              && (q.entries != p.entries <==> q.generation == p.generation + 1)
              && (q.entries == p.entries <==> q.generation == p.generation)
  {
    if lease in p.entries {
      var index := DroppedFindsFirst(p.entries, lease);
      assert |Dropped(p.entries, lease)| == |p.entries| - 1;
    }
  }
}
