/** Owners with queues of items, and items with a back pointer to their owner: the
    pattern of every ngx_queue_t in the store. */
module Queues {
  import opened Bytes
  import opened OrderedTree

  /** Each item is on its owner's queue, once, and on no other queue. */
  ghost predicate Queued(queues: map<Addr, seq<Addr>>, owner: map<Addr, Addr>) {
    && (forall o :: o in queues ==> NoDup(queues[o]))
    && (forall o, i :: o in queues && i in queues[o] ==> i in owner && owner[i] == o)
    && (forall i :: i in owner ==> owner[i] in queues && i in queues[owner[i]])
  }

  lemma QueuedItems(queues: map<Addr, seq<Addr>>, owner: map<Addr, Addr>, o: Addr)
    requires Queued(queues, owner) && o in queues
    ensures NoDup(queues[o])
    ensures forall i :: i in queues[o] ==> i in owner && owner[i] == o
  {
  }

  lemma QueuedBack(queues: map<Addr, seq<Addr>>, owner: map<Addr, Addr>, i: Addr)
    requires Queued(queues, owner) && i in owner
    ensures owner[i] in queues && i in queues[owner[i]]
  {
  }

  lemma QueuedAddOwner(queues: map<Addr, seq<Addr>>, owner: map<Addr, Addr>, o: Addr)
    requires Queued(queues, owner) && o !in queues
    ensures Queued(queues[o := []], owner)
  {
  }

  lemma QueuedDropOwner(queues: map<Addr, seq<Addr>>, owner: map<Addr, Addr>, o: Addr)
    requires Queued(queues, owner) && o in queues && queues[o] == []
    ensures Queued(queues - {o}, owner)
  {
  }

  /** ngx_queue_insert_tail. */
  lemma QueuedPush(queues: map<Addr, seq<Addr>>, owner: map<Addr, Addr>, o: Addr, i: Addr)
    requires Queued(queues, owner) && o in queues && i !in owner
    ensures Queued(queues[o := queues[o] + [i]], owner[i := o])
  {
    assert i !in queues[o];
    assert NoDup(queues[o] + [i]);
  }

  /** ngx_queue_remove. */
  lemma QueuedPull(queues: map<Addr, seq<Addr>>, owner: map<Addr, Addr>, o: Addr, i: Addr)
    requires Queued(queues, owner) && i in owner && owner[i] == o
    ensures o in queues && Queued(queues[o := Without(queues[o], i)], owner - {i})
  {
    WithoutOf(queues[o], i);
    var queues', owner' := queues[o := Without(queues[o], i)], owner - {i};
    forall p, j | p in queues' && j in queues'[p] ensures j in owner' && owner'[j] == p {
      assert j in queues[p];
    }
    forall j | j in owner' ensures owner'[j] in queues' && j in queues'[owner'[j]] {
      assert j in owner && j in queues[owner[j]];
    }
  }
}
