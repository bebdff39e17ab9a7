/**
 * The chunked, bounded FIFO queue of task2/matrix_mul (queue.h, queue.c).
 *
 * Tasks live in a singly linked chain of fixed-size chunks. Each chunk has a
 * write cursor `filled` and a read cursor `next`; readers take from the front
 * chunk, writers append to the back chunk. The mutexes and condition
 * variables are not modelled: each operation is one atomic step, and each
 * blocking `while (...) pthread_cond_wait(...)` becomes a precondition that
 * is exactly the negation of its wait guard.
 */
module ChunkQueue {

  /** `_QUEUE_CHUNK_SIZE`: task slots per chunk. */
  const ChunkSize: int := 1000
  /** `_QUEUE_MAX_LIVE_CHUNKS`: the most chunks that may be linked at once. */
  const MaxLiveChunks: int := 100

  /** `struct QueueChunk`. The `tasks` buffer is allocated once and never replaced. */
  class Chunk<T(0)> {
    var tasks: seq<T>
    var filled: int
    var next: int
    var nextChunk: Chunk?<T>

    /** `QUEUE_create_chunk`: an empty chunk with no successor. */
    constructor ()
      ensures |tasks| == ChunkSize
      ensures filled == 0 && next == 0 && nextChunk == null
      ensures CursorsOk() && Waiting() == []
    {
      var blank: T := *;
      tasks := seq(ChunkSize, _ => blank);
      filled := 0;
      next := 0;
      nextChunk := null;
    }

    /** The cursors are in range: `0 <= next <= filled <= ChunkSize`. */
    ghost predicate CursorsOk()
      reads this`next, this`filled, this`tasks
    {
      |tasks| == ChunkSize && 0 <= next <= filled <= ChunkSize
    }

    /** The tasks written to this chunk and not yet read, oldest first. */
    ghost function Waiting(): seq<T>
      reads this`next, this`filled, this`tasks
      requires CursorsOk()
    {
      tasks[next..filled]
    }

    /** `back->tasks[back->filled++] = task`: the store at the end of `QUEUE_add`. */
    method Push(task: T)
      requires CursorsOk() && filled < ChunkSize
      modifies this`filled, this`tasks
      ensures CursorsOk() && Waiting() == old(Waiting()) + [task]
      ensures filled == old(filled) + 1
    {
      tasks := tasks[filled := task];
      filled := filled + 1;
      assert tasks[next..filled] == old(tasks[next..filled]) + [task];
    }

    /** `front->tasks[front->next++]`: the read at the heart of `QUEUE_get`. */
    method Take() returns (task: T)
      requires CursorsOk() && next < filled
      modifies this`next
      ensures CursorsOk() && old(Waiting()) == [task] + Waiting()
      ensures task == old(tasks[next]) && next == old(next) + 1
    {
      task := tasks[next];
      next := next + 1;
    }
  }

  /**
   * The chain of chunks from the front of a queue to its back, each with the
   * segment of tasks it is recorded to hold.
   */
  datatype Links<T(0)> = End | Link(chunk: Chunk<T>, seg: seq<T>, rest: Links<T>)

  /** The number of chunks in a chain. */
  ghost function Length<T(0)>(l: Links<T>): nat
  {
    if l.End? then 0 else 1 + Length(l.rest)
  }

  /** The chunks of a chain. */
  ghost function Objs<T(0)>(l: Links<T>): set<Chunk<T>>
  {
    if l.End? then {} else {l.chunk} + Objs(l.rest)
  }

  /** The back chunk of a chain. */
  ghost function Last<T(0)>(l: Links<T>): (x: Chunk<T>)
    requires l.Link?
    ensures x in Objs(l)
  {
    if l.rest.End? then l.chunk else Last(l.rest)
  }

  /** The segment recorded for the back chunk of a chain. */
  ghost function LastSeg<T(0)>(l: Links<T>): seq<T>
    requires l.Link?
  {
    if l.rest.End? then l.seg else LastSeg(l.rest)
  }

  /** The tasks a chain holds, front to back. */
  ghost function Flatten<T(0)>(l: Links<T>): seq<T>
  {
    if l.End? then [] else l.seg + Flatten(l.rest)
  }

  /** `l` with chunk `x`, holding `t`, linked after its back. */
  ghost function Snoc<T(0)>(l: Links<T>, x: Chunk<T>, t: seq<T>): (r: Links<T>)
    ensures r.Link? && Last(r) == x && LastSeg(r) == t && Length(r) == Length(l) + 1
    ensures Objs(r) == Objs(l) + {x}
    ensures l.Link? ==> r.chunk == l.chunk && r.seg == l.seg
  {
    if l.End? then Link(x, t, End) else Link(l.chunk, l.seg, Snoc(l.rest, x, t))
  }

  /** `l` without its back chunk. */
  ghost function Init<T(0)>(l: Links<T>): Links<T>
    requires l.Link?
  {
    if l.rest.End? then End else Link(l.chunk, l.seg, Init(l.rest))
  }

  lemma {:induction false} SnocInit<T(0)>(l: Links<T>)
    requires l.Link?
    ensures Snoc(Init(l), Last(l), LastSeg(l)) == l
  {
    if l.rest.Link? {
      SnocInit(l.rest);
    }
  }

  /**
   * `l` is a well-formed chain: every chunk's cursors are in range and its
   * recorded segment is what it holds, every chunk but the back one is full
   * and linked to the next, no chunk but the front one has been read from,
   * and no chunk occurs twice.
   */
  ghost predicate ChainOk<T(0)>(l: Links<T>)
    reads Objs(l)`next, Objs(l)`filled, Objs(l)`tasks, Objs(l)`nextChunk
  {
    l.Link? ==>
      && l.chunk.CursorsOk() && l.seg == l.chunk.Waiting()
      && l.chunk !in Objs(l.rest)
      && (l.rest.Link? ==>
            l.chunk.filled == ChunkSize && l.chunk.nextChunk == l.rest.chunk &&
            l.rest.chunk.next == 0)
      && ChainOk(l.rest)
  }

  /** Every object of an allocated chain is allocated. */
  lemma {:induction false} ObjsAllocated<T(0)>(l: Links<T>)
    ensures allocated(Objs(l))
  {
    if l.Link? {
      ObjsAllocated(l.rest);
    }
  }

  lemma {:induction false} FlattenSnoc<T(0)>(l: Links<T>, x: Chunk<T>, t: seq<T>)
    ensures Flatten(Snoc(l, x, t)) == Flatten(l) + t
  {
    if l.Link? {
      FlattenSnoc(l.rest, x, t);
    }
  }

  /** Linking a chunk after the full back of a chain, and never reading from it, extends the chain. */
  lemma {:induction false} ChainSnoc<T(0)>(l: Links<T>, x: Chunk<T>, t: seq<T>)
    requires ChainOk(l) && x !in Objs(l)
    requires x.CursorsOk() && x.Waiting() == t
    requires l.Link? ==> Last(l).filled == ChunkSize && Last(l).nextChunk == x && x.next == 0
    ensures ChainOk(Snoc(l, x, t))
  {
    if l.Link? {
      ChainSnoc(l.rest, x, t);
    }
  }

  /** The converse of `ChainSnoc`: what a well-formed chain says about its back chunk. */
  lemma {:induction false} ChainUnsnoc<T(0)>(l: Links<T>, x: Chunk<T>, t: seq<T>)
    requires ChainOk(Snoc(l, x, t))
    ensures ChainOk(l) && x !in Objs(l)
    ensures x.CursorsOk() && x.Waiting() == t
    ensures l.Link? ==> Last(l).filled == ChunkSize && Last(l).nextChunk == x && x.next == 0
  {
    if l.Link? {
      ChainUnsnoc(l.rest, x, t);
    }
  }

  /** How many tasks a well-formed chain holds follows from its shape alone. */
  lemma {:induction false} ChainSize<T(0)>(l: Links<T>)
    requires l.Link? && ChainOk(l)
    ensures Last(l).CursorsOk()
    ensures |Flatten(l)| == (Length(l) - 1) * ChunkSize + Last(l).filled - l.chunk.next
  {
    if l.rest.Link? {
      ChainSize(l.rest);
    }
  }

  /**
   * `struct Queue`. The chunks from `front` to `back`, with the tasks each
   * holds, are recorded in the ghost `chain`.
   */
  class Queue<T(0)> {
    var front: Chunk<T>
    var back: Chunk<T>
    var liveChunkCount: int
    var dispatched: int

    ghost var chain: Links<T>

    /** The objects the queue is made of. */
    ghost function Repr(): set<object>
      reads this`chain
    {
      {this} + Objs(chain)
    }

    /**
     * The chain runs from `front` to `back` and `live_chunk_count` is its
     * length, never above the maximum.
     */
    ghost predicate Threaded()
      reads this`chain, this`front, this`back, this`liveChunkCount
      reads Objs(chain)`next, Objs(chain)`filled, Objs(chain)`tasks, Objs(chain)`nextChunk
    {
      && chain.Link?
      && ChainOk(chain)
      && front == chain.chunk
      && back == Last(chain)
      && liveChunkCount == Length(chain) <= MaxLiveChunks
    }

    /** The chain is threaded and the back link is NULL. */
    ghost predicate Linked()
      reads this`chain, this`front, this`back, this`liveChunkCount
      reads Objs(chain)`next, Objs(chain)`filled, Objs(chain)`tasks, Objs(chain)`nextChunk
    {
      Threaded() && back.nextChunk == null
    }

    /**
     * The queue's invariant: it is linked and the front chunk still has an
     * unread slot, because a fully read front is retired at once.
     */
    ghost predicate Valid()
      reads this`chain, this`front, this`back, this`liveChunkCount
      reads Objs(chain)`next, Objs(chain)`filled, Objs(chain)`tasks, Objs(chain)`nextChunk
    {
      Linked() && front.next < ChunkSize
    }

    /** The tasks in the queue, oldest first. */
    ghost function Contents(): seq<T>
      reads this`chain
    {
      Flatten(chain)
    }

    /**
     * How many `QUEUE_add` calls in a row can return before one has to wait:
     * the free slots of the back chunk plus those of the chunks that may
     * still be allocated.
     */
    ghost function Capacity(): int
      reads this, back
    {
      (MaxLiveChunks - liveChunkCount) * ChunkSize + (ChunkSize - back.filled)
    }

    /** `QUEUE_create`: one empty chunk that is both front and back. */
    constructor ()
      ensures Valid() && fresh(Repr() - {this})
      ensures front == back && front.filled == 0 && front.next == 0
      ensures dispatched == 0 && liveChunkCount == 1
      ensures Contents() == [] && Capacity() == MaxLiveChunks * ChunkSize
    {
      var c := new Chunk();
      front, back := c, c;
      dispatched := 0;
      liveChunkCount := 1;
      chain := Link(c, [], End);
      new;
      assert Objs(chain) == {c};
      assert Flatten(chain) == [] + Flatten(End);
    }

    /** `QUEUE_register_completion`: one dispatched task has been finished. */
    method RegisterCompletion()
      modifies this`dispatched
      ensures dispatched == old(dispatched) - 1
      ensures old(Valid()) ==> Valid()
      ensures Contents() == old(Contents())
    {
      ObjsAllocated(chain);
      dispatched := dispatched - 1;
    }

    /**
     * `QUEUE_get`: hands out the oldest task. The source waits while
     * `front->next >= front->filled`; a chunk whose last slot has been read
     * is retired, and when it had no successor a fresh empty chunk takes its
     * place as both front and back.
     */
    method Get() returns (task: T)
      requires Valid()
      requires front.next < front.filled
      modifies this`chain, this`front, this`back, this`liveChunkCount, this`dispatched
      modifies front`next, front`nextChunk
      ensures Valid() && fresh(Repr() - old(Repr()))
      ensures old(Contents()) == [task] + Contents()
      ensures task == old(front.tasks[front.next])
      ensures dispatched == old(dispatched) + 1
      ensures Capacity() >= old(Capacity())
    {
      task := TakeFront();
      ghost var r := Repr();
      label taken:
      RetireSpent();
      forall o | o in Repr() && o !in r ensures fresh(o) {
        assert !old@taken(allocated(o));
        assert old(allocated(o)) ==> old@taken(allocated(o));
      }
      dispatched := dispatched + 1;
    }

    /** The read of `QUEUE_get`: the oldest task leaves the front chunk. */
    method TakeFront() returns (task: T)
      requires Valid() && front.next < front.filled
      modifies this`chain, front`next
      ensures Linked() && Repr() == old(Repr())
      ensures old(Contents()) == [task] + Contents()
      ensures task == old(front.tasks[front.next])
      ensures front.next == old(front.next) + 1
    {
      var f := front;
      ghost var rest := chain.rest;
      assert ChainOk(rest) && f !in Objs(rest);
      ObjsAllocated(rest);
      ghost var w := f.Waiting();
      task := f.Take();
      assert ChainOk(rest);
      chain := Link(f, f.Waiting(), rest);
      calc {
        old(Contents());
        w + Flatten(rest);
        ([task] + f.Waiting()) + Flatten(rest);
        [task] + Contents();
      }
    }

    /**
     * The retirement step of `QUEUE_get`: a front chunk whose last slot has
     * been read is unlinked; its successor becomes the front, or, when it
     * has none, a fresh empty chunk becomes both front and back.
     */
    method RetireSpent()
      requires Linked() && front.next <= ChunkSize
      modifies this`chain, this`front, this`back, this`liveChunkCount, front`nextChunk
      ensures Valid() && fresh(Repr() - old(Repr()))
      ensures Contents() == old(Contents())
      ensures Capacity() >= old(Capacity())
      ensures old(front.next) < ChunkSize ==>
                front == old(front) && back == old(back) && liveChunkCount == old(liveChunkCount)
      ensures old(front.next) == ChunkSize && old(front.nextChunk) == null ==>
                fresh(front) && front == back && front.filled == 0 && front.next == 0 &&
                liveChunkCount == old(liveChunkCount)
      ensures old(front.next) == ChunkSize && old(front.nextChunk) != null ==>
                front == old(front.nextChunk) && back == old(back) &&
                liveChunkCount == old(liveChunkCount) - 1
    {
      if front.next < ChunkSize {
        return;
      }
      var f := front;
      ghost var rest := chain.rest;
      assert ChainOk(rest) && f !in Objs(rest);
      assert f.Waiting() == [];
      ObjsAllocated(rest);
      var successor := f.nextChunk;
      f.nextChunk := null;
      assert ChainOk(rest);
      if successor == null {
        var c := new Chunk();
        front, back := c, c;
        chain := Link(c, [], End);
        assert Flatten(chain) == [] + Flatten(End);
      } else {
        front := successor;
        chain := rest;
        liveChunkCount := liveChunkCount - 1;
      }
    }

    /**
     * The first half of `QUEUE_add`, taken when the back chunk is full: a
     * new chunk is created, linked after the back and made the back, and
     * `live_chunk_count` goes up by one.
     */
    method LinkChunk()
      requires Valid() && back.filled >= ChunkSize && liveChunkCount < MaxLiveChunks
      modifies this`chain, this`back, this`liveChunkCount, back`nextChunk
      ensures Valid() && fresh(Repr() - old(Repr()))
      ensures Contents() == old(Contents())
      ensures fresh(back) && old(back).nextChunk == back
      ensures old(back.filled) == ChunkSize && back.filled == 0
      ensures liveChunkCount == old(liveChunkCount) + 1
    {
      ghost var l := chain;
      ObjsAllocated(l);
      var c := AttachChunk();
      ChainSnoc(l, c, []);
      FlattenSnoc(l, c, []);
      back := c;
      chain := Snoc(l, c, []);
      liveChunkCount := liveChunkCount + 1;
    }

    /** `queue->back->next_chunk = back`: a new empty chunk is linked after the full back. */
    method AttachChunk() returns (c: Chunk<T>)
      requires Valid() && back.filled >= ChunkSize
      modifies back`nextChunk
      ensures Threaded() && front.next < ChunkSize && back.nextChunk == c && back.filled == ChunkSize
      ensures fresh(c) && c.CursorsOk() && c.Waiting() == [] && c.next == 0 && c.nextChunk == null
    {
      var b := back;
      ghost var l, i, s := chain, Init(chain), LastSeg(chain);
      SnocInit(l);
      ChainUnsnoc(i, b, s);
      ObjsAllocated(i);
      c := new Chunk();
      b.nextChunk := c;
      ChainSnoc(i, b, s);
    }

    /** The second half of `QUEUE_add`: the task is stored in the back chunk. */
    method PushBack(task: T)
      requires Valid() && back.filled < ChunkSize
      modifies this`chain, back`filled, back`tasks
      ensures Valid() && Repr() == old(Repr())
      ensures Contents() == old(Contents()) + [task]
      ensures back.filled == old(back.filled) + 1
    {
      var b := back;
      ghost var i, s := Init(chain), LastSeg(chain);
      SnocInit(chain);
      ChainUnsnoc(i, b, s);
      ObjsAllocated(i);
      b.Push(task);
      ChainSnoc(i, b, s + [task]);
      FlattenSnoc(i, b, s);
      FlattenSnoc(i, b, s + [task]);
      chain := Snoc(i, b, s + [task]);
    }

    /**
     * `QUEUE_add`: appends `task` at the back. The source waits while the
     * back chunk is full and `live_chunk_count` has reached the maximum;
     * when only the back chunk is full a new chunk is linked after it.
     */
    method Add(task: T)
      requires Valid()
      requires !(back.filled >= ChunkSize && liveChunkCount >= MaxLiveChunks)
      modifies this`chain, this`back, this`liveChunkCount
      modifies back`nextChunk, back`filled, back`tasks
      ensures Valid() && fresh(Repr() - old(Repr()))
      ensures Contents() == old(Contents()) + [task]
      ensures front == old(front) && dispatched == old(dispatched)
      ensures old(back.filled) < ChunkSize ==>
                back == old(back) && back.filled == old(back.filled) + 1 &&
                liveChunkCount == old(liveChunkCount)
      ensures old(back.filled) >= ChunkSize ==>
                fresh(back) && old(back).nextChunk == back &&
                back.filled == 1 && liveChunkCount == old(liveChunkCount) + 1
      ensures Capacity() == old(Capacity()) - 1
    {
      if back.filled >= ChunkSize {
        LinkChunk();
        PushBack(task);
      } else {
        PushBack(task);
      }
    }
    /**
     * The wait guard of `QUEUE_get` is exactly emptiness: the front chunk
     * has an unread task if and only if the queue holds a task at all.
     */
    lemma {:induction false} GetGuard()
      requires Valid()
      ensures front.next < front.filled <==> Contents() != []
    {
      assert Contents() == chain.seg + Flatten(chain.rest);
      if chain.rest.End? {
        assert Contents() == front.tasks[front.next..front.filled];
      }
    }

    /**
     * Every slot of every chunk the queue may have live is held, free, or
     * already read from the front; so the wait guard of `QUEUE_add` is
     * exactly the absence of capacity.
     */
    lemma {:induction false} AddGuard()
      requires Valid()
      ensures |Contents()| + Capacity() + front.next == MaxLiveChunks * ChunkSize
      ensures !(back.filled >= ChunkSize && liveChunkCount >= MaxLiveChunks) <==> Capacity() > 0
      ensures |Contents()| <= MaxLiveChunks * ChunkSize
    {
      ChainSize(chain);
      assert |Contents()| == (liveChunkCount - 1) * ChunkSize + back.filled - front.next;
      assert back.filled <= ChunkSize && 0 <= front.next;
    }
  }
}
