/** The cache of rrdcached as the daemon builds it: items with `prev` and `next`
    pointers, a queue flag per item, head and tail pointers and a counter.  Every
    operation is proved against its counterpart in `CacheModel`. */
module CacheHeap {
  import opened CacheModel

  class CacheItem {
    const file: File
    var values: seq<Sample>
    var flushTime: int
    var stamp: real
    var inQueue: bool
    var prev: CacheItem?
    var next: CacheItem?

    /** The zeroed item of an UPDATE after `wipe_ci_values`. */
    constructor (file: File, flushTime: int)
      ensures this.file == file && Value() == Item([], 0.0, flushTime)
      ensures !inQueue && prev == null && next == null
    {
      this.file, values, this.flushTime, stamp := file, [], flushTime, 0.0;
      inQueue, prev, next := false, null, null;
    }

    ghost function Value(): Item
      reads this
    {
      Item(values, stamp, flushTime)
    }
  }

  datatype Side = Head | Tail

  ghost function Files(q: seq<CacheItem>): seq<File> {
    seq(|q|, i requires 0 <= i < |q| => q[i].file)
  }

  /** `q'` is `q` without the item at `k`. */
  ghost predicate Removed(q: seq<CacheItem>, q': seq<CacheItem>, k: nat) {
    && k < |q| == |q'| + 1
    && (forall i {:trigger q'[i]} :: 0 <= i < k ==> q'[i] == q[i])
    && (forall i {:trigger q'[i]} :: k <= i < |q'| ==> q'[i] == q[i + 1])
  }

  /** `q'` is `q` without `ci`, wherever it was, or `q` if it was not there. */
  ghost predicate Dropped(q: seq<CacheItem>, q': seq<CacheItem>, ci: CacheItem) {
    if ci in q then exists k: nat :: Removed(q, q', k) && q[k] == ci else q' == q
  }

  lemma CutAt(q: seq<CacheItem>, k: nat) returns (q': seq<CacheItem>)
    requires k < |q|
    ensures Removed(q, q', k)
  {
    q' := q[..k] + q[k + 1..];
  }

  lemma RemovedMembers(q: seq<CacheItem>, q': seq<CacheItem>, k: nat)
    requires NoDuplicates(q) && Removed(q, q', k)
    ensures forall x {:trigger x in q'} :: x in q' <==> x in q && x != q[k]
    ensures forall i {:trigger q'[i].inQueue} :: 0 <= i < |q'| ==> q'[i] in q && q'[i] != q[k]
  {
    forall x | x in q && x != q[k]
      ensures x in q'
    {
      var j :| 0 <= j < |q| && q[j] == x;
      assert q'[if j < k then j else j - 1] == x;
    }
  }

  lemma CutAtHead(q: seq<CacheItem>)
    requires q != []
    ensures Dropped(q, q[1..], q[0])
  {
    assert Removed(q, q[1..], 0);
  }

  lemma {:induction false} WithoutMember(q: seq<File>, k: nat)
    requires k < |q| && NoDuplicates(q)
    ensures Without(q, q[k]) == q[..k] + q[k + 1..]
  {
    if k > 0 {
      assert q[0] != q[k];
      WithoutMember(q[1..], k - 1);
      assert q[..k] + q[k + 1..] == [q[0]] + (q[1..][..k - 1] + q[1..][k..]);
    }
  }

  class Daemon {
    const cfg: Config
    var tree: map<File, CacheItem>
    var head: CacheItem?
    var tail: CacheItem?
    var queueLength: nat
    ghost var items: set<CacheItem>   // the items of the tree
    ghost var queue: seq<CacheItem>   // from head to tail

    constructor (cfg: Config)
      ensures Valid() && Model() == Cache(map[], []) && this.cfg == cfg && fresh(items)
    {
      this.cfg, tree, head, tail, queueLength := cfg, map[], null, null, 0;
      items, queue := {}, [];
    }

    ghost predicate TreeOk()
      reads this`tree, this`items
    {
      && (forall f {:trigger tree[f]} :: f in tree ==> tree[f].file == f && tree[f] in items)
      && (forall x {:trigger x in items} :: x in items ==> x.file in tree && tree[x.file] == x)
    }

    /** The items of `q` are distinct items of the tree. */
    ghost predicate Members(q: seq<CacheItem>)
      reads this`items
    {
      NoDuplicates(q) && forall i {:trigger q[i] in items} :: 0 <= i < |q| ==> q[i] in items
    }

    /** The pointers form the doubly linked list `q`. */
    ghost predicate Chain(q: seq<CacheItem>)
      requires Members(q)
      reads this`head, this`tail, this`items, items
    {
      && (forall i {:trigger q[i].prev} :: 0 <= i < |q| ==> q[i].prev == if i == 0 then null else q[i - 1])
      && (forall i {:trigger q[i].next} :: 0 <= i < |q| ==> q[i].next == if i == |q| - 1 then null else q[i + 1])
      && head == (if q == [] then null else q[0])
      && tail == (if q == [] then null else q[|q| - 1])
    }

    ghost predicate Loose(x: CacheItem)
      reads x
    {
      x.prev == null && x.next == null
    }

    /** The queue flag marks exactly the members of `q`; all other items are loose. */
    ghost predicate Flagged(q: seq<CacheItem>)
      requires Members(q)
      reads this`items, items
    {
      && (forall i {:trigger q[i].inQueue} :: 0 <= i < |q| ==> q[i].inQueue)
      && (forall x {:trigger x.inQueue} :: x in items && x.inQueue ==> x in q)
      && (forall x {:trigger Loose(x)} :: x in items && x !in q ==> Loose(x))
    }

    ghost predicate QueueOk()
      reads this`head, this`tail, this`queueLength, this`items, this`queue, items
    {
      Members(queue) && Chain(queue) && Flagged(queue) && queueLength == |queue|
    }

    ghost predicate Valid()
      reads this, items
    {
      && TreeOk() && QueueOk()
      && forall i {:trigger queue[i].values} :: 0 <= i < |queue| ==> queue[i].values != []
    }

    ghost function Items(): map<File, Item>
      requires TreeOk()
      reads this`tree, this`items, items
    {
      map f | f in tree :: tree[f].Value()
    }

    ghost function Model(): Cache
      requires TreeOk()
      reads this`tree, this`items, this`queue, items
    {
      Cache(Items(), Files(queue))
    }

    /** Members and files correspond. */
    lemma FilesOfMembers(q: seq<CacheItem>)
      requires TreeOk() && Members(q)
      ensures NoDuplicates(Files(q))
      ensures forall x :: x in items ==> (x in q <==> x.file in Files(q))
    {
      forall x | x in items
        ensures x in q <==> x.file in Files(q)
      {
        if x in q {
          var i :| 0 <= i < |q| && q[i] == x;
          assert Files(q)[i] == x.file;
        }
        if x.file in Files(q) {
          var i :| 0 <= i < |q| && Files(q)[i] == x.file;
          assert q[i] in items;
        }
      }
      forall i, j | 0 <= i < j < |q|
        ensures Files(q)[i] != Files(q)[j]
      {
        assert q[i] in items && q[j] in items;
      }
    }

    // ----- the queue

    /** The item after `p`, or the head when there is no `p`, becomes `n`. */
    method SetNext(p: CacheItem?, n: CacheItem?)
      requires p != null ==> p in items
      modifies this`head, items`next
      ensures head == if p == null then n else old(head)
      ensures p != null ==> p.next == n
      ensures forall x {:trigger x.next} :: x in items && x != p ==> x.next == old(x.next)
    {
      if p == null {
        head := n;
      } else {
        p.next := n;
      }
    }

    /** The item before `n`, or the tail when there is no `n`, becomes `p`. */
    method SetPrev(n: CacheItem?, p: CacheItem?)
      requires n != null ==> n in items
      modifies this`tail, items`prev
      ensures tail == if n == null then p else old(tail)
      ensures n != null ==> n.prev == p
      ensures forall x {:trigger x.prev} :: x in items && x != n ==> x.prev == old(x.prev)
    {
      if n == null {
        tail := p;
      } else {
        n.prev := p;
      }
    }

    /** The pointer part of remove_from_queue. */
    method Unhook(ci: CacheItem) returns (ghost k: nat)
      requires Members(queue) && Chain(queue) && ci in queue
      modifies this`head, this`tail, this`queue, items`prev, items`next
      ensures Members(queue) && Chain(queue) && Loose(ci)
      ensures Removed(old(queue), queue, k) && old(queue)[k] == ci
      ensures forall x {:trigger Loose(x)} :: x in items && x !in old(queue) && old(Loose(x)) ==> Loose(x)
    {
      k :| 0 <= k < |queue| && queue[k] == ci;
      assert ci in items && (k > 0 ==> queue[k - 1] in items) && (k + 1 < |queue| ==> queue[k + 1] in items);
      Bypass(ci, k);
      ghost var q := queue;
      queue := CutAt(queue, k);
      ChainCut(q, queue, k);
    }

    /** The neighbours of the k-th item are linked to each other. */
    method Bypass(ci: CacheItem, ghost k: nat)
      requires Members(queue) && Chain(queue) && k < |queue| && queue[k] == ci && ci in items
      requires (k > 0 ==> queue[k - 1] in items) && (k + 1 < |queue| ==> queue[k + 1] in items)
      modifies this`head, this`tail, items`prev, items`next
      ensures Loose(ci) && Bypassed(queue, k)
      ensures forall x {:trigger Loose(x)} :: x in items && x !in queue && old(Loose(x)) ==> Loose(x)
    {
      var p, n := ci.prev, ci.next;
      SetNext(p, n);
      SetPrev(n, p);
      ci.next, ci.prev := null, null;
    }

    /** The pointers form the list `q` without its k-th item. */
    ghost predicate Bypassed(q: seq<CacheItem>, k: nat)
      requires Members(q) && k < |q|
      reads this`head, this`tail, this`items, items
    {
      && (forall i {:trigger q[i].prev} :: 0 <= i < |q| && i != k ==>
            q[i].prev == if i == k + 1 then (if k == 0 then null else q[k - 1]) else if i == 0 then null else q[i - 1])
      && (forall i {:trigger q[i].next} :: 0 <= i < |q| && i != k ==>
            q[i].next == if i + 1 == k then (if k == |q| - 1 then null else q[k + 1])
                         else if i == |q| - 1 then null else q[i + 1])
      && head == (if k > 0 then q[0] else if |q| == 1 then null else q[1])
      && tail == (if k < |q| - 1 then q[|q| - 1] else if |q| == 1 then null else q[|q| - 2])
    }

    lemma ChainCut(q: seq<CacheItem>, q': seq<CacheItem>, k: nat)
      requires Members(q) && k < |q| && Bypassed(q, k) && Removed(q, q', k)
      ensures Members(q') && Chain(q')
    {
      assert forall i {:trigger q'[i]} :: 0 <= i < |q'| ==> q'[i] == q[if i < k then i else i + 1];
      assert forall i {:trigger q'[i]} :: 0 <= i < |q'| ==> q'[i] in items;
    }

    /** The queue part of remove_from_queue. */
    method TakeOut(ci: CacheItem)
      requires QueueOk() && ci in items
      modifies this`head, this`tail, this`queueLength, this`queue
      modifies items`prev, items`next, items`inQueue
      ensures QueueOk() && !ci.inQueue && Dropped(old(queue), queue, ci)
    {
      if !ci.inQueue {
        assert forall i :: 0 <= i < |queue| ==> queue[i].inQueue;
        return;
      }
      ghost var k := Unhook(ci);
      RemovedMembers(old(queue), queue, k);
      ci.inQueue := false;
      assert queueLength > 0;
      queueLength := queueLength - 1;
    }

    /** The pointer part of enqueue_cache_item at the head. */
    method HookHead(ci: CacheItem)
      requires Members(queue) && Chain(queue) && ci in items && ci !in queue
      modifies this`head, this`tail, this`queue, items`prev, items`next
      ensures Members(queue) && Chain(queue) && queue == [ci] + old(queue)
      ensures forall x {:trigger x in queue} :: x in queue <==> x == ci || x in old(queue)
      ensures forall x {:trigger Loose(x)} :: x in items && x !in queue && old(Loose(x)) ==> Loose(x)
    {
      assert queue != [] ==> queue[0] in items;
      ci.prev := null;
      ci.next := head;
      if ci.next != null {
        ci.next.prev := ci;
      }
      head := ci;
      if tail == null {
        tail := head;
      }
      queue := [ci] + queue;
    }

    /** The pointer part of enqueue_cache_item at the tail. */
    method HookTail(ci: CacheItem)
      requires Members(queue) && Chain(queue) && ci in items && ci !in queue && Loose(ci)
      modifies this`head, this`tail, this`queue, items`prev, items`next
      ensures Members(queue) && Chain(queue) && queue == old(queue) + [ci]
      ensures forall x {:trigger x in queue} :: x in queue <==> x == ci || x in old(queue)
      ensures forall x {:trigger Loose(x)} :: x in items && x !in queue && old(Loose(x)) ==> Loose(x)
    {
      assert queue != [] ==> queue[|queue| - 1] in items;
      ci.prev := tail;
      if tail == null {
        head := ci;
      } else {
        tail.next := ci;
      }
      tail := ci;
      queue := queue + [ci];
    }

    ghost predicate Enqueued(q: seq<CacheItem>, q': seq<CacheItem>, ci: CacheItem, side: Side)
      reads ci
    {
      if ci.values == [] || (side.Tail? && ci in q) then q' == q
      else if side.Tail? then q' == q + [ci]
      else q' != [] && q'[0] == ci && Dropped(q, q'[1..], ci)
    }

    method EnqueueAtHead(ci: CacheItem)
      requires QueueOk() && ci in items && ci.values != []
      modifies this`head, this`tail, this`queueLength, this`queue
      modifies items`prev, items`next, items`inQueue
      ensures QueueOk() && Enqueued(old(queue), queue, ci, Head)
    {
      if head == ci {
        CutAtHead(queue);
        return;
      }
      TakeOut(ci);
      ghost var rest := queue;
      HookHead(ci);
      assert queue[1..] == rest;
      ci.inQueue := true;
      queueLength := queueLength + 1;
    }

    method EnqueueAtTail(ci: CacheItem)
      requires QueueOk() && ci in items && ci.values != []
      modifies this`head, this`tail, this`queueLength, this`queue
      modifies items`prev, items`next, items`inQueue
      ensures QueueOk() && Enqueued(old(queue), queue, ci, Tail)
    {
      if ci.inQueue {
        return;
      }
      assert forall i :: 0 <= i < |queue| ==> queue[i].inQueue;
      assert Loose(ci);
      assert ci.next == null;
      assert ci.prev == null;
      HookTail(ci);
      ci.inQueue := true;
      queueLength := queueLength + 1;
    }

    // ----- what the queue operations mean for the model

    lemma FilesDropped(q: seq<CacheItem>, q': seq<CacheItem>, ci: CacheItem)
      requires TreeOk() && Members(q) && ci in items && Dropped(q, q', ci)
      ensures Files(q') == Without(Files(q), ci.file)
    {
      FilesOfMembers(q);
      if ci in q {
        var k: nat :| Removed(q, q', k) && q[k] == ci;
        WithoutMember(Files(q), k);
        assert Files(q') == Files(q)[..k] + Files(q)[k + 1..];
      } else {
        WithoutAbsent(Files(q), ci.file);
      }
    }

    /** remove_from_queue: an unqueued item is left alone. */
    method RemoveFromQueue(ci: CacheItem)
      requires TreeOk() && QueueOk() && ci in items
      requires forall i {:trigger queue[i].values} :: 0 <= i < |queue| && queue[i] != ci ==> queue[i].values != []
      modifies this`head, this`tail, this`queueLength, this`queue
      modifies items`prev, items`next, items`inQueue
      ensures Valid() && ci !in queue
      ensures Items() == old(Items()) && Files(queue) == Without(old(Files(queue)), ci.file)
    {
      TakeOut(ci);
      FilesDropped(old(queue), queue, ci);
      if ci in old(queue) {
        ghost var k: nat :| Removed(old(queue), queue, k) && old(queue)[k] == ci;
        RemovedMembers(old(queue), queue, k);
      }
      assert forall i {:trigger queue[i].values} :: 0 <= i < |queue| ==> queue[i] in old(queue) && queue[i] != ci;
    }

    lemma FilesEnqueued(c: Cache, q: seq<CacheItem>, q': seq<CacheItem>, ci: CacheItem, side: Side)
      requires TreeOk() && Members(q) && ci in items && Enqueued(q, q', ci, side)
      requires c.queue == Files(q) && ci.file in c.tree && c.tree[ci.file].values == ci.values
      ensures Cache(c.tree, Files(q')) == if side.Head? then EnqueueHead(c, ci.file) else EnqueueTail(c, ci.file)
    {
      if side.Head? {
        if ci.values != [] {
          assert q' == [ci] + q'[1..];
          FilesDropped(q, q'[1..], ci);
          assert Files(q') == [ci.file] + Files(q'[1..]);
        }
      } else {
        FilesOfMembers(q);
        assert q' == q + [ci] ==> Files(q') == Files(q) + [ci.file];
      }
    }

    /** enqueue_cache_item: at the head a queued item moves to the front, at the
        tail it keeps its place; an item without values is not queued. */
    method Enqueue(ci: CacheItem, side: Side)
      requires Valid() && ci in items
      modifies this`head, this`tail, this`queueLength, this`queue
      modifies items`prev, items`next, items`inQueue
      ensures Valid()
      ensures Model() == if side.Head? then EnqueueHead(old(Model()), ci.file) else EnqueueTail(old(Model()), ci.file)
    {
      ghost var was := Model();
      assert was.tree[ci.file] == ci.Value();
      if |ci.values| > 0 {
        if side == Head {
          EnqueueAtHead(ci);
        } else {
          EnqueueAtTail(ci);
        }
      }
      assert Items() == was.tree;
      FilesEnqueued(was, old(queue), queue, ci, side);
    }

    lemma ModelWellFormed()
      requires Valid()
      ensures WellFormed(Model())
    {
      FilesOfMembers(queue);
      forall f | f in Files(queue)
        ensures f in tree && tree[f].values != []
      {
        var i :| 0 <= i < |queue| && Files(queue)[i] == f;
        assert queue[i] in items && queue[i].values != [];
      }
    }

    // ----- the sections guarded by cache_lock

    /** wipe_ci_values; `flushTime` is the given time plus the jitter. */
    method Wipe(ci: CacheItem, flushTime: int)
      modifies ci`values, ci`flushTime
      ensures ci.values == [] && ci.flushTime == flushTime
    {
      ci.values := [];
      ci.flushTime := flushTime;
    }

    /** What queue_thread_main does before it writes: hand over the head's values. */
    method TakeBatch(flushTime: int) returns (file: File, values: seq<Sample>)
      requires Valid() && head != null
      modifies this`head, this`tail, this`queueLength, this`queue, items
      ensures Valid()
      ensures WellFormed(old(Model())) && old(Model()).queue != []
      ensures file == old(Model()).queue[0] && values == old(Model()).tree[file].values != []
      ensures Model() == Take(old(Model()), flushTime)
    {
      ModelWellFormed();
      ghost var was := Model();
      var ci := head;
      assert ci == queue[0] && ci in items;
      file := ci.file;
      assert |ci.values| > 0;
      values := ci.values;
      Wipe(ci, flushTime);
      RemoveFromQueue(ci);
      assert Model().tree == was.tree[file := Item([], was.tree[file].stamp, flushTime)];
    }

    /** FLUSH of one file: its item moves to the head of the queue. */
    method FlushFile(file: File) returns (found: bool)
      requires Valid()
      modifies this`head, this`tail, this`queueLength, this`queue
      modifies items`prev, items`next, items`inQueue
      ensures Valid() && found == (file in old(Model()).tree)
      ensures Model() == if found then EnqueueHead(old(Model()), file) else old(Model())
    {
      if file !in tree {
        return false;
      }
      var ci := tree[file];
      if |ci.values| > 0 {
        Enqueue(ci, Head);
      }
      return true;
    }

    /** The value loop of handle_request_update: fields are added while their
        stamps move forward. */
    method AddValues(ci: CacheItem, fields: seq<Field>) returns (rejected: bool)
      modifies ci`values, ci`stamp
      ensures ci.Value() == AddTo(old(ci.Value()), fields)
      ensures rejected == Rejects(old(ci.stamp), fields)
    {
      var i := 0;
      while i < |fields|
        invariant i <= |fields|
        invariant AddTo(ci.Value(), fields[i..]) == AddTo(old(ci.Value()), fields)
        invariant Rejects(ci.stamp, fields[i..]) == Rejects(old(ci.stamp), fields)
      {
        match fields[i]
        case NoStamp(_) =>
          return true;
        case Stamped(sample) =>
          if sample.stamp <= ci.stamp {
            return true;
          }
          assert fields[i..][1..] == fields[i + 1..];
          ci.stamp := sample.stamp;
          ci.values := ci.values + [sample];
          i := i + 1;
      }
      rejected := false;
    }

    /** The locked part of handle_request_update once the item is known. */
    method UpdateItem(file: File, fields: seq<Field>, now: int) returns (rejected: bool)
      requires Valid() && file in tree
      modifies this`head, this`tail, this`queueLength, this`queue, items
      ensures Valid() && file in old(Model()).tree
      ensures Model() == Update(cfg, old(Model()), file, fields, now)
      ensures rejected == Rejects(old(Model()).tree[file].stamp, fields)
    {
      var ci := tree[file];
      FilesOfMembers(queue);
      ghost var was := Items();
      AddToAccepted(was[file], fields);
      rejected := AddValues(ci, fields);
      assert Items() == was[file := AddTo(was[file], fields)];
      forall x {:trigger Loose(x)} | x in items && x !in queue
        ensures Loose(x)
      {
        assert old(Loose(x));
      }
      assert Valid();
      if rejected {
        return;
      }
      if now - ci.flushTime >= cfg.writeInterval && !ci.inQueue && |ci.values| > 0 {
        Enqueue(ci, Tail);
      }
    }

    /** The relocked part of handle_request_update for a file that was unknown:
        another UPDATE may have inserted it in the meantime, and then the item
        made here is freed. */
    method InsertItem(file: File, flushTime: int)
      requires Valid()
      modifies this`tree, this`items
      ensures Valid() && fresh(items - old(items)) && queue == old(queue)
      ensures Model() == if file in old(Model()).tree then old(Model()) else Insert(old(Model()), file, flushTime)
    {
      var ci := new CacheItem(file, flushTime);
      if file !in tree {
        tree := tree[file := ci];
        items := items + {ci};
        assert Items() == old(Items())[file := Item([], 0.0, flushTime)];
      } else {
        assert Items() == old(Items());
      }
    }

    /** g_tree_remove with free_cache_item as its destructor: what FORGET does,
        and the sweep for every purged file. */
    method RemoveItem(file: File) returns (found: bool)
      requires Valid()
      modifies this`tree, this`items, this`head, this`tail, this`queueLength, this`queue
      modifies items`prev, items`next, items`inQueue
      ensures Valid() && items <= old(items)
      ensures Model() == Forget(old(Model()), file)
      ensures found == (file in old(tree)) && tree == old(tree) - {file}
    {
      if file !in tree {
        assert Items() == old(Items());
        return false;
      }
      RemoveFromQueue(tree[file]);
      Unlist(file);
      return true;
    }

    /** The tree part of removing an item that is not queued. */
    method Unlist(file: File)
      requires Valid() && file in tree && tree[file] !in queue
      modifies this`tree, this`items
      ensures Valid() && items <= old(items) && tree == old(tree) - {file} && queue == old(queue)
      ensures Items() == old(Items()) - {file}
    {
      items := items - {tree[file]};
      tree := tree - {file};
      assert Members(queue);
    }

    /** A `wrote` line met during replay. */
    method Wrote(file: File, flushTime: int)
      requires Valid()
      modifies this`head, this`tail, this`queueLength, this`queue, items
      ensures Valid()
      ensures Model() == CacheModel.Wrote(old(Model()), file, flushTime)
    {
      if file !in tree {
        return;
      }
      var ci := tree[file];
      Wipe(ci, flushTime);
      assert Items() == old(Items())[file := Item([], old(Items())[file].stamp, flushTime)];
      forall x {:trigger Loose(x)} | x in items && x !in queue
        ensures Loose(x)
      {
        assert old(Loose(x));
      }
      RemoveFromQueue(ci);
    }

    /** tree_callback_flush: one step of the traversal. */
    method Visit(file: File, now: int, timeout: int, running: bool) returns (stale: bool)
      requires Valid() && file in tree
      modifies this`head, this`tail, this`queueLength, this`queue
      modifies items`prev, items`next, items`inQueue
      ensures Valid()
      ensures Model() == if Due(old(Model()).tree[file], timeout, running)
                         then EnqueueTail(old(Model()), file) else old(Model())
      ensures stale == Stale(cfg, old(Model()).tree[file], now)
    {
      var ci := tree[file];
      FilesOfMembers(queue);
      assert ci.Value() == Items()[file];
      stale := false;
      if ci.inQueue {
        assert ci in queue;
        ghost var i :| 0 <= i < |queue| && queue[i] == ci;
        assert queue[i].values != [];
        return;
      }
      if |ci.values| > 0 && (ci.flushTime <= timeout || !running) {
        Enqueue(ci, Tail);
      } else if now - ci.flushTime >= cfg.flushInterval && |ci.values| <= 0 {
        stale := true;
      }
    }

    /** The traversal of flush_old_values; `keys` is its order.  Returns the files
        to purge. */
    method Traverse(keys: seq<File>, now: int, timeout: int, running: bool) returns (stale: seq<File>)
      requires Valid() && forall f :: f in keys ==> f in tree
      modifies this`head, this`tail, this`queueLength, this`queue
      modifies items`prev, items`next, items`inQueue
      ensures Valid() && Model() == SweepQueue(old(Model()), keys, timeout, running)
      ensures stale == StaleOnes(cfg, old(Model()), keys, now)
    {
      ghost var was := Model();
      stale := [];
      var i := 0;
      while i < |keys|
        invariant i <= |keys| && Valid() && Model().tree == was.tree
        invariant SweepQueue(Model(), keys[i..], timeout, running) == SweepQueue(was, keys, timeout, running)
        invariant stale + StaleOnes(cfg, was, keys[i..], now) == StaleOnes(cfg, was, keys, now)
      {
        assert keys[i] in keys && keys[i..][1..] == keys[i + 1..];
        var purge := Visit(keys[i], now, timeout, running);
        if purge {
          stale := stale + [keys[i]];
        }
        i := i + 1;
      }
    }

    /** g_tree_remove for every collected file. */
    method RemoveAll(files: seq<File>)
      requires Valid() && NoDuplicates(files) && forall f :: f in files ==> f in tree
      modifies this`tree, this`items, this`head, this`tail, this`queueLength, this`queue
      modifies items`prev, items`next, items`inQueue
      ensures Valid() && items <= old(items) && Model() == ForgetAll(old(Model()), files)
    {
      var k := 0;
      while k < |files|
        invariant k <= |files| && Valid() && items <= old(items)
        invariant ForgetAll(Model(), files[k..]) == ForgetAll(old(Model()), files)
        invariant forall i :: k <= i < |files| ==> files[i] in tree
      {
        assert files[k..][1..] == files[k + 1..];
        var status := RemoveItem(files[k]);
        assert status;
        k := k + 1;
      }
    }

    /** flush_old_values. */
    method Sweep(keys: seq<File>, now: int, maxAge: int, running: bool)
      requires Valid() && Enumerates(keys, Model().tree)
      modifies this`tree, this`items, this`head, this`tail, this`queueLength, this`queue
      modifies items`prev, items`next, items`inQueue
      ensures Valid() && items <= old(items)
      ensures Model() == CacheModel.Sweep(cfg, old(Model()), keys, now, maxAge, running)
    {
      var timeout := if maxAge > 0 then now - maxAge else now + 2 * cfg.jitter + 1;
      ModelWellFormed();
      SweepByCollecting(cfg, Model(), keys, now, maxAge, running);
      StaleOnesAre(cfg, Model(), keys, now);
      var stale := Traverse(keys, now, timeout, running);
      assert tree == old(tree);
      RemoveAll(stale);
    }
  }
}
