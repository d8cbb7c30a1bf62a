/** The rrdcached cache as a value: what the cache tree and the write queue hold,
    and what each section guarded by `cache_lock` does to them.

    The tree maps a file name to its cache item.  The queue is the list of the
    files waiting for a writer, head first.  `CacheHeap` shows that the linked
    structure of the daemon implements these functions; `CacheHistory` and
    `Journal` reason about runs made of them. */
module CacheModel {

  /** One stored value: its text and the time stamp `strtod` reads before the colon. */
  datatype Sample = Sample(text: string, stamp: real)

  /** One value field of an UPDATE line, after the time stamp was looked for. */
  datatype Field = NoStamp(text: string) | Stamped(sample: Sample)

  /** A file name as the tree compares it. */
  datatype File = File(path: string)

  datatype Item = Item(values: seq<Sample>, stamp: real, flushTime: int)

  datatype Cache = Cache(tree: map<File, Item>, queue: seq<File>)

  /** Write interval, flush interval and write jitter, in seconds. */
  datatype Config = Config(writeInterval: int, flushInterval: int, jitter: nat)

  ghost predicate NoDuplicates<T>(s: seq<T>) {
    forall i, j :: 0 <= i < j < |s| ==> s[i] != s[j]
  }

  /** Queued files are in the tree, have something to write and are queued once. */
  ghost predicate WellFormed(c: Cache) {
    && NoDuplicates(c.queue)
    && forall f :: f in c.queue ==> f in c.tree && c.tree[f].values != []
  }

  ghost predicate Increasing(s: seq<Sample>) {
    forall i, j :: 0 <= i < j < |s| ==> s[i].stamp < s[j].stamp
  }

  // ----- UPDATE

  /** The field carries a stamp that is newer than `stamp`. */
  predicate Moves(stamp: real, field: Field) {
    field.Stamped? && stamp < field.sample.stamp
  }

  /** The item after an UPDATE: fields are added until one does not move on. */
  function AddTo(it: Item, fields: seq<Field>): Item
    decreases |fields|
  {
    if fields == [] || !Moves(it.stamp, fields[0]) then it
    else AddTo(Item(it.values + [fields[0].sample], fields[0].sample.stamp, it.flushTime), fields[1..])
  }

  /** Some field ends the UPDATE with an error. */
  predicate Rejects(stamp: real, fields: seq<Field>)
    decreases |fields|
  {
    fields != [] && (!Moves(stamp, fields[0]) || Rejects(fields[0].sample.stamp, fields[1..]))
  }

  /** The values an UPDATE adds. */
  function Accepted(stamp: real, fields: seq<Field>): seq<Sample>
    decreases |fields|
  {
    if fields == [] || !Moves(stamp, fields[0]) then []
    else [fields[0].sample] + Accepted(fields[0].sample.stamp, fields[1..])
  }

  function LastStamp(stamp: real, values: seq<Sample>): real {
    if values == [] then stamp else values[|values| - 1].stamp
  }

  lemma {:induction false} AddToAccepted(it: Item, fields: seq<Field>)
    ensures var added := Accepted(it.stamp, fields);
            AddTo(it, fields) == Item(it.values + added, LastStamp(it.stamp, added), it.flushTime)
    decreases |fields|
  {
    if fields != [] && Moves(it.stamp, fields[0]) {
      var next := Item(it.values + [fields[0].sample], fields[0].sample.stamp, it.flushTime);
      AddToAccepted(next, fields[1..]);
      var rest := Accepted(next.stamp, fields[1..]);
      assert it.values + ([fields[0].sample] + rest) == next.values + rest;
    }
  }

  /** What is accepted is the longest prefix of the fields whose stamps move
      strictly forward from the item's newest stamp. */
  lemma {:induction false} AcceptedIsLongestRise(stamp: real, fields: seq<Field>)
    ensures var r := Accepted(stamp, fields);
            && |r| <= |fields| && Increasing(r)
            && (forall i :: 0 <= i < |r| ==> fields[i] == Stamped(r[i]) && stamp < r[i].stamp)
            && (Rejects(stamp, fields) <==> |r| < |fields|)
            && (|r| < |fields| ==>
                  fields[|r|].NoStamp? || fields[|r|].sample.stamp <= LastStamp(stamp, r))
    decreases |fields|
  {
    if fields != [] && Moves(stamp, fields[0]) {
      AcceptedIsLongestRise(fields[0].sample.stamp, fields[1..]);
    }
  }

  /** UPDATE of a file that is in the tree.  A rejected field ends the request
      before the queue is looked at. */
  function Update(cfg: Config, c: Cache, file: File, fields: seq<Field>, now: int): (r: Cache)
    requires file in c.tree
    ensures r.tree.Keys == c.tree.Keys
    ensures WellFormed(c) ==> WellFormed(r)
  {
    var it := AddTo(c.tree[file], fields);
    AddToAccepted(c.tree[file], fields);
    var due := !Rejects(c.tree[file].stamp, fields)
               && now - it.flushTime >= cfg.writeInterval
               && file !in c.queue
               && it.values != [];
    Cache(c.tree[file := it], if due then c.queue + [file] else c.queue)
  }

  /** The item UPDATE makes for a file the tree does not know. */
  function Insert(c: Cache, file: File, flushTime: int): (r: Cache)
    requires file !in c.tree
    ensures WellFormed(c) ==> WellFormed(r)
  {
    Cache(c.tree[file := Item([], 0.0, flushTime)], c.queue)
  }

  // ----- the queue

  function Without<T(==)>(q: seq<T>, f: T): seq<T> {
    if q == [] then [] else if q[0] == f then q[1..] else [q[0]] + Without(q[1..], f)
  }

  lemma {:induction false} WithoutKept<T>(q: seq<T>, f: T)
    ensures NoDuplicates(q) ==> NoDuplicates(Without(q, f))
    ensures NoDuplicates(q) ==> forall g :: g in Without(q, f) <==> g in q && g != f
    decreases |q|
  {
    if q != [] {
      assert NoDuplicates(q) ==> q[0] !in q[1..];
      WithoutKept(q[1..], f);
    }
  }

  /** `enqueue_cache_item` at the tail: a queued item keeps its place. */
  function EnqueueTail(c: Cache, f: File): (r: Cache)
    requires f in c.tree
    ensures WellFormed(c) ==> WellFormed(r)
  {
    if c.tree[f].values == [] || f in c.queue then c else c.(queue := c.queue + [f])
  }

  /** `enqueue_cache_item` at the head: a queued item moves to the front. */
  function EnqueueHead(c: Cache, f: File): (r: Cache)
    requires f in c.tree
    ensures WellFormed(c) ==> WellFormed(r)
  {
    WithoutKept(c.queue, f);
    var rest := Without(c.queue, f);
    assert NoDuplicates(c.queue) ==> f !in rest;
    if c.tree[f].values == [] then c else c.(queue := [f] + rest)
  }

  /** What a queue thread does before it writes: the head leaves the queue and
      its values are handed over. */
  function Take(c: Cache, flushTime: int): (r: Cache)
    requires WellFormed(c) && c.queue != []
    ensures WellFormed(r)
  {
    var f := c.queue[0];
    Cache(c.tree[f := Item([], c.tree[f].stamp, flushTime)], c.queue[1..])
  }

  /** FORGET: the item leaves the tree, and the queue if it was in it. */
  function Forget(c: Cache, f: File): (r: Cache)
    ensures WellFormed(c) ==> WellFormed(r)
  {
    WithoutKept(c.queue, f);
    if f in c.tree then Cache(c.tree - {f}, Without(c.queue, f)) else c
  }

  /** A `wrote` line met during replay: the values are dropped, the item stays. */
  function Wrote(c: Cache, f: File, flushTime: int): (r: Cache)
    ensures WellFormed(c) ==> WellFormed(r)
  {
    WithoutKept(c.queue, f);
    if f in c.tree
    then Cache(c.tree[f := Item([], c.tree[f].stamp, flushTime)], Without(c.queue, f))
    else c
  }

  // ----- the sweep of flush_old_values

  /** The traversal order of the tree, as some list of exactly its keys. */
  ghost predicate Enumerates(keys: seq<File>, tree: map<File, Item>) {
    NoDuplicates(keys) && forall f :: f in keys <==> f in tree
  }

  /** `abs_timeout` of a sweep. */
  function Timeout(cfg: Config, now: int, maxAge: int): int {
    if maxAge > 0 then now - maxAge else now + 2 * cfg.jitter + 1
  }

  /** The sweep queues the item. */
  predicate Due(it: Item, timeout: int, running: bool) {
    it.values != [] && (it.flushTime <= timeout || !running)
  }

  /** The sweep purges the item. */
  predicate Stale(cfg: Config, it: Item, now: int) {
    it.values == [] && now - it.flushTime >= cfg.flushInterval
  }

  function SweepQueue(c: Cache, keys: seq<File>, timeout: int, running: bool): Cache
    requires forall f :: f in keys ==> f in c.tree
    decreases |keys|
  {
    if keys == [] then c
    else
      var f := keys[0];
      SweepQueue(if Due(c.tree[f], timeout, running) then EnqueueTail(c, f) else c, keys[1..], timeout, running)
  }

  /** The purged files: not queued when the sweep reaches them, empty and old. */
  function Purged(cfg: Config, c: Cache, now: int): set<File> {
    set f | f in c.tree && f !in c.queue && Stale(cfg, c.tree[f], now)
  }

  function Sweep(cfg: Config, c: Cache, keys: seq<File>, now: int, maxAge: int, running: bool): Cache
    requires Enumerates(keys, c.tree)
  {
    var swept := SweepQueue(c, keys, Timeout(cfg, now, maxAge), running);
    Cache(c.tree - Purged(cfg, c, now), swept.queue)
  }

  /** The list of files that a traversal collects for purging. */
  function StaleOnes(cfg: Config, c: Cache, keys: seq<File>, now: int): seq<File>
    requires forall f :: f in keys ==> f in c.tree
    decreases |keys|
  {
    if keys == [] then []
    else if Stale(cfg, c.tree[keys[0]], now) then [keys[0]] + StaleOnes(cfg, c, keys[1..], now)
    else StaleOnes(cfg, c, keys[1..], now)
  }

  function ForgetAll(c: Cache, files: seq<File>): Cache
    decreases |files|
  {
    if files == [] then c else ForgetAll(Forget(c, files[0]), files[1..])
  }

  lemma {:induction false} StaleOnesAre(cfg: Config, c: Cache, keys: seq<File>, now: int)
    requires forall f :: f in keys ==> f in c.tree
    ensures forall f :: f in StaleOnes(cfg, c, keys, now) <==> f in keys && Stale(cfg, c.tree[f], now)
    ensures NoDuplicates(keys) ==> NoDuplicates(StaleOnes(cfg, c, keys, now))
    decreases |keys|
  {
    if keys != [] {
      StaleOnesAre(cfg, c, keys[1..], now);
      assert NoDuplicates(keys) ==> keys[0] !in keys[1..];
      assert forall g :: g in keys <==> g == keys[0] || g in keys[1..];
    }
  }

  lemma {:induction false} WithoutAbsent(q: seq<File>, f: File)
    requires f !in q
    ensures Without(q, f) == q
    decreases |q|
  {
    if q != [] {
      WithoutAbsent(q[1..], f);
    }
  }

  lemma {:induction false} ForgetAllUnqueued(c: Cache, files: seq<File>)
    requires forall f :: f in files ==> f !in c.queue
    ensures ForgetAll(c, files) == Cache(c.tree - (set f | f in files), c.queue)
    decreases |files|
  {
    if files != [] {
      WithoutAbsent(c.queue, files[0]);
      ForgetAllUnqueued(Forget(c, files[0]), files[1..]);
      assert (set f | f in files) == {files[0]} + (set f | f in files[1..]);
    }
  }

  /** Collecting and then removing one by one is what `Sweep` says in one go. */
  lemma SweepByCollecting(cfg: Config, c: Cache, keys: seq<File>, now: int, maxAge: int, running: bool)
    requires Enumerates(keys, c.tree) && WellFormed(c)
    ensures Sweep(cfg, c, keys, now, maxAge, running)
         == ForgetAll(SweepQueue(c, keys, Timeout(cfg, now, maxAge), running), StaleOnes(cfg, c, keys, now))
  {
    var files := StaleOnes(cfg, c, keys, now);
    StaleOnesAre(cfg, c, keys, now);
    SweepQueueAdds(c, keys, Timeout(cfg, now, maxAge), running);
    ForgetAllUnqueued(SweepQueue(c, keys, Timeout(cfg, now, maxAge), running), files);
    assert (set f | f in files) == Purged(cfg, c, now);
  }

  lemma {:induction false} SweepQueueAdds(c: Cache, keys: seq<File>, timeout: int, running: bool)
    requires forall f :: f in keys ==> f in c.tree
    ensures var r := SweepQueue(c, keys, timeout, running);
            && r.tree == c.tree
            && (WellFormed(c) ==> WellFormed(r))
            && (forall f :: f in r.queue <==> f in c.queue || (f in keys && Due(c.tree[f], timeout, running)))
            && c.queue <= r.queue
    decreases |keys|
  {
    if keys != [] {
      var f := keys[0];
      var c' := if Due(c.tree[f], timeout, running) then EnqueueTail(c, f) else c;
      SweepQueueAdds(c', keys[1..], timeout, running);
      assert forall g :: g in keys <==> g == f || g in keys[1..];
    }
  }

  /** A sweep queues every due item, keeps all queued ones and purges only items
      that hold no value. */
  lemma SweepLosesNothing(cfg: Config, c: Cache, keys: seq<File>, now: int, maxAge: int, running: bool)
    requires Enumerates(keys, c.tree) && WellFormed(c)
    ensures var r := Sweep(cfg, c, keys, now, maxAge, running);
            && WellFormed(r)
            && (forall f :: f in r.tree ==> f in c.tree && r.tree[f] == c.tree[f])
            && (forall f :: f in c.tree && f !in r.tree ==> c.tree[f].values == [])
            && (forall f :: f in r.queue <==>
                  f in c.queue || (f in c.tree && Due(c.tree[f], Timeout(cfg, now, maxAge), running)))
            && c.queue <= r.queue
  {
    SweepQueueAdds(c, keys, Timeout(cfg, now, maxAge), running);
  }

  /** In terms of time: a sweep with a positive age queues the items with values that
      were last flushed at least that long ago, or all of them at exit, behind those
      that wait already; and it purges the items without values that were last flushed
      at least the flush interval ago. */
  lemma SweepByTime(cfg: Config, c: Cache, keys: seq<File>, now: int, maxAge: int, running: bool)
    requires Enumerates(keys, c.tree) && WellFormed(c) && maxAge > 0
    ensures var r := Sweep(cfg, c, keys, now, maxAge, running);
            && c.queue <= r.queue
            && (forall f :: f in c.tree ==>
                  (f in r.queue <==>
                    f in c.queue
                    || (c.tree[f].values != [] && (now - c.tree[f].flushTime >= maxAge || !running))))
            && (forall f :: f in c.tree ==>
                  (f !in r.tree <==> c.tree[f].values == [] && now - c.tree[f].flushTime >= cfg.flushInterval))
            && (forall f :: f in r.tree ==> f in c.tree && r.tree[f] == c.tree[f])
  {
    SweepLosesNothing(cfg, c, keys, now, maxAge, running);
  }

  /** Every sweep purges the same items. */
  lemma PurgedByTime(cfg: Config, c: Cache, keys: seq<File>, now: int, maxAge: int, running: bool)
    requires Enumerates(keys, c.tree) && WellFormed(c)
    ensures var r := Sweep(cfg, c, keys, now, maxAge, running);
            forall f :: f in c.tree ==>
              (f !in r.tree <==> c.tree[f].values == [] && now - c.tree[f].flushTime >= cfg.flushInterval)
  {
  }

  /** UPDATE of a file that is in the tree: if all fields are accepted the file waits
      exactly if it waited, or has something to write and was last flushed at least the
      write interval ago; it waits behind all others. A rejected request leaves the
      queue alone. */
  lemma UpdateQueuesDue(cfg: Config, c: Cache, file: File, fields: seq<Field>, now: int)
    requires file in c.tree
    ensures var r, added := Update(cfg, c, file, fields, now), Accepted(c.tree[file].stamp, fields);
            && (|added| < |fields| ==> r.queue == c.queue)
            && (|added| == |fields| ==>
                  (file in r.queue <==>
                    || file in c.queue
                    || (c.tree[file].values + added != [] && now - c.tree[file].flushTime >= cfg.writeInterval)))
            && (r.queue == c.queue || r.queue == c.queue + [file])
            && r.tree[file].flushTime == c.tree[file].flushTime
  {
    AcceptedIsLongestRise(c.tree[file].stamp, fields);
    AddToAccepted(c.tree[file], fields);
  }

  /** FLUSH of a file with values makes it the next one to be written; the others keep
      their order. */
  lemma FlushedIsNext(c: Cache, f: File)
    requires f in c.tree && c.tree[f].values != []
    ensures var r := EnqueueHead(c, f);
            r.tree == c.tree && r.queue == [f] + Without(c.queue, f)
  {
  }

  /** Leaving out a file leaves the others in their order. */
  lemma {:induction false} WithoutSplits(before: seq<File>, f: File, after: seq<File>)
    requires f !in before
    ensures Without(before + [f] + after, f) == before + after
  {
    if before == [] {
      assert before + [f] + after == [f] + after && ([f] + after)[1..] == after;
    } else {
      var q := before + [f] + after;
      assert q[0] == before[0] && q[1..] == before[1..] + [f] + after;
      WithoutSplits(before[1..], f, after);
      assert [before[0]] + (before[1..] + after) == before + after;
    }
  }
}
