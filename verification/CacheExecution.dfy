/** Runs of rrdcached on its own structure: the events of a run performed one after
    the other on the linked items, so that what `CacheRuns` says of every run holds of
    the pointers, flags and batches too. */
module CacheExecution {
  import opened CacheModel
  import opened CacheHistory
  import opened CacheRuns
  import H = CacheHeap

  /** What the threads know besides the cache: the time, the requests that gave up
      the lock, and how far the exit has come. */
  datatype World = World(clock: int, setups: map<nat, Request>, phase: Phase)

  ghost function WorldOf(s: State): World {
    World(s.clock, s.setups, s.phase)
  }

  function Advance(w: World, e: Event): World {
    match e
    case Tick(seconds) => w.(clock := w.clock + seconds)
    case UpdateUnknown(client, file, fields, now) => w.(setups := w.setups[client := Request(file, fields, now)])
    case UpdateAborted(client) => w.(setups := w.setups - {client})
    case UpdateRelocked(client, _) => w.(setups := w.setups - {client})
    case Signal => w.(phase := Flushing)
    case FinalSweep(_) => w.(phase := Shutdown)
    case _ => w
  }

  lemma Advances(cfg: Config, flushAtExit: bool, s: State, e: Event)
    requires Consistent(s) && Enabled(cfg, flushAtExit, s, e)
    ensures WorldOf(Next(cfg, flushAtExit, s, e)) == Advance(WorldOf(s), e)
  {
  }

  /** File and values of the batches, as writers receive them. */
  datatype Handed = Handed(file: File, values: seq<Sample>)

  function HandedOver(dequeued: seq<Batch>): (r: seq<Handed>)
    ensures |r| == |dequeued|
  {
    if dequeued == [] then []
    else
      var last := dequeued[|dequeued| - 1];
      HandedOver(dequeued[..|dequeued| - 1]) + [Handed(last.file, last.values)]
  }

  /** The event can happen with this cache. */
  ghost predicate Possible(w: World, c: Cache, e: Event) {
    WellFormed(c) &&
    match e
    case UpdateKnown(file, _, _) => file in c.tree
    case UpdateRelocked(client, _) => client in w.setups
    case FlushFile(file) => file in c.tree
    case FlushAll(keys) => Enumerates(keys, c.tree)
    case FlushOld(keys) => Enumerates(keys, c.tree)
    case Dequeue(_, _) => c.queue != []
    case FinalSweep(keys) => Enumerates(keys, c.tree)
    case _ => true
  }

  function Found(c: Cache, file: File, flushTime: int): Cache {
    if file in c.tree then c else Insert(c, file, flushTime)
  }

  /** The cache after an event. */
  ghost function CacheAfter(cfg: Config, flushAtExit: bool, w: World, c: Cache, e: Event): Cache
    requires Possible(w, c, e)
  {
    match e
    case UpdateKnown(file, fields, now) => Update(cfg, c, file, fields, now)
    case UpdateRelocked(client, j) =>
      var r := w.setups[client];
      Update(cfg, Found(c, r.file, r.now + j), r.file, r.fields, r.now)
    case FlushFile(file) => EnqueueHead(c, file)
    case FlushAll(keys) => Sweep(cfg, c, keys, w.clock, -1, w.phase.Running?)
    case FlushOld(keys) => Sweep(cfg, c, keys, w.clock, cfg.writeInterval, w.phase.Running?)
    case ForgetFile(file) => Forget(c, file)
    case Dequeue(_, j) => Take(c, w.clock + j)
    case FinalSweep(keys) => if flushAtExit then Sweep(cfg, c, keys, w.clock, -1, false) else c
    case _ => c
  }

  lemma EnabledIsPossible(cfg: Config, flushAtExit: bool, s: State, e: Event)
    requires Consistent(s) && Enabled(cfg, flushAtExit, s, e)
    ensures Possible(WorldOf(s), s.cache, e)
  {
  }

  lemma CacheIs(cfg: Config, flushAtExit: bool, s: State, e: Event)
    requires Consistent(s) && Enabled(cfg, flushAtExit, s, e)
    requires Possible(WorldOf(s), s.cache, e)
    ensures Next(cfg, flushAtExit, s, e).cache == CacheAfter(cfg, flushAtExit, WorldOf(s), s.cache, e)
  {
    if e.UpdateRelocked? {
      RelockedCache(cfg, s, s.setups[e.client], e.jitter);
    } else if e.FlushAll? || e.FlushOld? || e.FinalSweep? {
      SweptCache(cfg, flushAtExit, s, e);
    }
  }

  lemma SweptCache(cfg: Config, flushAtExit: bool, s: State, e: Event)
    requires Consistent(s) && Enabled(cfg, flushAtExit, s, e) && Possible(WorldOf(s), s.cache, e)
    requires e.FlushAll? || e.FlushOld? || e.FinalSweep?
    ensures Next(cfg, flushAtExit, s, e).cache == CacheAfter(cfg, flushAtExit, WorldOf(s), s.cache, e)
  {
  }

  lemma RelockedCache(cfg: Config, s: State, r: Request, j: nat)
    requires Consistent(s)
    ensures Relocked(cfg, s, r, j).cache
         == Update(cfg, Found(s.cache, r.file, r.now + j), r.file, r.fields, r.now)
  {
  }

  /** What a writer that takes the head receives. */
  ghost function FirstOf(c: Cache): seq<Handed>
    requires WellFormed(c) && c.queue != []
  {
    [Handed(c.queue[0], c.tree[c.queue[0]].values)]
  }

  /** Only a dequeue hands something over. */
  lemma HandedNext(cfg: Config, flushAtExit: bool, s: State, e: Event)
    requires Consistent(s) && Enabled(cfg, flushAtExit, s, e)
    ensures HandedOver(Next(cfg, flushAtExit, s, e).dequeued)
         == HandedOver(s.dequeued)
            + if e.Dequeue? then FirstOf(s.cache) else []
  {
    if e.Dequeue? {
      var s' := Next(cfg, flushAtExit, s, e);
      assert s'.dequeued[..|s.dequeued|] == s.dequeued;
    } else if !Quiet(e) {
      UntouchedLogs(cfg, flushAtExit, s, e);
    }
  }

  /** UPDATE after it took the lock again. */
  method Relock(d: H.Daemon, r: Request, jitter: nat)
    requires d.Valid()
    modifies d, d.items
    ensures d.Valid() && fresh(d.items - old(d.items))
    ensures r.file in Found(old(d.Model()), r.file, r.now + jitter).tree
    ensures d.Model() == Update(d.cfg, Found(old(d.Model()), r.file, r.now + jitter), r.file, r.fields, r.now)
  {
    ghost var found := Found(d.Model(), r.file, r.now + jitter);
    d.InsertItem(r.file, r.now + jitter);
    assert d.Model() == found && r.file in found.tree;
    var rejected := d.UpdateItem(r.file, r.fields, r.now);
  }

  /** What an event does to the cache under the lock. */
  method PerformLocked(d: H.Daemon, flushAtExit: bool, w: World, e: Event) returns (batch: seq<Handed>)
    requires d.Valid() && Possible(w, d.Model(), e)
    modifies d, d.items
    ensures d.Valid() && fresh(d.items - old(d.items))
    ensures d.Model() == CacheAfter(d.cfg, flushAtExit, w, old(d.Model()), e)
    ensures batch == if e.Dequeue? then FirstOf(old(d.Model())) else []
  {
    batch := [];
    match e
    case UpdateKnown(_, _, _) =>
      PerformUpdate(d, flushAtExit, w, e);
    case UpdateRelocked(_, _) =>
      PerformUpdate(d, flushAtExit, w, e);
    case FlushFile(file) =>
      var found := d.FlushFile(file);
    case FlushAll(_) =>
      PerformSweep(d, flushAtExit, w, e);
    case FlushOld(_) =>
      PerformSweep(d, flushAtExit, w, e);
    case FinalSweep(_) =>
      PerformSweep(d, flushAtExit, w, e);
    case ForgetFile(file) =>
      var found := d.RemoveItem(file);
    case Dequeue(_, j) =>
      batch := Hand(d, w.clock + j);
    case _ =>
  }

  method PerformUpdate(d: H.Daemon, flushAtExit: bool, w: World, e: Event)
    requires d.Valid() && (e.UpdateKnown? || e.UpdateRelocked?) && Possible(w, d.Model(), e)
    modifies d, d.items
    ensures d.Valid() && fresh(d.items - old(d.items))
    ensures d.Model() == CacheAfter(d.cfg, flushAtExit, w, old(d.Model()), e)
  {
    if e.UpdateKnown? {
      var rejected := d.UpdateItem(e.file, e.fields, e.now);
    } else {
      Relock(d, w.setups[e.client], e.jitter);
    }
  }

  method PerformSweep(d: H.Daemon, flushAtExit: bool, w: World, e: Event)
    requires d.Valid() && (e.FlushAll? || e.FlushOld? || e.FinalSweep?) && Possible(w, d.Model(), e)
    modifies d, d.items
    ensures d.Valid() && d.items <= old(d.items)
    ensures d.Model() == CacheAfter(d.cfg, flushAtExit, w, old(d.Model()), e)
  {
    if !e.FinalSweep? {
      d.Sweep(e.keys, w.clock, if e.FlushAll? then -1 else d.cfg.writeInterval, w.phase.Running?);
    } else if flushAtExit {
      d.Sweep(e.keys, w.clock, -1, false);
    }
  }

  method Hand(d: H.Daemon, flushTime: int) returns (batch: seq<Handed>)
    requires d.Valid() && WellFormed(d.Model()) && d.Model().queue != []
    modifies d, d.items
    ensures d.Valid() && d.items == old(d.items)
    ensures d.Model() == Take(old(d.Model()), flushTime) && batch == FirstOf(old(d.Model()))
  {
    var file, values := d.TakeBatch(flushTime);
    batch := [Handed(file, values)];
  }

  /** An event of a run, performed on the daemon. */
  method Perform(d: H.Daemon, flushAtExit: bool, w: World, e: Event, ghost s: State) returns (batch: seq<Handed>)
    requires d.Valid() && Consistent(s) && d.Model() == s.cache && w == WorldOf(s)
    requires Enabled(d.cfg, flushAtExit, s, e)
    modifies d, d.items
    ensures d.Valid() && fresh(d.items - old(d.items))
    ensures d.Model() == Next(d.cfg, flushAtExit, s, e).cache
    ensures HandedOver(s.dequeued) + batch == HandedOver(Next(d.cfg, flushAtExit, s, e).dequeued)
  {
    EnabledIsPossible(d.cfg, flushAtExit, s, e);
    CacheIs(d.cfg, flushAtExit, s, e);
    HandedNext(d.cfg, flushAtExit, s, e);
    batch := PerformLocked(d, flushAtExit, w, e);
  }

  /** A whole run on a new daemon: its items, pointers and flags are always the cache
      of the run, the batches are those of the run, and the run is accounted for. */
  method Execute(cfg: Config, flushAtExit: bool, threads: nat, clock: int, es: seq<Event>, ghost states: seq<State>)
    returns (d: H.Daemon, batches: seq<Handed>)
    requires IsRun(cfg, flushAtExit, threads, clock, es, states)
    ensures d.Valid() && fresh(d) && fresh(d.items) && d.Model() == states[|es|].cache
    ensures batches == HandedOver(states[|es|].dequeued) && Invariant(cfg, states[|es|])
  {
    d := new H.Daemon(cfg);
    var w := World(clock, map[], Running);
    batches := [];
    for n := 0 to |es|
      invariant d.Valid() && fresh(d) && fresh(d.items) && d.cfg == cfg
      invariant d.Model() == states[n].cache && w == WorldOf(states[n])
      invariant batches == HandedOver(states[n].dequeued)
    {
      EveryRunIsAccounted(cfg, flushAtExit, threads, clock, es, states, n);
      assert Step(cfg, flushAtExit, states[n], es[n], states[n + 1]);
      Advances(cfg, flushAtExit, states[n], es[n]);
      var batch := Perform(d, flushAtExit, w, es[n], states[n]);
      batches := batches + batch;
      w := Advance(w, es[n]);
    }
    EveryRunIsAccounted(cfg, flushAtExit, threads, clock, es, states, |es|);
  }
}
