/** Runs of rrdcached: client, writer and flush threads interleaved one section
    guarded by `cache_lock` at a time, with the history of every value. */
module CacheHistory {
  import opened CacheModel

  /** The values a writer took from one item, and the item's lifetime. */
  datatype Batch = Batch(file: File, life: nat, values: seq<Sample>)

  datatype Worker = Idle | Writing(batch: Batch) | Exited

  /** An UPDATE between giving up the lock to look at the file and taking it again. */
  datatype Request = Request(file: File, fields: seq<Field>, now: int)

  datatype Phase = Running | Flushing | Shutdown

  datatype End = Alive | Purged | Forgotten(lost: seq<Sample>)

  /** One stay of a file in the tree: all values it accepted, and how it ended. */
  datatype Life = Life(file: File, accepted: seq<Sample>, end: End)

  datatype State = State(
    cache: Cache,
    setups: map<nat, Request>,
    workers: seq<Worker>,
    phase: Phase,
    clock: int,
    // history
    lives: seq<Life>,
    current: map<File, nat>,
    dequeued: seq<Batch>,
    written: seq<Batch>,
    marked: seq<nat>)      // how much each lifetime had accepted at the final sweep

  datatype Event =
    | Tick(seconds: nat)
    | UpdateKnown(file: File, fields: seq<Field>, now: int)
    | UpdateUnknown(client: nat, file: File, fields: seq<Field>, now: int)
    | UpdateAborted(client: nat)
    | UpdateRelocked(client: nat, jitter: nat)
    | FlushFile(file: File)
    | FlushAll(keys: seq<File>)
    | FlushOld(keys: seq<File>)
    | ForgetFile(file: File)
    | Dequeue(worker: nat, jitter: nat)
    | WroteBatch(worker: nat)
    | Signal
    | FinalSweep(keys: seq<File>)
    | Exit(worker: nat)

  function Start(threads: nat, clock: int): State {
    State(Cache(map[], []), map[], seq(threads, _ => Idle), Running, clock, [], map[], [], [], [])
  }

  // ----- steps

  /** What `rrd_random() % jitter` may add to a flush time. */
  predicate Jitter(cfg: Config, j: nat) {
    if cfg.jitter > 0 then j < cfg.jitter else j == 0
  }

  ghost predicate Enabled(cfg: Config, flushAtExit: bool, s: State, e: Event) {
    match e
    case Tick(_) => true
    case UpdateKnown(file, _, now) => file in s.cache.tree && now <= s.clock
    case UpdateUnknown(client, file, _, now) =>
      file !in s.cache.tree && client !in s.setups && now <= s.clock
    case UpdateAborted(client) => client in s.setups
    case UpdateRelocked(client, j) => client in s.setups && Jitter(cfg, j) && !s.phase.Shutdown?
    case FlushFile(file) => file in s.cache.tree
    case FlushAll(keys) => Enumerates(keys, s.cache.tree)
    case FlushOld(keys) => Enumerates(keys, s.cache.tree) && !s.phase.Shutdown?
    case ForgetFile(_) => true
    case Dequeue(w, j) => w < |s.workers| && s.workers[w].Idle? && s.cache.queue != [] && Jitter(cfg, j)
    case WroteBatch(w) => w < |s.workers| && s.workers[w].Writing?
    case Signal => s.phase.Running?
    case FinalSweep(keys) => s.phase.Flushing? && Enumerates(keys, s.cache.tree)
    case Exit(w) =>
      w < |s.workers| && s.workers[w].Idle? && s.phase.Shutdown? && (s.cache.queue == [] || !flushAtExit)
  }

  function Updated(cfg: Config, s: State, file: File, fields: seq<Field>, now: int): State
    requires file in s.cache.tree && file in s.current && s.current[file] < |s.lives|
  {
    var l := s.current[file];
    var life := s.lives[l];
    s.(cache := Update(cfg, s.cache, file, fields, now),
       lives := s.lives[l := life.(accepted := life.accepted + Accepted(s.cache.tree[file].stamp, fields))])
  }

  function Inserted(s: State, file: File, flushTime: int): State
    requires file !in s.cache.tree
  {
    s.(cache := Insert(s.cache, file, flushTime),
       lives := s.lives + [Life(file, [], Alive)],
       current := s.current[file := |s.lives|])
  }

  /** UPDATE after it took the lock again: another UPDATE may have added the entry. */
  function Relocked(cfg: Config, s: State, r: Request, jitter: nat): State
    requires Consistent(s)
  {
    Updated(cfg, if r.file in s.cache.tree then s else Inserted(s, r.file, r.now + jitter),
            r.file, r.fields, r.now)
  }

  /** The flush thread's last sweep, which marks what had been accepted by then. */
  function Finished(cfg: Config, flushAtExit: bool, s: State, keys: seq<File>): State
    requires Enumerates(keys, s.cache.tree)
  {
    var s' := if flushAtExit then Swept(cfg, s, keys, -1) else s;
    s'.(phase := Shutdown, marked := seq(|s.lives|, l requires 0 <= l < |s.lives| => |s.lives[l].accepted|))
  }

  function Swept(cfg: Config, s: State, keys: seq<File>, maxAge: int): State
    requires Enumerates(keys, s.cache.tree)
  {
    var c := Sweep(cfg, s.cache, keys, s.clock, maxAge, s.phase.Running?);
    s.(cache := c,
       lives := seq(|s.lives|, l requires 0 <= l < |s.lives| =>
         var life := s.lives[l];
         if life.end.Alive? && life.file !in c.tree then life.(end := Purged) else life),
       current := map f | f in s.current && f in c.tree :: s.current[f])
  }

  function Dropped(s: State, file: File): State
    requires file in s.cache.tree && file in s.current && s.current[file] < |s.lives|
  {
    var l := s.current[file];
    s.(cache := Forget(s.cache, file),
       lives := s.lives[l := s.lives[l].(end := Forgotten(s.cache.tree[file].values))],
       current := s.current - {file})
  }

  function Taken(s: State, w: nat, flushTime: int): State
    requires WellFormed(s.cache) && s.cache.queue != [] && w < |s.workers|
    requires s.cache.queue[0] in s.current
  {
    var file := s.cache.queue[0];
    var batch := Batch(file, s.current[file], s.cache.tree[file].values);
    s.(cache := Take(s.cache, flushTime),
       workers := s.workers[w := Writing(batch)],
       dequeued := s.dequeued + [batch])
  }

  function Next(cfg: Config, flushAtExit: bool, s: State, e: Event): State
    requires Consistent(s) && Enabled(cfg, flushAtExit, s, e)
  {
    match e
    case Tick(seconds) => s.(clock := s.clock + seconds)
    case UpdateKnown(file, fields, now) => Updated(cfg, s, file, fields, now)
    case UpdateUnknown(client, file, fields, now) =>
      s.(setups := s.setups[client := Request(file, fields, now)])
    case UpdateAborted(client) => s.(setups := s.setups - {client})
    case UpdateRelocked(client, j) => Relocked(cfg, s, s.setups[client], j).(setups := s.setups - {client})
    case FlushFile(file) => s.(cache := EnqueueHead(s.cache, file))
    case FlushAll(keys) => Swept(cfg, s, keys, -1)
    case FlushOld(keys) => Swept(cfg, s, keys, cfg.writeInterval)
    case ForgetFile(file) => if file in s.cache.tree then Dropped(s, file) else s
    case Dequeue(w, j) => Taken(s, w, s.clock + j)
    case WroteBatch(w) =>
      s.(workers := s.workers[w := Idle], written := s.written + [s.workers[w].batch])
    case Signal => s.(phase := Flushing)
    case FinalSweep(keys) => Finished(cfg, flushAtExit, s, keys)
    case Exit(w) => s.(workers := s.workers[w := Exited])
  }

  // ----- what every step keeps

  /** Tree entries and living lifetimes correspond one to one. */
  ghost predicate Consistent(s: State) {
    && WellFormed(s.cache)
    && s.current.Keys == s.cache.tree.Keys
    && (forall f {:trigger s.current[f]} :: f in s.current ==>
          s.current[f] < |s.lives| && s.lives[s.current[f]].file == f && s.lives[s.current[f]].end.Alive?)
    && (forall l {:trigger s.lives[l]} :: 0 <= l < |s.lives| && s.lives[l].end.Alive? ==>
          s.lives[l].file in s.current && s.current[s.lives[l].file] == l)
  }

  /** The values of a lifetime that writers took, in dequeue order. */
  function TakenOf(dequeued: seq<Batch>, l: nat): seq<Sample> {
    if dequeued == [] then []
    else
      var last := dequeued[|dequeued| - 1];
      TakenOf(dequeued[..|dequeued| - 1], l) + if last.life == l then last.values else []
  }

  /** The values of a lifetime that no writer took, given its item if it lives. */
  function Left(life: Life, held: Item): seq<Sample> {
    match life.end
    case Alive => held.values
    case Purged => []
    case Forgotten(lost) => lost
  }

  /** What was accepted is what writers took, in that order, followed by what is
      left; and the stamps of what was accepted strictly rise. */
  ghost predicate Sound(life: Life, taken: seq<Sample>, held: Item) {
    && life.accepted == taken + Left(life, held)
    && Rising(life.accepted)
    && (life.end.Alive? ==> held.stamp == LastStamp(0.0, life.accepted))
  }

  ghost predicate Rising(a: seq<Sample>) {
    Increasing(a) && forall i :: 0 <= i < |a| ==> 0.0 < a[i].stamp
  }

  function Held(tree: map<File, Item>, file: File): Item {
    if file in tree then tree[file] else Item([], 0.0, 0)
  }

  /** Nothing is lost, doubled or reordered in any lifetime. */
  ghost predicate Accounted(s: State) {
    && (forall l {:trigger AccountedLife(s, l)} :: 0 <= l < |s.lives| ==> AccountedLife(s, l))
    && (forall i {:trigger s.dequeued[i]} :: 0 <= i < |s.dequeued| ==> s.dequeued[i].life < |s.lives|)
  }

  ghost predicate AccountedLife(s: State, l: nat)
    requires l < |s.lives|
  {
    Sound(s.lives[l], TakenOf(s.dequeued, l), Held(s.cache.tree, s.lives[l].file))
  }

  lemma RiseContinues(a: seq<Sample>, added: seq<Sample>)
    requires Rising(a) && Increasing(added)
    requires forall i :: 0 <= i < |added| ==> LastStamp(0.0, a) < added[i].stamp
    ensures Rising(a + added)
    ensures LastStamp(0.0, a + added) == LastStamp(LastStamp(0.0, a), added)
  {
    assert forall i :: 0 <= i < |a| ==> a[i].stamp <= LastStamp(0.0, a);
  }

  lemma SoundUpdated(life: Life, taken: seq<Sample>, held: Item, fields: seq<Field>)
    requires life.end.Alive? && Sound(life, taken, held)
    ensures Sound(life.(accepted := life.accepted + Accepted(held.stamp, fields)), taken, AddTo(held, fields))
  {
    var added := Accepted(held.stamp, fields);
    AddToAccepted(held, fields);
    AcceptedIsLongestRise(held.stamp, fields);
    RiseContinues(life.accepted, added);
    assert taken + (held.values + added) == taken + held.values + added;
  }

  lemma {:induction false} TakenOfUnknown(dequeued: seq<Batch>, l: nat)
    requires forall i {:trigger dequeued[i]} :: 0 <= i < |dequeued| ==> dequeued[i].life != l
    ensures TakenOf(dequeued, l) == []
  {
    if dequeued != [] {
      TakenOfUnknown(dequeued[..|dequeued| - 1], l);
    }
  }

  lemma UpdatedKeeps(cfg: Config, s: State, file: File, fields: seq<Field>, now: int)
    requires Consistent(s) && Accounted(s) && file in s.cache.tree
    ensures var s' := Updated(cfg, s, file, fields, now); Consistent(s') && Accounted(s')
  {
    var s' := Updated(cfg, s, file, fields, now);
    var k := s.current[file];
    assert AccountedLife(s, k);
    SoundUpdated(s.lives[k], TakenOf(s.dequeued, k), s.cache.tree[file], fields);
    forall l | 0 <= l < |s'.lives|
      ensures AccountedLife(s', l)
    {
      if l != k {
        assert AccountedLife(s, l);
        assert s.lives[l].end.Alive? ==> s.lives[l].file != file;
      }
    }
  }

  lemma InsertedConsistent(s: State, file: File, flushTime: int)
    requires Consistent(s) && file !in s.cache.tree
    ensures Consistent(Inserted(s, file, flushTime))
  {
  }

  lemma InsertedKeeps(s: State, file: File, flushTime: int)
    requires Consistent(s) && Accounted(s) && file !in s.cache.tree
    ensures var s' := Inserted(s, file, flushTime); Consistent(s') && Accounted(s')
  {
    var s' := Inserted(s, file, flushTime);
    InsertedConsistent(s, file, flushTime);
    forall l | 0 <= l < |s'.lives|
      ensures AccountedLife(s', l)
    {
      if l < |s.lives| {
        assert AccountedLife(s, l);
        assert s'.lives[l] == s.lives[l] && (s.lives[l].end.Alive? ==> s.lives[l].file != file);
      } else {
        TakenOfUnknown(s.dequeued, l);
      }
    }
  }

  lemma SweptConsistent(cfg: Config, s: State, keys: seq<File>, maxAge: int)
    requires Consistent(s) && Enumerates(keys, s.cache.tree)
    ensures Consistent(Swept(cfg, s, keys, maxAge))
  {
    var s' := Swept(cfg, s, keys, maxAge);
    SweepLosesNothing(cfg, s.cache, keys, s.clock, maxAge, s.phase.Running?);
    assert s'.current.Keys == s'.cache.tree.Keys;
  }

  lemma SweptKeeps(cfg: Config, s: State, keys: seq<File>, maxAge: int)
    requires Consistent(s) && Accounted(s) && Enumerates(keys, s.cache.tree)
    ensures var s' := Swept(cfg, s, keys, maxAge); Consistent(s') && Accounted(s')
  {
    var s' := Swept(cfg, s, keys, maxAge);
    SweepLosesNothing(cfg, s.cache, keys, s.clock, maxAge, s.phase.Running?);
    SweptConsistent(cfg, s, keys, maxAge);
    forall l | 0 <= l < |s'.lives|
      ensures AccountedLife(s', l)
    {
      assert AccountedLife(s, l);
    }
  }

  lemma DroppedKeeps(s: State, file: File)
    requires Consistent(s) && Accounted(s) && file in s.cache.tree
    ensures var s' := Dropped(s, file); Consistent(s') && Accounted(s')
  {
    var s' := Dropped(s, file);
    forall l | 0 <= l < |s'.lives|
      ensures AccountedLife(s', l)
    {
      assert AccountedLife(s, l);
      assert s.lives[l].file in s.current || !s.lives[l].end.Alive?;
    }
  }

  lemma TakenKeeps(s: State, w: nat, flushTime: int)
    requires Consistent(s) && Accounted(s) && s.cache.queue != [] && w < |s.workers|
    ensures var s' := Taken(s, w, flushTime); Consistent(s') && Accounted(s')
  {
    var s' := Taken(s, w, flushTime);
    var file := s.cache.queue[0];
    assert s'.dequeued[..|s.dequeued|] == s.dequeued;
    forall l | 0 <= l < |s'.lives|
      ensures AccountedLife(s', l)
    {
      assert AccountedLife(s, l);
      if l != s.current[file] {
        assert s.lives[l].end.Alive? ==> s.lives[l].file != file;
      }
    }
  }

  lemma RelockedKeeps(cfg: Config, s: State, r: Request, j: nat)
    requires Consistent(s) && Accounted(s)
    ensures var s' := Relocked(cfg, s, r, j); Consistent(s') && Accounted(s')
  {
    if r.file in s.cache.tree {
      UpdatedKeeps(cfg, s, r.file, r.fields, r.now);
    } else {
      var s1 := Inserted(s, r.file, r.now + j);
      InsertedKeeps(s, r.file, r.now + j);
      assert r.file in s1.cache.tree;
      UpdatedKeeps(cfg, s1, r.file, r.fields, r.now);
    }
  }

  lemma FinishedKeeps(cfg: Config, flushAtExit: bool, s: State, keys: seq<File>)
    requires Consistent(s) && Accounted(s) && Enumerates(keys, s.cache.tree)
    ensures var s' := Finished(cfg, flushAtExit, s, keys); Consistent(s') && Accounted(s')
  {
    if flushAtExit {
      SweptKeeps(cfg, s, keys, -1);
      Unaccountable(Swept(cfg, s, keys, -1), Finished(cfg, flushAtExit, s, keys));
    } else {
      Unaccountable(s, Finished(cfg, flushAtExit, s, keys));
    }
  }

  /** Events that leave tree, lifetimes and dequeued batches alone. */
  predicate Quiet(e: Event) {
    e.Tick? || e.UpdateUnknown? || e.UpdateAborted? || e.FlushFile? || e.WroteBatch? || e.Signal? || e.Exit?
  }

  lemma QuietStep(cfg: Config, flushAtExit: bool, s: State, e: Event)
    requires Consistent(s) && Enabled(cfg, flushAtExit, s, e) && Quiet(e)
    ensures var s' := Next(cfg, flushAtExit, s, e);
            && s'.cache.tree == s.cache.tree && WellFormed(s'.cache)
            && s'.lives == s.lives && s'.current == s.current && s'.dequeued == s.dequeued
  {
  }

  lemma KnownStep(cfg: Config, flushAtExit: bool, s: State, e: Event)
    requires Consistent(s) && Accounted(s) && Enabled(cfg, flushAtExit, s, e) && e.UpdateKnown?
    ensures Consistent(Next(cfg, flushAtExit, s, e)) && Accounted(Next(cfg, flushAtExit, s, e))
  {
    UpdatedKeeps(cfg, s, e.file, e.fields, e.now);
  }

  lemma RelockStep(cfg: Config, flushAtExit: bool, s: State, e: Event)
    requires Consistent(s) && Accounted(s) && Enabled(cfg, flushAtExit, s, e) && e.UpdateRelocked?
    ensures Consistent(Next(cfg, flushAtExit, s, e)) && Accounted(Next(cfg, flushAtExit, s, e))
  {
    var s1 := Relocked(cfg, s, s.setups[e.client], e.jitter);
    RelockedKeeps(cfg, s, s.setups[e.client], e.jitter);
    Unaccountable(s1, s1.(setups := s.setups - {e.client}));
  }

  lemma ForgetStep(cfg: Config, flushAtExit: bool, s: State, e: Event)
    requires Consistent(s) && Accounted(s) && Enabled(cfg, flushAtExit, s, e) && e.ForgetFile?
    ensures Consistent(Next(cfg, flushAtExit, s, e)) && Accounted(Next(cfg, flushAtExit, s, e))
  {
    if e.file in s.cache.tree {
      DroppedKeeps(s, e.file);
    }
  }

  lemma DequeueStep(cfg: Config, flushAtExit: bool, s: State, e: Event)
    requires Consistent(s) && Accounted(s) && Enabled(cfg, flushAtExit, s, e) && e.Dequeue?
    ensures Consistent(Next(cfg, flushAtExit, s, e)) && Accounted(Next(cfg, flushAtExit, s, e))
  {
    assert Next(cfg, flushAtExit, s, e) == Taken(s, e.worker, s.clock + e.jitter);
    TakenKeeps(s, e.worker, s.clock + e.jitter);
  }

  lemma FlushStep(cfg: Config, flushAtExit: bool, s: State, e: Event)
    requires Consistent(s) && Accounted(s) && Enabled(cfg, flushAtExit, s, e) && (e.FlushAll? || e.FlushOld?)
    ensures Consistent(Next(cfg, flushAtExit, s, e)) && Accounted(Next(cfg, flushAtExit, s, e))
  {
    SweptKeeps(cfg, s, e.keys, if e.FlushAll? then -1 else cfg.writeInterval);
  }

  lemma FinalStep(cfg: Config, flushAtExit: bool, s: State, e: Event)
    requires Consistent(s) && Accounted(s) && Enabled(cfg, flushAtExit, s, e) && e.FinalSweep?
    ensures Consistent(Next(cfg, flushAtExit, s, e)) && Accounted(Next(cfg, flushAtExit, s, e))
  {
    FinishedKeeps(cfg, flushAtExit, s, e.keys);
  }

  lemma StepKeepsAccounts(cfg: Config, flushAtExit: bool, s: State, e: Event)
    requires Consistent(s) && Accounted(s) && Enabled(cfg, flushAtExit, s, e)
    ensures Consistent(Next(cfg, flushAtExit, s, e)) && Accounted(Next(cfg, flushAtExit, s, e))
  {
    match e
    case UpdateKnown(_, _, _) => KnownStep(cfg, flushAtExit, s, e);
    case UpdateRelocked(_, _) => RelockStep(cfg, flushAtExit, s, e);
    case ForgetFile(_) => ForgetStep(cfg, flushAtExit, s, e);
    case Dequeue(_, _) => DequeueStep(cfg, flushAtExit, s, e);
    case FlushAll(_) => FlushStep(cfg, flushAtExit, s, e);
    case FlushOld(_) => FlushStep(cfg, flushAtExit, s, e);
    case FinalSweep(_) => FinalStep(cfg, flushAtExit, s, e);
    case _ =>
      QuietStep(cfg, flushAtExit, s, e);
      Unaccountable(s, Next(cfg, flushAtExit, s, e));
  }

  /** Only the tree, the lifetimes and the dequeued batches matter. */
  lemma Unaccountable(s: State, s': State)
    requires Consistent(s) && Accounted(s) && WellFormed(s'.cache)
    requires s'.cache.tree == s.cache.tree && s'.lives == s.lives
    requires s'.current == s.current && s'.dequeued == s.dequeued
    ensures Consistent(s') && Accounted(s')
  {
    forall l | 0 <= l < |s'.lives|
      ensures AccountedLife(s', l)
    {
      assert AccountedLife(s, l);
    }
  }

  // ----- batches: every one taken is being written or was written, once

  function Writers(workers: seq<Worker>, b: Batch): nat {
    if workers == [] then 0 else Holds(workers[0], b) + Writers(workers[1..], b)
  }

  function Holds(w: Worker, b: Batch): nat {
    if w == Writing(b) then 1 else 0
  }

  ghost predicate Conserved(s: State) {
    forall b :: multiset(s.dequeued)[b] == multiset(s.written)[b] + Writers(s.workers, b)
  }

  lemma {:induction false} WritersChange(workers: seq<Worker>, k: nat, w: Worker, b: Batch)
    requires k < |workers|
    ensures Writers(workers[k := w], b) == Writers(workers, b) - Holds(workers[k], b) + Holds(w, b)
  {
    if k == 0 {
      assert workers[k := w][1..] == workers[1..];
    } else {
      WritersChange(workers[1..], k - 1, w, b);
      assert workers[k := w][1..] == workers[1..][k - 1 := w];
    }
  }

  lemma StepConserves(cfg: Config, flushAtExit: bool, s: State, e: Event)
    requires Consistent(s) && Conserved(s) && Enabled(cfg, flushAtExit, s, e)
    ensures Conserved(Next(cfg, flushAtExit, s, e))
  {
    match e
    case Dequeue(w, j) => TakenConserves(s, w, s.clock + j);
    case WroteBatch(w) => WroteConserves(cfg, flushAtExit, s, e);
    case Exit(w) => ExitConserves(s, w);
    case _ => UntouchedLogs(cfg, flushAtExit, s, e);
  }

  lemma TakenConserves(s: State, w: nat, flushTime: int)
    requires Consistent(s) && Conserved(s) && s.cache.queue != [] && w < |s.workers| && s.workers[w].Idle?
    ensures Conserved(Taken(s, w, flushTime))
  {
    var s' := Taken(s, w, flushTime);
    forall b
      ensures multiset(s'.dequeued)[b] == multiset(s'.written)[b] + Writers(s'.workers, b)
    {
      WritersChange(s.workers, w, s'.workers[w], b);
    }
  }

  lemma WroteConserves(cfg: Config, flushAtExit: bool, s: State, e: Event)
    requires Consistent(s) && Conserved(s) && Enabled(cfg, flushAtExit, s, e) && e.WroteBatch?
    ensures Conserved(Next(cfg, flushAtExit, s, e))
  {
    var s' := Next(cfg, flushAtExit, s, e);
    forall b
      ensures multiset(s'.dequeued)[b] == multiset(s'.written)[b] + Writers(s'.workers, b)
    {
      WritersChange(s.workers, e.worker, Idle, b);
    }
  }

  lemma ExitConserves(s: State, w: nat)
    requires Conserved(s) && w < |s.workers| && s.workers[w].Idle?
    ensures Conserved(s.(workers := s.workers[w := Exited]))
  {
    forall b
      ensures Writers(s.workers[w := Exited], b) == Writers(s.workers, b)
    {
      WritersChange(s.workers, w, Exited, b);
    }
  }

  lemma UntouchedLogs(cfg: Config, flushAtExit: bool, s: State, e: Event)
    requires Consistent(s) && Enabled(cfg, flushAtExit, s, e)
    requires !e.Dequeue? && !e.WroteBatch? && !e.Exit?
    ensures var s' := Next(cfg, flushAtExit, s, e);
            s'.workers == s.workers && s'.dequeued == s.dequeued && s'.written == s.written
  {
  }

  lemma {:induction false} NoWriters(workers: seq<Worker>, b: Batch)
    requires forall w :: w in workers ==> !w.Writing?
    ensures Writers(workers, b) == 0
  {
    if workers != [] {
      NoWriters(workers[1..], b);
    }
  }

  // ----- flush times never run ahead of the clock by more than the jitter

  ghost predicate Timely(cfg: Config, s: State) {
    && (forall f :: f in s.cache.tree ==> s.cache.tree[f].flushTime <= s.clock + cfg.jitter)
    && (forall c :: c in s.setups ==> s.setups[c].now <= s.clock)
  }

  lemma StepTimely(cfg: Config, flushAtExit: bool, s: State, e: Event)
    requires Consistent(s) && Timely(cfg, s) && Enabled(cfg, flushAtExit, s, e)
    ensures Timely(cfg, Next(cfg, flushAtExit, s, e))
  {
    match e
    case UpdateKnown(file, fields, now) => UpdatedTimely(cfg, s, file, fields, now);
    case UpdateRelocked(_, _) => RelockTimely(cfg, flushAtExit, s, e);
    case FlushAll(_) => SweepTimely(cfg, flushAtExit, s, e);
    case FlushOld(_) => SweepTimely(cfg, flushAtExit, s, e);
    case FinalSweep(_) => SweepTimely(cfg, flushAtExit, s, e);
    case Dequeue(w, j) => TakenTimely(cfg, s, w, j);
    case _ => OtherTimely(cfg, flushAtExit, s, e);
  }

  lemma UpdatedTimely(cfg: Config, s: State, file: File, fields: seq<Field>, now: int)
    requires Timely(cfg, s) && file in s.cache.tree && file in s.current && s.current[file] < |s.lives|
    ensures Timely(cfg, Updated(cfg, s, file, fields, now))
  {
    AddToAccepted(s.cache.tree[file], fields);
  }

  lemma TakenTimely(cfg: Config, s: State, w: nat, j: nat)
    requires Consistent(s) && Timely(cfg, s) && s.cache.queue != [] && w < |s.workers| && Jitter(cfg, j)
    ensures Timely(cfg, Taken(s, w, s.clock + j))
  {
  }

  lemma OtherTimely(cfg: Config, flushAtExit: bool, s: State, e: Event)
    requires Consistent(s) && Timely(cfg, s) && Enabled(cfg, flushAtExit, s, e)
    requires Quiet(e) || e.ForgetFile?
    ensures Timely(cfg, Next(cfg, flushAtExit, s, e))
  {
  }

  lemma RelockTimely(cfg: Config, flushAtExit: bool, s: State, e: Event)
    requires Consistent(s) && Timely(cfg, s) && Enabled(cfg, flushAtExit, s, e) && e.UpdateRelocked?
    ensures Timely(cfg, Next(cfg, flushAtExit, s, e))
  {
    var r := s.setups[e.client];
    var s' := Relocked(cfg, s, r, e.jitter);
    RelockedTimely(cfg, s, r, e.jitter);
    assert Next(cfg, flushAtExit, s, e) == s'.(setups := s.setups - {e.client});
  }

  lemma RelockedTimely(cfg: Config, s: State, r: Request, j: nat)
    requires Consistent(s) && Timely(cfg, s) && r.now <= s.clock && Jitter(cfg, j)
    ensures Timely(cfg, Relocked(cfg, s, r, j)) && Relocked(cfg, s, r, j).setups == s.setups
  {
    if r.file in s.cache.tree {
      UpdatedTimely(cfg, s, r.file, r.fields, r.now);
    } else {
      InsertedTimely(cfg, s, r.file, r.now + j);
      UpdatedTimely(cfg, Inserted(s, r.file, r.now + j), r.file, r.fields, r.now);
    }
  }

  lemma InsertedTimely(cfg: Config, s: State, file: File, flushTime: int)
    requires Timely(cfg, s) && file !in s.cache.tree && flushTime <= s.clock + cfg.jitter
    ensures Timely(cfg, Inserted(s, file, flushTime))
  {
  }

  lemma SweepTimely(cfg: Config, flushAtExit: bool, s: State, e: Event)
    requires Consistent(s) && Timely(cfg, s) && Enabled(cfg, flushAtExit, s, e)
    requires e.FlushAll? || e.FlushOld? || e.FinalSweep?
    ensures Timely(cfg, Next(cfg, flushAtExit, s, e))
  {
    SweepLosesNothing(cfg, s.cache, e.keys, s.clock, if e.FlushOld? then cfg.writeInterval else -1, s.phase.Running?);
  }

  /** FLUSHALL, and the sweep at exit: afterwards every item that holds values is
      queued, and nothing that held values was purged. */
  lemma SweepAllQueuesAll(cfg: Config, s: State, keys: seq<File>)
    requires Consistent(s) && Timely(cfg, s) && Enumerates(keys, s.cache.tree)
    ensures var s' := Swept(cfg, s, keys, -1);
            && (forall f :: f in s'.cache.tree && s'.cache.tree[f].values != [] ==> f in s'.cache.queue)
            && (forall f :: f in s.cache.tree && s.cache.tree[f].values != [] ==> f in s'.cache.tree)
  {
    SweepLosesNothing(cfg, s.cache, keys, s.clock, -1, s.phase.Running?);
  }

  // ----- when files wait for a writer

  /** The file, fields and time of an UPDATE under the lock. */
  predicate Updates(s: State, e: Event, file: File, fields: seq<Field>, now: int) {
    || e == UpdateKnown(file, fields, now)
    || (e.UpdateRelocked? && e.client in s.setups && s.setups[e.client] == Request(file, fields, now))
  }

  /** In every run: an UPDATE whose fields are all accepted leaves its file waiting
      exactly if it waited before, or has something to write and was last flushed at
      least the write interval ago. A rejected one leaves the queue alone. */
  lemma UpdateWaits(cfg: Config, flushAtExit: bool, s: State, e: Event, file: File, fields: seq<Field>, now: int)
    requires Consistent(s) && Enabled(cfg, flushAtExit, s, e) && Updates(s, e, file, fields, now)
    ensures var s', added := Next(cfg, flushAtExit, s, e), Accepted(Held(s.cache.tree, file).stamp, fields);
            && file in s'.cache.tree
            && (|added| < |fields| ==> s'.cache.queue == s.cache.queue)
            && (|added| == |fields| ==>
                  (file in s'.cache.queue <==>
                    || file in s.cache.queue
                    || (&& s'.cache.tree[file].values != []
                        && now - s'.cache.tree[file].flushTime >= cfg.writeInterval)))
            && (s'.cache.queue == s.cache.queue || s'.cache.queue == s.cache.queue + [file])
            && s'.cache.tree[file].values == Held(s.cache.tree, file).values + added
  {
    var c := CacheFor(s, e, file, fields, now);
    UpdateIs(cfg, flushAtExit, s, e, file, fields, now);
    UpdateQueuesDue(cfg, c, file, fields, now);
    AddToAccepted(c.tree[file], fields);
  }

  /** The cache that an UPDATE works on: with the item it adds, if it adds one. */
  function CacheFor(s: State, e: Event, file: File, fields: seq<Field>, now: int): (c: Cache)
    requires Updates(s, e, file, fields, now) && (e.UpdateKnown? ==> file in s.cache.tree)
    ensures file in c.tree && c.queue == s.cache.queue
    ensures c.tree[file].values == Held(s.cache.tree, file).values
    ensures c.tree[file].stamp == Held(s.cache.tree, file).stamp
  {
    if file in s.cache.tree then s.cache else Insert(s.cache, file, now + e.jitter)
  }

  lemma UpdateIs(cfg: Config, flushAtExit: bool, s: State, e: Event, file: File, fields: seq<Field>, now: int)
    requires Consistent(s) && Enabled(cfg, flushAtExit, s, e) && Updates(s, e, file, fields, now)
    ensures Next(cfg, flushAtExit, s, e).cache
         == Update(cfg, CacheFor(s, e, file, fields, now), file, fields, now)
  {
  }

  predicate Jittered(cfg: Config, flushTime: int, time: int) {
    time <= flushTime && (flushTime < time + cfg.jitter || (cfg.jitter == 0 && flushTime == time))
  }

  /** The flush time of a file after an event: the time at which the event hands the
      file to a writer, or at which the UPDATE began that adds it, with less than the
      write jitter on top; otherwise it is what it was. */
  ghost predicate FlushTimeAfter(cfg: Config, s: State, e: Event, f: File, flushTime: int)
    requires e.Dequeue? ==> s.cache.queue != []
  {
    if e.Dequeue? && s.cache.queue[0] == f then Jittered(cfg, flushTime, s.clock)
    else if f in s.cache.tree then flushTime == s.cache.tree[f].flushTime
    else
      && e.UpdateRelocked? && e.client in s.setups && s.setups[e.client].file == f
      && Jittered(cfg, flushTime, s.setups[e.client].now)
  }

  /** In every run it is never changed otherwise. */
  lemma FlushTimes(cfg: Config, flushAtExit: bool, s: State, e: Event, f: File)
    requires Consistent(s) && Enabled(cfg, flushAtExit, s, e) && f in Next(cfg, flushAtExit, s, e).cache.tree
    ensures FlushTimeAfter(cfg, s, e, f, Next(cfg, flushAtExit, s, e).cache.tree[f].flushTime)
  {
    if e.UpdateKnown? || e.UpdateRelocked? {
      UpdatedFlushTime(cfg, flushAtExit, s, e, f);
    } else if e.FlushAll? || e.FlushOld? || e.FinalSweep? {
      SweptFlushTime(cfg, flushAtExit, s, e, f);
    } else if !e.Dequeue? {
      OtherFlushTime(cfg, flushAtExit, s, e, f);
    } else {
      TakenFlushTime(cfg, flushAtExit, s, e, f);
    }
  }

  lemma TakenFlushTime(cfg: Config, flushAtExit: bool, s: State, e: Event, f: File)
    requires Consistent(s) && Enabled(cfg, flushAtExit, s, e) && f in Next(cfg, flushAtExit, s, e).cache.tree
    requires e.Dequeue?
    ensures FlushTimeAfter(cfg, s, e, f, Next(cfg, flushAtExit, s, e).cache.tree[f].flushTime)
  {
  }

  lemma UpdatedFlushTime(cfg: Config, flushAtExit: bool, s: State, e: Event, f: File)
    requires Consistent(s) && Enabled(cfg, flushAtExit, s, e) && f in Next(cfg, flushAtExit, s, e).cache.tree
    requires e.UpdateKnown? || e.UpdateRelocked?
    ensures FlushTimeAfter(cfg, s, e, f, Next(cfg, flushAtExit, s, e).cache.tree[f].flushTime)
  {
    var r := if e.UpdateKnown? then Request(e.file, e.fields, e.now) else s.setups[e.client];
    UpdateIs(cfg, flushAtExit, s, e, r.file, r.fields, r.now);
    UpdateQueuesDue(cfg, CacheFor(s, e, r.file, r.fields, r.now), r.file, r.fields, r.now);
  }

  lemma SweptFlushTime(cfg: Config, flushAtExit: bool, s: State, e: Event, f: File)
    requires Consistent(s) && Enabled(cfg, flushAtExit, s, e) && f in Next(cfg, flushAtExit, s, e).cache.tree
    requires e.FlushAll? || e.FlushOld? || e.FinalSweep?
    ensures FlushTimeAfter(cfg, s, e, f, Next(cfg, flushAtExit, s, e).cache.tree[f].flushTime)
  {
    SweepLosesNothing(cfg, s.cache, e.keys, s.clock, if e.FlushOld? then cfg.writeInterval else -1, s.phase.Running?);
  }

  lemma OtherFlushTime(cfg: Config, flushAtExit: bool, s: State, e: Event, f: File)
    requires Consistent(s) && Enabled(cfg, flushAtExit, s, e) && f in Next(cfg, flushAtExit, s, e).cache.tree
    requires Quiet(e) || e.ForgetFile?
    ensures FlushTimeAfter(cfg, s, e, f, Next(cfg, flushAtExit, s, e).cache.tree[f].flushTime)
  {
    if Quiet(e) {
      QuietStep(cfg, flushAtExit, s, e);
    }
  }

  /** The flush thread's sweep, in terms of the clock and the two intervals. */
  lemma FlushOldByTime(cfg: Config, flushAtExit: bool, s: State, e: Event)
    requires Consistent(s) && Enabled(cfg, flushAtExit, s, e) && e.FlushOld? && cfg.writeInterval > 0
    ensures var c, c' := s.cache, Next(cfg, flushAtExit, s, e).cache;
            && c.queue <= c'.queue
            && (forall f :: f in c.tree ==>
                  (f in c'.queue <==>
                    || f in c.queue
                    || (&& c.tree[f].values != []
                        && (s.clock - c.tree[f].flushTime >= cfg.writeInterval || !s.phase.Running?))))
            && (forall f :: f in c.tree ==>
                  (f !in c'.tree <==>
                    c.tree[f].values == [] && s.clock - c.tree[f].flushTime >= cfg.flushInterval))
  {
    SweepByTime(cfg, s.cache, e.keys, s.clock, cfg.writeInterval, s.phase.Running?);
  }

  /** FLUSHALL queues every item that holds values. */
  lemma FlushAllQueuesAll(cfg: Config, flushAtExit: bool, s: State, e: Event)
    requires Consistent(s) && Timely(cfg, s) && Enabled(cfg, flushAtExit, s, e) && e.FlushAll?
    ensures var c, c' := s.cache, Next(cfg, flushAtExit, s, e).cache;
            && c.queue <= c'.queue
            && (forall f :: f in c.tree && c.tree[f].values != [] ==> f in c'.queue)
            && (forall f :: f in c.tree ==>
                  (f !in c'.tree <==>
                    c.tree[f].values == [] && s.clock - c.tree[f].flushTime >= cfg.flushInterval))
  {
    SweepAllQueuesAll(cfg, s, e.keys);
    SweepLosesNothing(cfg, s.cache, e.keys, s.clock, -1, s.phase.Running?);
    PurgedByTime(cfg, s.cache, e.keys, s.clock, -1, s.phase.Running?);
  }

  /** FLUSH makes a file with values the next one to be written. */
  lemma FlushQueuesFirst(cfg: Config, flushAtExit: bool, s: State, e: Event)
    requires Consistent(s) && Enabled(cfg, flushAtExit, s, e) && e.FlushFile?
    requires s.cache.tree[e.file].values != []
    ensures Next(cfg, flushAtExit, s, e).cache.queue == [e.file] + Without(s.cache.queue, e.file)
  {
    FlushedIsNext(s.cache, e.file);
  }

  /** No queue thread is stuck: it can take a batch, finish the one it has, or leave,
      unless there is nothing to write and no shutdown. */
  lemma WorkersGoOn(cfg: Config, flushAtExit: bool, s: State, w: nat)
    requires Consistent(s) && w < |s.workers| && !s.workers[w].Exited?
    ensures || Enabled(cfg, flushAtExit, s, Dequeue(w, 0))
            || Enabled(cfg, flushAtExit, s, WroteBatch(w))
            || Enabled(cfg, flushAtExit, s, Exit(w))
            || (s.cache.queue == [] && !s.phase.Shutdown?)
  {
  }

  /** Nor is a client: an UPDATE can go on, in one step or by way of giving up the
      lock, as long as there is no shutdown. */
  lemma UpdatesGoOn(cfg: Config, flushAtExit: bool, s: State, client: nat, file: File, fields: seq<Field>)
    requires Consistent(s) && !s.phase.Shutdown?
    ensures || Enabled(cfg, flushAtExit, s, UpdateKnown(file, fields, s.clock))
            || Enabled(cfg, flushAtExit, s, UpdateUnknown(client, file, fields, s.clock))
            || Enabled(cfg, flushAtExit, s, UpdateRelocked(client, 0))
  {
  }
}
