/** What holds over every run of rrdcached, and what is guaranteed when it exits
    with `flush_at_shutdown`. */
module CacheRuns {
  import opened CacheModel
  import opened CacheHistory

  // ----- leaving with flush_at_shutdown

  /** Writers have taken all that the lifetime had accepted at the final sweep. */
  ghost predicate Settled(s: State, l: nat)
    requires l < |s.marked|
  {
    |TakenOf(s.dequeued, l)| >= s.marked[l]
  }

  ghost predicate NoneLeft(workers: seq<Worker>) {
    forall w :: w in workers ==> !w.Exited?
  }

  /** Between the final sweep and the end, what was marked and not yet taken
      waits in the queue; once a worker has left, nothing waits. */
  ghost predicate Draining(s: State) {
    && |s.marked| <= |s.lives|
    && (!s.phase.Shutdown? ==> s.marked == [] && NoneLeft(s.workers))
    && (forall l {:trigger s.marked[l]} :: 0 <= l < |s.marked| ==> s.marked[l] <= |s.lives[l].accepted|)
    && (forall l {:trigger Settled(s, l)} :: 0 <= l < |s.marked| && s.lives[l].end.Alive? ==>
          Settled(s, l) || (s.lives[l].file in s.cache.queue && NoneLeft(s.workers)))
  }

  lemma {:induction false} TakenOfGrows(dequeued: seq<Batch>, b: Batch, l: nat)
    ensures TakenOf(dequeued + [b], l) == TakenOf(dequeued, l) + if b.life == l then b.values else []
  {
    assert (dequeued + [b])[..|dequeued|] == dequeued;
  }

  /** The parts of a state that draining looks at only move the right way. */
  lemma DrainingKept(s: State, s': State)
    requires Draining(s)
    requires s'.marked == s.marked && s'.phase == s.phase && s'.dequeued == s.dequeued
    requires forall w :: w in s'.workers ==> w.Exited? ==> w in s.workers
    requires |s.lives| <= |s'.lives|
    requires forall l :: 0 <= l < |s.lives| ==>
               && s'.lives[l].file == s.lives[l].file
               && |s.lives[l].accepted| <= |s'.lives[l].accepted|
               && (s'.lives[l].end.Alive? ==> s.lives[l].end.Alive?)
    requires forall f :: f in s.cache.queue && f in s'.cache.tree ==> f in s'.cache.queue
    requires forall l :: 0 <= l < |s'.lives| && s'.lives[l].end.Alive? ==> s'.lives[l].file in s'.cache.tree
    ensures Draining(s')
  {
    forall l {:trigger Settled(s', l)} | 0 <= l < |s'.marked| && s'.lives[l].end.Alive?
      ensures Settled(s', l) || (s'.lives[l].file in s'.cache.queue && NoneLeft(s'.workers))
    {
      assert Settled(s, l) == Settled(s', l);
    }
  }

  lemma FramedDraining(cfg: Config, s: State, e: Event)
    requires Consistent(s) && Draining(s) && Enabled(cfg, true, s, e)
    requires e.Tick? || e.UpdateUnknown? || e.UpdateAborted? || e.WroteBatch?
    ensures Draining(Next(cfg, true, s, e))
  {
    DrainingKept(s, Next(cfg, true, s, e));
  }

  lemma UpdatedDraining(cfg: Config, s: State, file: File, fields: seq<Field>, now: int)
    requires Consistent(s) && Draining(s) && file in s.cache.tree
    ensures Draining(Updated(cfg, s, file, fields, now))
  {
    DrainingKept(s, Updated(cfg, s, file, fields, now));
  }

  lemma FlushDraining(s: State, file: File)
    requires Consistent(s) && Draining(s) && file in s.cache.tree
    ensures Draining(s.(cache := EnqueueHead(s.cache, file)))
  {
    WithoutKept(s.cache.queue, file);
    DrainingKept(s, s.(cache := EnqueueHead(s.cache, file)));
  }

  lemma ForgetDraining(s: State, file: File)
    requires Consistent(s) && Draining(s) && file in s.cache.tree
    ensures Draining(Dropped(s, file))
  {
    WithoutKept(s.cache.queue, file);
    DrainingKept(s, Dropped(s, file));
  }

  lemma RelockDraining(cfg: Config, s: State, e: Event)
    requires Consistent(s) && Draining(s) && Enabled(cfg, true, s, e) && e.UpdateRelocked?
    ensures Draining(Next(cfg, true, s, e))
  {
    DrainingKept(s, Next(cfg, true, s, e));
  }

  lemma SweepDraining(cfg: Config, s: State, keys: seq<File>, maxAge: int)
    requires Consistent(s) && Draining(s) && Enumerates(keys, s.cache.tree)
    ensures Draining(Swept(cfg, s, keys, maxAge))
  {
    SweepLosesNothing(cfg, s.cache, keys, s.clock, maxAge, s.phase.Running?);
    DrainingKept(s, Swept(cfg, s, keys, maxAge));
  }

  lemma SignalDraining(cfg: Config, s: State)
    requires Draining(s) && s.phase.Running?
    ensures Draining(s.(phase := Flushing))
  {
  }

  /** The final sweep queues everything that is not settled. */
  lemma FinalDraining(cfg: Config, s: State, keys: seq<File>)
    requires Consistent(s) && Accounted(s) && Draining(s) && s.phase.Flushing? && Enumerates(keys, s.cache.tree)
    requires Consistent(Finished(cfg, true, s, keys))
    requires Accounted(Finished(cfg, true, s, keys))
    ensures Draining(Finished(cfg, true, s, keys))
  {
    var s' := Finished(cfg, true, s, keys);
    SweepLosesNothing(cfg, s.cache, keys, s.clock, -1, false);
    forall l {:trigger Settled(s', l)} | 0 <= l < |s'.marked| && s'.lives[l].end.Alive?
      ensures Settled(s', l) || s'.lives[l].file in s'.cache.queue
    {
      assert AccountedLife(s', l);
      var f := s'.lives[l].file;
      assert f in s'.current && f in s.cache.tree;
      if s'.cache.tree[f].values != [] {
        assert Due(s.cache.tree[f], Timeout(cfg, s.clock, -1), false);
      }
    }
  }

  /** A batch settles its lifetime, and unsettles no other. */
  lemma TakenSettles(s: State, s': State, l: nat)
    requires Consistent(s) && Accounted(s) && Draining(s) && s.cache.queue != []
    requires var f := s.cache.queue[0];
             s'.dequeued == s.dequeued + [Batch(f, s.current[f], s.cache.tree[f].values)]
    requires s'.marked == s.marked && l < |s.marked| && s.lives[l].end.Alive?
    ensures Settled(s, l) ==> Settled(s', l)
    ensures s.lives[l].file == s.cache.queue[0] ==> Settled(s', l)
  {
    TakenOfGrows(s.dequeued, s'.dequeued[|s.dequeued|], l);
    assert AccountedLife(s, l);
  }

  lemma TakenDraining(s: State, w: nat, flushTime: int)
    requires Consistent(s) && Accounted(s) && Draining(s)
    requires s.cache.queue != [] && w < |s.workers| && s.workers[w].Idle?
    ensures Draining(Taken(s, w, flushTime))
  {
    var s' := Taken(s, w, flushTime);
    assert NoneLeft(s.workers) ==> NoneLeft(s'.workers);
    forall l {:trigger Settled(s', l)} | 0 <= l < |s'.marked| && s'.lives[l].end.Alive?
      ensures Settled(s', l) || (s'.lives[l].file in s'.cache.queue && NoneLeft(s'.workers))
    {
      TakenSettles(s, s', l);
      assert Settled(s, l) ==> Settled(s', l);
      if s.lives[l].file != s.cache.queue[0] {
        assert s.lives[l].file in s.cache.queue ==> s.lives[l].file in s.cache.queue[1..];
      }
    }
  }

  lemma ExitDraining(s: State, w: nat)
    requires Consistent(s) && Draining(s) && s.phase.Shutdown? && w < |s.workers| && s.cache.queue == []
    ensures Draining(s.(workers := s.workers[w := Exited]))
  {
    var s' := s.(workers := s.workers[w := Exited]);
    forall l {:trigger Settled(s', l)} | 0 <= l < |s'.marked| && s'.lives[l].end.Alive?
      ensures Settled(s', l)
    {
      assert Settled(s, l);
    }
  }

  lemma StepDrains(cfg: Config, s: State, e: Event)
    requires Consistent(s) && Accounted(s) && Draining(s) && Enabled(cfg, true, s, e)
    ensures Draining(Next(cfg, true, s, e))
  {
    match e
    case UpdateKnown(file, fields, now) => UpdatedDraining(cfg, s, file, fields, now);
    case UpdateRelocked(_, _) => RelockDraining(cfg, s, e);
    case FlushFile(file) => FlushDraining(s, file);
    case ForgetFile(file) =>
      if file in s.cache.tree {
        ForgetDraining(s, file);
      }
    case FlushAll(keys) => SweepDraining(cfg, s, keys, -1);
    case FlushOld(keys) => SweepDraining(cfg, s, keys, cfg.writeInterval);
    case Signal => SignalDraining(cfg, s);
    case FinalSweep(keys) =>
      FinishedKeeps(cfg, true, s, keys);
      FinalDraining(cfg, s, keys);
    case Dequeue(w, j) => TakenDraining(s, w, s.clock + j);
    case Exit(w) => ExitDraining(s, w);
    case _ => FramedDraining(cfg, s, e);
  }

  // ----- runs

  /** One event takes `s` to `s'`. */
  ghost predicate Step(cfg: Config, flushAtExit: bool, s: State, e: Event, s': State) {
    Enabled(cfg, flushAtExit, s, e) && (Consistent(s) ==> s' == Next(cfg, flushAtExit, s, e))
  }

  ghost predicate IsRun(cfg: Config, flushAtExit: bool, threads: nat, clock: int, es: seq<Event>, states: seq<State>) {
    && |states| == |es| + 1
    && states[0] == Start(threads, clock)
    && forall i :: 0 <= i < |es| ==> Step(cfg, flushAtExit, states[i], es[i], states[i + 1])
  }

  ghost predicate Invariant(cfg: Config, s: State) {
    Consistent(s) && Accounted(s) && Conserved(s) && Timely(cfg, s)
  }

  lemma StartInvariant(cfg: Config, threads: nat, clock: int)
    ensures Invariant(cfg, Start(threads, clock)) && Draining(Start(threads, clock))
  {
    var s := Start(threads, clock);
    forall b
      ensures Writers(s.workers, b) == 0
    {
      NoWriters(s.workers, b);
    }
  }

  /** In every interleaving, at every moment and for every stay of a file in the
      tree: the values accepted are the batches in dequeue order followed by the
      pending ones, with strictly rising stamps; the tree and the queue agree; and
      each batch taken is being written or was written, exactly once. */
  lemma {:induction false} EveryRunIsAccounted(cfg: Config, flushAtExit: bool, threads: nat, clock: int,
                                               es: seq<Event>, states: seq<State>, n: nat)
    requires IsRun(cfg, flushAtExit, threads, clock, es, states) && n < |states|
    ensures Invariant(cfg, states[n])
  {
    StartInvariant(cfg, threads, clock);
    if n > 0 {
      EveryRunIsAccounted(cfg, flushAtExit, threads, clock, es, states, n - 1);
      assert Step(cfg, flushAtExit, states[n - 1], es[n - 1], states[n]);
      StepKeepsAccounts(cfg, flushAtExit, states[n - 1], es[n - 1]);
      StepConserves(cfg, flushAtExit, states[n - 1], es[n - 1]);
      StepTimely(cfg, flushAtExit, states[n - 1], es[n - 1]);
    }
  }

  lemma ForgottenStep(cfg: Config, flushAtExit: bool, s: State, e: Event, l: nat)
    requires Consistent(s) && Enabled(cfg, flushAtExit, s, e)
    requires var s' := Next(cfg, flushAtExit, s, e); l < |s'.lives| && s'.lives[l].end.Forgotten?
    ensures var file := Next(cfg, flushAtExit, s, e).lives[l].file;
            || e == ForgetFile(file)
            || (l < |s.lives| && s.lives[l].end.Forgotten? && s.lives[l].file == file)
  {
    if !e.ForgetFile? {
      EndsKept(cfg, flushAtExit, s, e, l);
    }
  }

  lemma EndsKept(cfg: Config, flushAtExit: bool, s: State, e: Event, l: nat)
    requires Consistent(s) && Enabled(cfg, flushAtExit, s, e) && !e.ForgetFile?
    requires var s' := Next(cfg, flushAtExit, s, e); l < |s'.lives| && s'.lives[l].end.Forgotten?
    ensures l < |s.lives| && s.lives[l].end.Forgotten? && s.lives[l].file == Next(cfg, flushAtExit, s, e).lives[l].file
  {
    if Quiet(e) {
      QuietStep(cfg, flushAtExit, s, e);
    }
  }

  /** Values that were accepted and never handed to a writer are pending, unless
      a FORGET named their file. */
  lemma {:induction false} OnlyForgetDiscards(cfg: Config, flushAtExit: bool, threads: nat, clock: int,
                                              es: seq<Event>, states: seq<State>, n: nat, l: nat)
    requires IsRun(cfg, flushAtExit, threads, clock, es, states) && n < |states| && l < |states[n].lives|
    requires forall i :: 0 <= i < n ==> es[i] != ForgetFile(states[n].lives[l].file)
    ensures var s := states[n];
            var life := s.lives[l];
            life.accepted == TakenOf(s.dequeued, l)
                             + if life.end.Alive? then Held(s.cache.tree, life.file).values else []
  {
    EveryRunIsAccounted(cfg, flushAtExit, threads, clock, es, states, n);
    assert AccountedLife(states[n], l);
    if states[n].lives[l].end.Forgotten? {
      var i := FindForget(cfg, flushAtExit, threads, clock, es, states, n, l);
    }
  }

  lemma {:induction false} FindForget(cfg: Config, flushAtExit: bool, threads: nat, clock: int,
                                      es: seq<Event>, states: seq<State>, n: nat, l: nat) returns (i: nat)
    requires IsRun(cfg, flushAtExit, threads, clock, es, states) && n < |states|
    requires l < |states[n].lives| && states[n].lives[l].end.Forgotten?
    ensures i < n && es[i] == ForgetFile(states[n].lives[l].file)
  {
    if n > 0 {
      i := n - 1;
      EveryRunIsAccounted(cfg, flushAtExit, threads, clock, es, states, i);
      assert Step(cfg, flushAtExit, states[i], es[i], states[n]);
      ForgottenStep(cfg, flushAtExit, states[i], es[i], l);
      if es[i] != ForgetFile(states[n].lives[l].file) {
        i := FindForget(cfg, flushAtExit, threads, clock, es, states, n - 1, l);
      }
    }
  }

  lemma {:induction false} EveryRunDrains(cfg: Config, threads: nat, clock: int,
                                          es: seq<Event>, states: seq<State>, n: nat)
    requires IsRun(cfg, true, threads, clock, es, states) && n < |states|
    ensures Draining(states[n])
  {
    StartInvariant(cfg, threads, clock);
    if n > 0 {
      EveryRunDrains(cfg, threads, clock, es, states, n - 1);
      EveryRunIsAccounted(cfg, true, threads, clock, es, states, n - 1);
      assert Step(cfg, true, states[n - 1], es[n - 1], states[n]);
      StepDrains(cfg, states[n - 1], es[n - 1]);
    }
  }

  lemma {:induction false} TakenOfMember(dequeued: seq<Batch>, l: nat, x: Sample) returns (b: Batch)
    requires x in TakenOf(dequeued, l)
    ensures b in dequeued && b.life == l && x in b.values
  {
    var last := dequeued[|dequeued| - 1];
    if last.life == l && x in last.values {
      b := last;
    } else {
      b := TakenOfMember(dequeued[..|dequeued| - 1], l, x);
    }
  }

  /** Lifetimes only grow. */
  ghost predicate Grown(s: State, s': State) {
    && |s.lives| <= |s'.lives|
    && forall l {:trigger s'.lives[l]} :: 0 <= l < |s.lives| ==> s.lives[l].accepted <= s'.lives[l].accepted
  }

  lemma StepGrows(cfg: Config, s: State, e: Event)
    requires Consistent(s) && Enabled(cfg, true, s, e)
    ensures Grown(s, Next(cfg, true, s, e))
  {
  }

  lemma MarksStay(cfg: Config, s: State, e: Event)
    requires Consistent(s) && Enabled(cfg, true, s, e) && s.phase.Shutdown?
    ensures Next(cfg, true, s, e).marked == s.marked && Next(cfg, true, s, e).phase.Shutdown?
  {
  }

  /** After the final sweep at step `k` the marks say what had been accepted by then. */
  lemma {:induction false} MarksOfFinalSweep(cfg: Config, threads: nat, clock: int,
                                             es: seq<Event>, states: seq<State>, k: nat, n: nat)
    requires IsRun(cfg, true, threads, clock, es, states) && k < n < |states| && es[k].FinalSweep?
    ensures states[n].phase.Shutdown? && Grown(states[k], states[n])
    ensures |states[n].marked| == |states[k].lives|
    ensures forall l :: 0 <= l < |states[k].lives| ==> states[n].marked[l] == |states[k].lives[l].accepted|
  {
    EveryRunIsAccounted(cfg, true, threads, clock, es, states, n - 1);
    assert Step(cfg, true, states[n - 1], es[n - 1], states[n]);
    StepGrows(cfg, states[n - 1], es[n - 1]);
    if n - 1 > k {
      MarksOfFinalSweep(cfg, threads, clock, es, states, k, n - 1);
      MarksStay(cfg, states[n - 1], es[n - 1]);
    }
  }

  /** At shutdown with `flush_at_shutdown` set, once every queue thread has left:
      each value accepted before the final sweep was passed to `rrd_update_r`,
      unless it was pending when a FORGET dropped it. */
  lemma FlushedAtShutdown(cfg: Config, threads: nat, clock: int, es: seq<Event>, states: seq<State>,
                          k: nat, l: nat, i: nat)
    requires IsRun(cfg, true, threads, clock, es, states) && k < |es| && es[k].FinalSweep?
    requires l < |states[k].lives| && i < |states[k].lives[l].accepted|
    requires var s := states[|es|]; s.workers != [] && forall w :: w in s.workers ==> w.Exited?
    ensures var s := states[|es|];
            && l < |s.lives|
            && ((exists b :: b in s.written && b.life == l && states[k].lives[l].accepted[i] in b.values)
                || (s.lives[l].end.Forgotten? && i >= |s.lives[l].accepted| - |s.lives[l].end.lost|))
  {
    var s := states[|es|];
    EveryRunIsAccounted(cfg, true, threads, clock, es, states, |es|);
    EveryRunDrains(cfg, threads, clock, es, states, |es|);
    MarksOfFinalSweep(cfg, threads, clock, es, states, k, |es|);
    assert AccountedLife(s, l);
    var taken := TakenOf(s.dequeued, l);
    if s.lives[l].end.Alive? {
      assert s.workers[0].Exited?;
      assert Settled(s, l);
    }
    if i < |taken| {
      assert states[k].lives[l].accepted[i] == s.lives[l].accepted[i] == taken[i];
      var b := TakenOfMember(s.dequeued, l, taken[i]);
      NoWriters(s.workers, b);
      assert multiset(s.dequeued)[b] > 0;
      assert b in multiset(s.written);
    }
  }
}
