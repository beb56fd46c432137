/**
 Histories of a counter store: the order in which the critical sections of
 counter.go take the lock, written as a sequence of atomic steps and
 replayed from an initialised, empty store. This is where the promises
 that span many calls are stated: what the table holds after any history,
 that a flush loses no increment, and that the flusher starts at most once.
 */
module History {
  import opened Int64
  import opened Counter

  /** One critical section, as a caller or the flusher takes the lock. */
  datatype Step =
    | Increment(key: string, delta: int64) // Incr
    | ResetAll                             // Reset
    | Flush(ok: bool)                      // a flush cycle whose reset is inside the callback's critical section
    | Callback(ok: bool)                   // the callback's critical section alone; the reset that follows is a separate ResetAll
    | Start                                // Flush2Broker

  /** The store's table; the tables as they stood while each successful
      callback held the lock, in order (the Go callback takes no argument,
      but this is the data it can flush); and the start guard with the
      number of launches. */
  datatype World = World(
    store: map<string, int64>,
    delivered: seq<map<string, int64>>,
    started: bool,
    launches: nat)

  const Initial: World := World(map[], [], false, 0)

  /** The effect of one atomic step. Only a successful callback adds
      to what is flushed, and then exactly the current table; a failed cycle
      changes nothing; only Start touches the guard, and it launches only
      when nothing was launched before. */
  function Apply(w: World, s: Step): (r: World)
    ensures r.delivered == w.delivered + (if s == Flush(true) || s == Callback(true) then [w.store] else [])
    ensures s == Flush(false) || s == Callback(false) ==> r == w
    ensures Clears(s) ==> r.store == map[]
    ensures !s.Start? ==> r.started == w.started && r.launches == w.launches
    ensures s.Start? ==> r.started && r.launches == if w.started then w.launches else w.launches + 1
  {
    match s
    case Increment(k, d) => w.(store := Bump(w.store, k, d))
    case ResetAll => w.(store := map[])
    case Flush(ok) => if ok then w.(store := map[], delivered := w.delivered + [w.store]) else w
    case Callback(ok) => if ok then w.(delivered := w.delivered + [w.store]) else w
    case Start => if w.started then w else w.(started := true, launches := w.launches + 1)
  }

  function Run(t: seq<Step>): World
  {
    if t == [] then Initial else Apply(Run(t[..|t| - 1]), t[|t| - 1])
  }

  /** Steps after which the table is empty whatever it held. */
  predicate Clears(s: Step)
  {
    s == ResetAll || s == Flush(true)
  }

  /** The steps after the last clearing step of `t`. */
  function SinceClear(t: seq<Step>): (u: seq<Step>)
    ensures forall i :: 0 <= i < |u| ==> !Clears(u[i])
  {
    if t == [] then []
    else if Clears(t[|t| - 1]) then []
    else SinceClear(t[..|t| - 1]) + [t[|t| - 1]]
  }

  /** Whether `t` increments `key` at least once. */
  predicate Touched(t: seq<Step>, key: string)
  {
    t != [] && (Touched(t[..|t| - 1], key) || (t[|t| - 1].Increment? && t[|t| - 1].key == key))
  }

  /** The exact (unwrapped) sum of the deltas that `t` adds to `key`. */
  function Deltas(t: seq<Step>, key: string): int
  {
    if t == [] then 0
    else
      var s := t[|t| - 1];
      Deltas(t[..|t| - 1], key) + (if s.Increment? && s.key == key then s.delta as int else 0)
  }

  /** The exact sum of `key`'s values over a sequence of snapshots. */
  function Delivered(ds: seq<map<string, int64>>, key: string): int
  {
    if ds == [] then 0 else Delivered(ds[..|ds| - 1], key) + ValueOr0(ds[|ds| - 1], key) as int
  }

  lemma {:induction false} UntouchedSumsToZero(t: seq<Step>, key: string)
    requires !Touched(t, key)
    ensures Deltas(t, key) == 0
  {
    if t != [] {
      UntouchedSumsToZero(t[..|t| - 1], key);
    }
  }

  /** The table invariant of the store: after any history, a key is present
      exactly when it was incremented since the last reset or successful
      flush, and it then holds the sum of those increments, wrapped to
      int64. In particular ten increments by 1 from an empty store give
      10, and an increment by 0 makes a key present. */
  lemma {:induction false} StoreIsSumSinceClear(t: seq<Step>, key: string)
    ensures key in Run(t).store <==> Touched(SinceClear(t), key)
    ensures key in Run(t).store ==> Run(t).store[key] == Wrap(Deltas(SinceClear(t), key))
  {
    if t != [] {
      var f, s := t[..|t| - 1], t[|t| - 1];
      StoreIsSumSinceClear(f, key);
      if !Clears(s) {
        var u := SinceClear(f);
        assert SinceClear(t) == u + [s];
        AppendStep(u, s, key);
        StepOnKey(Run(f), s, u, key);
      }
    }
  }

  /** What one more step adds to Touched and Deltas. */
  lemma AppendStep(u: seq<Step>, s: Step, key: string)
    ensures Touched(u + [s], key) <==> Touched(u, key) || (s.Increment? && s.key == key)
    ensures Deltas(u + [s], key) == Deltas(u, key) + (if s.Increment? && s.key == key then s.delta as int else 0)
  {
  }

  /** One non-clearing step keeps the table invariant for `key`. */
  lemma {:induction false} StepOnKey(w: World, s: Step, u: seq<Step>, key: string)
    requires !Clears(s)
    requires key in w.store <==> Touched(u, key)
    requires key in w.store ==> w.store[key] == Wrap(Deltas(u, key))
    ensures key in Apply(w, s).store <==> Touched(u, key) || (s.Increment? && s.key == key)
    ensures key in Apply(w, s).store ==>
      Apply(w, s).store[key] == Wrap(Deltas(u, key) + (if s.Increment? && s.key == key then s.delta as int else 0))
  {
    if s.Increment? && s.key == key {
      IncrementOnKey(w.store, u, key, s.delta);
    } else if s.Increment? {
      var m' := Bump(w.store, s.key, s.delta);
      assert key in m' <==> key in w.store;
      assert key in w.store ==> m'[key] == w.store[key];
    } else {
      assert Apply(w, s).store == w.store;
    }
  }

  /** An increment of `key` keeps the table invariant for `key`. */
  lemma {:induction false} IncrementOnKey(m: map<string, int64>, u: seq<Step>, key: string, x: int64)
    requires key in m <==> Touched(u, key)
    requires key in m ==> m[key] == Wrap(Deltas(u, key))
    ensures Bump(m, key, x)[key] == Wrap(Deltas(u, key) + x as int)
  {
    if key !in m {
      UntouchedSumsToZero(u, key);
    }
    assert Bump(m, key, x)[key] == Wrap(ValueOr0(m, key) as int + x as int);
  }

  /** No history of increments, flush cycles and starts loses an increment:
      for every key, the tables seen by the callbacks that succeeded plus
      what the table still holds equal the sum of all increments (modulo
      2^64, as Go's int64 wraps). A failed cycle counts nothing as flushed
      and keeps the counts for the next one. */
  lemma {:induction false} FlushLosesNothing(t: seq<Step>, key: string)
    requires forall i :: 0 <= i < |t| ==> t[i].Increment? || t[i].Flush? || t[i].Start?
    ensures Conserved(Run(t), Deltas(t, key), key)
  {
    if t != [] {
      var f, s := t[..|t| - 1], t[|t| - 1];
      assert forall i :: 0 <= i < |f| ==> f[i] == t[i];
      FlushLosesNothing(f, key);
      StepConserves(Run(f), s, Deltas(f, key), key);
    }
  }

  /** For `key`, an exact total of increments is what was flushed plus what
      is held, modulo 2^64. */
  predicate Conserved(w: World, total: int, key: string)
  {
    Wrap(total) == Wrap(Delivered(w.delivered, key) + ValueOr0(w.store, key) as int)
  }

  /** One increment, flush cycle or start keeps "flushed plus held equals
      incremented" for `key`. */
  lemma StepConserves(w: World, s: Step, total: int, key: string)
    requires s.Increment? || s.Flush? || s.Start?
    requires Conserved(w, total, key)
    ensures Conserved(Apply(w, s), total + (if s.Increment? && s.key == key then s.delta as int else 0), key)
  {
    match s
    case Increment(k, x) =>
      IncrementStepConserves(w, k, x, total, key);
    case Flush(ok) =>
      FlushStepConserves(w, ok, total, key);
    case Start =>
  }

  lemma IncrementStepConserves(w: World, k: string, x: int64, total: int, key: string)
    requires Conserved(w, total, key)
    ensures Conserved(w.(store := Bump(w.store, k, x)), total + (if k == key then x as int else 0), key)
  {
    var held, held' := ValueOr0(w.store, key), ValueOr0(Bump(w.store, k, x), key);
    if k == key {
      assert held' == Add(held, x) == Wrap(held as int + x as int);
      IncrementConserves(total, Delivered(w.delivered, key), held as int, x as int);
    } else {
      assert held' == held;
    }
  }

  lemma FlushStepConserves(w: World, ok: bool, total: int, key: string)
    requires Conserved(w, total, key)
    ensures Conserved(Apply(w, Flush(ok)), total, key)
  {
    if ok {
      assert (w.delivered + [w.store])[..|w.delivered|] == w.delivered;
    }
  }

  /** Adding `x` to both the incremented total and the held value, the
      latter with Go's wrapping `+`, keeps the two congruent. */
  lemma IncrementConserves(total: int, d: int, v: int, x: int)
    requires Wrap(total) == Wrap(d + v)
    ensures Wrap(total + x) == Wrap(d + Wrap(v + x) as int)
  {
    calc {
      Wrap(total + x);
      { WrapPlus(total, x); }
      Wrap(Wrap(total) as int + x);
      { WrapPlus(d + v, x); }
      Wrap(d + v + x);
      { WrapPlus(v + x, d); }
      Wrap(Wrap(v + x) as int + d);
    }
  }

  /** The start guard: whatever the history, the flusher has been launched
      once if Flush2Broker was called at all, and never otherwise. */
  lemma {:induction false} LaunchedAtMostOnce(t: seq<Step>)
    ensures Run(t).started <==> Start in t
    ensures Run(t).launches == if Start in t then 1 else 0
  {
    if t != [] {
      var f := t[..|t| - 1];
      LaunchedAtMostOnce(f);
      assert t == f + [t[|t| - 1]];
      assert Start in t <==> Start in f || t[|t| - 1] == Start;
    }
  }

  /** Running one more step is applying it to the result so far. */
  lemma RunSnoc(f: seq<Step>, s: Step)
    ensures Run(f + [s]) == Apply(Run(f), s)
  {
    assert (f + [s])[..|f|] == f;
  }

  /** Reset is idempotent: a second Reset right after one changes nothing. */
  lemma ResetIdempotent(t: seq<Step>)
    ensures Run(t + [ResetAll, ResetAll]) == Run(t + [ResetAll])
    ensures Run(t + [ResetAll]).store == map[]
  {
    assert (t + [ResetAll, ResetAll])[..|t| + 1] == t + [ResetAll];
    assert (t + [ResetAll])[..|t|] == t;
  }

  /** Drives a Counter through a history of its own operations, one method
      call per step (a Flush step is one FlushCycle, a Start step one
      Flush2Broker call). It returns the tables as they stood while a
      successful callback held the lock, and how many Flush2Broker calls
      launched the flusher. The object ends in the state Run computes and
      the results are Run's, so the lemmas about Run are lemmas about
      Counter. */
  method Replay(c: Counter, t: seq<Step>) returns (ds: seq<map<string, int64>>, launches: nat)
    requires c.store == Some(map[]) && !c.started
    requires forall i :: 0 <= i < |t| ==> !t[i].Callback?
    modifies c
    ensures c.Initialized()
    ensures c.Counts() == Run(t).store && c.started == Run(t).started && ds == Run(t).delivered
    ensures launches == Run(t).launches
  {
    ds, launches := [], 0;
    for i := 0 to |t|
      invariant c.Initialized()
      invariant c.Counts() == Run(t[..i]).store && c.started == Run(t[..i]).started && ds == Run(t[..i]).delivered
      invariant launches == Run(t[..i]).launches
    {
      assert t[..i + 1][..i] == t[..i];
      match t[i] {
        case Increment(k, d) =>
          c.Incr(k, d);
        case ResetAll =>
          c.Reset();
        case Flush(ok) =>
          var snapshot := c.FlushCycle(ok);
          if ok {
            ds := ds + [snapshot];
          }
        case Callback(_) =>
          assert false;
        case Start =>
          var launched := c.Flush2Broker();
          if launched {
            launches := launches + 1;
          }
      }
    }
    assert t[..|t|] == t;
  }

  /** A flush cycle as counter.go writes it: the callback under the lock,
      the lock released, and then, on success, a separate Reset. */
  function CycleAsWritten(ok: bool): seq<Step>
  {
    if ok then [Callback(true), ResetAll] else [Callback(false)]
  }

  /** When nothing takes the lock between its two critical sections, the
      cycle as written has the effect of the atomic Flush cycle. */
  lemma CycleAsWrittenAloneIsFlush(t: seq<Step>, ok: bool)
    ensures Run(t + CycleAsWritten(ok)) == Run(t + [Flush(ok)])
  {
    assert (t + [Flush(ok)])[..|t|] == t;
    if ok {
      var t1 := t + [Callback(true)];
      assert (t + [Callback(true), ResetAll])[..|t| + 1] == t1;
      assert t1[..|t|] == t;
    } else {
      assert (t + [Callback(false)])[..|t|] == t;
    }
  }

  /** The history that loses an increment with the cycle as written: the
      flusher's callback succeeds on an empty table, a caller's Incr takes
      the lock before the flusher's Reset, and the Reset then discards it
      although no callback ever saw it. */
  lemma LostIncrementAsWritten()
    ensures var t := [Start, Callback(true), Increment("get.call", 1), ResetAll];
      && Deltas(t, "get.call") == 1
      && Delivered(Run(t).delivered, "get.call") == 0
      && "get.call" !in Run(t).store
      && Wrap(Deltas(t, "get.call")) != Wrap(Delivered(Run(t).delivered, "get.call") + ValueOr0(Run(t).store, "get.call") as int)
  {
    var t0: seq<Step> := [];
    var t1 := t0 + [Start];
    var t2 := t1 + [Callback(true)];
    var t3 := t2 + [Increment("get.call", 1)];
    var t4 := t3 + [ResetAll];
    assert t4 == [Start, Callback(true), Increment("get.call", 1), ResetAll];
    RunSnoc(t0, Start);
    RunSnoc(t1, Callback(true));
    RunSnoc(t2, Increment("get.call", 1));
    RunSnoc(t3, ResetAll);
    AppendStep(t0, Start, "get.call");
    AppendStep(t1, Callback(true), "get.call");
    AppendStep(t2, Increment("get.call", 1), "get.call");
    AppendStep(t3, ResetAll, "get.call");
    var none: seq<map<string, int64>> := [map[]];
    assert Run(t4).delivered == none;
    assert Delivered(none, "get.call") == 0 by {
      assert none[..0] == [];
    }
  }
}
