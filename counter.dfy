/**
 The counter store of counter.go: a table of named int64 accumulators that
 callers increment, read and reset, plus the start guard of the background
 flusher. Each method is taken as a single atomic step; the read-write
 lock is not modelled. Get, Incr and Reset are one locked section each;
 Init takes no lock; Flush2Broker is guarded by `once`; FlushCycle joins
 the flusher's two locked sections (the callback, then a Reset that locks
 again) into one.
 */
module Counter {
  import opened Int64

  datatype Option<T> = None | Some(value: T)

  /** The only error the store itself reports. */
  datatype Error = NotFound

  /** The value a key counts as when it is absent: Go's zero value. */
  function ValueOr0(m: map<string, int64>, key: string): int64
  {
    if key in m then m[key] else 0
  }

  /** The table after adding `delta` to `key` with Go's wrapping `+`,
      an absent key starting from 0. */
  function Bump(m: map<string, int64>, key: string, delta: int64): (r: map<string, int64>)
    ensures r.Keys == m.Keys + {key}
    ensures r[key] == Add(ValueOr0(m, key), delta)
    ensures forall k :: k in m && k != key ==> r[k] == m[k]
  {
    m[key := Add(ValueOr0(m, key), delta)]
  }

  class Counter {
    /** The Go `store` map; `None` is a nil map, which reads as empty and
        panics on write. */
    var store: Option<map<string, int64>>
    /** Whether `once.Do` has run, i.e. the flusher has been launched. */
    var started: bool

    /** The table as a reader sees it: a nil map has no keys. */
    function Counts(): map<string, int64>
      reads this
    {
      if store.Some? then store.value else map[]
    }

    predicate Initialized()
      reads this
    {
      store.Some?
    }

    /** NewCounter: the zero Counter, with a nil map and no flusher. */
    constructor ()
      ensures store == None && !started
      ensures Counts() == map[]
    {
      store := None;
      started := false;
    }

    /** Init installs an empty map; it never fails. */
    method Init() returns (err: Option<Error>)
      modifies this
      ensures err == None
      ensures store == Some(map[]) && Initialized()
      ensures started == old(started)
    {
      store := Some(map[]);
      err := None;
    }

    /** Get reports the stored value, or 0 with NotFound for an absent key;
        a key present with value 0 is found. */
    method Get(key: string) returns (val: int64, err: Option<Error>)
      ensures err == None <==> key in Counts()
      ensures err == None ==> val == Counts()[key]
      ensures err != None ==> err == Some(NotFound) && val == 0
    {
      var m := Counts();
      if key !in m {
        return 0, Some(NotFound);
      }
      return m[key], None;
    }

    /** Incr adds `value` to `key`'s accumulator, an absent key counting as
        0; writing into a nil map is a Go panic, so the store must be
        initialised. */
    method Incr(key: string, value: int64)
      requires Initialized()
      modifies this
      ensures Initialized() && Counts() == Bump(old(Counts()), key, value)
      ensures key in Counts() && Counts()[key] == Add(ValueOr0(old(Counts()), key), value)
      ensures forall k :: k != key ==> (k in Counts() <==> k in old(Counts()))
      ensures forall k :: k != key && k in old(Counts()) ==> Counts()[k] == old(Counts())[k]
      ensures started == old(started)
    {
      var cur := ValueOr0(store.value, key);
      store := Some(store.value[key := Add(cur, value)]);
    }

    /** Reset replaces the whole table with an empty one. */
    method Reset()
      modifies this
      ensures store == Some(map[]) && Counts() == map[]
      ensures started == old(started)
    {
      store := Some(map[]);
    }

    /** One iteration of the flusher, with the callback and the reset taken
        as one atomic step: `snapshot` is the table as it stands while the
        callback holds the lock; `callbackOk` is whether it returned nil. On success
        the table is reset, on failure it is left exactly as it was. */
    method FlushCycle(callbackOk: bool) returns (snapshot: map<string, int64>)
      modifies this
      ensures snapshot == old(Counts())
      ensures callbackOk ==> store == Some(map[]) && Counts() == map[]
      ensures !callbackOk ==> store == old(store)
      ensures started == old(started)
    {
      snapshot := Counts();
      if callbackOk {
        Reset();
      }
    }

    /** Flush2Broker: `once.Do` launches the flusher on the first call
        only; later calls change nothing. */
    method Flush2Broker() returns (launched: bool)
      modifies this
      ensures launched <==> !old(started)
      ensures started
      ensures store == old(store)
    {
      launched := !started;
      started := true;
    }
  }
}
