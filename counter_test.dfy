/**
 The scenario of counter_test.go, with its goroutines run one after the
 other: ten increments of "get.call" by 1 on a fresh, initialised store,
 then the flusher started and one cycle whose callback succeeds.
 */
module CounterTest {
  import opened Int64
  import opened Counter

  method TestCounter() returns (v: int64, err: Option<Error>, flushed: map<string, int64>, errAfter: Option<Error>)
    ensures v == 10 && err == None
    ensures flushed == map["get.call" := 10]
    ensures errAfter == Some(NotFound)
  {
    var ct := new Counter();
    var initErr := ct.Init();
    assert initErr == None;
    var i := 0;
    while i < 10
      invariant 0 <= i <= 10
      invariant ct.Initialized() && !ct.started
      invariant ct.Counts() == if i == 0 then map[] else map["get.call" := i as int64]
    {
      ct.Incr("get.call", 1);
      i := i + 1;
    }
    v, err := ct.Get("get.call");
    var launched := ct.Flush2Broker();
    assert launched;
    flushed := ct.FlushCycle(true);
    var _, e := ct.Get("get.call");
    errAfter := e;
  }
}
