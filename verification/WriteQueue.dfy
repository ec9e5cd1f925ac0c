/**
 The bounded queue between the workers and the writer (threading/write_queue.py). Waiting for room or
 for a request is left to the caller: a call here is what happens when the wait ends.
 */
module WriteQueue {
  import opened Wrappers

  datatype QueueError = Full

  predicate HasRoom<T>(capacity: nat, requests: seq<T>) {
    capacity == 0 || |requests| < capacity
  }

  class Queue<T(==)> {
    const capacity: nat // 0: unbounded
    var requests: seq<T>
    var totalWrites: nat
    var failedWrites: nat
    var stopped: bool

    ghost predicate Valid()
      reads this
    {
      (capacity > 0 ==> |requests| <= capacity) && failedWrites <= totalWrites
    }

    constructor (maxQueueSize: nat)
      ensures capacity == maxQueueSize && requests == [] && totalWrites == 0 && failedWrites == 0 && !stopped
      ensures Valid()
    {
      capacity, requests, totalWrites, failedWrites, stopped := maxQueueSize, [], 0, 0, false;
    }

    method PutWriteRequest(request: T) returns (r: Result<(), QueueError>)
      requires Valid()
      modifies this`requests
      ensures Valid()
      ensures HasRoom(capacity, old(requests)) ==> r == Ok(()) && requests == old(requests) + [request]
      ensures !HasRoom(capacity, old(requests)) ==> r == Err(Full) && requests == old(requests)
    {
      if capacity > 0 && |requests| >= capacity {
        return Err(Full);
      }
      requests := requests + [request];
      r := Ok(());
    }

    method GetNextRequest() returns (r: Option<T>)
      requires Valid()
      modifies this`requests
      ensures Valid()
      ensures stopped || old(requests) == [] ==> r == None && requests == old(requests)
      ensures !stopped && old(requests) != [] ==> r == Some(old(requests)[0]) && requests == old(requests)[1..]
    {
      if stopped {
        return None;
      }
      if requests == [] {
        r := None;
      } else {
        r, requests := Some(requests[0]), requests[1..];
      }
    }

    method MarkCompleted(success: bool)
      requires Valid()
      modifies this`totalWrites, this`failedWrites
      ensures Valid()
      ensures totalWrites == old(totalWrites) + 1
      ensures failedWrites == old(failedWrites) + (if success then 0 else 1)
    {
      totalWrites := totalWrites + 1;
      if !success {
        failedWrites := failedWrites + 1;
      }
    }

    method Shutdown()
      requires Valid()
      modifies this`stopped
      ensures Valid() && stopped
    {
      stopped := true;
    }
  }
}
