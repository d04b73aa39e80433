/**
 * The kernel side of a connected stream socket, reduced to its contract: it accepts some prefix of
 * the bytes it is offered, asks the caller to come back later, or fails.
 */
module Sockets {
  import opened Common

  /** The kernel's choice for one system call: take up to `limit` bytes, EAGAIN, or a hard error. */
  datatype IoOutcome = Accept(limit: nat) | WouldBlock | Fail

  /** What the caller sees. */
  datatype IoResult = Moved(n: nat) | Again | Error {
    function Moved(): nat { if Moved? then n else 0 }
  }

  class Socket {
    var wire: Bytes      // every byte the kernel has taken, in order
    var finSent: bool    // the write side has been shut down

    constructor ()
      ensures wire == [] && !finSent
    {
      wire, finSent := [], false;
    }

    /** The result of offering `size` bytes; after `shutdown` every attempt fails with EPIPE. */
    function Result(outcome: IoOutcome, size: nat): (r: IoResult)
      reads this`finSent
      ensures r.Moved? ==> r.n <= size
    {
      if finSent then Error else ClampOutcome(outcome, size)
    }

    /** `write` of one region. */
    method Write(data: Bytes, outcome: IoOutcome) returns (result: IoResult)
      modifies this`wire
      ensures result == Result(outcome, |data|)
      ensures wire == old(wire) + data[..result.Moved()]
    {
      result := Result(outcome, |data|);
      wire := wire + data[..result.Moved()];
    }

    /** `writev` of two regions: the second is reached only when the first is exhausted. */
    method WriteV(first: Bytes, second: Bytes, outcome: IoOutcome) returns (result: IoResult)
      modifies this`wire
      ensures result == Result(outcome, |first| + |second|)
      ensures wire == old(wire) + (first + second)[..result.Moved()]
    {
      result := Write(first + second, outcome);
    }

    method ShutdownWrite()
      modifies this`finSent
      ensures finSent
    {
      finSent := true;
    }
  }

  function ClampOutcome(outcome: IoOutcome, size: nat): IoResult {
    match outcome
    case Accept(limit) => Moved(Min(limit, size))
    case WouldBlock => Again
    case Fail => Error
  }
}
