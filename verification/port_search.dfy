/**
  `startServerOnAvailablePort`: call `listen(port)`; when the server it returns reports
  EADDRINUSE, start over at `port + 1`; any other error, or a result that is not a server,
  ends the search and goes to `onerror` when that is a function and is thrown otherwise.
  An exception thrown by `listen` itself is not caught and propagates past `onerror`.
 */
module PortSearch {
  import opened JsValues

  /** What one call `listen(port)` leads to, as seen by the search. */
  datatype Attempt =
    | Listening               // a server that starts listening and emits no 'error'
    | ErrorEvent(code: string) // a server that emits 'error' with `err.code == code`
    | NotAServer              // a falsy result, or one without a `once` method
    | Throws(code: string)    // `listen(port)` throws synchronously, e.g. for a port outside 0-65535

  /** The errors the search can end with. */
  datatype Fault =
    | ListenFault(code: string)  // the server's own 'error', or the exception `listen` threw
    | InvalidListener            // TypeError('listen callback must return a net.Server')

  /** How a search ends: listening on a port, or with a fault handed to `onerror` or thrown. */
  datatype Ending = Bound(port: int) | Reported(fault: Fault) | Thrown(fault: Fault)

  /** The ports `listen` was called with, in call order, and how the search ended. */
  datatype Search = Search(attempts: seq<int>, ending: Ending)

  const AddressInUse := "EADDRINUSE"

  /** The one outcome that moves the search on to the next port. */
  predicate InUse(a: Attempt) {
    a.ErrorEvent? && a.code == AddressInUse
  }

  /** `handleError`: call `onerror(err)` when `onerror` is a function, otherwise throw `err`. */
  function HandleError(fault: Fault, onerror: JsValue): (e: Ending)
    ensures e.Reported? <==> onerror.Func?
    ensures !e.Bound? && e.fault == fault
  {
    if onerror.Func? then Reported(fault) else Thrown(fault)
  }

  /**
    How an attempt that does not move on ends the search: bound on the port, the error or the
    TypeError passed through `handleError`, or the exception `listen` threw, which bypasses it.
   */
  function Conclude(a: Attempt, port: int, onerror: JsValue): (e: Ending)
    requires !InUse(a)
    ensures e.Bound? <==> a == Listening
    ensures e.Bound? ==> e.port == port
    ensures a.ErrorEvent? ==> e.fault == ListenFault(a.code) && (e.Reported? <==> onerror.Func?)
    ensures a == NotAServer ==> e.fault == InvalidListener && (e.Reported? <==> onerror.Func?)
    ensures a.Throws? ==> e.Thrown? && e.fault == ListenFault(a.code)
  {
    match a
    case Listening => Bound(port)
    case ErrorEvent(code) => HandleError(ListenFault(code), onerror)
    case NotAServer => HandleError(InvalidListener, onerror)
    case Throws(code) => Thrown(ListenFault(code))
  }

  /**
    `startServerOnAvailablePort(port, listen, onerror)`. The source puts no bound on the
    ports it tries; `stop`, a port at or above `port` that is not in use, is a proof device
    that makes the search finite and has no effect on its result.
   */
  function StartServerOnAvailablePort(port: int, listen: int -> Attempt, onerror: JsValue, ghost stop: int): (s: Search)
    requires port <= stop && !InUse(listen(stop))
    ensures |s.attempts| >= 1
    ensures forall i :: 0 <= i < |s.attempts| ==> s.attempts[i] == port + i
    ensures forall i :: 0 <= i < |s.attempts| - 1 ==> InUse(listen(s.attempts[i]))
    ensures var last := s.attempts[|s.attempts| - 1];
      && last <= stop
      && !InUse(listen(last))
      && s.ending == Conclude(listen(last), last, onerror)
    decreases stop - port
  {
    if InUse(listen(port)) then
      var rest := StartServerOnAvailablePort(port + 1, listen, onerror, stop);
      Search([port] + rest.attempts, rest.ending)
    else
      Search([port], Conclude(listen(port), port, onerror))
  }

  /**
    If ports `start .. start + n - 1` are in use and `start + n` listens, exactly the ports
    `start, start + 1, ..., start + n` are tried, in that order, and the server is bound at `start + n`.
   */
  lemma ConsecutiveInUse(start: int, n: nat, listen: int -> Attempt, onerror: JsValue)
    requires forall p :: start <= p < start + n ==> InUse(listen(p))
    requires listen(start + n) == Listening
    ensures var s := StartServerOnAvailablePort(start, listen, onerror, start + n);
      && s.attempts == seq(n + 1, i => start + i)
      && s.ending == Bound(start + n)
  {
    var s := StartServerOnAvailablePort(start, listen, onerror, start + n);
    var m := |s.attempts| - 1;
    assert s.attempts[m] == start + m;
    if m < n {
      assert false;
    }
    if m > n {
      assert false;
    }
    assert s.attempts == seq(n + 1, i => start + i);
  }

  /** An attempt that is not EADDRINUSE is the only one: no port after it is tried. */
  lemma NoRetryAfterOtherOutcome(port: int, listen: int -> Attempt, onerror: JsValue)
    requires !InUse(listen(port))
    ensures StartServerOnAvailablePort(port, listen, onerror, port) == Search([port], Conclude(listen(port), port, onerror))
  {
  }

  /** A result of `listen` that is not a server ends the search with the TypeError, reported or thrown. */
  lemma InvalidListenerEndsSearch(port: int, listen: int -> Attempt, onerror: JsValue)
    requires listen(port) == NotAServer
    ensures var s := StartServerOnAvailablePort(port, listen, onerror, port);
      && s.attempts == [port]
      && (onerror.Func? ==> s.ending == Reported(InvalidListener))
      && (!onerror.Func? ==> s.ending == Thrown(InvalidListener))
  {
  }

  /**
    An exception thrown by `listen` ends the search at that port and escapes even when
    `onerror` is a function: it is never reported.
   */
  lemma ThrowBypassesOnerror(port: int, n: nat, listen: int -> Attempt, onerror: JsValue)
    requires forall p :: port <= p < port + n ==> InUse(listen(p))
    requires listen(port + n).Throws?
    ensures var s := StartServerOnAvailablePort(port, listen, onerror, port + n);
      && |s.attempts| == n + 1
      && s.ending == Thrown(ListenFault(listen(port + n).code))
  {
    var s := StartServerOnAvailablePort(port, listen, onerror, port + n);
    var m := |s.attempts| - 1;
    assert s.attempts[m] == port + m;
    if m < n {
      assert false;
    }
  }

  /** The proof bound `stop` does not influence the search. */
  lemma {:induction false} StopIrrelevant(port: int, listen: int -> Attempt, onerror: JsValue, stop1: int, stop2: int)
    requires port <= stop1 && !InUse(listen(stop1))
    requires port <= stop2 && !InUse(listen(stop2))
    ensures StartServerOnAvailablePort(port, listen, onerror, stop1) == StartServerOnAvailablePort(port, listen, onerror, stop2)
    decreases stop1 - port
  {
    if InUse(listen(port)) {
      StopIrrelevant(port + 1, listen, onerror, stop1, stop2);
    }
  }

  /** There is no ceiling on the ports tried: for any `n`, some run tries `n + 1` ports. */
  lemma NoUpperBound(start: int, n: nat, onerror: JsValue)
    ensures var listen := (q: int) => if q < start + n then ErrorEvent(AddressInUse) else Listening;
      |StartServerOnAvailablePort(start, listen, onerror, start + n).attempts| == n + 1
  {
    var listen := (q: int) => if q < start + n then ErrorEvent(AddressInUse) else Listening;
    forall p | start <= p < start + n
      ensures InUse(listen(p))
    {
      assert listen(p) == ErrorEvent(AddressInUse);
    }
    ConsecutiveInUse(start, n, listen, onerror);
  }
}
