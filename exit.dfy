/** The shutdown-listener registry: listeners run once when the process is
    asked to stop, and the process handlers that trigger them, installed once. */
module Exit {
  import opened Wrappers

  /** A listener function, identified the way a JavaScript `Set` compares
      functions: by reference. */
  type Listener = nat

  /** The process handlers installed on the first registration. */
  datatype Handler = OnceExit | OnceSigint | OnceSigterm | OnMessage

  /** What the process may deliver to those handlers. */
  datatype Event = ProcessExit(code: int) | Sigint | Sigterm | Message(text: string)

  const AllHandlers: set<Handler> := {OnceExit, OnceSigint, OnceSigterm, OnMessage}

  const SIGINT: int := 2
  const SIGTERM: int := 15
  /** The pseudo-signal of the process-manager `"shutdown"` message, so that
      the exit code `128 + signal` is 0. */
  const SHUTDOWN: int := -128

  predicate Distinct(ls: seq<Listener>) {
    forall i, j :: 0 <= i < j < |ls| ==> ls[i] != ls[j]
  }

  /** `Set.prototype.add` on an insertion-ordered set. */
  function Added(ls: seq<Listener>, fn: Listener): (r: seq<Listener>)
    ensures forall x :: x in r <==> x in ls || x == fn
    ensures |ls| <= |r| && r[..|ls|] == ls
    ensures Distinct(ls) ==> Distinct(r)
  {
    if fn in ls then ls else ls + [fn]
  }

  /** `Set.prototype.delete`. */
  function Deleted(ls: seq<Listener>, fn: Listener): (r: seq<Listener>)
    ensures forall x :: x in r <==> x in ls && x != fn
    ensures |r| <= |ls|
    ensures Distinct(ls) ==> Distinct(r)
  {
    if ls == [] then []
    else
      var rest := Deleted(ls[1..], fn);
      assert Distinct(ls) ==> ls[0] !in ls[1..] by {
        if Distinct(ls) {
          forall k | 0 <= k < |ls[1..]| ensures ls[1..][k] != ls[0] {
            assert ls[1..][k] == ls[k + 1];
          }
        }
      }
      (if ls[0] == fn then [] else [ls[0]]) + rest
  }

  /** No listener of `ls` throws or rejects, by `fails`, which tells for each
      listener whether awaiting its call throws. */
  predicate Completes(ls: seq<Listener>, fails: Listener -> bool) {
    forall x :: x in ls ==> !fails(x)
  }

  /** The listeners the `for…of` loop calls: all of them in order, or, when
      one throws, those up to and including the first that does; the throw
      leaves the loop and `exit` with it. */
  function Called(ls: seq<Listener>, fails: Listener -> bool): (r: seq<Listener>)
    ensures |r| <= |ls| && r == ls[..|r|]
    ensures Completes(ls, fails) <==> r == ls && Completes(r, fails)
    ensures !Completes(ls, fails) ==> r != [] && fails(r[|r| - 1]) && Completes(r[..|r| - 1], fails)
  {
    if ls == [] then []
    else if fails(ls[0]) then [ls[0]]
    else
      var rest := Called(ls[1..], fails);
      assert [ls[0]] + rest == ls[..|rest| + 1];
      assert !Completes(ls[1..], fails) ==> ([ls[0]] + rest)[..|rest|] == [ls[0]] + rest[..|rest| - 1];
      [ls[0]] + rest
  }

  /** The module state together with what it has done to the outside world:
      the listener calls made, in order, and the code `process.exit` got. */
  datatype State = State(
    listeners: seq<Listener>,
    isCalled: bool,
    isRegistered: bool,
    handlers: set<Handler>,
    invoked: seq<Listener>,
    exitCode: Option<int>)

  const Initial: State := State([], false, false, {}, [], None)

  /** The listener set is a set, only the four handlers exist, the message
      handler stays once installed, and nothing has run before `exit`. */
  predicate Inv(s: State) {
    && Distinct(s.listeners)
    && s.handlers <= AllHandlers
    && (s.isRegistered <==> OnMessage in s.handlers)
    && (!s.isCalled ==> s.invoked == [] && s.exitCode.None?)
  }

  /** `exit(exit, signal)`: `process.exit` is reached only when every
      listener returns. */
  function ExitSpec(s: State, exit: bool, signal: int, fails: Listener -> bool): State {
    if s.isCalled then s
    else s.(isCalled := true, invoked := s.invoked + Called(s.listeners, fails),
            exitCode := if exit && Completes(s.listeners, fails) then Some(128 + signal) else s.exitCode)
  }

  /** `addShutdownListener(fn)`. */
  function AddSpec(s: State, fn: Listener): State {
    s.(listeners := Added(s.listeners, fn), isRegistered := true,
       handlers := if s.isRegistered then s.handlers else AllHandlers)
  }

  /** The disposer `addShutdownListener(fn)` returned, called. */
  function DisposeSpec(s: State, fn: Listener): State {
    s.(listeners := Deleted(s.listeners, fn))
  }

  /** The process delivering an event to the installed handlers. A `once`
      handler is removed before it runs; the `"exit"` handler receives the
      numeric exit code as its `exit` argument, which is not `true`. */
  function DeliverSpec(s: State, ev: Event, fails: Listener -> bool): State {
    match ev
    case ProcessExit(code) =>
      if OnceExit in s.handlers then ExitSpec(s.(handlers := s.handlers - {OnceExit}), false, 0, fails) else s
    case Sigint =>
      if OnceSigint in s.handlers then ExitSpec(s.(handlers := s.handlers - {OnceSigint}), true, SIGINT, fails) else s
    case Sigterm =>
      if OnceSigterm in s.handlers then ExitSpec(s.(handlers := s.handlers - {OnceSigterm}), true, SIGTERM, fails) else s
    case Message(text) =>
      if OnMessage in s.handlers && text == "shutdown" then ExitSpec(s, true, SHUTDOWN, fails) else s
  }

  /** When the first `i` listeners return and the next throws, the loop has
      called exactly those `i + 1`. */
  lemma {:induction false} CalledUpTo(ls: seq<Listener>, fails: Listener -> bool, i: nat)
    requires i < |ls| && Completes(ls[..i], fails) && fails(ls[i])
    ensures Called(ls, fails) == ls[..i + 1]
  {
    if i > 0 {
      assert !fails(ls[..i][0]);
      assert ls[1..][..i - 1] == ls[..i][1..];
      assert forall x :: x in ls[..i][1..] ==> x in ls[..i];
      CalledUpTo(ls[1..], fails, i - 1);
      assert ls[..i + 1] == [ls[0]] + ls[1..][..i];
    }
  }

  /** A first `exit` whose `i`-th listener is the first to throw. */
  lemma ExitSpecStops(s: State, exit: bool, signal: int, fails: Listener -> bool, i: nat)
    requires !s.isCalled && i < |s.listeners| && Completes(s.listeners[..i], fails) && fails(s.listeners[i])
    ensures ExitSpec(s, exit, signal, fails) == s.(isCalled := true, invoked := s.invoked + s.listeners[..i + 1])
  {
    CalledUpTo(s.listeners, fails, i);
    assert s.listeners[i] in s.listeners;
  }

  /** A first `exit` whose listeners all return. */
  lemma ExitSpecCompletes(s: State, exit: bool, signal: int, fails: Listener -> bool)
    requires !s.isCalled && Completes(s.listeners, fails)
    ensures ExitSpec(s, exit, signal, fails)
         == s.(isCalled := true, invoked := s.invoked + s.listeners,
               exitCode := if exit then Some(128 + signal) else s.exitCode)
  {
  }

  /** What `addShutdownListener` returns: a call to it deletes `fn`. */
  datatype Disposer = Disposer(fn: Listener)

  /** The module-level state of the registry. */
  class Shutdown {
    var listeners: seq<Listener>
    var isCalled: bool
    var isRegistered: bool
    var handlers: set<Handler>
    var invoked: seq<Listener>
    var exitCode: Option<int>

    function Snapshot(): State
      reads this
    {
      State(listeners, isCalled, isRegistered, handlers, invoked, exitCode)
    }

    constructor ()
      ensures Snapshot() == Initial
    {
      listeners, isCalled, isRegistered := [], false, false;
      handlers, invoked, exitCode := {}, [], None;
    }

    method Exit(exit: bool, signal: int, fails: Listener -> bool)
      modifies this
      ensures Snapshot() == ExitSpec(old(Snapshot()), exit, signal, fails)
    {
      if isCalled {
        return;
      }
      ghost var s := Snapshot();
      isCalled := true;
      var i := 0;
      while i < |listeners|
        invariant 0 <= i <= |listeners|
        invariant listeners == s.listeners && isCalled && isRegistered == s.isRegistered
        invariant handlers == s.handlers && exitCode == s.exitCode
        invariant invoked == s.invoked + listeners[..i]
        invariant Completes(listeners[..i], fails)
      {
        assert listeners[..i + 1] == listeners[..i] + [listeners[i]];
        invoked := invoked + [listeners[i]];
        assert invoked == s.invoked + listeners[..i + 1];
        if fails(listeners[i]) {
          ExitSpecStops(s, exit, signal, fails, i);
          return;
        }
        i := i + 1;
      }
      assert listeners[..|listeners|] == listeners;
      ExitSpecCompletes(s, exit, signal, fails);
      if exit {
        exitCode := Some(128 + signal);
      }
    }

    method AddShutdownListener(fn: Listener) returns (disposer: Disposer)
      modifies this
      ensures Snapshot() == AddSpec(old(Snapshot()), fn)
      ensures disposer == Disposer(fn)
    {
      if fn !in listeners {
        listeners := listeners + [fn];
      }
      if !isRegistered {
        isRegistered := true;
        handlers := AllHandlers;
      }
      disposer := Disposer(fn);
    }

    method Dispose(disposer: Disposer)
      modifies this
      ensures Snapshot() == DisposeSpec(old(Snapshot()), disposer.fn)
    {
      listeners := Deleted(listeners, disposer.fn);
    }

    method Deliver(ev: Event, fails: Listener -> bool)
      modifies this
      ensures Snapshot() == DeliverSpec(old(Snapshot()), ev, fails)
    {
      match ev
      case ProcessExit(code) =>
        if OnceExit in handlers {
          handlers := handlers - {OnceExit};
          Exit(false, 0, fails);
        }
      case Sigint =>
        if OnceSigint in handlers {
          handlers := handlers - {OnceSigint};
          Exit(true, SIGINT, fails);
        }
      case Sigterm =>
        if OnceSigterm in handlers {
          handlers := handlers - {OnceSigterm};
          Exit(true, SIGTERM, fails);
        }
      case Message(text) =>
        if OnMessage in handlers && text == "shutdown" {
          Exit(true, SHUTDOWN, fails);
        }
    }
  }
}
