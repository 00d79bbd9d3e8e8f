/** Properties of the shutdown registry: listeners run at most once and in
    insertion order, handlers are installed once, exit codes follow the
    signal, and a disposer removes exactly its listener. */
module ExitProperties {
  import opened Wrappers
  import opened Exit

  lemma InvInitial()
    ensures Inv(Initial)
  {
  }

  /** Every operation keeps the invariant. */
  lemma InvPreserved(s: State, fn: Listener, exit: bool, signal: int, ev: Event, fails: Listener -> bool)
    requires Inv(s)
    ensures Inv(AddSpec(s, fn)) && Inv(DisposeSpec(s, fn))
    ensures Inv(ExitSpec(s, exit, signal, fails)) && Inv(DeliverSpec(s, ev, fails))
  {
  }

  /** Only the first `exit` does anything; every later one returns at once,
      whatever its listeners would do. */
  lemma ExitOnlyOnce(s: State, exit: bool, signal: int, fails: Listener -> bool, exit': bool, signal': int, fails': Listener -> bool)
    ensures ExitSpec(ExitSpec(s, exit, signal, fails), exit', signal', fails') == ExitSpec(s, exit, signal, fails)
  {
  }

  /** The first `exit` calls the registered listeners once each, in insertion
      order. When all of them return it calls `process.exit(128 + signal)`
      exactly when asked to; when one throws, the listeners after it are not
      called and `process.exit` is not reached. */
  lemma FirstExitRunsListeners(s: State, exit: bool, signal: int, fails: Listener -> bool)
    requires Inv(s) && !s.isCalled
    ensures Distinct(ExitSpec(s, exit, signal, fails).invoked)
    ensures Completes(s.listeners, fails) ==>
              && ExitSpec(s, exit, signal, fails).invoked == s.listeners
              && ExitSpec(s, exit, signal, fails).exitCode == if exit then Some(128 + signal) else None
    ensures !Completes(s.listeners, fails) ==>
              var r := ExitSpec(s, exit, signal, fails).invoked;
              && 0 < |r| <= |s.listeners| && r == s.listeners[..|r|]
              && fails(r[|r| - 1]) && Completes(r[..|r| - 1], fails)
              && ExitSpec(s, exit, signal, fails).exitCode == None
  {
    var r := ExitSpec(s, exit, signal, fails).invoked;
    assert r == s.listeners[..|r|];
    forall i, j | 0 <= i < j < |r| ensures r[i] != r[j] {
      assert r[i] == s.listeners[i] && r[j] == s.listeners[j];
    }
  }

  /** The handlers map SIGINT to exit code 130, SIGTERM to 143, the
      `"shutdown"` message to 0, and the process's own exit to no call of
      `process.exit`; each runs the listeners. A listener that throws keeps
      every one of them from calling `process.exit`. */
  lemma DeliveredExitCodes(s: State, code: int, fails: Listener -> bool)
    requires Inv(s) && !s.isCalled && s.handlers == AllHandlers
    ensures Completes(s.listeners, fails) ==>
              && DeliverSpec(s, Sigint, fails).exitCode == Some(130) && DeliverSpec(s, Sigint, fails).invoked == s.listeners
              && DeliverSpec(s, Sigterm, fails).exitCode == Some(143) && DeliverSpec(s, Sigterm, fails).invoked == s.listeners
              && DeliverSpec(s, Message("shutdown"), fails).exitCode == Some(0)
              && DeliverSpec(s, Message("shutdown"), fails).invoked == s.listeners
              && DeliverSpec(s, ProcessExit(code), fails).invoked == s.listeners
    ensures DeliverSpec(s, ProcessExit(code), fails).exitCode == None
    ensures !Completes(s.listeners, fails) ==>
              && DeliverSpec(s, Sigint, fails).exitCode == None
              && DeliverSpec(s, Sigterm, fails).exitCode == None
              && DeliverSpec(s, Message("shutdown"), fails).exitCode == None
  {
  }

  /** Any other message is ignored. */
  lemma OtherMessageIgnored(s: State, text: string, fails: Listener -> bool)
    requires text != "shutdown"
    ensures DeliverSpec(s, Message(text), fails) == s
  {
  }

  /** Handlers are installed on the first registration only, and the
      registry stays registered whatever happens next. */
  lemma RegisteredOnce(s: State, fn: Listener, g: Listener, exit: bool, signal: int, ev: Event, fails: Listener -> bool)
    ensures AddSpec(AddSpec(s, fn), g).handlers == AddSpec(s, fn).handlers
    ensures s.isRegistered ==> AddSpec(s, fn).handlers == s.handlers
    ensures s.isRegistered ==> DisposeSpec(s, fn).isRegistered && ExitSpec(s, exit, signal, fails).isRegistered
                               && DeliverSpec(s, ev, fails).isRegistered
  {
  }

  /** Adding the same listener twice is adding it once. */
  lemma AddIdempotent(s: State, fn: Listener)
    ensures AddSpec(AddSpec(s, fn), fn) == AddSpec(s, fn)
  {
  }

  lemma {:induction false} DeletedAbsent(ls: seq<Listener>, fn: Listener)
    requires fn !in ls
    ensures Deleted(ls, fn) == ls
  {
    if ls != [] {
      DeletedAbsent(ls[1..], fn);
    }
  }

  lemma {:induction false} DeletedAppend(a: seq<Listener>, b: seq<Listener>, fn: Listener)
    ensures Deleted(a + b, fn) == Deleted(a, fn) + Deleted(b, fn)
  {
    if a != [] {
      assert (a + b)[1..] == a[1..] + b;
      DeletedAppend(a[1..], b, fn);
    } else {
      assert a + b == b;
    }
  }

  /** The disposer undoes the registration: the other listeners keep their
      order and nothing else changes. */
  lemma DisposeUndoesAdd(s: State, fn: Listener)
    requires fn !in s.listeners
    ensures DisposeSpec(AddSpec(s, fn), fn).listeners == s.listeners
  {
    DeletedAppend(s.listeners, [fn], fn);
    DeletedAbsent(s.listeners, fn);
  }

  /** A disposed listener is not run by a later `exit`. */
  lemma DisposedNotRun(s: State, fn: Listener, exit: bool, signal: int, fails: Listener -> bool)
    requires Inv(s) && !s.isCalled
    ensures fn !in ExitSpec(DisposeSpec(s, fn), exit, signal, fails).invoked
  {
    var ls := DisposeSpec(s, fn).listeners;
    var r := Called(ls, fails);
    assert forall x :: x in r ==> x in ls by {
      forall x | x in r ensures x in ls {
        var k :| 0 <= k < |r| && r[k] == x;
        assert r[k] == ls[k];
      }
    }
  }
}
