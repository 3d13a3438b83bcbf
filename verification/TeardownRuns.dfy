/** Runs in which a connection setup in flight spoils a disconnect. */
module TeardownRuns {
  import opened Teardown
  import opened TeardownInvariant

  lemma OneTurn(start: State, run: seq<Action>, a: Action)
    requires Takes(After(start, run), a)
    ensures var s := After(start, run);
            var u := TurnIn(s, a);
            After(start, run + [a]) == State(s.threads[a.i := u.t], u.g)
  {
    assert (run + [a])[..|run|] == run;
  }

  /** Nothing holds the goroutine up. */
  predicate Free(u: Turn) {
    u.g.closes < 2 && u.t.pc != Waiting && u.t.pc != Draining && u.t.pc != Done
  }

  /** One turn more of the goroutine at position i. */
  lemma ThenTurn(start: State, run: seq<Action>, threads: seq<Thread>, i: nat, u: Turn, v: Turn)
    requires i < |threads| && After(start, run) == State(threads[i := u.t], u.g)
    requires Free(u) && GoesOn(u.g, u.t) == v
    ensures After(start, run + [Run(i)]) == State(threads[i := v.t], v.g)
  {
    OneTurn(start, run, Run(i));
    assert threads[i := u.t][i := v.t] == threads[i := v.t];
  }

  /** Three turns of the goroutine at position i. */
  lemma ThreeTurns(start: State, run0: seq<Action>, i: nat, u: Turn, v: Turn, w: Turn) returns (run: seq<Action>)
    requires Takes(After(start, run0), Run(i)) && Free(u) && Free(v)
    requires var s := After(start, run0); GoesOn(s.g, s.threads[i]) == u
    requires GoesOn(u.g, u.t) == v && GoesOn(v.g, v.t) == w
    ensures After(start, run) == State(After(start, run0).threads[i := w.t], w.g)
  {
    var threads := After(start, run0).threads;
    OneTurn(start, run0, Run(i));
    run := run0 + [Run(i)];
    ThenTurn(start, run, threads, i, u, v);
    run := run + [Run(i)];
    ThenTurn(start, run, threads, i, v, w);
    run := run + [Run(i)];
  }

  function Begun(g: Shared, r: Role): Shared {
    g.(phase := Disconnecting, teardowns := g.teardowns + 1, clearOnCleanup := g.clearOnCleanup || !Preserves(r),
       dead := g.dead + {g.cancelFn})
  }

  /** disconnect up to the start of its goroutine. */
  lemma Disconnects(start: State, run0: seq<Action>, i: nat) returns (run: seq<Action>)
    requires var s := After(start, run0);
             s.g.closes < 2 && Live(s.g.phase) && i < |s.threads| && s.threads[i].pc == Entering
    ensures var s := After(start, run0);
            After(start, run) == State(s.threads[i := s.threads[i].(pc := Draining)], Begun(s.g, s.threads[i].role))
  {
    var s := After(start, run0);
    var t, g := s.threads[i], Begun(s.g, s.threads[i].role);
    run := ThreeTurns(start, run0, i, Turn(g.(dead := s.g.dead), t.(pc := Won)), Turn(g, t.(pc := Closed)),
                      Turn(g, t.(pc := Draining)));
  }

  function Cleaned(g: Shared): Shared {
    g.(phase := Disconnected, closes := g.closes + 1, creds := if g.clearOnCleanup then Cleared else g.creds)
  }

  /** ... and the goroutine, once the wait group is empty. */
  lemma CleansUp(start: State, run0: seq<Action>, i: nat) returns (run: seq<Action>)
    requires var s := After(start, run0);
             s.g.closes < 2 && i < |s.threads| && s.threads[i].pc == Draining && !GroupBusy(s.threads)
    ensures var s := After(start, run0);
            After(start, run) == State(s.threads[i := s.threads[i].(pc := Done)], Cleaned(s.g))
  {
    var s := After(start, run0);
    var t, g := s.threads[i], Cleaned(s.g);
    run := ThreeTurns(start, run0, i, Turn(s.g, t.(pc := Finishing)),
                      Turn(g.(closes := s.g.closes), t.(pc := Signalling)), Turn(g, t.(pc := Done)));
  }

  /** A setup passes its check of the state. */
  lemma PassesCheck(start: State, run0: seq<Action>, i: nat) returns (run: seq<Action>)
    requires var s := After(start, run0);
             && s.g.closes < 2 && s.g.phase == Connecting && s.g.creds.challenge
             && i < |s.threads| && s.threads[i].pc == Checking
    ensures var s := After(start, run0);
            After(start, run) == s.(threads := s.threads[i := s.threads[i].(pc := Caching)])
  {
    OneTurn(start, run0, Run(i));
    run := run0 + [Run(i)];
  }

  function HavingStored(g: Shared, got: Credentials): Shared {
    g.(creds := got.(challenge := g.creds.challenge, tlsSecrets := true))
  }

  /** ... and goes on to store everything, whatever has become of the session. */
  lemma StoresAll(start: State, run0: seq<Action>, i: nat) returns (run: seq<Action>)
    requires var s := After(start, run0);
             && s.g.closes < 2 && i < |s.threads| && s.threads[i].pc == Caching
             && s.threads[i].role.Setup? && !s.threads[i].role.direct
    ensures var s := After(start, run0);
            var t := s.threads[i];
            After(start, run) == State(s.threads[i := t.(pc := Pushed)], HavingStored(s.g, t.role.got))
  {
    var s := After(start, run0);
    var t := s.threads[i];
    var g, c := HavingStored(s.g, t.role.got), s.g.creds;
    run := ThreeTurns(start, run0, i,
                      Turn(s.g.(creds := g.creds.(authToken := c.authToken, tlsSecrets := c.tlsSecrets)),
                           t.(pc := Linking)),
                      Turn(s.g.(creds := g.creds.(authToken := c.authToken)), t.(pc := Secured)),
                      Turn(g, t.(pc := Pushed)));
  }

  /** A session being set up for phase 2, and a caller who wants none of it. */
  function TwoSides(got: Credentials): State {
    Start([Setup(true, false, got), Requester(false, false)], Connecting, Cleared.(challenge := true))
  }

  /** The setup and the caller, wherever they are. */
  function Threads(got: Credentials, setup: Pc, ctx: int, caller: Pc): seq<Thread> {
    [Thread(Setup(true, false, got), setup, false, ctx), Thread(Requester(false, false), caller, false, 0)]
  }

  /** The setup has passed its check. */
  lemma ReachCaching(got: Credentials) returns (run: seq<Action>)
    ensures After(TwoSides(got), run) == State(Threads(got, Caching, 0, Entering), TwoSides(got).g)
  {
    run := PassesCheck(TwoSides(got), [], 0);
  }

  /** The setup has stored everything and not yet marked the tunnel as up. */
  lemma ReachPushed(got: Credentials) returns (run: seq<Action>)
    ensures After(TwoSides(got), run) == State(Threads(got, Pushed, 0, Entering), HavingStored(TwoSides(got).g, got))
  {
    run := ReachCaching(got);
    run := StoresAll(TwoSides(got), run, 0);
  }

  /** A setup that fails while a teardown is under way: doneCh is closed twice. */
  lemma FailedSetupClosesTwice(got: Credentials) returns (run: seq<Action>)
    ensures After(TwoSides(got), run).g.closes == 2
  {
    var start := TwoSides(got);
    run := ReachPushed(got);
    run := Disconnects(start, run, 1);
    OneTurn(start, run, Fail(0));
    run := run + [Fail(0)];
    run := CleansUp(start, run, 1);
  }

  /** The teardown has run and the setup has not noticed. */
  lemma ReachEnded(got: Credentials) returns (run: seq<Action>)
    ensures var g := HavingStored(TwoSides(got).g, got);
            After(TwoSides(got), run)
            == State(Threads(got, Pushed, 0, Done), Cleaned(Begun(g, Requester(false, false))))
  {
    run := ReachPushed(got);
    run := Disconnects(TwoSides(got), run, 1);
    run := CleansUp(TwoSides(got), run, 1);
  }

  /** A setup marks the tunnel as up after a whole teardown and is about to start the goroutines. */
  lemma ReachRevived(got: Credentials) returns (run: seq<Action>)
    ensures var s := After(TwoSides(got), run);
            s.threads == Threads(got, Starting, 1, Done) && s.g.phase == Up && s.g.closes == 1 && s.g.teardowns == 1
  {
    var start := TwoSides(got);
    run := ReachEnded(got);
    OneTurn(start, run, Run(0));
    run := run + [Run(0)];
    OneTurn(start, run, Run(0));
    run := run + [Run(0)];
  }

  lemma OneSpawn(start: State, run: seq<Action>, a: Action)
    requires a.Spawn? && Enabled(After(start, run), a) && a.parent < |After(start, run).threads|
    ensures var s := After(start, run);
            After(start, run + [a]) == s.(threads := s.threads + [Born(a.role, s.threads[a.parent].ctx)])
  {
    assert (run + [a])[..|run|] == run;
  }

  /** The setup is done and one of the new goroutines ends the session. */
  lemma ReachSecondRequest(got: Credentials) returns (run: seq<Action>)
    ensures var s := After(TwoSides(got), run);
            && s.threads == Threads(got, Done, 1, Done) + [Thread(Requester(true, true), Entering, false, 1)]
            && s.g.phase == Up && s.g.closes == 1 && s.g.teardowns == 1
  {
    var start := TwoSides(got);
    run := ReachRevived(got);
    OneSpawn(start, run, Spawn(Requester(true, true), 0));
    run := run + [Spawn(Requester(true, true), 0)];
    OneTurn(start, run, Run(0));
    run := run + [Run(0)];
  }

  /**
   * A setup that succeeds after a teardown: line 881 marks the tunnel as up again, one of the new
   * goroutines ends the session a second time, and doneCh is closed twice with no setup failed.
   */
  lemma CompletedSetupClosesTwice(got: Credentials) returns (run: seq<Action>)
    ensures var s := After(TwoSides(got), run);
            s.g.closes == 2 && s.g.teardowns == 2 && Quiescent(s) && !AnyThread(s.threads, SetupActed)
  {
    run := ReachSecondRequest(got);
    run := Disconnects(TwoSides(got), run, 2);
    run := CleansUp(TwoSides(got), run, 2);
  }

  /** A whole teardown between the setup's check and its caching. */
  lemma ReachStoredLate(got: Credentials) returns (run: seq<Action>)
    ensures var s := After(TwoSides(got), run);
            && s.threads == Threads(got, Pushed, 0, Done)
            && s.g.phase == Disconnected && s.g.closes == 1 && s.g.creds.token == got.token
  {
    var start := TwoSides(got);
    run := ReachCaching(got);
    run := Disconnects(start, run, 1);
    run := CleansUp(start, run, 1);
    run := StoresAll(start, run, 0);
  }

  /**
   * The state check and the caching of the token are two locked sections: a Disconnect in between
   * finishes first, the setup then fails without effect, and the token stays.
   */
  lemma TokenSurvivesDisconnect(got: Credentials) returns (run: seq<Action>)
    ensures var s := After(TwoSides(got), run);
            Quiescent(s) && AnyThread(s.threads, DropsCredentials) && s.g.closes == 1 && s.g.creds.token == got.token
  {
    run := ReachStoredLate(got);
    OneTurn(TwoSides(got), run, Fail(0));
    run := run + [Fail(0)];
    assert DropsCredentials(After(TwoSides(got), run).threads[1]);
  }
}
