/**
 * What every interleaving of requests, monitors and setups keeps, by counting the goroutines in each
 * situation: a turn of one goroutine changes each count by what it does to that goroutine.
 */
module TeardownInvariant {
  import opened Teardown

  function B(b: bool): nat {
    if b then 1 else 0
  }

  ghost function Count(threads: seq<Thread>, p: Thread -> bool): nat {
    if threads == [] then 0 else Count(threads[..|threads| - 1], p) + B(p(threads[|threads| - 1]))
  }

  lemma {:induction false} CountUpdate(threads: seq<Thread>, i: nat, t: Thread, p: Thread -> bool)
    requires i < |threads|
    ensures Count(threads[i := t], p) + B(p(threads[i])) == Count(threads, p) + B(p(t))
    ensures Count(threads, p) >= B(p(threads[i]))
  {
    var n, threads' := |threads| - 1, threads[i := t];
    if i < n {
      CountUpdate(threads[..n], i, t, p);
      assert threads'[..n] == threads[..n][i := t];
    } else {
      assert threads'[..n] == threads[..n];
    }
  }

  lemma CountAppend(threads: seq<Thread>, t: Thread, p: Thread -> bool)
    ensures Count(threads + [t], p) == Count(threads, p) + B(p(t))
  {
    assert (threads + [t])[..|threads|] == threads;
  }

  lemma {:induction false} CountAny(threads: seq<Thread>, p: Thread -> bool)
    ensures Count(threads, p) > 0 <==> AnyThread(threads, p)
  {
    if threads != [] {
      var n := |threads| - 1;
      CountAny(threads[..n], p);
      if AnyThread(threads[..n], p) {
        var i :| 0 <= i < n && p(threads[..n][i]);
        assert p(threads[i]);
      }
      if AnyThread(threads, p) {
        var i :| 0 <= i < |threads| && p(threads[i]);
        assert i < n ==> p(threads[..n][i]);
      }
    }
  }

  // ---- Invariant -------------------------------------------------------------------

  predicate SetupPc(pc: Pc) {
    || pc == Dialing || pc == Answering || pc == Checking || pc == Caching || pc == Linking || pc == Secured
    || pc == Pushed || pc == Installing || pc == Starting
  }

  predicate ThreadOk(t: Thread) {
    && (t.pc == Waiting ==> t.role.Monitor? || t.role.Worker?)
    && (t.pc.Reporting? ==> t.role.Monitor? && t.acted && (t.pc.first ==> t.role.cause == AuthFailed))
    && (t.pc == Entering || Tearing(t) ==> t.role.Requester? || (t.role.Monitor? && t.acted))
    && (SetupPc(t.pc) ==> t.role.Setup?)
    && (t.acted ==> t.pc != Waiting && !SetupPc(t.pc)
                    && (t.role.Setup? || (t.role.Monitor? && t.role.cause != EndOfStream)))
  }

  predicate ThreadsOk(threads: seq<Thread>) {
    forall i :: 0 <= i < |threads| ==> ThreadOk(threads[i])
  }

  /** Has run disconnect's locked section. */
  predicate Entered(t: Thread) {
    (t.role.Requester? || (t.role.Monitor? && t.acted)) && t.pc != Entering && !t.pc.Reporting?
  }

  predicate Drops(t: Thread) {
    t.role.Requester? && !t.role.preserve && t.pc != Entering
  }

  predicate Rejected(t: Thread) {
    t.acted && t.role.Monitor? && t.role.cause == AuthFailed
  }

  /** A setup that failed and moved the state to disconnected. */
  predicate SetupActed(t: Thread) {
    t.role.Setup? && t.acted
  }

  predicate OwesReport(t: Thread) {
    t.pc == Reporting(true)
  }

  /** The closes of doneCh and the `tearing` teardowns under way, against what the run has seen. */
  predicate EndOk(g: Shared, h: Past, tearing: nat, failed: nat) {
    && g.closes <= 2 && (g.closes == 2 ==> h.doubled)
    && (!h.doubled ==> tearing + g.closes == B(h.ended))
    && (h.doubled && g.closes < 2 ==> tearing >= 1 && tearing + g.closes >= 2)
    && (!h.doubled ==> g.teardowns <= B(h.ended) && (failed == 0 ==> g.teardowns == B(h.ended)))
  }

  predicate PhaseOk(g: Shared, h: Past, unfinished: nat) {
    && (g.phase == Disconnecting ==> unfinished >= 1)
    && (!Live(g.phase) ==> h.ended)
    && (h.ended && Live(g.phase) ==> h.revived)
    && (g.clearOnCleanup ==> h.ended)
    && (h.doubled ==> h.overlapped || h.revived)
  }

  predicate ReportOk(g: Shared, owing: nat) {
    owing + g.reauthEvents == B(g.reauth)
  }

  predicate FlagsOk(g: Shared, h: Past, dropping: nat, rejected: nat, entered: nat, failed: nat) {
    && (g.clearOnCleanup <==> dropping > 0)
    && (g.reauth <==> rejected > 0)
    && (h.ended <==> entered + failed > 0)
  }

  predicate CredsOk(g: Shared, h: Past, unfinished: nat, failed: nat) {
    && g.creds == h.since
    && (g.clearOnCleanup && unfinished == 0 ==> g.creds == h.late)
    && (h.cleared ==> g.clearOnCleanup || g.reauth || failed > 0)
    && (g.reauth || failed > 0 ==> h.cleared)
  }

  ghost predicate Inv(s: State, h: Past) {
    var failed, unfinished := Count(s.threads, SetupActed), Count(s.threads, Unfinished);
    && ThreadsOk(s.threads)
    && EndOk(s.g, h, Count(s.threads, Tearing), failed)
    && PhaseOk(s.g, h, unfinished)
    && ReportOk(s.g, Count(s.threads, OwesReport))
    && FlagsOk(s.g, h, Count(s.threads, Drops), Count(s.threads, Rejected), Count(s.threads, Entered), failed)
    && CredsOk(s.g, h, unfinished, failed)
  }

  // ---- One goroutine's turn ----------------------------------------------------------

  /** A turn that the goroutine itself can take. */
  predicate MayTurn(g: Shared, t: Thread, a: Action) {
    && g.closes < 2 && ThreadOk(t)
    && match a
       case Spawn(_, _) => false
       case Cancel(_) => t.pc == Waiting
       case Fail(_) => MayFail(t)
       case Quit(_) => t.pc == Checking
       case Run(_) => t.pc != Done && (t.pc == Waiting ==> t.role.Monitor?)
  }

  lemma TurnThread(g: Shared, t: Thread, a: Action)
    requires MayTurn(g, t, a)
    ensures ThreadOk(TurnOf(g, t, a).t) && TurnOf(g, t, a).t.role == t.role
  {
  }

  /** How many of the others and the one at hand: `n` before, so much after. */
  function Now(n: nat, before: bool, after: bool): int {
    n - B(before) + B(after)
  }

  /** What a turn does to doneCh and the teardowns. */
  predicate EndMove(g: Shared, t: Thread, e: Event, u: Turn) {
    var signals := Tearing(t) && !Tearing(u.t);
    && !(e.begins && e.moves)
    && (e.begins ==> !Tearing(t) && Tearing(u.t)) && (e.moves ==> !Tearing(t) && !Tearing(u.t))
    && (!e.begins && !signals ==> Tearing(t) == Tearing(u.t))
    && (e.moves ==> !SetupActed(t) && SetupActed(u.t)) && (!e.moves ==> SetupActed(t) == SetupActed(u.t))
    && u.g.teardowns == g.teardowns + B(e.begins)
    && u.g.closes == (if e.moves then (if g.closes == 0 then 1 else g.closes) else g.closes + B(signals))
  }

  lemma TurnEndMove(g: Shared, t: Thread, a: Action)
    requires MayTurn(g, t, a)
    ensures EndMove(g, t, EventOf(g, t, a), TurnOf(g, t, a))
  {
  }

  lemma EndMoveKeeps(g: Shared, t: Thread, e: Event, h: Past, tearing: nat, unfinished: bool, failed: nat, u: Turn)
    requires EndMove(g, t, e, u) && EndOk(g, h, tearing, failed) && g.closes < 2
    requires tearing >= B(Tearing(t)) && failed >= B(SetupActed(t))
    ensures var h' := Recorded(h, e, t, tearing > 0, unfinished);
            var tearing' := Now(tearing, Tearing(t), Tearing(u.t));
            var failed' := Now(failed, SetupActed(t), SetupActed(u.t));
            tearing' >= 0 && failed' >= 0 && EndOk(u.g, h', tearing', failed')
  {
  }

  /** What a turn does to the state. */
  predicate PhaseMove(g: Shared, t: Thread, e: Event, u: Turn) {
    && (e.begins ==> Live(g.phase) && u.g.phase == Disconnecting && !Unfinished(t) && Unfinished(u.t))
    && (!e.begins ==> (Unfinished(u.t) ==> Unfinished(t)))
    && (e.moves ==> u.g.phase == Disconnected && !Unfinished(t))
    && (e.completes ==> u.g.phase == Up && !Unfinished(t))
    && (Unfinished(t) && !Unfinished(u.t) ==> u.g.phase == Disconnected)
    && (u.g.phase != g.phase ==>
          e.begins || e.moves || e.completes || Unfinished(t) || (g.phase == New && u.g.phase == Connecting))
    && (u.g.phase == Disconnecting ==> g.phase == Disconnecting || e.begins)
    && (u.g.phase == Disconnected ==> g.phase == Disconnected || e.moves || Unfinished(t))
    && (Live(u.g.phase) && !Live(g.phase) ==> e.completes)
    && (u.g.clearOnCleanup && !g.clearOnCleanup ==> e.begins || !Live(g.phase))
  }

  lemma TurnPhaseMove(g: Shared, t: Thread, a: Action)
    requires MayTurn(g, t, a)
    ensures PhaseMove(g, t, EventOf(g, t, a), TurnOf(g, t, a))
  {
  }

  lemma PhaseMoveKeeps(g: Shared, t: Thread, e: Event, h: Past, tearing: bool, unfinished: nat, u: Turn)
    requires PhaseMove(g, t, e, u) && PhaseOk(g, h, unfinished) && unfinished >= B(Unfinished(t))
    requires Unfinished(t) ==> h.ended
    ensures var h' := Recorded(h, e, t, tearing, unfinished > 0);
            var unfinished' := Now(unfinished, Unfinished(t), Unfinished(u.t));
            unfinished' >= 0 && PhaseOk(u.g, h', unfinished')
  {
  }

  lemma TurnReports(g: Shared, t: Thread, a: Action, owing: nat)
    requires MayTurn(g, t, a) && ReportOk(g, owing) && owing >= B(OwesReport(t))
    ensures var u := TurnOf(g, t, a);
            var owing' := Now(owing, OwesReport(t), OwesReport(u.t));
            owing' >= 0 && ReportOk(u.g, owing')
  {
  }

  /** What a turn does to the flags, in terms of the goroutine at hand. */
  predicate FlagMove(g: Shared, t: Thread, e: Event, u: Turn) {
    && (Drops(t) ==> Drops(u.t)) && (u.g.clearOnCleanup <==> g.clearOnCleanup || (Drops(u.t) && !Drops(t)))
    && (Rejected(t) ==> Rejected(u.t)) && (u.g.reauth <==> g.reauth || (Rejected(u.t) && !Rejected(t)))
    && (Entered(t) ==> Entered(u.t)) && (e.begins ==> Entered(u.t))
    && (Entered(u.t) && !Entered(t) ==> e.begins || !Live(g.phase))
    && (SetupActed(t) ==> SetupActed(u.t)) && (e.moves <==> SetupActed(u.t) && !SetupActed(t))
  }

  lemma TurnFlagMove(g: Shared, t: Thread, a: Action)
    requires MayTurn(g, t, a)
    ensures FlagMove(g, t, EventOf(g, t, a), TurnOf(g, t, a))
  {
  }

  lemma FlagMoveKeeps(g: Shared, t: Thread, e: Event, h: Past, tearing: bool, unfinished: bool,
                      dropping: nat, rejected: nat, entered: nat, failed: nat, u: Turn)
    requires FlagMove(g, t, e, u) && FlagsOk(g, h, dropping, rejected, entered, failed) && (!Live(g.phase) ==> h.ended)
    requires dropping >= B(Drops(t)) && rejected >= B(Rejected(t))
    requires entered >= B(Entered(t)) && failed >= B(SetupActed(t))
    ensures var h' := Recorded(h, e, t, tearing, unfinished);
            FlagsOk(u.g, h', Now(dropping, Drops(t), Drops(u.t)), Now(rejected, Rejected(t), Rejected(u.t)),
                    Now(entered, Entered(t), Entered(u.t)), Now(failed, SetupActed(t), SetupActed(u.t)))
  {
  }

  /** What a turn does to the credentials. */
  predicate CredsMove(g: Shared, t: Thread, e: Event, u: Turn) {
    && u.g.creds == (if e.clears then Cleared else if e.goesOn then Stored(g.creds, t) else g.creds)
    && (g.clearOnCleanup ==> u.g.clearOnCleanup) && (g.reauth ==> u.g.reauth) && (SetupActed(t) ==> SetupActed(u.t))
    && (u.g.clearOnCleanup && !g.clearOnCleanup ==> e.clears || Unfinished(u.t) || g.phase == Disconnecting)
    && (Unfinished(t) && !Unfinished(u.t) ==> e.clears || !u.g.clearOnCleanup)
    && (Unfinished(t) || Unfinished(u.t) ==> !t.role.Setup?)
    && (e.clears ==> u.g.clearOnCleanup || u.g.reauth || SetupActed(u.t))
    && ((u.g.reauth && !g.reauth) || (SetupActed(u.t) && !SetupActed(t)) ==> e.clears)
  }

  lemma TurnCredsMove(g: Shared, t: Thread, a: Action)
    requires MayTurn(g, t, a)
    ensures CredsMove(g, t, EventOf(g, t, a), TurnOf(g, t, a))
  {
  }

  lemma CredsMoveKeeps(g: Shared, t: Thread, e: Event, h: Past, tearing: bool, unfinished: nat, failed: nat, u: Turn)
    requires CredsMove(g, t, e, u) && CredsOk(g, h, unfinished, failed) && (g.phase == Disconnecting ==> unfinished > 0)
    requires g.clearOnCleanup ==> h.ended
    requires unfinished >= B(Unfinished(t)) && failed >= B(SetupActed(t))
    ensures var h' := Recorded(h, e, t, tearing, unfinished > 0);
            var unfinished' := Now(unfinished, Unfinished(t), Unfinished(u.t));
            var failed' := Now(failed, SetupActed(t), SetupActed(u.t));
            unfinished' >= 0 && failed' >= 0 && CredsOk(u.g, h', unfinished', failed')
  {
  }

  // ---- Every step keeps it -----------------------------------------------------------

  predicate Takes(s: State, a: Action) {
    Enabled(s, a) && !a.Spawn?
  }

  function TurnIn(s: State, a: Action): Turn
    requires Takes(s, a)
  {
    TurnOf(s.g, s.threads[a.i], a)
  }

  ghost function RecordedIn(h: Past, s: State, a: Action): Past
    requires Takes(s, a)
  {
    RecordedAs(h, s.threads, a.i, EventOf(s.g, s.threads[a.i], a))
  }

  lemma Turns(s: State, a: Action)
    requires Takes(s, a) && ThreadsOk(s.threads)
    ensures MayTurn(s.g, s.threads[a.i], a)
  {
    assert ThreadOk(s.threads[a.i]);
  }

  lemma EndAfter(threads: seq<Thread>, i: nat, g: Shared, e: Event, h: Past, u: Turn)
    requires i < |threads| && EndMove(g, threads[i], e, u) && g.closes < 2
    requires EndOk(g, h, Count(threads, Tearing), Count(threads, SetupActed))
    ensures var threads' := threads[i := u.t];
            EndOk(u.g, RecordedAs(h, threads, i, e), Count(threads', Tearing), Count(threads', SetupActed))
  {
    CountUpdate(threads, i, u.t, Tearing);
    CountUpdate(threads, i, u.t, SetupActed);
    CountAny(threads, Tearing);
    EndMoveKeeps(g, threads[i], e, h, Count(threads, Tearing), AnyThread(threads, Unfinished),
                 Count(threads, SetupActed), u);
  }

  lemma PhaseAfter(threads: seq<Thread>, i: nat, g: Shared, e: Event, h: Past, u: Turn)
    requires i < |threads| && ThreadOk(threads[i]) && PhaseMove(g, threads[i], e, u)
    requires PhaseOk(g, h, Count(threads, Unfinished)) && (AnyThread(threads, Entered) ==> h.ended)
    ensures PhaseOk(u.g, RecordedAs(h, threads, i, e), Count(threads[i := u.t], Unfinished))
  {
    CountUpdate(threads, i, u.t, Unfinished);
    CountAny(threads, Unfinished);
    assert Unfinished(threads[i]) ==> Entered(threads[i]);
    PhaseMoveKeeps(g, threads[i], e, h, AnyThread(threads, Tearing), Count(threads, Unfinished), u);
  }

  ghost predicate FlagsIn(threads: seq<Thread>, g: Shared, h: Past) {
    FlagsOk(g, h, Count(threads, Drops), Count(threads, Rejected), Count(threads, Entered), Count(threads, SetupActed))
  }

  lemma FlagsAfter(threads: seq<Thread>, i: nat, g: Shared, e: Event, h: Past, u: Turn)
    requires i < |threads| && FlagMove(g, threads[i], e, u) && FlagsIn(threads, g, h) && (!Live(g.phase) ==> h.ended)
    ensures FlagsIn(threads[i := u.t], u.g, RecordedAs(h, threads, i, e))
  {
    CountUpdate(threads, i, u.t, Drops);
    CountUpdate(threads, i, u.t, Rejected);
    CountUpdate(threads, i, u.t, Entered);
    CountUpdate(threads, i, u.t, SetupActed);
    FlagMoveKeeps(g, threads[i], e, h, AnyThread(threads, Tearing), AnyThread(threads, Unfinished),
                  Count(threads, Drops), Count(threads, Rejected), Count(threads, Entered),
                  Count(threads, SetupActed), u);
  }

  lemma CredsAfter(threads: seq<Thread>, i: nat, g: Shared, e: Event, h: Past, u: Turn)
    requires i < |threads| && CredsMove(g, threads[i], e, u)
    requires CredsOk(g, h, Count(threads, Unfinished), Count(threads, SetupActed)) && (g.clearOnCleanup ==> h.ended)
    requires g.phase == Disconnecting ==> Count(threads, Unfinished) > 0
    ensures var threads' := threads[i := u.t];
            CredsOk(u.g, RecordedAs(h, threads, i, e), Count(threads', Unfinished), Count(threads', SetupActed))
  {
    CountUpdate(threads, i, u.t, Unfinished);
    CountUpdate(threads, i, u.t, SetupActed);
    CountAny(threads, Unfinished);
    CredsMoveKeeps(g, threads[i], e, h, AnyThread(threads, Tearing), Count(threads, Unfinished),
                   Count(threads, SetupActed), u);
  }

  lemma ReportAfter(threads: seq<Thread>, i: nat, g: Shared, a: Action)
    requires i < |threads| && MayTurn(g, threads[i], a) && ReportOk(g, Count(threads, OwesReport))
    ensures var u := TurnOf(g, threads[i], a); ReportOk(u.g, Count(threads[i := u.t], OwesReport))
  {
    CountUpdate(threads, i, TurnOf(g, threads[i], a).t, OwesReport);
    TurnReports(g, threads[i], a, Count(threads, OwesReport));
  }

  /** All that a turn may do. */
  predicate Lawful(g: Shared, t: Thread, e: Event, u: Turn) {
    EndMove(g, t, e, u) && PhaseMove(g, t, e, u) && FlagMove(g, t, e, u) && CredsMove(g, t, e, u)
  }

  lemma TurnLawful(g: Shared, t: Thread, a: Action)
    requires MayTurn(g, t, a)
    ensures Lawful(g, t, EventOf(g, t, a), TurnOf(g, t, a))
  {
    TurnEndMove(g, t, a);
    TurnPhaseMove(g, t, a);
    TurnFlagMove(g, t, a);
    TurnCredsMove(g, t, a);
  }

  lemma LawfulKeepsInv(s: State, i: nat, e: Event, h: Past, u: Turn)
    requires Inv(s, h) && i < |s.threads| && s.g.closes < 2 && Lawful(s.g, s.threads[i], e, u) && ThreadOk(u.t)
    requires ReportOk(u.g, Count(s.threads[i := u.t], OwesReport))
    ensures Inv(State(s.threads[i := u.t], u.g), RecordedAs(h, s.threads, i, e))
  {
    CountAny(s.threads, Entered);
    assert ThreadOk(s.threads[i]);
    EndAfter(s.threads, i, s.g, e, h, u);
    PhaseAfter(s.threads, i, s.g, e, h, u);
    FlagsAfter(s.threads, i, s.g, e, h, u);
    CredsAfter(s.threads, i, s.g, e, h, u);
  }

  lemma TurnKeepsInv(s: State, a: Action, h: Past)
    requires Inv(s, h) && Takes(s, a)
    ensures Inv(Step(s, a), RecordedIn(h, s, a))
  {
    var t := s.threads[a.i];
    Turns(s, a);
    TurnThread(s.g, t, a);
    TurnLawful(s.g, t, a);
    ReportAfter(s.threads, a.i, s.g, a);
    LawfulKeepsInv(s, a.i, EventOf(s.g, t, a), h, TurnOf(s.g, t, a));
  }

  /** Counts for nothing yet. */
  predicate Idle(t: Thread) {
    && ThreadOk(t) && !Tearing(t) && !Unfinished(t) && !OwesReport(t)
    && !Drops(t) && !Rejected(t) && !Entered(t) && !SetupActed(t)
  }

  lemma BornIdle(r: Role, ctx: int)
    ensures Idle(Born(r, ctx))
  {
  }

  lemma SpawnKeepsInv(s: State, t: Thread, h: Past)
    requires Inv(s, h) && Idle(t)
    ensures Inv(s.(threads := s.threads + [t]), h)
  {
    CountAppend(s.threads, t, Tearing);
    CountAppend(s.threads, t, Unfinished);
    CountAppend(s.threads, t, OwesReport);
    CountAppend(s.threads, t, Drops);
    CountAppend(s.threads, t, Rejected);
    CountAppend(s.threads, t, Entered);
    CountAppend(s.threads, t, SetupActed);
  }

  lemma {:induction false} CountNone(threads: seq<Thread>, p: Thread -> bool)
    requires forall i :: 0 <= i < |threads| ==> !p(threads[i])
    ensures Count(threads, p) == 0
  {
    CountAny(threads, p);
  }

  lemma IdleInv(threads: seq<Thread>, g: Shared)
    requires forall i :: 0 <= i < |threads| ==> Idle(threads[i])
    requires Live(g.phase) && !g.clearOnCleanup && !g.reauth && g.teardowns == g.closes == g.reauthEvents == 0
    ensures Inv(State(threads, g), Past(false, false, false, false, false, g.creds, Cleared))
  {
    CountNone(threads, Tearing);
    CountNone(threads, Unfinished);
    CountNone(threads, OwesReport);
    CountNone(threads, Drops);
    CountNone(threads, Rejected);
    CountNone(threads, Entered);
    CountNone(threads, SetupActed);
  }

  lemma StartInv(roles: seq<Role>, phase: Phase, creds: Credentials)
    requires Live(phase)
    ensures var start := Start(roles, phase, creds); Inv(start, History(start, []))
  {
    var start := Start(roles, phase, creds);
    forall i | 0 <= i < |roles| ensures Idle(start.threads[i]) {
      BornIdle(roles[i], 0);
    }
    IdleInv(start.threads, start.g);
  }

  lemma StepKeepsInv(s: State, a: Action, h: Past)
    requires Inv(s, h)
    ensures Inv(Step(s, a), Noted(h, s, a))
  {
    if Takes(s, a) {
      TurnKeepsInv(s, a, h);
    } else if Enabled(s, a) {
      var ctx := if a.parent < |s.threads| then s.threads[a.parent].ctx else -1;
      BornIdle(a.role, ctx);
      SpawnKeepsInv(s, Born(a.role, ctx), h);
    }
  }

  lemma {:induction false} InvAlways(roles: seq<Role>, phase: Phase, creds: Credentials, run: seq<Action>)
    requires Live(phase)
    ensures var start := Start(roles, phase, creds); Inv(After(start, run), History(start, run))
  {
    var start := Start(roles, phase, creds);
    if run == [] {
      StartInv(roles, phase, creds);
    } else {
      var before, a := run[..|run| - 1], run[|run| - 1];
      InvAlways(roles, phase, creds, before);
      StepKeepsInv(After(start, before), a, History(start, before));
    }
  }

  // ---- Main results ------------------------------------------------------------------

  predicate Quiescent(s: State) {
    forall i :: 0 <= i < |s.threads| ==> s.threads[i].pc == Done
  }

  /** Every goroutine has finished, or the second close has ended the process. */
  predicate AtRest(s: State) {
    Quiescent(s) || s.g.closes == 2
  }

  /** Somebody asked for the session to end: a request, or a monitor that saw an error. */
  predicate Asks(t: Thread) {
    t.role.Requester? || (t.role.Monitor? && t.acted)
  }

  predicate DropsCredentials(t: Thread) {
    t.role.Requester? && !t.role.preserve
  }

  lemma SameAny(threads: seq<Thread>, p: Thread -> bool, q: Thread -> bool)
    requires forall i :: 0 <= i < |threads| ==> (p(threads[i]) <==> q(threads[i]))
    ensures AnyThread(threads, p) <==> AnyThread(threads, q)
  {
  }

  /** What the counts come to once every goroutine has finished. */
  lemma Settled(s: State, h: Past)
    requires Inv(s, h) && Quiescent(s)
    ensures Count(s.threads, Tearing) == Count(s.threads, Unfinished) == Count(s.threads, OwesReport) == 0
    ensures s.g.clearOnCleanup <==> AnyThread(s.threads, DropsCredentials)
    ensures s.g.reauth <==> AnyThread(s.threads, Rejected)
    ensures h.ended <==> AnyThread(s.threads, Asks) || AnyThread(s.threads, SetupActed)
  {
    CountNone(s.threads, Tearing);
    CountNone(s.threads, Unfinished);
    CountNone(s.threads, OwesReport);
    CountAny(s.threads, Drops);
    SameAny(s.threads, Drops, DropsCredentials);
    CountAny(s.threads, Rejected);
    CountAny(s.threads, Entered);
    SameAny(s.threads, Entered, Asks);
    CountAny(s.threads, SetupActed);
  }

  ghost predicate ClosedExactly(s: State, h: Past) {
    && s.g.closes <= 2 && (s.g.closes == 2 ==> h.doubled) && s.g.reauthEvents <= 1
    && (!h.doubled ==> s.g.teardowns <= 1)
    && (h.doubled ==> h.overlapped || h.revived)
    && (AtRest(s) ==>
          s.g.closes == (if h.doubled then 2
                         else if AnyThread(s.threads, Asks) || AnyThread(s.threads, SetupActed) then 1 else 0))
    && (Quiescent(s) ==> s.g.reauthEvents == if AnyThread(s.threads, Rejected) then 1 else 0)
  }

  lemma InvClosedExactly(s: State, h: Past)
    requires Inv(s, h)
    ensures ClosedExactly(s, h)
  {
    if Quiescent(s) {
      Settled(s, h);
    }
  }

  /**
   * In every interleaving of any number of requests, monitors, workers and connection setups that
   * succeed, fail or give up: doneCh is closed a second time, which panics, only if a setup moved
   * the state while a teardown was under way, or a disconnect won after the session had been ended.
   * In a run that has come to rest it has been exactly then, and otherwise once if anybody ended
   * the session.  Neither happens unless a setup fails during a teardown or completes after one began.
   */
  lemma DoneClosedExactly(roles: seq<Role>, phase: Phase, creds: Credentials, run: seq<Action>)
    requires Live(phase)
    ensures var start := Start(roles, phase, creds); ClosedExactly(After(start, run), History(start, run))
  {
    var start := Start(roles, phase, creds);
    InvAlways(roles, phase, creds, run);
    InvClosedExactly(After(start, run), History(start, run));
  }

  /**
   * At every moment the credentials are what was stored since they were last cleared.  Once every
   * goroutine has finished: if a request did not preserve them, what is left is exactly what setups
   * stored since then after the session had been ended and with no teardown still to finish; and if
   * neither that, a rejection nor a failed setup happened, they have never been cleared.
   */
  lemma CredentialsExactly(roles: seq<Role>, phase: Phase, creds: Credentials, run: seq<Action>)
    requires Live(phase)
    ensures var start := Start(roles, phase, creds);
            var s, h := After(start, run), History(start, run);
            && s.g.creds == h.since
            && (Quiescent(s) ==>
                  && (AnyThread(s.threads, DropsCredentials) ==> s.g.creds == h.late)
                  && (h.cleared ==> AnyThread(s.threads, DropsCredentials) || AnyThread(s.threads, Rejected)
                                    || AnyThread(s.threads, SetupActed)))
  {
    var start := Start(roles, phase, creds);
    InvAlways(roles, phase, creds, run);
    var s, h := After(start, run), History(start, run);
    if Quiescent(s) {
      Settled(s, h);
      CountAny(s.threads, SetupActed);
    }
  }

  predicate NoSetup(threads: seq<Thread>) {
    forall i :: 0 <= i < |threads| ==> !threads[i].role.Setup?
  }

  /** Without setups nothing overlaps, nothing is revived, and nothing is stored. */
  ghost predicate NoSetupOk(s: State, h: Past, creds: Credentials) {
    && NoSetup(s.threads) && !h.overlapped && !h.revived
    && h.since == (if h.cleared then Cleared else creds) && h.late == Cleared
  }

  lemma NoSetupStep(s: State, i: nat, e: Event, h: Past, u: Turn, creds: Credentials)
    requires i < |s.threads| && NoSetupOk(s, h, creds) && u.t.role == s.threads[i].role && !e.moves && !e.completes
    ensures NoSetupOk(State(s.threads[i := u.t], u.g), RecordedAs(h, s.threads, i, e), creds)
  {
  }

  lemma NoSetupEvent(g: Shared, t: Thread, a: Action)
    requires MayTurn(g, t, a) && !t.role.Setup?
    ensures !EventOf(g, t, a).moves && !EventOf(g, t, a).completes
  {
  }

  lemma {:induction false} NoSetupAlways(roles: seq<Role>, phase: Phase, creds: Credentials, run: seq<Action>)
    requires Live(phase) && forall i :: 0 <= i < |roles| ==> !roles[i].Setup?
    ensures var start := Start(roles, phase, creds); NoSetupOk(After(start, run), History(start, run), creds)
  {
    if run != [] {
      var start, before, a := Start(roles, phase, creds), run[..|run| - 1], run[|run| - 1];
      NoSetupAlways(roles, phase, creds, before);
      InvAlways(roles, phase, creds, before);
      var s := After(start, before);
      if Takes(s, a) {
        var t := s.threads[a.i];
        Turns(s, a);
        TurnThread(s.g, t, a);
        NoSetupEvent(s.g, t, a);
        NoSetupStep(s, a.i, EventOf(s.g, t, a), History(start, before), TurnIn(s, a), creds);
      }
    }
  }

  /**
   * With no connection setup in flight, in every interleaving: at most one teardown, one close of
   * doneCh and one reauth event; and once every goroutine has finished, exactly one of the first
   * two if anybody asked, and credentials are gone exactly when a request did not preserve them
   * or a monitor saw AUTH_FAILED.
   */
  lemma TeardownOnce(roles: seq<Role>, phase: Phase, creds: Credentials, run: seq<Action>)
    requires Live(phase) && forall i :: 0 <= i < |roles| ==> !roles[i].Setup?
    ensures var s := After(Start(roles, phase, creds), run);
            && s.g.teardowns <= 1 && s.g.closes <= 1 && s.g.reauthEvents <= 1
            && (Quiescent(s) ==>
                  && s.g.teardowns == s.g.closes == (if AnyThread(s.threads, Asks) then 1 else 0)
                  && s.g.reauthEvents == (if AnyThread(s.threads, Rejected) then 1 else 0)
                  && s.g.creds == if AnyThread(s.threads, DropsCredentials) || AnyThread(s.threads, Rejected)
                                  then Cleared else creds)
  {
    var start := Start(roles, phase, creds);
    InvAlways(roles, phase, creds, run);
    NoSetupAlways(roles, phase, creds, run);
    var s, h := After(start, run), History(start, run);
    CountNone(s.threads, SetupActed);
    if Quiescent(s) {
      Settled(s, h);
    }
  }
}
