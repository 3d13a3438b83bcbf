/**
 * client.go disconnect, sessionMonitorFor, setDisconnected and the locked sections of a connection
 * setup: any number of goroutines may set the session up and end it.  A step is what a goroutine
 * does between two lock operations.
 */
module Teardown {

  /** Of the challenge and the captured TLS secrets, whether they are present. */
  datatype Credentials = Credentials(token: string, expiry: int, stateId: string, phase1Ip: string, authToken: string,
                                     challenge: bool, tlsSecrets: bool)

  /** clearCredentialsLocked. */
  const Cleared := Credentials("", 0, "", "", "", false, false)

  datatype Phase = New | Connecting | Up | Disconnecting | Disconnected

  predicate Live(p: Phase) {
    p != Disconnecting && p != Disconnected
  }

  datatype Cause = EndOfStream | AuthFailed | OtherError

  /**
   * A requester calls disconnect; one inside the client (keepalive, inactivity, a failed TUN
   * write) is counted in the wait group, a caller's Disconnect is not.  Monitors watch one TLS
   * epoch each.  A worker only ends when cancelled.  A setup is a Connect, or with `phase2Only` a
   * ConnectPhase2 or Reconnect; `direct` says that phase 1 already brought the PUSH_REPLY, and
   * `got` is what it has to store.
   */
  datatype Role =
    | Requester(preserve: bool, inGroup: bool)
    | Monitor(cause: Cause)
    | Worker
    | Setup(phase2Only: bool, direct: bool, got: Credentials)

  datatype Pc =
    | Waiting                // blocked on its event
    | Reporting(first: bool) // monitor: about to emit, if first, the reauth event
    | Entering               // about to run disconnect's locked section
    | Won                    // moved the state to disconnecting
    | Closed                 // cancelled the context and closed the connection
    | Draining               // disconnect's goroutine: wg.Wait, then cleanup
    | Finishing              // disconnect's goroutine: about to run its locked section
    | Signalling             // disconnect's goroutine: about to close doneCh
    | Dialing                // setup: about to check the state for phase 1
    | Answering              // setup: waiting for the server's answer in phase 1
    | Checking               // setup: about to check the state for phase 2
    | Caching                // setup: about to cache the token
    | Linking                // setup: connecting for phase 2, or reading the buffered PUSH_REPLY
    | Secured                // setup: captured the TLS secrets, waiting for PUSH_REPLY
    | Pushed                 // setup: stored the push options, bringing the tunnel up
    | Installing             // setup: marked the tunnel as up, about to install the cancel function
    | Starting               // setup: starting the session's goroutines
    | Done

  /**
   * `acted` is set once a monitor has taken its error path or a failed setup has moved the state;
   * `ctx` is the context the goroutine runs under.
   */
  datatype Thread = Thread(role: Role, pc: Pc, acted: bool, ctx: int)

  /** `closes` counts the executions of close(doneCh): the second one panics. */
  datatype Shared = Shared(phase: Phase, clearOnCleanup: bool, creds: Credentials, reauth: bool,
                           teardowns: nat, closes: nat, reauthEvents: nat,
                           cancelFn: int, contexts: nat, dead: set<int>)

  datatype State = State(threads: seq<Thread>, g: Shared)

  /** Counted in the wait group; disconnect's own goroutine is not. */
  predicate InGroup(t: Thread) {
    && (t.role.Monitor? || t.role.Worker? || (t.role.Requester? && t.role.inGroup))
    && t.pc != Draining && t.pc != Finishing && t.pc != Signalling && t.pc != Done
  }

  predicate GroupBusy(threads: seq<Thread>) {
    exists i :: 0 <= i < |threads| && InGroup(threads[i])
  }

  predicate Preserves(r: Role) {
    r.Requester? ==> r.preserve
  }

  // ---- Steps ---------------------------------------------------------------------

  /**
   * Run goes on, Fail is a setup's error return through setDisconnected, Quit one that leaves the
   * state alone, Cancel the end of the goroutine's context, and Spawn a new goroutine started by
   * another one.
   */
  datatype Action = Run(i: nat) | Fail(i: nat) | Quit(i: nat) | Cancel(i: nat) | Spawn(role: Role, parent: nat)

  predicate MayFail(t: Thread) {
    t.pc == Answering || t.pc == Linking || t.pc == Secured || t.pc == Pushed
  }

  /** Goroutines of the group are started by one of the group or by the setup; requests may come any time. */
  predicate Enabled(s: State, a: Action) {
    && s.g.closes < 2
    && match a
       case Spawn(r, parent) =>
         && !r.Setup?
         && ((r.Requester? && !r.inGroup)
             || (parent < |s.threads| && (InGroup(s.threads[parent]) || s.threads[parent].pc == Starting)))
       case Cancel(i) =>
         i < |s.threads| && s.threads[i].pc == Waiting && InGroup(s.threads[i]) && s.threads[i].ctx in s.g.dead
       case Fail(i) => i < |s.threads| && MayFail(s.threads[i])
       case Quit(i) => i < |s.threads| && s.threads[i].pc == Checking
       case Run(i) =>
         && i < |s.threads|
         && (match s.threads[i].pc
             case Waiting => s.threads[i].role.Monitor?
             case Draining => !GroupBusy(s.threads)
             case Done => false
             case _ => true)
  }

  datatype Turn = Turn(g: Shared, t: Thread)

  /** The monitor's error path up to the unlock. */
  function MonitorActs(g: Shared, t: Thread): Turn
    requires t.role.Monitor?
  {
    match t.role.cause
    case EndOfStream => Turn(g, t.(pc := Done))
    case AuthFailed => Turn(g.(reauth := true, creds := Cleared), t.(pc := Reporting(!g.reauth), acted := true))
    case OtherError => Turn(g, t.(pc := Reporting(false), acted := true))
  }

  /** disconnect's locked section. */
  function Enter(g: Shared, t: Thread): Turn {
    var keep := Preserves(t.role);
    var g1 := g.(clearOnCleanup := g.clearOnCleanup || !keep);
    if Live(g.phase) then Turn(g1.(phase := Disconnecting, teardowns := g.teardowns + 1), t.(pc := Won))
    else Turn(g1.(creds := if g.phase == Disconnected && !keep then Cleared else g.creds), t.(pc := Done))
  }

  function SetDisconnected(g: Shared, t: Thread): Turn {
    if g.phase == Disconnected then Turn(g, t.(pc := Done))
    else Turn(g.(phase := Disconnected, creds := Cleared, closes := if g.closes == 0 then 1 else g.closes),
              t.(pc := Done, acted := true))
  }

  /** What a setup stores when it goes on. */
  function Stored(c: Credentials, t: Thread): Credentials {
    if !t.role.Setup? then c
    else
      var got := t.role.got;
      match t.pc
      case Answering => c.(challenge := true)
      case Caching =>
        c.(token := got.token, expiry := got.expiry, stateId := if t.role.direct then c.stateId else got.stateId,
           phase1Ip := got.phase1Ip)
      case Linking => if t.role.direct then c.(authToken := got.authToken) else c.(tlsSecrets := true)
      case Secured => c.(authToken := got.authToken)
      case _ => c
  }

  /** A setup goes on.  Line 881 marks the tunnel as up whatever the state has become. */
  function SetupGoesOn(g: Shared, t: Thread): Turn {
    var g1 := g.(creds := Stored(g.creds, t));
    match t.pc
    case Dialing =>
      if g.phase == New then Turn(g.(phase := Connecting), t.(pc := Answering)) else Turn(g, t.(pc := Done))
    case Answering => Turn(g1, t.(pc := Checking))
    case Checking =>
      Turn(g, t.(pc := if g.phase == Connecting && g.creds.challenge then Caching else Done))
    case Caching => Turn(g1, t.(pc := Linking))
    case Linking => Turn(g1, t.(pc := if t.role.Setup? && t.role.direct then Pushed else Secured))
    case Secured => Turn(g1, t.(pc := Pushed))
    case Pushed => Turn(g.(phase := Up), t.(pc := Installing))
    case Installing =>
      Turn(g.(cancelFn := g.contexts, contexts := g.contexts + 1), t.(pc := Starting, ctx := g.contexts))
    case _ => Turn(g, t.(pc := Done))
  }

  function GoesOn(g: Shared, t: Thread): Turn {
    match t.pc
    case Waiting => if t.role.Monitor? then MonitorActs(g, t) else Turn(g, t)
    case Reporting(first) =>
      Turn(g.(reauthEvents := g.reauthEvents + if first then 1 else 0), t.(pc := Entering))
    case Entering => Enter(g, t)
    case Won => Turn(g.(dead := g.dead + {g.cancelFn}), t.(pc := Closed))
    case Closed => Turn(g, t.(pc := Draining))
    case Draining => Turn(g, t.(pc := Finishing))
    case Finishing =>
      Turn(g.(creds := if g.clearOnCleanup then Cleared else g.creds, phase := Disconnected), t.(pc := Signalling))
    case Signalling => Turn(g.(closes := g.closes + 1), t.(pc := Done))
    case _ => SetupGoesOn(g, t)
  }

  function TurnOf(g: Shared, t: Thread, a: Action): Turn {
    match a
    case Run(_) => GoesOn(g, t)
    case Fail(_) => SetDisconnected(g, t)
    case _ => Turn(g, t.(pc := Done))
  }

  function Born(r: Role, ctx: int): Thread {
    Thread(r, match r
              case Requester(_, _) => Entering
              case Setup(phase2Only, _, _) => if phase2Only then Checking else Dialing
              case _ => Waiting, false, ctx)
  }

  function Step(s: State, a: Action): State {
    if !Enabled(s, a) then s
    else if a.Spawn? then
      s.(threads := s.threads + [Born(a.role, if a.parent < |s.threads| then s.threads[a.parent].ctx else -1)])
    else
      var u := TurnOf(s.g, s.threads[a.i], a);
      State(s.threads[a.i := u.t], u.g)
  }

  /** A session that is new, being set up, or up with its goroutines under context 0. */
  function Start(roles: seq<Role>, phase: Phase, creds: Credentials): State {
    State(seq(|roles|, i requires 0 <= i < |roles| => Born(roles[i], 0)),
          Shared(phase, false, creds, false, 0, 0, 0, if phase == Up then 0 else -1, 1, {}))
  }

  function After(start: State, run: seq<Action>): State {
    if run == [] then start else Step(After(start, run[..|run| - 1]), run[|run| - 1])
  }

  // ---- What a run has seen ---------------------------------------------------------

  /** Carries a teardown that has not closed doneCh yet. */
  predicate Tearing(t: Thread) {
    t.pc == Won || t.pc == Closed || t.pc == Draining || t.pc == Finishing || t.pc == Signalling
  }

  /** ... and has not run its last locked section either. */
  predicate Unfinished(t: Thread) {
    t.pc == Won || t.pc == Closed || t.pc == Draining || t.pc == Finishing
  }

  ghost predicate AnyThread(threads: seq<Thread>, p: Thread -> bool) {
    exists i :: 0 <= i < |threads| && p(threads[i])
  }

  /**
   * `ended`: a disconnect has won, or a failed setup has moved the state.  `overlapped`: a setup
   * moved the state while a teardown was under way.  `revived`: a setup marked the tunnel as up
   * after the session had been ended.  `doubled`: overlapped, or a disconnect won after the session
   * had been ended.  `cleared`: credentials have been cleared.  `since` is what there is of them
   * counting what was stored since they were last cleared, and `late` what was stored since then
   * after the session had been ended and while no teardown was still to finish.
   */
  datatype Past = Past(ended: bool, overlapped: bool, revived: bool, doubled: bool, cleared: bool,
                       since: Credentials, late: Credentials)

  /** What a turn means for the history: `goesOn` is any Run, which stores what Stored says. */
  datatype Event = Event(begins: bool, moves: bool, completes: bool, clears: bool, goesOn: bool)

  function EventOf(g: Shared, t: Thread, a: Action): Event {
    var moves := a.Fail? && g.phase != Disconnected;
    Event(a.Run? && t.pc == Entering && Live(g.phase), moves, a.Run? && t.pc == Pushed,
          moves || ClearsOnRun(g, t, a), a.Run?)
  }

  predicate ClearsOnRun(g: Shared, t: Thread, a: Action) {
    a.Run? && match t.pc
              case Waiting => t.role.Monitor? && t.role.cause == AuthFailed
              case Entering => g.phase == Disconnected && !Preserves(t.role)
              case Finishing => g.clearOnCleanup
              case _ => false
  }

  /** `tearing` and `unfinished` say whether some goroutine is. */
  function Recorded(h: Past, e: Event, t: Thread, tearing: bool, unfinished: bool): Past {
    Past(h.ended || e.begins || e.moves,
         h.overlapped || (e.moves && tearing),
         h.revived || (e.completes && h.ended),
         h.doubled || (e.moves && tearing) || (e.begins && h.ended),
         h.cleared || e.clears,
         if e.clears then Cleared else if e.goesOn then Stored(h.since, t) else h.since,
         if e.clears then Cleared else if e.goesOn && h.ended && !unfinished then Stored(h.late, t) else h.late)
  }

  ghost function History(start: State, run: seq<Action>): Past {
    if run == [] then Past(false, false, false, false, false, start.g.creds, Cleared)
    else Noted(History(start, run[..|run| - 1]), After(start, run[..|run| - 1]), run[|run| - 1])
  }

  /** One step more. */
  ghost function Noted(h: Past, s: State, a: Action): Past {
    if !Enabled(s, a) || a.Spawn? then h
    else RecordedAs(h, s.threads, a.i, EventOf(s.g, s.threads[a.i], a))
  }

  /** The goroutine at position i takes a turn that means `e`. */
  ghost function RecordedAs(h: Past, threads: seq<Thread>, i: nat, e: Event): Past
    requires i < |threads|
  {
    Recorded(h, e, threads[i], AnyThread(threads, Tearing), AnyThread(threads, Unfinished))
  }
}
