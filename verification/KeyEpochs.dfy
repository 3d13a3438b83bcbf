/**
 * client.go rekeyLoop: key ids are handed out cyclically to renegotiation attempts, of which any
 * may fail, while promotion timers fire independently.
 */
module KeyEpochs {
  import opened Bytes
  import opened KeyManager

  /** An epoch comes from the initial session (key id 0) or from the n-th renegotiation attempt. */
  datatype Origin = Initial | Attempt(n: nat)

  datatype Epoch = Epoch(origin: Origin, keyId: Byte)

  /** `attempts` counts the attempts begun; `running` is the one in progress. */
  datatype State = State(keys: Keys<Epoch>, nextKeyId: Byte, attempts: nat, running: Option<Epoch>, succeeded: set<nat>)

  function IdOf(e: Epoch): Byte {
    e.keyId
  }

  const Start := State(Fresh(Epoch(Initial, 0)), 1, 0, None, {})

  datatype Action =
    | Begin              // rekeyLoop saw NeedsRekey; doRekey allocates a key id
    | GiveUp             // doRekey returned an error
    | Install            // doRekey reached manager.Prepare
    | Timer(keyId: Byte) // a promotion timer fired

  /** The rekey loop is one goroutine, and NeedsRekey is false while a secondary key is pending. */
  predicate Enabled(s: State, a: Action) {
    match a
    case Begin => s.running == None && s.keys.secondary == None
    case GiveUp => s.running.Some?
    case Install => s.running.Some?
    case Timer(_) => true
  }

  /** doRekey's allocation: cycles through 1 to 7. */
  function NextId(keyId: Byte): Byte {
    var next := (keyId as int + 1) % 8;
    if next == 0 then 1 else next as Byte
  }

  function Effect(s: State, a: Action): State
    requires Enabled(s, a)
  {
    match a
    case Begin =>
      s.(running := Some(Epoch(Attempt(s.attempts), s.nextKeyId)), nextKeyId := NextId(s.nextKeyId),
         attempts := s.attempts + 1)
    case GiveUp => s.(running := None)
    case Install =>
      var e := s.running.value;
      s.(running := None, keys := Prepared(s.keys, e),
         succeeded := if e.origin.Attempt? then s.succeeded + {e.origin.n} else s.succeeded)
    case Timer(keyId) => s.(keys := Promoted(s.keys, IdOf, keyId).0)
  }

  function Step(s: State, a: Action): State {
    if Enabled(s, a) then Effect(s, a) else s
  }

  function After(run: seq<Action>): State {
    if run == [] then Start else Step(After(run[..|run| - 1]), run[|run| - 1])
  }

  // ---- Invariant -------------------------------------------------------------

  function IdOfAttempt(n: nat): Byte {
    (1 + n % 7) as Byte
  }

  lemma NextIdOfAttempt(n: nat)
    ensures NextId(IdOfAttempt(n)) == IdOfAttempt(n + 1)
  {
  }

  predicate Sound(e: Epoch, attempts: nat) {
    match e.origin
    case Initial => e.keyId == 0
    case Attempt(n) => n < attempts && e.keyId == IdOfAttempt(n)
  }

  /** `newer` was installed when `older` was the newest epoch: every attempt in between failed. */
  ghost predicate Successive(older: Epoch, newer: Epoch, succeeded: set<nat>) {
    && newer.origin.Attempt?
    && (older.origin.Attempt? ==> older.origin.n < newer.origin.n)
    && forall i :: i in succeeded && i < newer.origin.n ==> older.origin.Attempt? && i <= older.origin.n
  }

  ghost predicate Newest(e: Epoch, succeeded: set<nat>) {
    forall i :: i in succeeded ==> e.origin.Attempt? && i <= e.origin.n
  }

  function NewestLive(k: Keys<Epoch>): Epoch {
    if k.secondary.Some? then k.secondary.value else k.current
  }

  ghost predicate Inv(s: State) {
    && AtMostTwo(s.keys)
    && s.nextKeyId == IdOfAttempt(s.attempts)
    && Sound(s.keys.current, s.attempts)
    && (s.keys.secondary.Some? ==>
          && Sound(s.keys.secondary.value, s.attempts) && s.running == None
          && Successive(s.keys.current, s.keys.secondary.value, s.succeeded))
    && (s.keys.previous.Some? ==>
          && Sound(s.keys.previous.value, s.attempts)
          && Successive(s.keys.previous.value, s.keys.current, s.succeeded))
    && Newest(NewestLive(s.keys), s.succeeded)
    && (s.running.Some? ==>
          var r := s.running.value;
          && s.attempts >= 1 && r.origin == Attempt(s.attempts - 1) && Sound(r, s.attempts)
          && forall i :: i in s.succeeded ==> i < s.attempts - 1)
    && (forall i :: i in s.succeeded ==> i < s.attempts)
    && (NewestLive(s.keys).origin.Attempt? ==> NewestLive(s.keys).origin.n in s.succeeded)
  }

  lemma StepKeepsInv(s: State, a: Action)
    requires Inv(s) && Enabled(s, a)
    ensures Inv(Effect(s, a))
  {
    match a
    case Begin => NextIdOfAttempt(s.attempts);
    case _ =>
  }

  lemma {:induction false} InvAlways(run: seq<Action>)
    ensures Inv(After(run))
  {
    if run != [] {
      var s, a := After(run[..|run| - 1]), run[|run| - 1];
      InvAlways(run[..|run| - 1]);
      if Enabled(s, a) {
        StepKeepsInv(s, a);
      }
    }
  }

  // ---- Main results ------------------------------------------------------------

  /** The two live epochs, older first, when there are two. */
  ghost predicate LivePair(k: Keys<Epoch>, older: Epoch, newer: Epoch) {
    (k.secondary == Some(newer) && older == k.current) || (k.previous == Some(older) && newer == k.current)
  }

  lemma SameIdExactly(m: nat, n: nat)
    ensures IdOfAttempt(m) == IdOfAttempt(n) <==> (n - m - 1) % 7 == 6
  {
  }

  lemma PairIds(older: Epoch, newer: Epoch, attempts: nat)
    requires Sound(older, attempts) && Sound(newer, attempts) && newer.origin.Attempt?
    ensures older.keyId == newer.keyId <==>
              older.origin.Attempt? && (newer.origin.n - older.origin.n - 1) % 7 == 6
  {
    if older.origin.Attempt? {
      SameIdExactly(older.origin.n, newer.origin.n);
    }
  }

  /**
   * In every run: never more than two live epochs, allocated ids between 1 and 7, no pending
   * secondary when a new key is installed, and two live epochs share a key id exactly when both
   * come from renegotiations and the failed attempts between them number 6 modulo 7.
   */
  lemma LiveEpochs(run: seq<Action>, older: Epoch, newer: Epoch)
    ensures var s := After(run);
            && AtMostTwo(s.keys) && 1 <= s.nextKeyId <= 7
            && (s.running.Some? ==> s.keys.secondary == None)
            && (LivePair(s.keys, older, newer) ==>
                  && newer.origin.Attempt?
                  && (older.keyId == newer.keyId <==>
                        older.origin.Attempt? && (newer.origin.n - older.origin.n - 1) % 7 == 6))
  {
    InvAlways(run);
    var s := After(run);
    if LivePair(s.keys, older, newer) {
      PairIds(older, newer, s.attempts);
    }
  }

  /** The attempts strictly between two live epochs all failed, so their number is the count above. */
  lemma AttemptsBetweenFailed(run: seq<Action>, older: Epoch, newer: Epoch, i: nat)
    requires LivePair(After(run).keys, older, newer)
    ensures newer.origin.Attempt?
    ensures older.origin.Attempt? && older.origin.n < i < newer.origin.n ==> i !in After(run).succeeded
    ensures older.origin.Initial? && i < newer.origin.n ==> i !in After(run).succeeded
  {
    InvAlways(run);
  }

  /** Otherwise a packet's key id leads to the epoch that sealed it. */
  lemma SelectedUnlessSixFailures(run: seq<Action>, older: Epoch, newer: Epoch)
    requires LivePair(After(run).keys, older, newer)
    ensures newer.origin.Attempt?
    ensures !(older.origin.Attempt? && (newer.origin.n - older.origin.n - 1) % 7 == 6) ==>
              var k := After(run).keys;
              Selected(k, IdOf, older.keyId) == Some(older) && Selected(k, IdOf, newer.keyId) == Some(newer)
  {
    LiveEpochs(run, older, newer);
    InvAlways(run);
  }

  lemma Then(run: seq<Action>, a: Action)
    ensures After(run + [a]) == Step(After(run), a)
  {
  }

  lemma FailOnce(run: seq<Action>) returns (run': seq<Action>)
    requires var s := After(run); s.running == None && s.keys.secondary == None
    ensures var s := After(run);
            After(run') == s.(attempts := s.attempts + 1, nextKeyId := NextId(s.nextKeyId))
  {
    Then(run, Begin);
    run' := run + [Begin];
    Then(run', GiveUp);
    run' := run' + [GiveUp];
  }

  lemma FirstRekey() returns (run: seq<Action>)
    ensures var s := After(run);
            s.running == None && s.keys.secondary == None && s.keys.current == Epoch(Attempt(0), 1) && s.attempts == 1
  {
    Then([], Begin);
    run := [Begin];
    assert [] + [Begin] == run;
    Then(run, Install);
    run := run + [Install];
    Then(run, Timer(1));
    run := run + [Timer(1)];
  }

  /** Six failures in a row do lead there: the secondary's packets are then handed to the current key. */
  lemma SixFailuresCollide() returns (run: seq<Action>)
    ensures var k := After(run).keys;
            && k.secondary.Some? && k.secondary.value != k.current
            && Selected(k, IdOf, k.secondary.value.keyId) == Some(k.current)
  {
    run := FirstRekey();
    for i := 0 to 6
      invariant var s := After(run);
                s.running == None && s.keys.secondary == None && s.keys.current == Epoch(Attempt(0), 1)
                && s.attempts == 1 + i
    {
      run := FailOnce(run);
    }
    InvAlways(run);
    Then(run, Begin);
    run := run + [Begin];
    Then(run, Install);
    run := run + [Install];
  }
}
