/** internal/datachannel: the 64-slot replay window, as written, against the set of accepted ids. */
module Replay {
  import opened Bytes

  const SIZE := 64

  /** `bits[d]` is meant to say that id top - d was received. */
  datatype Window = Window(bits: seq<bool>, top: Word32, started: bool)

  predicate Valid(w: Window) {
    |w.bits| == SIZE
  }

  function NoBits(): (s: seq<bool>)
    ensures |s| == SIZE && forall d :: 0 <= d < SIZE ==> !s[d]
  {
    seq(SIZE, _ => false)
  }

  function NewWindow(): (w: Window)
    ensures Valid(w) && !w.started
  {
    Window(NoBits(), 0, false)
  }

  /** checkReplay: no error. */
  predicate Passes(w: Window, id: Word32)
    requires Valid(w)
  {
    !w.started || id > w.top || (w.top - id < SIZE && !w.bits[w.top - id])
  }

  /** The shift loop clears `n` slots, counting absolute ids from top + 1 modulo 64. */
  predicate InCleared(top: Word32, n: nat, d: nat) {
    (d - top - 1) % SIZE < n
  }

  lemma Residue(n: int, k: int, r: nat)
    requires r < SIZE && n == SIZE * k + r
    ensures n % SIZE == r
  {
  }

  /** Ids less than 64 apart have different slots. */
  lemma DifferentSlots(i: nat, j: nat)
    requires i < j < i + SIZE
    ensures i % SIZE != j % SIZE
  {
  }

  function Cleared(bits: seq<bool>, top: Word32, n: nat): (r: seq<bool>)
    ensures |r| == |bits|
  {
    seq(|bits|, d requires 0 <= d < |bits| => bits[d] && !InCleared(top, n, d))
  }

  function Advance(w: Window, id: Word32): int {
    if w.started then id - w.top else 0
  }

  function Min(a: int, b: int): int {
    if a < b then a else b
  }

  /** markSeen. */
  function Marked(w: Window, id: Word32): (r: Window)
    requires Valid(w)
    ensures Valid(r)
  {
    if !w.started || id > w.top then
      Window(Cleared(w.bits, w.top, Min(Advance(w, id), SIZE))[0 := true], id, true)
    else if w.top - id < SIZE then w.(bits := w.bits[w.top - id := true])
    else w
  }

  // ---- Runs and the specification ----------------------------------------------

  /** The window, and the ids it has let through, after `ids` were offered in turn. */
  datatype History = History(window: Window, accepted: set<int>)

  function Offered(h: History, id: Word32): (r: History)
    requires Valid(h.window)
    ensures Valid(r.window)
  {
    if Passes(h.window, id) then History(Marked(h.window, id), h.accepted + {id}) else h
  }

  function After(ids: seq<Word32>): (r: History)
    ensures Valid(r.window)
  {
    if ids == [] then History(NewWindow(), {}) else Offered(After(ids[..|ids| - 1]), ids[|ids| - 1])
  }

  /** Specification: not accepted before, and less than 64 behind everything accepted. */
  predicate Fresh(accepted: set<int>, id: int) {
    id !in accepted && forall a :: a in accepted ==> a - id < SIZE
  }

  ghost predicate MeetsSpec(h: History)
    requires Valid(h.window)
  {
    forall id: Word32 :: Passes(h.window, id) <==> Fresh(h.accepted, id)
  }

  // ---- What holds as written ---------------------------------------------------

  ghost predicate Inv(h: History) {
    && Valid(h.window)
    && (h.window.started <==> h.accepted != {})
    && (!h.window.started ==> forall d :: 0 <= d < SIZE ==> !h.window.bits[d])
    && (h.window.started ==>
          h.window.bits[0] && h.window.top in h.accepted && forall a :: a in h.accepted ==> 0 <= a <= h.window.top)
  }

  lemma OfferedKeepsInv(h: History, id: Word32)
    requires Inv(h)
    ensures Inv(Offered(h, id))
  {
  }

  lemma {:induction false} InvAlways(ids: seq<Word32>)
    ensures Inv(After(ids))
  {
    if ids != [] {
      InvAlways(ids[..|ids| - 1]);
      OfferedKeepsInv(After(ids[..|ids| - 1]), ids[|ids| - 1]);
    }
  }

  /**
   * After any run: the top is the highest id accepted, it is not accepted again, nothing 64 or
   * more behind it is accepted, and everything above it is.
   */
  lemma AsWritten(ids: seq<Word32>, id: Word32)
    ensures var h := After(ids);
            h.accepted != {} ==>
              && h.window.top in h.accepted && (forall a :: a in h.accepted ==> a <= h.window.top)
              && !Passes(h.window, h.window.top)
              && (id + SIZE <= h.window.top ==> !Passes(h.window, id))
              && (id > h.window.top ==> Passes(h.window, id))
  {
    InvAlways(ids);
  }

  // ---- Where it departs --------------------------------------------------------

  /** Packet 0 is accepted, packet 1 is accepted, and packet 0 is accepted again. */
  lemma SecondCopyAccepted()
    ensures var h := After([0, 1]); 0 in h.accepted && Passes(h.window, 0) && !MeetsSpec(h)
  {
    var ids: seq<Word32> := [0, 1];
    assert ids[..1] == [0] && ids[..1][..0] == [];
    var h0 := After([]);
    var h1 := After([0]);
    assert h1 == Offered(h0, 0);
    assert After(ids) == Offered(h1, 1);
    assert !Fresh(After(ids).accepted, 0);
  }

  /** Ids 5, 3 and 6 are accepted, and then 4, which is new and close enough, is refused. */
  lemma FreshIdRefused()
    ensures var h := After([5, 3, 6]); h.accepted == {5, 3, 6} && Fresh(h.accepted, 4) && !Passes(h.window, 4)
  {
    var ids: seq<Word32> := [5, 3, 6];
    assert ids[..2] == [5, 3] && ids[..2][..1] == [5] && ids[..2][..1][..0] == [];
    var h1 := Offered(After([]), 5);
    var h2 := Offered(h1, 3);
    assert After(ids) == Offered(h2, 6);
    assert h2.window.bits[2] && !InCleared(5, 1, 2);
  }

  ghost predicate SlotAgrees(h: History, d: nat)
    requires Valid(h.window) && d < SIZE
  {
    h.window.bits[d] <==> h.window.top - d in h.accepted
  }

  /** Given Inv, meeting the specification is a matter of slots 1 to 63 alone. */
  ghost predicate SlotsAgree(h: History)
    requires Valid(h.window)
  {
    h.window.started ==> forall d :: 1 <= d < SIZE && d <= h.window.top ==> SlotAgrees(h, d)
  }

  lemma MeetsSpecIffSlotsAgree(h: History)
    requires Inv(h)
    ensures MeetsSpec(h) <==> SlotsAgree(h)
  {
    var w := h.window;
    if MeetsSpec(h) && w.started {
      forall d | 1 <= d < SIZE && d <= w.top ensures SlotAgrees(h, d) {
        assert Passes(w, w.top - d) <==> Fresh(h.accepted, w.top - d);
      }
    }
    if SlotsAgree(h) {
      forall id: Word32 ensures Passes(w, id) <==> Fresh(h.accepted, id) {
        if w.started && id < w.top {
          var d := w.top - id;
          if d < SIZE {
            assert SlotAgrees(h, d);
          }
        }
      }
    }
  }

  /** After moving up by `a`, slot d must say what slot d - a said, and slots below a nothing. */
  predicate SlotShifts(w: Window, a: int, d: nat)
    requires Valid(w) && a >= 1 && d < SIZE
  {
    (w.bits[d] && !InCleared(w.top, Min(a, SIZE), d)) <==> (a <= d && w.bits[d - a])
  }

  predicate ShiftsRight(w: Window, a: int)
    requires Valid(w) && a >= 1
  {
    forall d :: 1 <= d < SIZE && d <= w.top + a ==> SlotShifts(w, a, d)
  }

  /** Can be checked before the call: the code's shift happens to be right for this id. */
  predicate ShiftHarmless(w: Window, id: Word32)
    requires Valid(w)
  {
    !w.started || id <= w.top || id - w.top >= SIZE || ShiftsRight(w, id - w.top)
  }

  lemma FarJumpClearsAll(top: Word32, d: nat)
    ensures InCleared(top, SIZE, d)
  {
  }

  /**
   * From a state that meets the specification, accepting `id` leads to one that does exactly when
   * the id does not move the window, jumps 64 or more, or finds slots that happen to shift right.
   */
  lemma KeepsSpecExactly(h: History, id: Word32)
    requires Inv(h) && MeetsSpec(h) && Passes(h.window, id)
    ensures MeetsSpec(Offered(h, id)) <==> ShiftHarmless(h.window, id)
  {
    MeetsSpecIffSlotsAgree(h);
    OfferedKeepsInv(h, id);
    MeetsSpecIffSlotsAgree(Offered(h, id));
    SlotsAfter(h, id);
  }

  /** From agreeing slots, slot d agrees after a move up to `id` exactly when it shifts right. */
  lemma SlotAfter(h: History, id: Word32, d: nat)
    requires Inv(h) && SlotsAgree(h) && h.window.started && id > h.window.top
    requires 1 <= d < SIZE && d <= id
    ensures SlotAgrees(Offered(h, id), d) <==> SlotShifts(h.window, id - h.window.top, d)
    ensures id - h.window.top >= SIZE ==> SlotAgrees(Offered(h, id), d)
  {
    var w, a := h.window, id - h.window.top;
    FarJumpClearsAll(w.top, d);
    if d > a {
      assert SlotAgrees(h, d - a);
    }
  }

  lemma SlotsAfter(h: History, id: Word32)
    requires Inv(h) && SlotsAgree(h) && Passes(h.window, id)
    ensures SlotsAgree(Offered(h, id)) <==> ShiftHarmless(h.window, id)
  {
    var w, h' := h.window, Offered(h, id);
    if w.started && id <= w.top {
      forall d | 1 <= d < SIZE && d <= w.top ensures SlotAgrees(h', d) {
        assert SlotAgrees(h, d);
      }
    } else if w.started {
      var a := id - w.top;
      if a >= SIZE || ShiftsRight(w, a) {
        forall d | 1 <= d < SIZE && d <= id ensures SlotAgrees(h', d) {
          SlotAfter(h, id, d);
        }
      }
      if SlotsAgree(h') {
        forall d | 1 <= d < SIZE && d <= w.top + a ensures SlotShifts(w, a, d) {
          assert SlotAgrees(h', d);
          SlotAfter(h, id, d);
        }
      }
    }
  }

  /** The window meets the specification at every moment of the run. */
  ghost predicate AlwaysMeets(ids: seq<Word32>) {
    MeetsSpec(After(ids)) && (ids != [] ==> AlwaysMeets(ids[..|ids| - 1]))
  }

  /** Every id that was accepted was harmless when it was offered. */
  predicate AllHarmless(ids: seq<Word32>) {
    ids != [] ==>
      var w, id := After(ids[..|ids| - 1]).window, ids[|ids| - 1];
      AllHarmless(ids[..|ids| - 1]) && (Passes(w, id) ==> ShiftHarmless(w, id))
  }

  /** Over every run, the code refines the set of accepted ids throughout if and only if no accepted id did harm. */
  lemma {:induction false} AlwaysMeetsExactly(ids: seq<Word32>)
    ensures AlwaysMeets(ids) <==> AllHarmless(ids)
  {
    if ids == [] {
      assert forall id: Word32 :: Passes(NewWindow(), id) && Fresh({}, id);
    } else {
      var before, id := ids[..|ids| - 1], ids[|ids| - 1];
      AlwaysMeetsExactly(before);
      InvAlways(before);
      if AlwaysMeets(before) && Passes(After(before).window, id) {
        KeepsSpecExactly(After(before), id);
      }
    }
  }

  /** From any reachable state, a jump of 64 or more brings the window back to the specification. */
  lemma JumpRestores(ids: seq<Word32>, id: Word32)
    requires After(ids).window.started && id - After(ids).window.top >= SIZE
    ensures MeetsSpec(After(ids + [id]))
  {
    InvAlways(ids);
    var h := After(ids);
    var h' := Offered(h, id);
    assert (ids + [id])[..|ids|] == ids;
    OfferedKeepsInv(h, id);
    forall d | 1 <= d < SIZE && d <= id ensures SlotAgrees(h', d) {
      FarJumpClearsAll(h.window.top, d);
    }
    MeetsSpecIffSlotsAgree(h');
  }

  // ---- In-order traffic --------------------------------------------------------

  predicate Increasing(ids: seq<Word32>) {
    forall i, j :: 0 <= i < j < |ids| ==> ids[i] < ids[j]
  }

  predicate OnlyTop(w: Window) {
    Valid(w) && w.started && w.bits[0] && forall d :: 1 <= d < SIZE ==> !w.bits[d]
  }

  /** The next id in order, or the first. */
  lemma InOrderNext(h: History, id: Word32)
    requires h.window == NewWindow() || (OnlyTop(h.window) && h.window.top < id)
    ensures var h' := Offered(h, id); OnlyTop(h'.window) && h'.window.top == id && h'.accepted == h.accepted + {id}
  {
  }

  ghost predicate Exactly(accepted: set<int>, ids: seq<Word32>) {
    forall a :: a in accepted <==> a in ids
  }

  lemma ExactlyNext(accepted: set<int>, ids: seq<Word32>, n: nat)
    requires n + 1 == |ids| && Exactly(accepted, ids[..n])
    ensures Exactly(accepted + {ids[n]}, ids)
  {
    assert ids == ids[..n] + [ids[n]];
  }

  /** Strictly increasing ids are all accepted, and leave no trace but the top. */
  lemma {:induction false} InOrderAccepted(ids: seq<Word32>)
    requires Increasing(ids) && ids != []
    ensures var h := After(ids); OnlyTop(h.window) && h.window.top == ids[|ids| - 1] && Exactly(h.accepted, ids)
  {
    var n := |ids| - 1;
    var h := After(ids[..n]);
    if n > 0 {
      InOrderAccepted(ids[..n]);
      assert h.window.top == ids[n - 1] < ids[n];
    } else {
      assert h == History(NewWindow(), {});
    }
    InOrderNext(h, ids[n]);
    ExactlyNext(h.accepted, ids, n);
  }

  /**
   * After in-order traffic the window meets the specification exactly when there was one packet or
   * the last step was 64 or more; otherwise it would let through again everything within the
   * last 63 ids except the top.
   */
  lemma InOrderExactly(ids: seq<Word32>)
    requires Increasing(ids) && ids != []
    ensures var h, n := After(ids), |ids| - 1;
            && (MeetsSpec(h) <==> n == 0 || ids[n] - ids[n - 1] >= SIZE)
            && (forall i :: 0 <= i < n && ids[n] - ids[i] < SIZE ==> Passes(h.window, ids[i]))
  {
    var h := After(ids);
    InOrderAccepted(ids);
    InvAlways(ids);
    MeetsSpecIffSlotsAgree(h);
    InOrderSlots(ids, h);
  }

  lemma InOrderSlots(ids: seq<Word32>, h: History)
    requires Increasing(ids) && ids != [] && OnlyTop(h.window) && h.window.top == ids[|ids| - 1]
    requires forall a :: a in h.accepted <==> a in ids
    ensures var n := |ids| - 1; SlotsAgree(h) <==> n == 0 || ids[n] - ids[n - 1] >= SIZE
  {
    var n := |ids| - 1;
    if n > 0 && ids[n] - ids[n - 1] < SIZE {
      assert ids[n - 1] in h.accepted;
      assert !SlotAgrees(h, ids[n] - ids[n - 1]);
    } else {
      OthersAreFar(ids);
      forall d | 1 <= d < SIZE && d <= h.window.top ensures SlotAgrees(h, d) {
      }
    }
  }

  lemma OthersAreFar(ids: seq<Word32>)
    requires Increasing(ids) && ids != []
    requires |ids| == 1 || ids[|ids| - 1] - ids[|ids| - 2] >= SIZE
    ensures forall a :: a in ids ==> a == ids[|ids| - 1] || ids[|ids| - 1] - a >= SIZE
  {
  }
}

/**
 * A variant, not the code: the same shift loop with the other two places indexed the way the loop
 * indexes, by id modulo 64.  It meets the specification after every run.
 */
module RingReplay {
  import opened Bytes
  import opened Replay

  predicate RingPasses(w: Window, id: Word32)
    requires Valid(w)
  {
    !w.started || id > w.top || (w.top - id < SIZE && !w.bits[id % SIZE])
  }

  function RingMarked(w: Window, id: Word32): (r: Window)
    requires Valid(w)
    ensures Valid(r)
  {
    if !w.started || id > w.top then
      Window(Cleared(w.bits, w.top, Min(Advance(w, id), SIZE))[id % SIZE := true], id, true)
    else if w.top - id < SIZE then w.(bits := w.bits[id % SIZE := true])
    else w
  }

  function RingOffered(h: History, id: Word32): (r: History)
    requires Valid(h.window)
    ensures Valid(r.window)
  {
    if RingPasses(h.window, id) then History(RingMarked(h.window, id), h.accepted + {id}) else h
  }

  function RingAfter(ids: seq<Word32>): (r: History)
    ensures Valid(r.window)
  {
    if ids == [] then History(NewWindow(), {}) else RingOffered(RingAfter(ids[..|ids| - 1]), ids[|ids| - 1])
  }

  /** Every id of the current window has its own slot, and the slot says whether it was accepted. */
  ghost predicate RingInv(h: History) {
    && Valid(h.window)
    && (h.window.started <==> h.accepted != {})
    && (!h.window.started ==> forall d :: 0 <= d < SIZE ==> !h.window.bits[d])
    && (h.window.started ==>
          && h.window.top in h.accepted && (forall a :: a in h.accepted ==> 0 <= a <= h.window.top)
          && forall id :: 0 <= id <= h.window.top && h.window.top - id < SIZE ==> SlotRight(h, id))
  }

  ghost predicate SlotRight(h: History, id: nat)
    requires Valid(h.window)
  {
    h.window.bits[id % SIZE] <==> id in h.accepted
  }

  /** The loop clears the slots of the ids that come into range and of no others that stay. */
  lemma ClearedExactly(top: Word32, a: nat, id: nat)
    requires a >= 1 && top + a - SIZE < id <= top + a
    ensures InCleared(top, Min(a, SIZE), id % SIZE) <==> id > top
  {
    var slot, x := id % SIZE, top + 1;
    Residue(slot - x, (id - x) / SIZE - id / SIZE, (id - x) % SIZE);
    if id <= top {
      Residue(id - x, -1, id - x + SIZE);
    } else if a < SIZE {
      Residue(id - x, 0, id - x);
    }
  }

  lemma RingMoveKeepsInv(h: History, id: Word32)
    requires RingInv(h) && h.window.started && id > h.window.top
    ensures RingInv(RingOffered(h, id))
  {
    var w, h' := h.window, RingOffered(h, id);
    var a := id - w.top;
    forall k | 0 <= k <= id && id - k < SIZE ensures SlotRight(h', k) {
      ClearedExactly(w.top, a, k);
      if k < id {
        DifferentSlots(k, id);
        assert k <= w.top ==> SlotRight(h, k);
      }
    }
  }

  lemma RingOfferedKeepsInv(h: History, id: Word32)
    requires RingInv(h)
    ensures RingInv(RingOffered(h, id))
  {
    var w, h' := h.window, RingOffered(h, id);
    if !w.started {
      forall k | 0 <= k <= id && id - k < SIZE ensures SlotRight(h', k) {
        if k < id {
          DifferentSlots(k, id);
        }
      }
    } else if id > w.top {
      RingMoveKeepsInv(h, id);
    } else if w.top - id < SIZE {
      forall k | 0 <= k <= w.top && w.top - k < SIZE ensures SlotRight(h', k) {
        assert SlotRight(h, k);
        if k != id {
          DifferentSlots(Min(k, id), if k < id then id else k);
        }
      }
    }
  }

  /** After every run the variant accepts exactly what the specification accepts. */
  lemma {:induction false} RingMeetsSpec(ids: seq<Word32>)
    ensures RingInv(RingAfter(ids))
    ensures forall id: Word32 :: RingPasses(RingAfter(ids).window, id) <==> Fresh(RingAfter(ids).accepted, id)
  {
    if ids != [] {
      RingMeetsSpec(ids[..|ids| - 1]);
      RingOfferedKeepsInv(RingAfter(ids[..|ids| - 1]), ids[|ids| - 1]);
    }
    var h := RingAfter(ids);
    forall id: Word32 ensures RingPasses(h.window, id) <==> Fresh(h.accepted, id) {
      if h.window.started && id <= h.window.top && h.window.top - id < SIZE {
        assert SlotRight(h, id);
      }
    }
  }
}
