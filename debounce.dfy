/** The plate debouncer both camera lanes run inside their main loop (car_entry.py
    and car_exit.py, `main`): every confirmed OCR reading is appended to a buffer;
    once the buffer holds at least three readings, the most common plate is taken
    if it was read at least three times and it is not the plate last acted on
    within the last five seconds. The buffer is emptied only when a plate is taken. */
module Debounce {
  import opened Text
  import Plates

  const MinReadings: nat := 3
  const MinVotes: nat := 3
  const Cooldown: real := 5.0

  /** How often `x` was read. */
  function Count(s: seq<string>, x: string): nat
  {
    multiset(s)[x]
  }

  /** The scan behind `Counter(s).most_common(1)`: the running best is replaced only
      by a plate counted strictly more often, so among plates with the highest count
      the one first read wins (a Counter keeps first-insertion order, and
      `most_common(1)` takes the `max`, which keeps the first maximal item). */
  function Best(s: seq<string>, k: nat, best: string): (r: string)
    requires 0 < k <= |s| && best in s[..k]
    requires forall j :: 0 <= j < k ==> Count(s, s[j]) <= Count(s, best)
    requires forall j :: 0 <= j < k && Count(s, s[j]) == Count(s, best) ==> FirstIndex(s, best) <= FirstIndex(s, s[j])
    ensures r in s
    ensures forall j :: 0 <= j < |s| ==> Count(s, s[j]) <= Count(s, r)
    ensures forall j :: 0 <= j < |s| && Count(s, s[j]) == Count(s, r) ==> FirstIndex(s, r) <= FirstIndex(s, s[j])
    decreases |s| - k
  {
    if k == |s| then best
    else if Count(s, s[k]) > Count(s, best) then
      assert s[k] in s[..k + 1];
      Best(s, k + 1, s[k])
    else
      assert best in s[..k + 1] by { assert s[..k] <= s[..k + 1]; }
      assert Count(s, s[k]) == Count(s, best) ==> FirstIndex(s, best) <= FirstIndex(s, s[k]) by {
        if Count(s, s[k]) == Count(s, best) { KeepBest(s, k, best); }
      }
      Best(s, k + 1, best)
  }

  /** A running best read before position `k`, and first among the plates before
      `k` with its count, comes no later than `s[k]` in first-read order when the
      two are counted equally often. */
  lemma KeepBest(s: seq<string>, k: nat, best: string)
    requires 0 < k < |s| && best in s[..k] && Count(s, s[k]) == Count(s, best)
    requires forall j :: 0 <= j < k && Count(s, s[j]) == Count(s, best) ==> FirstIndex(s, best) <= FirstIndex(s, s[j])
    ensures FirstIndex(s, best) <= FirstIndex(s, s[k])
  {
    var f := FirstIndex(s, s[k]);
    var jb :| 0 <= jb < k && s[..k][jb] == best;
    assert s[jb] == best;
    assert FirstIndex(s, best) <= jb;
    if f < k {
      assert s[f] == s[k];
    }
  }

  /** `Counter(s).most_common(1)[0]`: the plate read most often and its count. */
  function MostCommon(s: seq<string>): (r: (string, nat))
    requires s != []
    ensures r.0 in s && r.1 == Count(s, r.0)
    ensures forall x :: x in s ==> Count(s, x) <= r.1
    ensures forall x :: x in s && Count(s, x) == r.1 ==> FirstIndex(s, r.0) <= FirstIndex(s, x)
  {
    assert s[0] in s[..1];
    var b := Best(s, 1, s[0]);
    assert forall x :: x in s ==> exists j :: 0 <= j < |s| && s[j] == x;
    (b, Count(s, b))
  }

  /** The decision taken after a reading has been appended, given the plate and
      clock reading of the last plate acted on. */
  predicate Fires(buffer: seq<string>, lastPlate: Option<string>, lastTime: real, now: real)
  {
    |buffer| >= MinReadings && MostCommon(buffer).1 >= MinVotes
    && (lastPlate != Some(MostCommon(buffer).0) || now - lastTime > Cooldown)
  }

  class PlateDebouncer {
    var buffer: seq<string>
    var lastPlate: Option<string>
    var lastTime: real

    /** Only readings that passed `validate_plate` enter the buffer. */
    ghost predicate Valid()
      reads this
    {
      forall k :: 0 <= k < |buffer| ==> Plates.IsConfirmedPlate(buffer[k])
    }

    /** `plate_buffer = []`, no plate acted on yet, `last_action_time = 0`. */
    constructor ()
      ensures Valid()
      ensures buffer == [] && lastPlate == None && lastTime == 0.0
    {
      buffer := [];
      lastPlate := None;
      lastTime := 0.0;
    }

    /** One confirmed reading at clock reading `now`. Returns the plate to act on, if
        any; the buffer is emptied exactly when one is returned. The plate and time
        of the last action are not touched here: each lane updates them with
        `Acted` according to its own rule. */
    method Observe(plate: string, now: real) returns (taken: Option<string>)
      requires Valid() && Plates.IsConfirmedPlate(plate)
      modifies this`buffer
      ensures Valid()
      ensures taken.Some? <==> Fires(old(buffer) + [plate], lastPlate, lastTime, now)
      ensures taken.Some? ==> taken.value == MostCommon(old(buffer) + [plate]).0
                              && Plates.IsConfirmedPlate(taken.value) && buffer == []
      ensures taken.None? ==> buffer == old(buffer) + [plate]
    {
      buffer := buffer + [plate];
      taken := None;
      if |buffer| >= MinReadings {
        var (common, count) := MostCommon(buffer);
        if count >= MinVotes && (lastPlate != Some(common) || now - lastTime > Cooldown) {
          taken := Some(common);
          buffer := [];
        }
      }
    }

    /** Record that `plate` was acted on at `now`. */
    method Acted(plate: string, now: real)
      modifies this`lastPlate, this`lastTime
      ensures lastPlate == Some(plate) && lastTime == now
    {
      lastPlate := Some(plate);
      lastTime := now;
    }
  }

  /** A plate is taken only after it was read at least three times since the buffer
      was last emptied, and never within the cooldown of the same plate. */
  lemma FiresNeedsThreeReadings(buffer: seq<string>, lastPlate: Option<string>, lastTime: real, now: real)
    requires Fires(buffer, lastPlate, lastTime, now)
    ensures Count(buffer, MostCommon(buffer).0) >= MinVotes
    ensures lastPlate == Some(MostCommon(buffer).0) ==> now - lastTime > Cooldown
  {
  }

  /** From an empty buffer, the same plate read three times is taken at the third
      reading, unless it is the plate last acted on and the cooldown has not yet
      passed; the first two readings are never enough. */
  lemma {:induction false} ThreeReadings(p: string, lastPlate: Option<string>, lastTime: real, now: real)
    ensures !Fires([p], lastPlate, lastTime, now) && !Fires([p, p], lastPlate, lastTime, now)
    ensures Fires([p, p, p], lastPlate, lastTime, now) <==> (lastPlate != Some(p) || now - lastTime > Cooldown)
  {
    var b := [p, p, p];
    assert b[1..] == [p, p] && b[1..][1..] == [p] && b[1..][1..][1..] == [];
    assert Count(b, p) == 3;
    assert MostCommon(b).0 == p;
  }
}
