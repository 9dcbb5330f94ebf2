/**
 * The blink debouncer of the capture loop as a pure state machine.
 *
 * The loop keeps a blink counter `count` and a flag `flag` that is set while the eyes of the
 * face are taken to be closed. For every detected face it looks at the number of eyes the
 * detector found inside that face: no eyes while the flag is clear counts a blink, publishes
 * the new count and sets the flag; exactly two eyes clears the flag; any other number is
 * ignored. The two checks are made one after the other for the same face.
 */
module Debounce {

  datatype State = State(count: nat, flag: bool)

  /** The state when the program starts: no blinks counted, eyes taken as open. */
  const INITIAL: State := State(0, false)

  /** Whether the face with `eyeCount` eyes counts (and publishes) a blink in state `s`. */
  predicate Fires(s: State, eyeCount: nat) {
    eyeCount == 0 && !s.flag
  }

  /**
   * One face: the two `if` statements of the loop body, in order. The count moves by at most
   * one, and only when the face fires; no eyes leave the flag set, two eyes leave it clear, and
   * any other eye count changes nothing.
   */
  function Next(s: State, eyeCount: nat): (t: State)
    ensures s.count <= t.count <= s.count + 1
    ensures t.count != s.count <==> Fires(s, eyeCount)
    ensures eyeCount == 0 ==> t.flag
    ensures eyeCount == 2 ==> !t.flag
    ensures eyeCount != 0 && eyeCount != 2 ==> t == s
  {
    var blinked := if Fires(s, eyeCount) then State(s.count + 1, true) else s;
    if eyeCount == 2 then blinked.(flag := false) else blinked
  }

  /**
   * A run of faces, processed in order. The count never decreases and grows by at most one
   * per face.
   */
  function Run(s: State, eyeCounts: seq<nat>): (r: State)
    ensures s.count <= r.count <= s.count + |eyeCounts|
    decreases |eyeCounts|
  {
    if eyeCounts == [] then s else Run(Next(s, eyeCounts[0]), eyeCounts[1..])
  }

  /**
   * The counts published during a run, in the order of publication: one publication for every
   * increment of the count.
   */
  function Events(s: State, eyeCounts: seq<nat>): (r: seq<nat>)
    ensures |r| == Run(s, eyeCounts).count - s.count
    decreases |eyeCounts|
  {
    if eyeCounts == [] then []
    else
      var t := Next(s, eyeCounts[0]);
      (if Fires(s, eyeCounts[0]) then [t.count] else []) + Events(t, eyeCounts[1..])
  }

  /** The counts lo + 1, lo + 2, ..., hi. */
  function Upto(lo: nat, hi: nat): seq<nat>
    requires lo <= hi
  {
    seq(hi - lo, i requires 0 <= i < hi - lo => lo + 1 + i)
  }

  /** Running two stretches of faces is running the second from where the first ended. */
  lemma {:induction false} RunAppend(s: State, xs: seq<nat>, ys: seq<nat>)
    ensures Run(s, xs + ys) == Run(Run(s, xs), ys)
    decreases |xs|
  {
    if xs == [] {
      assert xs + ys == ys;
    } else {
      assert (xs + ys)[1..] == xs[1..] + ys;
      RunAppend(Next(s, xs[0]), xs[1..], ys);
    }
  }

  /** The publications of two stretches are those of the first followed by those of the second. */
  lemma {:induction false} EventsAppend(s: State, xs: seq<nat>, ys: seq<nat>)
    ensures Events(s, xs + ys) == Events(s, xs) + Events(Run(s, xs), ys)
    decreases |xs|
  {
    if xs == [] {
      assert xs + ys == ys;
    } else {
      assert (xs + ys)[1..] == xs[1..] + ys;
      EventsAppend(Next(s, xs[0]), xs[1..], ys);
    }
  }

  /**
   * The counts published are exactly the new values the count passes through, one by one and
   * in order. So a publication happens exactly when the count is incremented.
   */
  lemma {:induction false} EventsAreCountSteps(s: State, eyeCounts: seq<nat>)
    ensures Events(s, eyeCounts) == Upto(s.count, Run(s, eyeCounts).count)
    decreases |eyeCounts|
  {
    if eyeCounts != [] {
      var t := Next(s, eyeCounts[0]);
      EventsAreCountSteps(t, eyeCounts[1..]);
      var hi := Run(s, eyeCounts).count;
      if Fires(s, eyeCounts[0]) {
        assert Upto(s.count, hi) == [t.count] + Upto(t.count, hi);
      }
    }
  }

  /** From the initial state, the published counts are 1, 2, ..., count. */
  lemma {:induction false} PublishedFromStart(eyeCounts: seq<nat>)
    ensures Events(INITIAL, eyeCounts) == Upto(0, Run(INITIAL, eyeCounts).count)
    ensures |Events(INITIAL, eyeCounts)| == Run(INITIAL, eyeCounts).count
  {
    EventsAreCountSteps(INITIAL, eyeCounts);
  }

  /** Eye counts other than 0 and 2 never change the state and never publish. */
  lemma {:induction false} AmbiguousIgnored(s: State, eyeCounts: seq<nat>)
    requires forall i :: 0 <= i < |eyeCounts| ==> eyeCounts[i] != 0 && eyeCounts[i] != 2
    ensures Run(s, eyeCounts) == s && Events(s, eyeCounts) == []
    decreases |eyeCounts|
  {
    if eyeCounts != [] {
      AmbiguousIgnored(s, eyeCounts[1..]);
    }
  }

  /** While the flag is set, nothing but a face with two eyes changes anything. */
  lemma {:induction false} ClosedHolds(s: State, eyeCounts: seq<nat>)
    requires s.flag
    requires forall i :: 0 <= i < |eyeCounts| ==> eyeCounts[i] != 2
    ensures Run(s, eyeCounts) == s && Events(s, eyeCounts) == []
    decreases |eyeCounts|
  {
    if eyeCounts != [] {
      ClosedHolds(s, eyeCounts[1..]);
    }
  }

  /**
   * Eyes closed over any number N >= 1 of consecutive faces, from the flag clear, count
   * exactly one blink and publish once.
   */
  lemma {:induction false} ClosedRunCountsOnce(s: State, eyeCounts: seq<nat>)
    requires !s.flag
    requires |eyeCounts| >= 1
    requires forall i :: 0 <= i < |eyeCounts| ==> eyeCounts[i] == 0
    ensures Run(s, eyeCounts) == State(s.count + 1, true)
    ensures Events(s, eyeCounts) == [s.count + 1]
  {
    var t := Next(s, eyeCounts[0]);
    ClosedHolds(t, eyeCounts[1..]);
  }

  /** Two eyes always clear the flag, whatever came before, and leave the count alone. */
  lemma {:induction false} OpenEyesRearm(s: State, eyeCounts: seq<nat>)
    requires |eyeCounts| >= 1 && eyeCounts[|eyeCounts| - 1] == 2
    ensures !Run(s, eyeCounts).flag
    ensures Run(s, eyeCounts).count == Run(s, eyeCounts[..|eyeCounts| - 1]).count
  {
    var n := |eyeCounts| - 1;
    assert eyeCounts == eyeCounts[..n] + [2];
    RunAppend(s, eyeCounts[..n], [2]);
  }
}
