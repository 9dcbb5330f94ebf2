/**
 * The capture loop of the blink counter: the module-level `count` and `flag`, updated in place
 * once per detected face, with the new count published whenever a blink is counted.
 *
 * The camera, the face and eye detectors and the message broker are outside the model: a frame
 * reaches the model as the number of eyes found in each detected face, in the detector's order,
 * and a publication leaves it as the payload string handed to the broker client.
 */
module MainLoop {
  import opened Debounce
  import Decimal

  datatype Option<T> = None | Some(value: T)

  /** The fixed text in front of the count in every published message. */
  const PREFIX: string := "Hello ESP32: "

  /** The message published for blink number `n`: the prefix, then `str(n)`. */
  function Payload(n: nat): (r: string)
    ensures |r| > |PREFIX| && r[..|PREFIX|] == PREFIX
    ensures Decimal.Canonical(r[|PREFIX|..]) && Decimal.ToNat(r[|PREFIX|..]) == n
  {
    Decimal.ToNatFromNat(n);
    assert (PREFIX + Decimal.FromNat(n))[|PREFIX|..] == Decimal.FromNat(n);
    PREFIX + Decimal.FromNat(n)
  }

  /** Two blinks with different numbers never publish the same message. */
  lemma PayloadInjective(a: nat, b: nat)
    requires Payload(a) == Payload(b)
    ensures a == b
  {
  }

  /** The messages for a sequence of published counts. */
  function Payloads(ns: seq<nat>): seq<string> {
    seq(|ns|, i requires 0 <= i < |ns| => Payload(ns[i]))
  }

  lemma PayloadsAppend(xs: seq<nat>, ys: seq<nat>)
    ensures Payloads(xs + ys) == Payloads(xs) + Payloads(ys)
  {
  }

  /** All faces of a session, frame after frame, in detector order. */
  function Flatten(frames: seq<seq<nat>>): seq<nat>
    decreases |frames|
  {
    if frames == [] then [] else frames[0] + Flatten(frames[1..])
  }

  lemma {:induction false} FlattenAppend(frames: seq<seq<nat>>, frame: seq<nat>)
    ensures Flatten(frames + [frame]) == Flatten(frames) + frame
    decreases |frames|
  {
    if frames == [] {
      assert [frame][1..] == [];
    } else {
      assert (frames + [frame])[1..] == frames[1..] + [frame];
      FlattenAppend(frames[1..], frame);
    }
  }

  /** What one more frame adds to a session: its state change, its publications, its messages. */
  lemma SessionStep(start: State, frames: seq<seq<nat>>, i: nat)
    requires i < |frames|
    ensures Run(start, Flatten(frames[..i + 1])) == Run(Run(start, Flatten(frames[..i])), frames[i])
    ensures Events(start, Flatten(frames[..i + 1]))
         == Events(start, Flatten(frames[..i])) + Events(Run(start, Flatten(frames[..i])), frames[i])
    ensures Payloads(Events(start, Flatten(frames[..i + 1])))
         == Payloads(Events(start, Flatten(frames[..i])))
            + Payloads(Events(Run(start, Flatten(frames[..i])), frames[i]))
  {
    var done := Flatten(frames[..i]);
    assert frames[..i + 1] == frames[..i] + [frames[i]];
    FlattenAppend(frames[..i], frames[i]);
    RunAppend(start, done, frames[i]);
    EventsAppend(start, done, frames[i]);
    PayloadsAppend(Events(start, done), Events(Run(start, done), frames[i]));
  }

  /**
   * Every face of a frame goes through the same `count` and `flag`. A frame showing one face
   * without eyes and then one face with two eyes therefore counts a blink in every such frame,
   * however long the closed-eyed face stays as it is.
   */
  lemma {:induction false} MixedFacesCountEveryFrame(s: State, frames: seq<seq<nat>>)
    requires !s.flag
    requires forall i :: 0 <= i < |frames| ==> frames[i] == [0, 2]
    ensures Run(s, Flatten(frames)) == State(s.count + |frames|, false)
    decreases |frames|
  {
    if frames != [] {
      RunAppend(s, frames[0], Flatten(frames[1..]));
      MixedFacesCountEveryFrame(State(s.count + 1, false), frames[1..]);
    }
  }

  /** The blink counter's state, with the record of every count handed to the broker. */
  class Debouncer {
    var count: nat
    var flag: bool
    ghost var published: seq<nat>

    /** Exactly the counts 1, 2, ..., count have been published, in that order. */
    ghost predicate Valid()
      reads this
    {
      published == Upto(0, count)
    }

    function Current(): State
      reads this
    {
      State(count, flag)
    }

    /** `count = 0` and `flag = False` at start-up, before anything is published. */
    constructor ()
      ensures Valid()
      ensures Current() == INITIAL && published == []
    {
      count := 0;
      flag := false;
      published := [];
    }

    /**
     * One detected face with `eyeCount` eyes. Returns the message handed to the broker, if
     * this face counts a blink.
     */
    method Step(eyeCount: nat) returns (message: Option<string>)
      requires Valid()
      modifies this
      ensures Valid()
      ensures Current() == Next(old(Current()), eyeCount)
      ensures eyeCount == 0 && !old(flag) ==>
        count == old(count) + 1 && flag && published == old(published) + [count]
        && message == Some(Payload(count))
      ensures eyeCount == 0 && old(flag) ==>
        count == old(count) && flag && published == old(published) && message == None
      ensures eyeCount == 2 ==>
        count == old(count) && !flag && published == old(published) && message == None
      ensures eyeCount != 0 && eyeCount != 2 ==>
        count == old(count) && flag == old(flag) && published == old(published) && message == None
    {
      message := None;
      if eyeCount == 0 && !flag {
        count := count + 1;
        message := Some(Payload(count));
        published := published + [count];
        flag := true;
      }
      if eyeCount == 2 {
        flag := false;
      }
    }

    /**
     * One frame: every detected face in turn, given by its eye count. Returns the messages
     * published during the frame, in order.
     */
    method Frame(eyeCounts: seq<nat>) returns (messages: seq<string>)
      requires Valid()
      modifies this
      ensures Valid()
      ensures Current() == Run(old(Current()), eyeCounts)
      ensures published == old(published) + Events(old(Current()), eyeCounts)
      ensures messages == Payloads(Events(old(Current()), eyeCounts))
      ensures eyeCounts == [] ==>
        count == old(count) && flag == old(flag) && published == old(published) && messages == []
    {
      messages := [];
      if |eyeCounts| > 0 {
        ghost var start := Current();
        for i := 0 to |eyeCounts|
          invariant Valid()
          invariant Current() == Run(start, eyeCounts[..i])
          invariant published == old(published) + Events(start, eyeCounts[..i])
          invariant messages == Payloads(Events(start, eyeCounts[..i]))
        {
          ghost var done := eyeCounts[..i];
          ghost var before := Current();
          var message := Step(eyeCounts[i]);
          assert eyeCounts[..i + 1] == done + [eyeCounts[i]];
          RunAppend(start, done, [eyeCounts[i]]);
          EventsAppend(start, done, [eyeCounts[i]]);
          ghost var fired := Events(before, [eyeCounts[i]]);
          assert fired == if Fires(before, eyeCounts[i]) then [count] else [];
          PayloadsAppend(Events(start, done), fired);
          if message.Some? {
            messages := messages + [message.value];
          }
        }
        assert eyeCounts[..|eyeCounts|] == eyeCounts;
      }
    }

    /**
     * The capture loop over a finite run of frames (the program stops when its quit key is
     * pressed). Returns every message published, in order.
     */
    method Session(frames: seq<seq<nat>>) returns (messages: seq<string>)
      requires Valid()
      modifies this
      ensures Valid()
      ensures Current() == Run(old(Current()), Flatten(frames))
      ensures published == old(published) + Events(old(Current()), Flatten(frames))
      ensures messages == Payloads(Events(old(Current()), Flatten(frames)))
    {
      messages := [];
      ghost var start := Current();
      for i := 0 to |frames|
        invariant Valid()
        invariant Current() == Run(start, Flatten(frames[..i]))
        invariant published == old(published) + Events(start, Flatten(frames[..i]))
        invariant messages == Payloads(Events(start, Flatten(frames[..i])))
      {
        var sent := Frame(frames[i]);
        SessionStep(start, frames, i);
        messages := messages + sent;
      }
      assert frames[..|frames|] == frames;
    }
  }

  /** The debouncer as a client sees it through the contracts above. */
  method Scenarios() {
    var d := new Debouncer();
    var m := d.Step(0);
    assert d.count == 1 && m == Some(Payload(1));
    m := d.Step(0);
    assert d.count == 1 && m == None;

    var e := new Debouncer();
    var sent := e.Frame([2, 0, 2, 0]);
    assert e.count == 2 && e.published == [1, 2];
    sent := e.Frame([]);
    assert e.count == 2 && sent == [];
    sent := e.Frame([1, 3, 1]);
    assert e.count == 2 && e.flag && sent == [];
  }
}
