# Blink counter debouncer

A model of the blink counter in a webcam eye-blink detector. A capture loop asks a face
detector for the faces in each frame and an eye detector for the eyes in each face. It keeps two
module-level variables: `count`, the number of blinks counted so far, and `flag`, which is set
while the eyes are taken to be closed. For every detected face:

- no eyes while `flag` is clear counts a blink, publishes `"Hello ESP32: " + str(count)` to the
  message broker and sets `flag`;
- exactly two eyes clears `flag`;
- any other number of eyes (one, three or more), or no eyes while `flag` is set, changes nothing.

Files:

- `debounce.dfy` (module `Debounce`): the debouncer as a pure state machine. `Next` is one face,
  `Run` a sequence of faces, and `Events` the counts published along the way. It also holds the
  lemmas about runs.
- `main_loop.dfy` (module `MainLoop`): the loop's state as the class `Debouncer`, with fields
  `count` and `flag` and a ghost record `published` of every count handed to the broker.
  `Step` handles one face, `Frame` the faces of one frame, and `Session` a finite run of frames.
  Each method is proved against `Next`/`Run`/`Events`. The class invariant `Valid` says that the
  record is exactly `1, 2, ..., count`. This module also holds the payload text.
- `decimal.dfy` (module `Decimal`): Python's `str()` on a non-negative integer (`FromNat`). It
  comes with a digit-string reader (`ToNat`) that exists only to state the round trips.

The detectors are outside the model. A frame reaches it as a `seq<nat>` of per-face eye
counts, in detector order. Publishing leaves the model as a payload string returned to the
caller: `Step` returns an `Option<string>`, while `Frame` and `Session` return the sequence of
messages. Python integers are unbounded, so `nat` needs no wrap-around.

The update runs once for every detected face, and all faces of a frame share one `count` and
one `flag` (src/python/main.py:36-56). `MixedFacesCountEveryFrame` shows one consequence: from
the flag clear, a frame showing a face without eyes and then a face with two eyes counts a
blink in every frame.

`MainLoop.Scenarios` is a usage example. Through the class contracts alone it shows that two
faces without eyes in a row count one blink. It also shows that the frame `[2, 0, 2, 0]`
publishes the counts `[1, 2]`, and that ambiguous eye counts are ignored.

## Model

| member | source | states |
|---|---|---|
| MainLoop.Debouncer.constructor | src/python/main.py:15-16 | at start-up `count` is 0, `flag` is false and nothing has been published; the invariant holds |
| MainLoop.Debouncer.Step | src/python/main.py:50-56 | no eyes with the flag clear: count goes up by exactly 1, the flag is set, the new count is appended to the published record and its payload is returned; no eyes with the flag set: nothing changes and nothing is sent; two eyes: flag cleared, count and record unchanged; any other eye count: nothing changes; the new state is `Next` of the old; the invariant "published is 1..count" is kept |
| MainLoop.Debouncer.Frame | src/python/main.py:35-56 | the faces of a frame are processed in order: the new state is `Run` of the old state over the eye counts; the published record grows by exactly `Events` of that run; the returned messages are their payloads, in order; a frame without faces changes nothing and sends nothing |
| MainLoop.Debouncer.Session | src/python/main.py:27-56 | a sequence of frames moves the state like `Run` over all their faces, one frame after another; the record and the returned messages grow by that run's publications, in order |
| Debounce.Next | src/python/main.py:50-56 | one face moves the count by at most one, and the count changes exactly when the face has no eyes while the flag is clear (`Fires`); afterwards no eyes always leave the flag set, two eyes always leave it clear, and any other eye count leaves the state unchanged |
| Debounce.Run | src/python/main.py:36 | processing the faces in order never decreases the count and grows it by at most one per face |
| Debounce.Events | src/python/main.py:51-52 | the record of counts passed to `publish` during a run has one entry for every increment of the count |
| Debounce.RunAppend | src/python/main.py:36 | processing two stretches of faces one after the other is the same as processing them joined together |
| Debounce.EventsAppend | src/python/main.py:36-52 | the publications of joined stretches are those of the first stretch followed by those of the second |
| Debounce.EventsAreCountSteps | src/python/main.py:50-56 | over any run the counts published are exactly the values count + 1, ..., final count, in order, so a publication happens exactly when the count is incremented |
| Debounce.PublishedFromStart | src/python/main.py:15-16 | from the start-up state the published counts are exactly 1, 2, ..., count, one publication per blink |
| Debounce.AmbiguousIgnored | src/python/main.py:50-56 | faces with an eye count other than 0 and 2 never change count or flag and never publish, from either flag state |
| Debounce.ClosedHolds | src/python/main.py:50 | while the flag is set, faces with no eyes (or any count except 2) change nothing and publish nothing |
| Debounce.ClosedRunCountsOnce | src/python/main.py:50-54 | from the flag clear, any run of N >= 1 faces with no eyes counts exactly one blink, sets the flag and publishes once, the new count |
| Debounce.OpenEyesRearm | src/python/main.py:55-56 | a face with two eyes leaves the flag clear whatever the prior state, and does not change the count |
| MainLoop.MixedFacesCountEveryFrame | src/python/main.py:36-56 | with all faces sharing one counter, from the flag clear, frames each showing a face without eyes and then a face with two eyes count one blink per frame and end with the flag clear |
| MainLoop.FlattenAppend | src/python/main.py:27-36 | the faces of a session after one more frame are the earlier faces followed by that frame's faces |
| MainLoop.SessionStep | src/python/main.py:27-36 | one more frame moves the session's state from where the earlier frames left it, and appends that frame's publications and messages after the earlier ones |
| MainLoop.Payload | src/python/main.py:52 | the message is the prefix "Hello ESP32: " followed by a canonical decimal string whose value is the count |
| MainLoop.PayloadInjective | src/python/main.py:52 | different counts give different messages |
| Decimal.FromNat | src/python/main.py:52 | `str(n)` for n >= 0 is a non-empty string of decimal digits with no leading zero; it starts with '0' exactly when n is 0; it has one digit exactly when n < 10 |
| Decimal.ToNatFromNat | src/python/main.py:52 | reading the digits written for n gives n back |
| Decimal.FromNatToNat | src/python/main.py:52 | every canonical digit string is what is written for its value, so writing is a bijection onto canonical strings |
| Decimal.FromNatInjective | src/python/main.py:52 | distinct counts are written as distinct strings |

## Left out

- Camera capture, grayscale conversion and filtering, and the Haar cascade face and eye detection (src/python/main.py:7-8, 11, 28-33, 41-46): foreign-library image processing. The model receives only the eye count of each detected face.
- Drawing the face rectangles, drawing the "Blinking Eyes" count on the frame, showing the window, and the quit key with its clean-up (src/python/main.py:38, 59-71): display and keyboard I/O. The quit key is why `Session` takes a finite sequence of frames instead of looping forever.
- The MQTT client: the broker configuration, connect, and publish as a network operation (src/python/main.py:19-24, 52). Only the payload handed to `publish` is modelled. Delivery is not modelled.
- The random client id (src/python/main.py:22): randomness.
- `time.sleep(0.5)` after a publication (src/python/main.py:53): wall-clock delay, with no effect on `count` or `flag`.
- `print(eye_count)` (src/python/main.py:47): console output.
- src/python/publish.py: a one-shot connect followed by publishing a fixed string. It has no logic of its own.
