/** The controller as the program runs it: one object owning the free-space counter, the
    record of what it has done to the gates and the display, and the frame on screen.
    Sensor readings are passed in; servo writes, holds and renders are appended to `trace`. */
module ParkingController {
  import opened GarageModel

  class Controller {
    /** The free-space counter (`total_spaces`). */
    var free: int
    /** Every servo write, gate hold and render so far, in order. */
    var trace: seq<Effect>
    /** The text on the display. */
    var shown: string

    /** Start-up: the counter is 100 and the display shows "Spaces: 100". */
    constructor ()
      ensures free == InitialSpaces && free == 100
      ensures shown == "Spaces: 100" && trace == [Render(shown)]
      ensures DisplayConsistent(free, shown)
    {
      free := InitialSpaces;
      shown := SpacesFrame(InitialSpaces);
      trace := [Render(shown)];
      StartUpFrame();
    }

    /** Set a gate servo's angle. */
    method SetServo(servo: nat, degrees: nat)
      modifies this`trace
      ensures trace == old(trace) + [SetAngle(servo, degrees)]
    {
      trace := trace + [SetAngle(servo, degrees)];
    }

    /** Keep the gate open for one second. */
    method HoldGate()
      modifies this`trace
      ensures trace == old(trace) + [Hold]
    {
      trace := trace + [Hold];
    }

    /** Clear the display and draw one line of text. */
    method Show(text: string)
      modifies this`trace, this`shown
      ensures trace == old(trace) + [Render(text)] && shown == text
    {
      trace := trace + [Render(text)];
      shown := text;
    }

    /** The entrance half of a poll: admit a car while the counter is positive, else show "FULL". */
    method HandleEntrance(triggered: bool)
      modifies this
      ensures var o := EntrancePhase(old(free), triggered);
        && free == o.free
        && trace == old(trace) + o.effects
        && shown == LastFrame(old(shown), o.effects)
    {
      PhaseLastFrames(free, triggered, shown);
      if triggered {
        if free > 0 {
          SetServo(EntranceServo, OpenAngle);
          HoldGate();
          SetServo(EntranceServo, ClosedAngle);
          free := free - 1;
          Show(SpacesFrame(free));
        } else {
          Show(FullFrame);
        }
      }
    }

    /** The exit half of a poll: let the car out and count one more free space. */
    method HandleExit(triggered: bool)
      modifies this
      ensures var o := ExitPhase(old(free), triggered);
        && free == o.free
        && trace == old(trace) + o.effects
        && shown == LastFrame(old(shown), o.effects)
    {
      PhaseLastFrames(free, triggered, shown);
      if triggered {
        SetServo(ExitServo, OpenAngle);
        HoldGate();
        SetServo(ExitServo, ClosedAngle);
        free := free + 1;
        Show(SpacesFrame(free));
      }
    }

    /** One iteration of the polling loop, given what the two sensors read: the entrance is
        handled completely before the exit. */
    method Step(entrance: bool, exit: bool)
      modifies this
      ensures var o := CycleOutcome(old(free), Reading(entrance, exit));
        && free == o.free
        && trace == old(trace) + o.effects
        && shown == LastFrame(old(shown), o.effects)
      ensures DisplayConsistent(old(free), old(shown)) ==> DisplayConsistent(free, shown)
    {
      ghost var free0, trace0, shown0 := free, trace, shown;
      HandleEntrance(entrance);
      ghost var a := EntrancePhase(free0, entrance);
      HandleExit(exit);
      ghost var b := ExitPhase(a.free, exit);
      assert trace == trace0 + (a.effects + b.effects);
      LastFrameAppend(shown0, a.effects, b.effects);
      if DisplayConsistent(free0, shown0) {
        CyclePreservesDisplay(free0, shown0, Reading(entrance, exit));
      }
    }

    /** The polling loop over a finite sequence of sensor readings, one cycle per reading. */
    method Run(readings: seq<Reading>)
      modifies this
      ensures var o := RunOutcome(old(free), readings);
        && free == o.free
        && trace == old(trace) + o.effects
        && shown == LastFrame(old(shown), o.effects)
      ensures old(free) >= 0 ==> free >= 0
      ensures DisplayConsistent(old(free), old(shown)) ==> DisplayConsistent(free, shown)
    {
      var i := 0;
      while i < |readings|
        invariant 0 <= i <= |readings|
        invariant free == RunOutcome(old(free), readings[..i]).free
        invariant trace == old(trace) + RunOutcome(old(free), readings[..i]).effects
        invariant shown == LastFrame(old(shown), RunOutcome(old(free), readings[..i]).effects)
      {
        ghost var before := RunOutcome(old(free), readings[..i]);
        ghost var last := CycleOutcome(before.free, readings[i]);
        assert readings[..i + 1] == readings[..i] + [readings[i]];
        RunOutcomeAppend(old(free), readings[..i], readings[i]);
        LastFrameAppend(old(shown), before.effects, last.effects);
        assert Reading(readings[i].entrance, readings[i].exit) == readings[i];
        Step(readings[i].entrance, readings[i].exit);
        AppendAssociative(old(trace), before.effects, last.effects);
        i := i + 1;
      }
      assert readings[..i] == readings;
      if old(free) >= 0 {
        RunNeverNegative(old(free), readings);
      }
      if DisplayConsistent(old(free), old(shown)) {
        RunPreservesDisplay(old(free), old(shown), readings);
      }
    }
  }
}
