/** The behaviour of the car-park controller as pure functions: what one poll cycle does to
    the free-space counter and which effects (servo writes, gate holds, display frames) it
    produces, in order; a finite run of cycles; and the properties the loop keeps. */
module GarageModel {
  import opened Decimal

  /** Start-up value of the free-space counter; the program's `total_spaces` is that counter
      itself, which the model calls `free`. */
  const InitialSpaces: int := 100
  /** Servo channels of the two gates. */
  const EntranceServo: nat := 0
  const ExitServo: nat := 1
  /** Gate angles, in degrees. */
  const OpenAngle: nat := 90
  const ClosedAngle: nat := 0
  /** The frame shown when a car arrives and no space is free. */
  const FullFrame: string := "FULL"

  /** One observable action of the controller. `Hold` is the one-second sleep that keeps a
      gate open; `Render` clears the display and draws one line of text. */
  datatype Effect = SetAngle(servo: nat, degrees: nat) | Hold | Render(text: string)

  /** What the two infrared sensors report in one poll. */
  datatype Reading = Reading(entrance: bool, exit: bool)

  /** The counter after some poll cycles, with the effects they produced in order. */
  datatype Outcome = Outcome(free: int, effects: seq<Effect>)

  /** The frame "Spaces: N". */
  function SpacesFrame(n: int): string {
    "Spaces: " + IntToString(n)
  }

  /** Open a gate, hold it, close it. */
  function GateCycle(servo: nat): seq<Effect> {
    [SetAngle(servo, OpenAngle), Hold, SetAngle(servo, ClosedAngle)]
  }

  /** The entrance half of a poll cycle: admit a car only while the counter is positive. */
  function EntrancePhase(free: int, triggered: bool): Outcome {
    if !triggered then Outcome(free, [])
    else if free > 0 then Outcome(free - 1, GateCycle(EntranceServo) + [Render(SpacesFrame(free - 1))])
    else Outcome(free, [Render(FullFrame)])
  }

  /** The exit half of a poll cycle: always let the car out, with no upper bound on the counter. */
  function ExitPhase(free: int, triggered: bool): Outcome {
    if !triggered then Outcome(free, [])
    else Outcome(free + 1, GateCycle(ExitServo) + [Render(SpacesFrame(free + 1))])
  }

  /** One poll cycle: the entrance is handled completely before the exit sensor is looked at. */
  function CycleOutcome(free: int, r: Reading): Outcome {
    var a := EntrancePhase(free, r.entrance);
    var b := ExitPhase(a.free, r.exit);
    Outcome(b.free, a.effects + b.effects)
  }

  /** A finite prefix of the polling loop, one cycle per reading. */
  function RunOutcome(free: int, readings: seq<Reading>): Outcome
    decreases |readings|
  {
    if readings == [] then Outcome(free, [])
    else
      var before := RunOutcome(free, readings[..|readings| - 1]);
      var last := CycleOutcome(before.free, readings[|readings| - 1]);
      Outcome(last.free, before.effects + last.effects)
  }

  // ---------------------------------------------------------------------------------------
  // Observations of an effect trace

  predicate Writes(e: Effect, servo: nat) {
    e.SetAngle? && e.servo == servo
  }

  /** No effect in the sequence moves the servo. */
  predicate NoWrites(effects: seq<Effect>, servo: nat) {
    forall k | 0 <= k < |effects| :: !Writes(effects[k], servo)
  }

  /** The angles written to one servo, in order. */
  function Angles(effects: seq<Effect>, servo: nat): seq<nat>
    decreases |effects|
  {
    if effects == [] then []
    else (if Writes(effects[0], servo) then [effects[0].degrees] else []) + Angles(effects[1..], servo)
  }

  /** How many times a servo was sent to the open angle. */
  function Openings(effects: seq<Effect>, servo: nat): nat
    decreases |effects|
  {
    if effects == [] then 0
    else (if effects[0] == SetAngle(servo, OpenAngle) then 1 else 0) + Openings(effects[1..], servo)
  }

  /** The texts rendered, in order. */
  function Frames(effects: seq<Effect>): seq<string>
    decreases |effects|
  {
    if effects == [] then []
    else (if effects[0].Render? then [effects[0].text] else []) + Frames(effects[1..])
  }

  /** What the display shows after the effects, if it showed `shown` before them. */
  function LastFrame(shown: string, effects: seq<Effect>): string
    decreases |effects|
  {
    if effects == [] then shown
    else if effects[|effects| - 1].Render? then effects[|effects| - 1].text
    else LastFrame(shown, effects[..|effects| - 1])
  }

  /** The counter is not negative and the display agrees with it: it shows "Spaces: N" for
      the current count, or "FULL" while the count is zero. */
  predicate DisplayConsistent(free: int, shown: string) {
    free >= 0 && (shown == SpacesFrame(free) || (shown == FullFrame && free == 0))
  }

  // ---------------------------------------------------------------------------------------
  // Observations distribute over concatenation

  lemma {:induction false} AnglesAppend(a: seq<Effect>, b: seq<Effect>, servo: nat)
    ensures Angles(a + b, servo) == Angles(a, servo) + Angles(b, servo)
    decreases |a|
  {
    if a != [] {
      assert (a + b)[0] == a[0];
      assert (a + b)[1..] == a[1..] + b;
      AnglesAppend(a[1..], b, servo);
    } else {
      assert a + b == b;
    }
  }

  lemma {:induction false} OpeningsAppend(a: seq<Effect>, b: seq<Effect>, servo: nat)
    ensures Openings(a + b, servo) == Openings(a, servo) + Openings(b, servo)
    decreases |a|
  {
    if a != [] {
      assert (a + b)[0] == a[0];
      assert (a + b)[1..] == a[1..] + b;
      OpeningsAppend(a[1..], b, servo);
    } else {
      assert a + b == b;
    }
  }

  lemma {:induction false} FramesAppend(a: seq<Effect>, b: seq<Effect>)
    ensures Frames(a + b) == Frames(a) + Frames(b)
    decreases |a|
  {
    if a != [] {
      assert (a + b)[0] == a[0];
      assert (a + b)[1..] == a[1..] + b;
      FramesAppend(a[1..], b);
    } else {
      assert a + b == b;
    }
  }

  lemma {:induction false} LastFrameAppend(shown: string, a: seq<Effect>, b: seq<Effect>)
    ensures LastFrame(shown, a + b) == LastFrame(LastFrame(shown, a), b)
    decreases |b|
  {
    if b != [] {
      assert (a + b)[|a + b| - 1] == b[|b| - 1];
      assert (a + b)[..|a + b| - 1] == a + b[..|b| - 1];
      LastFrameAppend(shown, a, b[..|b| - 1]);
    } else {
      assert a + b == a;
    }
  }

  /** Sequence associativity, which Dafny already knows; stated as a lemma only so that the
      loop in `Controller.Run` can name the regrouping step for the solver. */
  lemma AppendAssociative(a: seq<Effect>, b: seq<Effect>, c: seq<Effect>)
    ensures (a + b) + c == a + (b + c)
  {
  }

  /** A gate cycle writes open then closed to its own servo, nothing to any other servo,
      and renders nothing. */
  lemma GateCycleObservations(servo: nat, other: nat)
    ensures Angles(GateCycle(servo), other) == if other == servo then [OpenAngle, ClosedAngle] else []
    ensures Openings(GateCycle(servo), other) == if other == servo then 1 else 0
    ensures Frames(GateCycle(servo)) == []
  {
    var g := GateCycle(servo);
    var close := [SetAngle(servo, ClosedAngle)];
    assert g[1..] == [Hold] + close && close[1..] == [] && [Hold][1..] == [];
    assert Angles(close, other) == if other == servo then [ClosedAngle] else [];
    assert Openings(close, other) == 0;
    assert Frames(close) == Frames(close[1..]);
    AnglesAppend([Hold], close, other);
    OpeningsAppend([Hold], close, other);
    FramesAppend([Hold], close);
  }

  /** A single render writes no servo and shows its text. */
  lemma RenderObservations(text: string, servo: nat)
    ensures Angles([Render(text)], servo) == []
    ensures Openings([Render(text)], servo) == 0
    ensures Frames([Render(text)]) == [text]
  {
  }

  /** "Spaces: N" is never "FULL", and it determines N. */
  lemma SpacesFrameFacts(m: int, n: int)
    ensures SpacesFrame(m) != FullFrame
    ensures SpacesFrame(m) == SpacesFrame(n) ==> m == n
  {
    assert |SpacesFrame(m)| > |FullFrame|;
    if SpacesFrame(m) == SpacesFrame(n) {
      assert SpacesFrame(m)[8..] == IntToString(m);
      assert SpacesFrame(n)[8..] == IntToString(n);
      IntToStringInjective(m, n);
    }
  }

  // ---------------------------------------------------------------------------------------
  // Properties of one poll cycle

  /** The frame the entrance half renders, if it renders one. */
  function EntranceFrames(free: int, triggered: bool): seq<string> {
    if !triggered then [] else if free > 0 then [SpacesFrame(free - 1)] else [FullFrame]
  }

  /** The entrance half moves only the entrance servo, open then closed, and only when it
      admits a car; it renders the new count after admitting, "FULL" when it refuses. */
  lemma EntrancePhaseObservations(free: int, triggered: bool)
    ensures var o := EntrancePhase(free, triggered);
      && o.free == (if triggered && free > 0 then free - 1 else free)
      && Angles(o.effects, EntranceServo) == (if triggered && free > 0 then [OpenAngle, ClosedAngle] else [])
      && Angles(o.effects, ExitServo) == []
      && Openings(o.effects, EntranceServo) == (if triggered && free > 0 then 1 else 0)
      && Openings(o.effects, ExitServo) == 0
      && Frames(o.effects) == EntranceFrames(free, triggered)
      && forall k | 0 <= k < |o.effects| && Writes(o.effects[k], EntranceServo) :: Frames(o.effects[..k]) == []
  {
    EntranceWritesBeforeRender(free, triggered);
    if triggered && free > 0 {
      var g, t := GateCycle(EntranceServo), [Render(SpacesFrame(free - 1))];
      GateCycleObservations(EntranceServo, EntranceServo);
      GateCycleObservations(EntranceServo, ExitServo);
      RenderObservations(SpacesFrame(free - 1), EntranceServo);
      RenderObservations(SpacesFrame(free - 1), ExitServo);
      AnglesAppend(g, t, EntranceServo);
      AnglesAppend(g, t, ExitServo);
      OpeningsAppend(g, t, EntranceServo);
      OpeningsAppend(g, t, ExitServo);
      FramesAppend(g, t);
    } else if triggered {
      RenderObservations(FullFrame, EntranceServo);
      RenderObservations(FullFrame, ExitServo);
    }
  }

  /** The entrance half renders only after its servo writes. */
  lemma EntranceWritesBeforeRender(free: int, triggered: bool)
    ensures var e := EntrancePhase(free, triggered).effects;
      forall k | 0 <= k < |e| && Writes(e[k], EntranceServo) :: Frames(e[..k]) == []
  {
    var e := EntrancePhase(free, triggered).effects;
    forall k | 0 <= k < |e| && Writes(e[k], EntranceServo)
      ensures Frames(e[..k]) == []
    {
      assert k == 0 || k == 2;
      if k == 2 {
        assert e[..k] == [SetAngle(EntranceServo, OpenAngle)] + [Hold];
        FramesAppend([SetAngle(EntranceServo, OpenAngle)], [Hold]);
      }
    }
  }

  /** The exit half moves only the exit servo, open then closed, whenever a car leaves, and
      then renders the increased count. */
  lemma ExitPhaseObservations(free: int, triggered: bool)
    ensures var o := ExitPhase(free, triggered);
      && o.free == (if triggered then free + 1 else free)
      && Angles(o.effects, EntranceServo) == []
      && Angles(o.effects, ExitServo) == (if triggered then [OpenAngle, ClosedAngle] else [])
      && Openings(o.effects, EntranceServo) == 0
      && Openings(o.effects, ExitServo) == (if triggered then 1 else 0)
      && Frames(o.effects) == (if triggered then [SpacesFrame(free + 1)] else [])
  {
    if triggered {
      var g, t := GateCycle(ExitServo), [Render(SpacesFrame(free + 1))];
      GateCycleObservations(ExitServo, EntranceServo);
      GateCycleObservations(ExitServo, ExitServo);
      RenderObservations(SpacesFrame(free + 1), EntranceServo);
      RenderObservations(SpacesFrame(free + 1), ExitServo);
      AnglesAppend(g, t, EntranceServo);
      AnglesAppend(g, t, ExitServo);
      OpeningsAppend(g, t, EntranceServo);
      OpeningsAppend(g, t, ExitServo);
      FramesAppend(g, t);
    }
  }

  /** One poll cycle, seen through the counter and the servos: the counter moves down by one
      only for an admitted car and up by one for every exit, and each gate's servo goes to 90
      then 0 exactly when that gate lets a car through. */
  lemma CycleServos(free: int, r: Reading)
    ensures var o := CycleOutcome(free, r);
      var admitted := r.entrance && free > 0;
      && o.free == free - (if admitted then 1 else 0) + (if r.exit then 1 else 0)
      && Angles(o.effects, EntranceServo) == (if admitted then [OpenAngle, ClosedAngle] else [])
      && Angles(o.effects, ExitServo) == (if r.exit then [OpenAngle, ClosedAngle] else [])
      && Openings(o.effects, EntranceServo) == (if admitted then 1 else 0)
      && Openings(o.effects, ExitServo) == (if r.exit then 1 else 0)
  {
    var a := EntrancePhase(free, r.entrance);
    var b := ExitPhase(a.free, r.exit);
    EntrancePhaseObservations(free, r.entrance);
    ExitPhaseObservations(a.free, r.exit);
    AnglesAppend(a.effects, b.effects, EntranceServo);
    AnglesAppend(a.effects, b.effects, ExitServo);
    OpeningsAppend(a.effects, b.effects, EntranceServo);
    OpeningsAppend(a.effects, b.effects, ExitServo);
  }

  /** One poll cycle, seen through the display: the entrance frame is rendered before the
      exit frame, each showing the counter as it is at that moment. */
  lemma CycleFrames(free: int, r: Reading)
    ensures var o := CycleOutcome(free, r);
      Frames(o.effects) == EntranceFrames(free, r.entrance) + (if r.exit then [SpacesFrame(o.free)] else [])
  {
    var a := EntrancePhase(free, r.entrance);
    var b := ExitPhase(a.free, r.exit);
    EntrancePhaseObservations(free, r.entrance);
    ExitPhaseObservations(a.free, r.exit);
    FramesAppend(a.effects, b.effects);
  }

  /** "FULL" is rendered in a poll exactly when a car arrives while the counter is not positive. */
  lemma CycleFullIff(free: int, r: Reading)
    ensures FullFrame in Frames(CycleOutcome(free, r).effects) <==> r.entrance && free <= 0
  {
    var o := CycleOutcome(free, r);
    CycleFrames(free, r);
    SpacesFrameFacts(free - 1, free - 1);
    SpacesFrameFacts(o.free, o.free);
    assert r.exit ==> SpacesFrame(o.free) != FullFrame;
  }

  /** With neither sensor triggered, a cycle changes nothing and does nothing. */
  lemma CycleIdle(free: int)
    ensures CycleOutcome(free, Reading(false, false)) == Outcome(free, [])
  {
  }

  /** Everything the entrance half does happens before anything the exit half does: no
      entrance servo write follows an exit servo write, and when the exit gate first moves
      the display has already shown exactly the entrance frame (if any). */
  lemma CycleEntranceFirst(free: int, r: Reading)
    ensures var e := CycleOutcome(free, r).effects;
      && (forall i, j | 0 <= i < j < |e| :: !(Writes(e[i], ExitServo) && Writes(e[j], EntranceServo)))
      && (forall j | 0 <= j < |e| && Writes(e[j], ExitServo) :: Frames(e[..j]) == EntranceFrames(free, r.entrance))
  {
    var a := EntrancePhase(free, r.entrance);
    var b := ExitPhase(a.free, r.exit);
    EntrancePhaseObservations(free, r.entrance);
    EntrancePhaseNoExitWrites(free, r.entrance);
    ExitPhaseShape(a.free, r.exit);
    EntranceThenExit(a.effects, b.effects);
  }

  lemma EntrancePhaseNoExitWrites(free: int, triggered: bool)
    ensures NoWrites(EntrancePhase(free, triggered).effects, ExitServo)
  {
  }

  /** The exit half never moves the entrance servo and renders only after its servo writes. */
  lemma ExitPhaseShape(free: int, triggered: bool)
    ensures var e := ExitPhase(free, triggered).effects;
      && NoWrites(e, EntranceServo)
      && forall k | 0 <= k < |e| && Writes(e[k], ExitServo) :: Frames(e[..k]) == []
  {
    var e := ExitPhase(free, triggered).effects;
    forall k | 0 <= k < |e| && Writes(e[k], ExitServo)
      ensures Frames(e[..k]) == []
    {
      assert k == 0 || k == 2;
      if k == 2 {
        assert e[..k] == [SetAngle(ExitServo, OpenAngle)] + [Hold];
        FramesAppend([SetAngle(ExitServo, OpenAngle)], [Hold]);
      }
    }
  }

  /** Concatenating an entrance part and an exit part keeps the entrance effects first. */
  lemma EntranceThenExit(a: seq<Effect>, b: seq<Effect>)
    requires NoWrites(a, ExitServo) && NoWrites(b, EntranceServo)
    requires forall k | 0 <= k < |b| && Writes(b[k], ExitServo) :: Frames(b[..k]) == []
    ensures var e := a + b;
      && (forall i, j | 0 <= i < j < |e| :: !(Writes(e[i], ExitServo) && Writes(e[j], EntranceServo)))
      && (forall j | 0 <= j < |e| && Writes(e[j], ExitServo) :: Frames(e[..j]) == Frames(a))
  {
    var e := a + b;
    forall i, j | 0 <= i < j < |e| && Writes(e[i], ExitServo)
      ensures !Writes(e[j], EntranceServo)
    {
      assert e[j] == b[j - |a|];
    }
    forall j | 0 <= j < |e| && Writes(e[j], ExitServo)
      ensures Frames(e[..j]) == Frames(a)
    {
      var k := j - |a|;
      assert e[j] == b[k];
      assert e[..j] == a + b[..k];
      FramesAppend(a, b[..k]);
    }
  }

  /** What each half of the cycle leaves on the display. */
  lemma PhaseLastFrames(free: int, triggered: bool, shown: string)
    ensures LastFrame(shown, EntrancePhase(free, triggered).effects)
      == if !triggered then shown else if free > 0 then SpacesFrame(free - 1) else FullFrame
    ensures LastFrame(shown, ExitPhase(free, triggered).effects)
      == if triggered then SpacesFrame(free + 1) else shown
  {
  }

  /** A cycle keeps the display consistent with the counter. */
  lemma CyclePreservesDisplay(free: int, shown: string, r: Reading)
    requires DisplayConsistent(free, shown)
    ensures var o := CycleOutcome(free, r); DisplayConsistent(o.free, LastFrame(shown, o.effects))
  {
  }

  // ---------------------------------------------------------------------------------------
  // Properties of a run

  /** The counter never goes negative: the only decrement is guarded by `free > 0`. */
  lemma {:induction false} RunNeverNegative(free: int, readings: seq<Reading>)
    requires free >= 0
    ensures RunOutcome(free, readings).free >= 0
    decreases |readings|
  {
    if readings != [] {
      RunNeverNegative(free, readings[..|readings| - 1]);
    }
  }

  /** The counter is the start value, minus one for each entrance-gate opening, plus one
      for each exit-gate opening. */
  lemma {:induction false} RunAccounting(free: int, readings: seq<Reading>)
    ensures var o := RunOutcome(free, readings);
      o.free == free - Openings(o.effects, EntranceServo) + Openings(o.effects, ExitServo)
    decreases |readings|
  {
    if readings != [] {
      var before := RunOutcome(free, readings[..|readings| - 1]);
      var last := CycleOutcome(before.free, readings[|readings| - 1]);
      RunAccounting(free, readings[..|readings| - 1]);
      CycleServos(before.free, readings[|readings| - 1]);
      OpeningsAppend(before.effects, last.effects, EntranceServo);
      OpeningsAppend(before.effects, last.effects, ExitServo);
    }
  }

  /** Every run keeps the display consistent with the counter. */
  lemma {:induction false} RunPreservesDisplay(free: int, shown: string, readings: seq<Reading>)
    requires DisplayConsistent(free, shown)
    ensures var o := RunOutcome(free, readings); DisplayConsistent(o.free, LastFrame(shown, o.effects))
    decreases |readings|
  {
    if readings != [] {
      var before := RunOutcome(free, readings[..|readings| - 1]);
      var last := CycleOutcome(before.free, readings[|readings| - 1]);
      RunPreservesDisplay(free, shown, readings[..|readings| - 1]);
      CyclePreservesDisplay(before.free, LastFrame(shown, before.effects), readings[|readings| - 1]);
      LastFrameAppend(shown, before.effects, last.effects);
    }
  }

  /** Polls in which no sensor fires change nothing and do nothing. */
  lemma {:induction false} RunIdle(free: int, readings: seq<Reading>)
    requires forall k | 0 <= k < |readings| :: readings[k] == Reading(false, false)
    ensures RunOutcome(free, readings) == Outcome(free, [])
    decreases |readings|
  {
    if readings != [] {
      RunIdle(free, readings[..|readings| - 1]);
    }
  }

  /** Start-up shows "Spaces: 100", and the display is then consistent with the counter. */
  lemma StartUpFrame()
    ensures SpacesFrame(InitialSpaces) == "Spaces: 100"
    ensures DisplayConsistent(InitialSpaces, SpacesFrame(InitialSpaces))
  {
  }

  /** Exits are not bounded: one exit from the start-up value takes the counter to 101 and
      the display to "Spaces: 101". */
  lemma ExitBeyondStartUp(shown: string)
    ensures var o := CycleOutcome(InitialSpaces, Reading(false, true));
      o.free == 101 && LastFrame(shown, o.effects) == "Spaces: 101"
  {
  }

  /** A car arriving at an empty count leaves the counter at zero, moves no servo, and shows "FULL". */
  lemma FullWhenEmpty(shown: string)
    ensures var o := CycleOutcome(0, Reading(true, false));
      && o.free == 0
      && Angles(o.effects, EntranceServo) == [] && Angles(o.effects, ExitServo) == []
      && LastFrame(shown, o.effects) == FullFrame
  {
  }

  /** Extending the readings by one poll at the end runs one more cycle. */
  lemma RunOutcomeAppend(free: int, readings: seq<Reading>, r: Reading)
    ensures var before := RunOutcome(free, readings);
      var last := CycleOutcome(before.free, r);
      RunOutcome(free, readings + [r]) == Outcome(last.free, before.effects + last.effects)
  {
  }

  /** One more poll, seen through the counter and the frames. */
  lemma RunOutcomeAppendFrames(free: int, readings: seq<Reading>, r: Reading)
    ensures var before := RunOutcome(free, readings);
      var after := RunOutcome(free, readings + [r]);
      && after.free == CycleOutcome(before.free, r).free
      && Frames(after.effects) == Frames(before.effects) + Frames(CycleOutcome(before.free, r).effects)
  {
    var before := RunOutcome(free, readings);
    RunOutcomeAppend(free, readings, r);
    FramesAppend(before.effects, CycleOutcome(before.free, r).effects);
  }

  /** A poll in which only the entrance sensor fires, and one in which only the exit sensor fires. */
  const Arrival: Reading := Reading(true, false)
  const Departure: Reading := Reading(false, true)

  /** From two free spaces, two cars enter and a third is turned away with "FULL". */
  lemma TwoSpaceFillUp()
    ensures var o := RunOutcome(2, [Arrival, Arrival, Arrival]);
      o.free == 0 && Frames(o.effects) == [SpacesFrame(1), SpacesFrame(0), FullFrame]
  {
    assert [Arrival] == [] + [Arrival];
    RunOutcomeAppendFrames(2, [], Arrival);
    CycleFrames(2, Arrival);
    assert [Arrival, Arrival] == [Arrival] + [Arrival];
    RunOutcomeAppendFrames(2, [Arrival], Arrival);
    CycleFrames(1, Arrival);
    assert [Arrival, Arrival, Arrival] == [Arrival, Arrival] + [Arrival];
    RunOutcomeAppendFrames(2, [Arrival, Arrival], Arrival);
    CycleFrames(0, Arrival);
  }

  /** The run continued: one car leaves, and the display counts one free space again. */
  lemma TwoSpaceScenario()
    ensures var o := RunOutcome(2, [Arrival, Arrival, Arrival, Departure]);
      && o.free == 1
      && Frames(o.effects) == [SpacesFrame(1), SpacesFrame(0), FullFrame, SpacesFrame(1)]
  {
    TwoSpaceFillUp();
    assert [Arrival, Arrival, Arrival, Departure] == [Arrival, Arrival, Arrival] + [Departure];
    RunOutcomeAppendFrames(2, [Arrival, Arrival, Arrival], Departure);
    CycleFrames(0, Departure);
  }
}
