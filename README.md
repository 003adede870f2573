# Car-park controller, modelled in Dafny

The program controls a small car park. It polls two infrared sensors, one at the entrance and
one at the exit, and drives two gate servos. It keeps one integer, `total_spaces`, the number
of free spaces, and shows it on a small display. The counter starts at 100 and the display
starts at "Spaces: 100". Each poll does two things, in this order:

- **Entrance sensor fired.** If the counter is positive, the entrance servo goes to 90°, the
  gate is held open for a second, and the servo goes back to 0°. The counter then drops by
  one and the display shows "Spaces: N". If the counter is not positive, the gate stays shut
  and the display shows "FULL".
- **Exit sensor fired.** The exit gate cycles the same way. The counter rises by one, with no
  upper bound, and the display shows "Spaces: N".

The project has three files:

- `decimal.dfy` (module `Decimal`) is Python's `str` on integers. Both the non-negative and
  the signed rendering are proved to round-trip through a digit reader and to be injective.
- `garage_model.dfy` (module `GarageModel`) holds the specification as pure functions.
  `CycleOutcome` is one poll and `RunOutcome` is a finite run of polls. Each returns the new
  counter and the ordered list of effects: servo writes, gate holds and renders. Independent
  observations of an effect list are defined beside them: the angles written to each servo,
  the gate openings, the frames rendered, and what the display shows last. The lemmas state
  the loop's properties in terms of these observations.
- `controller.dfy` (module `ParkingController`) holds the `Controller` class. Its fields are
  `free` (the counter), `trace` (the effects so far) and `shown` (the text on the display).
  The class has a constructor for start-up, a `Step` method for one poll, and a `Run` method
  whose `while` loop runs `Step` once per sensor reading. Each method's postcondition ties
  the new state to the specification functions.

Sensor readings are parameters. A servo write, a one-second hold and a display render are
each recorded as one `Effect`.

A car park with 100 spaces might be expected to keep its counter within `0 <= free <= 100`.
The code keeps only the lower bound. Where that expectation and the code differ, the model
follows the code:

- An exit always adds one to `total_spaces`, with no check against 100. The model proves the
  lower bound (`RunNeverNegative`) and proves that the counter can pass 100
  (`ExitBeyondStartUp`).
- An arrival is refused whenever the counter is not `> 0` (main.py:59), rather than only
  when it equals 0. The model uses `> 0`. The two tests agree on every reachable state,
  since the counter is never negative.

## Model

| member | source | states |
|---|---|---|
| Decimal.NatToString | main.py:66 | `str(n)` for `n >= 0`: at least one character, all decimal digits, and a '0' first only in "0" itself |
| Decimal.DigitsValueOfNatToString | main.py:66 | reading the digits of `str(n)` back gives `n` (round trip) |
| Decimal.NatToStringInjective | main.py:66 | distinct counts are rendered as distinct digit strings |
| Decimal.IntToString | main.py:84 | `str(i)` for any integer: a leading '-' exactly when `i < 0`, then at least one digit, with value `abs(i)`, and a '0' first only in "0" itself |
| Decimal.IntToStringInjective | main.py:84 | distinct integers are rendered as distinct strings |
| Decimal.NatToStringSamples | main.py:33-34 | `str(0) == "0"`, `str(100) == "100"`, `str(101) == "101"` |
| GarageModel.SpacesFrame | main.py:66 | no contract of its own: the frame `"Spaces: " + str(n)`; `SpacesFrameFacts` proves it is never "FULL" and determines `n`, and `StartUpFrame` pins "Spaces: 100" |
| GarageModel.GateCycle | main.py:61-63 | no contract of its own: open, hold, close on one servo; `GateCycleObservations` proves the angles, openings and absence of renders |
| GarageModel.EntrancePhase | main.py:58-74 | no contract of its own: the entrance half of a poll; `EntrancePhaseObservations`, `EntranceWritesBeforeRender` and `PhaseLastFrames` describe it |
| GarageModel.ExitPhase | main.py:77-86 | no contract of its own: the exit half of a poll; `ExitPhaseObservations`, `ExitPhaseShape` and `PhaseLastFrames` describe it |
| GarageModel.CycleOutcome | main.py:56-86 | no contract of its own: one iteration of the loop, entrance half then exit half; `CycleServos`, `CycleFrames`, `CycleFullIff`, `CycleEntranceFirst`, `CycleIdle` and `CyclePreservesDisplay` describe it |
| GarageModel.RunOutcome | main.py:56-88 | no contract of its own: a finite run of the loop; `RunNeverNegative`, `RunAccounting`, `RunPreservesDisplay`, `RunIdle` and `RunOutcomeAppend` describe it |
| GarageModel.StartUpFrame | main.py:33-38 | the start-up frame is exactly "Spaces: 100", and it agrees with the counter |
| GarageModel.GateCycleObservations | main.py:61-63 | a gate cycle writes 90 then 0 to its own servo, writes nothing to the other servo, opens the gate once, and renders nothing |
| GarageModel.SpacesFrameFacts | main.py:66-72 | "Spaces: N" is never "FULL", and the frame determines N |
| GarageModel.EntrancePhaseObservations | main.py:58-74 | entrance fired with a positive counter: the counter drops by one, the entrance servo gets 90 then 0, the exit servo is untouched, and "Spaces: N-1" is rendered after both servo writes; with a counter not positive: nothing moves, the counter is unchanged, and "FULL" is rendered; not fired: nothing happens |
| GarageModel.EntranceWritesBeforeRender | main.py:61-68 | no frame is rendered before either entrance servo write of the same half |
| GarageModel.ExitPhaseShape | main.py:79-86 | the exit half never moves the entrance servo, and no frame is rendered before either exit servo write |
| GarageModel.ExitPhaseObservations | main.py:77-86 | exit fired: the counter rises by one with no bound, the exit servo gets 90 then 0, the entrance servo is untouched, and "Spaces: N+1" is rendered; not fired: nothing happens |
| GarageModel.PhaseLastFrames | main.py:65-86 | after each half of the poll, the display shows that half's frame, or what it showed before if the sensor did not fire |
| GarageModel.CycleServos | main.py:56-86 | one poll: the net counter change is -1 for an admitted car and +1 for an exit (both fired: 0 when positive, +1 at zero), and each gate's servo gets 90 then 0 exactly when that gate lets a car through |
| GarageModel.CycleFrames | main.py:58-86 | one poll renders the entrance frame ("Spaces: N-1" or "FULL") before the exit frame ("Spaces: <new counter>"), each only if its sensor fired |
| GarageModel.CycleFullIff | main.py:59-74 | "FULL" is rendered in a poll if and only if the entrance fired while the counter was not positive |
| GarageModel.CycleIdle | main.py:56-88 | a poll with neither sensor fired leaves the counter unchanged and produces no effect |
| GarageModel.CycleEntranceFirst | main.py:58-86 | no entrance-servo write follows an exit-servo write, and when the exit servo first moves, exactly the entrance frame (if any) has been rendered |
| GarageModel.CyclePreservesDisplay | main.py:58-86 | a poll keeps the display consistent: the counter is non-negative, and the display shows "Spaces: <counter>", or "FULL" only while the counter is 0 |
| GarageModel.RunNeverNegative | main.py:56-88 | from a non-negative start, the counter is non-negative after every run, because the only decrement is guarded by `> 0` |
| GarageModel.RunAccounting | main.py:56-88 | after any run, the counter equals the start value minus the entrance-gate openings plus the exit-gate openings |
| GarageModel.RunPreservesDisplay | main.py:33-88 | every run keeps the display consistent with the counter |
| GarageModel.RunIdle | main.py:56-88 | polls in which no sensor fires change nothing and do nothing |
| GarageModel.RunOutcomeAppend | main.py:56-88 | one more reading runs one more poll on the counter the run left |
| GarageModel.ExitBeyondStartUp | main.py:77-86 | exits are unbounded: one exit from 100 gives 101 and shows "Spaces: 101" |
| GarageModel.FullWhenEmpty | main.py:69-74 | a car arriving at zero leaves the counter at 0, moves neither the entrance nor the exit servo, and leaves "FULL" on the display |
| GarageModel.TwoSpaceFillUp | main.py:58-74 | from 2 free spaces, three arrivals render "Spaces: 1", "Spaces: 0", "FULL" and leave the counter at 0 |
| GarageModel.TwoSpaceScenario | main.py:56-86 | continuing that run, one exit brings the counter back to 1 and renders "Spaces: 1" |
| ParkingController.Controller.constructor | main.py:33-38 | start-up: the counter is 100, the display shows "Spaces: 100", and that render is the only effect so far |
| ParkingController.Controller.SetServo | main.py:61 | a servo angle assignment appends exactly one write of that angle to that servo and changes nothing else |
| ParkingController.Controller.HoldGate | main.py:62 | the one-second sleep appends exactly one hold and changes nothing else |
| ParkingController.Controller.Show | main.py:65-68 | clearing, drawing and showing a line appends exactly one render of it and leaves it on the display |
| ParkingController.Controller.HandleEntrance | main.py:58-74 | changes the counter, trace and display exactly as the entrance half of the poll specifies |
| ParkingController.Controller.HandleExit | main.py:77-86 | changes the counter, trace and display exactly as the exit half of the poll specifies |
| ParkingController.Controller.Step | main.py:56-86 | one poll updates the counter, appends exactly that poll's effects to the trace, and leaves the display on the poll's last frame; it keeps the display consistent |
| ParkingController.Controller.Run | main.py:56-88 | the loop over a finite list of readings ends in the state the run specifies; it keeps the counter non-negative and the display consistent |

## Left out

- Hardware set-up and the driver libraries have no logic of their own: I2C, the SSD1306
  display driver, PIL image and font handling, `ServoKit`, and GPIO pin set-up (main.py:1-32,
  41-54). The display is modelled only as its last rendered text.
- Clearing the display, drawing the text and pushing the image (for example main.py:65-68)
  become one `Render` effect. Pixel coordinates, fill colours and the 128x32 geometry are
  not modelled.
- `time.sleep(1)` becomes an abstract `Hold` effect between the two servo writes. The 0.1 s
  poll delay (main.py:88) is dropped. Wall-clock time is not modelled.
- The `while True` loop never ends. `Controller.Run` runs it over a finite list of readings,
  and non-termination is not stated.
- Sensor read failures and other peripheral faults are not modelled. A reading is just a
  boolean, as `GPIO.input` is used in the source.
- The servo channel numbers (0 and 1) and the angles (90° and 0°) are modelled as constants.
  The sensor pin numbers (14 and 15) are not.
