# Verified model of the multi-material unit firmware

The firmware drives a multi-material unit: an ATmega32U4 that moves an idler, a selector and a pulley, remembers which
filament is loaded, and talks to a printer over a serial line. This project models the three parts whose correctness
is a matter of arithmetic and state rather than of hardware, and proves properties of them for all inputs and all
runs.

**The filament log** (`FilamentLog`, `FilamentSweeps`, `FilamentFaults`, `FilamentCuts`, `FilamentCutLimits`,
`FilamentWear`, `FilamentDevice`, `DriveErrors`, `GlobalState`). The loaded slot is kept in a log of EEPROM cells that
is written to and fro under four rotating keys; two of three status cells name the key in use, and the position is
rediscovered by a scan. An EEPROM image is a value with at most one bad status cell and one bad data cell; the number
of cells is a parameter. `FilamentDevice.FilamentLoaded` is the code itself, on arrays, with its loops; each method is
proved equal to a function on images and also records the image after every single byte update. About those functions
it is proved that the log behaves like one variable, exactly which bad cells it survives, exactly which of them it
survives when power may be cut at any byte update, what such a cut can leave, and how evenly the log wears. The fault
claim in the comment at `src/modules/permanent_storage.h:49-53` is not true of every bad data cell; the code meets it
exactly under `FilamentFaults.Tolerated`.

With power cuts the condition is stronger, `FilamentCuts.CutProof`. A bad status cell alone survives every cut if and
only if it shows 0 or 1: while the other two status cells differ there may be no majority, and the log then starts
anew at key 0. A bad data cell alone survives every cut if and only if it shows no key, or leads the sweep of its key
and holds a number that is no tool. Both together are survived only in a few combinations at either end of the log.
`FilamentCutLimits.BadStatusForgets` and `FilamentCutLimits.BadLeaderSpeaks` are two inputs that fail.

**Stepper motion** (`Trapezoid`, `SpeedTable`, `ClockTables`, `StepRamp`, `Pacing`, `Ring`, `AxisModel`, `Trajectory`,
`PulseGenerator`, `Scheduler`, `Motors`, `Motion`). The planner is the original's 32-bit unsigned arithmetic, proved
to compute an intended profile on unbounded integers. `PulseGenerator.PulseGen` is the pulse generator in place over
its ring of blocks; its planning method is cut where the stepping interrupt can come between, and the six gaps are
arguments. Each of its atomic pieces is an event of `AxisModel`, and the position and ordering theorems hold over
every interleaving of those events. `Scheduler` is the timer that all axes share, `Motors` puts the axes under it, and
`Motion.Motion` is the interrupt itself, in place over an array of pulse generators.

`Trajectory` says what the interrupts of a whole block amount to, told from the block alone: how many steps each one
makes, how long the timer waits after it, and which rate that is on the ramp up, in the cruise and on the ramp down.
The commanded rate is computed in 16 bits, and a steep or long enough ramp wraps: `Pacing.SteepRampFalls` is a move
whose rate drops from 10000 to 254 steps per second while it accelerates. `Pacing.Fits` is a condition on the planned
block, to be checked before the move, under which no rate wraps; long moves of the pulley with the default
configuration meet it. `PulseGenerator.PlansAreDriven` goes all the way from the arguments of a plan to the intervals
of the timer.

The speed tables are arguments of a type that states what is used of them everywhere: every entry leads exactly to the
next one, no interval exceeds 62500, the slow table ends no lower than the ninth entry of the fast one, and only the
first slow entry may be too steep for a 16-bit product. `ClockTables.OfClock` says more: every entry is 2000000
divided by its rate, rounded down. The tables for 16 MHz in `src/modules/speed_table.cpp` are of this type and meet
that condition. From it the interpolation is proved right to six tenths of a percent at every rate a plan may command.

The comment at `src/modules/pulse_gen.h:66-67` promises the current effective rate after an abort. What the code
leaves behind is the last rate of the ramp up (`Trajectory.AbortLeavesPeak`), also while the axis is cruising or
slowing down.

**The serial protocol** (`Crc`, `CrcRemainder`, `Hex`, `Streams`, `Requests`, `RequestErrors`, `Responses`,
`ResponseLines`, `Protocol`). Bytes are 8-bit vectors. `Protocol.Protocol` holds the decoder fields, and the encoders
write into a buffer; all of them are proved against functions on byte strings, about which the round trips, soundness,
resynchronisation and error detection are proved, and the answer of the response decoder to every byte of every line.
The CRC is proved to be the remainder of the division of polynomials that it stands for.

Some methods of the original appear as two or more here, each with its own contract: the pass of `set`, the no-cruise
branch of the planner, the parts of `PulseGen::Step` and `Motion::Step`, the two loops of `UInt16ToHex`.

`dafny verify dfyconfig.toml` checks the whole project.

## Model

| member | source | states |
|---|---|---|
| FilamentDevice.FilamentLoaded.UpdateByte | src/modules/permanent_storage.cpp:109-112 | One byte update changes one healthy cell, is ignored by a bad one, and adds one image to the history |
| FilamentDevice.FilamentLoaded.GetStatus | src/modules/permanent_storage.cpp:95-103 | The key two of the three status cells agree on, else 0xff |
| FilamentDevice.FilamentLoaded.SetStatus | src/modules/permanent_storage.cpp:109-116 | Three updates, one image each, true when the vote then gives the new key |
| FilamentDevice.FilamentLoaded.GetIndex | src/modules/permanent_storage.cpp:127-155 | Both scan loops find the end of the longest run of cells with the current key, in the direction of that key |
| FilamentDevice.FilamentLoaded.Get | src/modules/permanent_storage.cpp:161-178 | The stored slot, or failure, with all four failure tests |
| FilamentDevice.FilamentLoaded.GetNext | src/modules/permanent_storage.cpp:214-237 | For every status and index: the next cell in the direction of the key, turning to the next key at either end, key 0 from an unknown one |
| FilamentDevice.FilamentLoaded.Pass | src/modules/permanent_storage.cpp:191-205 | One pass of the retry loop makes exactly the specified updates and ends, fails or goes on as specified |
| FilamentDevice.FilamentLoaded.Set | src/modules/permanent_storage.cpp:190-206 | The retry loop returns the specified result after exactly the specified updates, image by image |
| FilamentLog.GetStatus | src/modules/permanent_storage.cpp:95-103 | Any two equal status cells decide the vote; three different ones give 0xff |
| FilamentLog.RunFrom | src/modules/permanent_storage.cpp:127-155 | The run holds only cells with the key and ends at the first other cell |
| FilamentLog.NextCellIsTarget | src/modules/permanent_storage.cpp:214-237 | From the cell written last, getNext arrives at the key and position that the sweep specification aims at |
| FilamentSweeps.RunIs | src/modules/permanent_storage.cpp:118-155 | Under the sweep invariant the scan rediscovers exactly the number of cells written |
| FilamentSweeps.SetStatusWorks | src/modules/permanent_storage.cpp:109-116 | With at most one bad status cell the vote follows every key change |
| FilamentSweeps.StoredIsRead | src/modules/permanent_storage.cpp:161-178 | The value written last is what get answers, failure if it is no tool |
| FilamentSweeps.Rotate | src/modules/permanent_storage.cpp:214-262 | A finished sweep is a correct start for the next key in the opposite direction |
| FilamentSweeps.Extend | src/modules/permanent_storage.cpp:190-200 | Writing the next cell keeps the sweep invariant, one cell longer |
| FilamentSweeps.PassSucceeds | src/modules/permanent_storage.cpp:190-200 | A pass that aims at a healthy cell ends the call with the value stored |
| FilamentSweeps.PassFails | src/modules/permanent_storage.cpp:199-204 | A pass refused by the bad cell changes no data and hands over to the next key |
| FilamentSweeps.SetIs | src/modules/permanent_storage.cpp:190-206 | With or without faults, a call is its first pass if the byte reads back, and otherwise goes on after a change of key that never fails |
| FilamentFaults.FirstSet | src/modules/permanent_storage.cpp:190-237 | The first call on an erased store succeeds whatever one bad status and one bad data cell show |
| FilamentFaults.SetStep | src/modules/permanent_storage.cpp:190-206 | Every call on a live store succeeds within three passes and stores its value at the predicted sweep position |
| FilamentFaults.HistoryIsStored | src/modules/permanent_storage.cpp:190-206 | Over any history with a tolerated fault every call succeeds and the sweep invariant holds with the last value stored |
| FilamentFaults.ToleratedRemembers | src/modules/permanent_storage.h:49-53 | With a bad status cell and a tolerated bad data cell, every call of any history succeeds and get gives the last value |
| FilamentFaults.Betrayed | src/modules/permanent_storage.cpp:134-149 | A sweep that reaches a bad cell carrying its key makes get answer with that cell |
| FilamentFaults.BetrayedEventually | src/modules/permanent_storage.cpp:134-149 | Such a cell is reached by storing one value often enough |
| FilamentFaults.IntolerableForgets | src/modules/permanent_storage.h:49-53 | For every fault that is not tolerated there is a history whose last value is not what get answers |
| FilamentFaults.FaultToleranceIsExact | src/modules/permanent_storage.h:49-53 | The fault claim, for every number of cells from two on: all histories are remembered if and only if the bad data cell shows no key, or the key of a sweep that starts at it |
| FilamentCuts.StatusCut | src/modules/permanent_storage.cpp:109-116 | Each of the three updates of a key change leaves the old key or the new one in force, never a mixture |
| FilamentCuts.PassCut | src/modules/permanent_storage.cpp:190-200 | The image after each update of a pass is untouched, rotating or done |
| FilamentCuts.TieRestarts | src/modules/permanent_storage.cpp:95-103 | When a cut change of key leaves no majority after a finished sweep, the sweep of key 0 can start anew |
| FilamentCuts.TraceIsSafe | src/modules/permanent_storage.cpp:190-206 | So is every image of a whole call, whatever number of passes it takes |
| FilamentCuts.CallsKeepReady | src/modules/permanent_storage.cpp:190-206 | With cut-proof faults, any history of complete and interrupted calls keeps the store usable |
| FilamentCuts.ReadyRecovers | src/modules/permanent_storage.cpp:190-206 | The next complete call on such a store succeeds and reads back |
| FilamentCuts.SafeReads | src/modules/permanent_storage.cpp:161-178 | After a cut get gives the old answer, the new one, or failure while the key is changing |
| FilamentCuts.PowerCutIsSafe | src/modules/permanent_storage.cpp:190-206 | Both together, for every cut-proof fault and a cut at any byte update after any history that itself may contain cuts |
| FilamentCutLimits.BadStatusForgets | src/modules/permanent_storage.cpp:109-116 | A failing input: status 0, 0 and a cell stuck at 0xff, a cut after one update; the next complete call of 1 succeeds and get answers 0 |
| FilamentCutLimits.BadLeaderSpeaks | src/modules/permanent_storage.cpp:161-178 | Another: an erased log whose first cell is stuck at 0x03, a cut after two updates; get answers 3, which was never stored |
| FilamentCutLimits.HarmlessNeeded | src/modules/permanent_storage.cpp:127-178 | Every bad data cell that is not harmless is betrayed by some history with some cut |
| FilamentCutLimits.AgreeableNeeded | src/modules/permanent_storage.cpp:95-116 | So is every bad status cell that is not agreeable, alone or beside a bad data cell |
| FilamentCutLimits.CutSafetyIsExact | src/modules/permanent_storage.cpp:190-206 | With any one bad status cell and any one bad data cell, and any number of cells: every cut after every history is survived if and only if the faults are cut-proof, which is read off the bad cells |
| FilamentCutLimits.SingleFaults | src/modules/permanent_storage.cpp:95-206 | A bad status cell alone: if and only if it shows 0 or 1. A bad data cell alone: if and only if it is harmless |
| FilamentWear.FaultFreePass | src/modules/permanent_storage.cpp:190-206 | Without faults a call is one pass, with this exact final image |
| FilamentWear.StatusWear | src/modules/permanent_storage.cpp:109-116 | Rewriting the status costs no physical write, changing it costs one per cell |
| FilamentWear.DataWear | src/modules/permanent_storage.cpp:197-198 | A data write wears the next cell of the sweep and no other |
| FilamentWear.HistoryWear | src/modules/permanent_storage.h:39-47 | After any history the store is in the predicted sweep at the predicted position, with the predicted wear |
| FilamentWear.WearIsEven | src/modules/permanent_storage.h:39-47 | After n calls on N cells each status cell was written exactly ceil(n/N) times and any two data cells differ by at most one write |
| DriveErrors.CellsNext | src/modules/permanent_storage.cpp:268-296 | The two alternating low cells always hold the last two low bytes |
| DriveErrors.CountsUpToMaximum | src/modules/permanent_storage.cpp:264-296 | After n increments from erased the counter reads min(n, 65535) |
| DriveErrors.CutIncrement | src/modules/permanent_storage.cpp:268-275 | Power lost between the two writes: the new count is read, except that it falls back by 255 when the low byte wraps |
| DriveErrors.DriveError.Get | src/modules/permanent_storage.cpp:264-292 | Reads the count of the three cells |
| DriveErrors.DriveError.Increment | src/modules/permanent_storage.cpp:268-296 | Goes from the cells of n increments to those of n + 1 |
| GlobalState.Globals.Init | src/modules/globals.cpp:12-40 | Slot and load state are those recovered from the log, and every adjustable parameter is the configured one |
| GlobalState.Globals.SetFilamentLoaded | src/modules/globals.cpp:54-70 | Sets both fields and stores the slot, or "none" when not loaded |
| GlobalState.RebootRecovers | src/modules/globals.cpp:12-23 | After any history of reports an unloaded state comes back unloaded; a loaded one comes back with its slot and no lower if and only if its slot is a tool |
| GlobalState.CutReportRecovers | src/modules/globals.cpp:54-70 | With cut-proof faults, after a power cut anywhere in a report the reboot finds the state before it, after it, or no filament |
| Trapezoid.RisingBranch | src/modules/pulse_gen.cpp:61-69 | The branch for an exit no slower than the entry, with its parity correction, is ceil((F^2 - I^2 + 2as) / 4a) |
| Trapezoid.FallingBranch | src/modules/pulse_gen.cpp:74-82 | The branch for a slower exit is the same number |
| Trapezoid.MeetingBelowNominal | src/modules/pulse_gen.cpp:53-60 | Without room to cruise the ramps meet before the nominal rate is passed |
| Trapezoid.PhasesInOrder | src/modules/pulse_gen.cpp:45-89 | 0 <= accelerate_until <= decelerate_after <= steps, and the ramp up stops at the first step that reaches the nominal rate or before |
| Trapezoid.ExitRate | src/modules/pulse_gen.cpp:56-89 | The squared exit rate lies in [F^2, F^2 + 4a), unless the block is too short: then it ends faster than asked, or its final rate is lowered to the rate reached, between the initial and the requested one |
| Trapezoid.EndsAreLimited | src/modules/pulse_gen.cpp:25-32 | With a nominal rate of at least 120 both end rates lie between 120 and it, and a rate asked for from there is kept, but for the final rate of a block too short to reach it; below 120 both are the nominal rate |
| Trapezoid.RampsExact | src/modules/pulse_gen.cpp:41-49 | Both ramp lengths come out exactly in 32-bit unsigned arithmetic |
| Trapezoid.RisingExact | src/modules/pulse_gen.cpp:59-69 | So does the branch for an exit no slower than the entry |
| Trapezoid.FallingExact | src/modules/pulse_gen.cpp:74-82 | So does the other branch |
| Trapezoid.FullRampExact | src/modules/pulse_gen.cpp:70-73 | So does the argument of the square root |
| Trapezoid.MeetRamps | src/modules/pulse_gen.cpp:58-84 | The no-cruise branch gives the meeting point clamped to the block, and the matching final rate |
| Trapezoid.CalculateTrapezoid | src/modules/pulse_gen.cpp:18-90 | In range, the 32-bit planner stores exactly the intended profile, with both end rates limited as asked; it changes no other field of the block |
| SpeedTable.LoopsAreFewest | src/modules/speed_table.h:27-37 | The number of steps per interrupt is the least that keeps interrupts at 10 kHz or below |
| SpeedTable.CalcTimer | src/modules/speed_table.h:26-64 | Interval and steps per interrupt, the interval in [100, 62500] |
| SpeedTable.WithinEntry | src/modules/speed_table.h:44-58 | Every interpolated interval lies between its entry and the next one |
| SpeedTable.LiesOnLine | src/modules/speed_table.h:44-58 | Inside every entry whose products do not wrap, the interval is the point of the straight line to the next entry, rounded up |
| SpeedTable.InterpolationFalls | src/modules/speed_table.h:44-58 | Over both tables and their border a higher rate never gives a longer interval, but inside a first slow entry that is too steep |
| SpeedTable.FasterIsShorter | src/modules/speed_table.h:26-64 | With equal steps per interrupt a faster rate never waits longer, from 40 steps per second on, and everywhere if the first slow entry is gentle |
| SpeedTable.WrapsBelowForty | src/modules/speed_table.h:57-57 | With the 16 MHz table the 16-bit product wraps below that: 38 steps per second wait longer than 37 |
| SpeedTable.MonotonicIsGentle | src/modules/speed_table.h:26-64 | At all rates a faster one never waits longer, if and only if seven times the gain of the first slow entry fits 16 bits |
| ClockTables.SingleRate | src/modules/speed_table.h:44-58 | With the tables of the 2 MHz timer, the interval at one step per interrupt is longer than the exact one less a tick, and shorter than it plus a tick and the bend of the line |
| ClockTables.RateTimesInterval | src/modules/speed_table.h:26-64 | With those tables rate times interval lies between 1990000 and 2012000 per step of the interrupt, at every rate from 120 to 40000 |
| StepRamp.NextTick | src/modules/pulse_gen.h:103-148 | One interrupt completes one to four steps inside the block and its interval is in [100, 62500]; `Trajectory` says what it commands |
| StepRamp.ProfileStep | src/modules/pulse_gen.h:110-148 | While the ramp times fit 16 bits, one interrupt commands a rate within the limits of its block and keeps the ramp invariant |
| StepRamp.StartedOnProfile | src/modules/pulse_gen.h:91-100 | A fetched block whose ramp times fit starts on its profile |
| StepRamp.RatesFollowProfile | src/modules/pulse_gen.h:103-148 | Over a whole block whose ramp times fit, rates stay between the lower end rate and the nominal rate, never fall while accelerating, never rise while decelerating, and the phases come in order |
| Pacing.PacedFollowsProfile | src/modules/pulse_gen.h:81-148 | A well-planned block that is in time follows its profile from the fetch to the last step, whatever block went before |
| Pacing.ClockKeepsPace | src/modules/speed_table.h:26-64 | With the tables of the 2 MHz timer every block with limited end rates keeps the pace that its initial rate gives |
| Pacing.PulleyIsPaced | src/config/config.h:121-133 | With those tables all long pulley moves of the default configuration are in time |
| Pacing.SteepRampFalls | src/modules/pulse_gen.h:110-118 | A failing input, with the same tables: 2000 steps from rest at acceleration 7800000 and feed 10000 command 254 after 10000, still accelerating |
| Trajectory.CommandsAreTimed | src/modules/pulse_gen.h:103-148 | Over a whole block, in all three phases: the timer is the interval of the commanded rate, the next interrupt makes the steps of that rate or the rest of the block, the phases change with the steps completed, and the cruise is at the nominal rate |
| Trajectory.CommandsAreRamps | src/modules/pulse_gen.h:110-138 | While the ramp times fit, every accelerating rate is the initial rate plus the scaled time since the start, up to the nominal rate, and every decelerating one the last accelerating rate less the scaled time since deceleration began, down to the final rate |
| Trajectory.PacedIsExecuted | src/modules/pulse_gen.h:81-148 | So a block that is in time is executed from the fetch to its end exactly as block and tables say |
| Trajectory.InterruptsObey | src/modules/pulse_gen.h:80-157 | The interrupts of an axis execute its oldest block command by command, in timer and steps, and then drop it |
| Trajectory.PacedIsDriven | src/modules/pulse_gen.h:80-157 | Both together for a block in time whose turn comes |
| Trajectory.AbortLeavesPeak | src/modules/pulse_gen.cpp:155-171 | An abort after any number of interrupts of a block leaves the last rate of its ramp up behind, zero with a halt |
| Ring.NextIs | src/hal/circular_buffer.h:82-89 | Either cursor arithmetic counts up to its modulus and restarts at zero |
| Ring.CountIs | src/hal/circular_buffer.h:64-72 | Either count is the distance from tail to head around the modulus |
| Ring.LiveSlotsDistinct | src/hal/circular_buffer.h:53-61 | Live slots are distinct and the slot to be filled is none of them, for every size from 1 to 127 |
| Ring.PushAppends | src/hal/circular_buffer.h:41-43 | Push appends the back slot |
| Ring.PopDrops | src/hal/circular_buffer.h:47-55 | Pop drops the front slot, which is the oldest |
| Ring.EmptyIs | src/hal/circular_buffer.h:25-37 | Empty and reset mean no live slots |
| Ring.CircularBuffer.Push | src/hal/circular_buffer.h:119-125 | A bounded FIFO of capacity exactly size: appends, or refuses and changes nothing |
| Ring.CircularBuffer.Pop | src/hal/circular_buffer.h:135-141 | Gives and drops the oldest element, or refuses |
| Ring.CircularBuffer.Front | src/hal/circular_buffer.h:129-131 | The oldest element |
| Ring.CircularBuffer.Reset | src/hal/circular_buffer.h:111-113 | Empties the buffer |
| AxisModel.StepExecutes | src/modules/pulse_gen.h:80-157 | An interrupt executes the next pulses in order, all from one block, at least one and at most four, and answers zero exactly when there is nothing to do |
| AxisModel.EventKeepsValid | src/modules/pulse_gen.cpp:92-171 | Every event of main loop or interrupt keeps the axis consistent and moves it by its pulses |
| AxisModel.RemainingIsNet | src/modules/pulse_gen.h:198-210 | The signed steps remaining are the net of the pulses still to come |
| AxisModel.PositionIsPulses | src/modules/pulse_gen.cpp:136-153 | Over any interleaving the axis stands where its pulses took it, CurPosition says so, and Position is ahead of it by the unexecuted signed steps |
| AxisModel.PulsesAreBlocksInOrder | src/modules/pulse_gen.h:80-157 | Without aborts the pulses made and to come are exactly the steps of the planned blocks in FIFO order and direction |
| AxisModel.InterruptsDrain | src/modules/pulse_gen.h:150-154 | Interrupts drain the queue in at most as many calls as steps are left, ending at the last planned target |
| AxisModel.RateIsPlanned | src/modules/pulse_gen.cpp:127-128 | Without aborts the axis remembers the final rate of its last plan, whatever interrupts come between |
| PulseGenerator.FilledSlotIsNotRead | src/modules/pulse_gen.cpp:94-96 | The slot that PlanMoveTo fills is never the one Step reads |
| PulseGenerator.FillIsInvisible | src/modules/pulse_gen.cpp:96-128 | Nor does filling it change any live block |
| PulseGenerator.FactorIsSafe | src/modules/pulse_gen.cpp:113-117 | The scaled acceleration is exact in 32 bits, never more than asked for and less than two thousandths and one unit below |
| PulseGenerator.EntrySpeed | src/modules/pulse_gen.cpp:120-124 | The entry speed lies between the last rate and the feed rate, no more than the jerk from the last rate, and is the feed rate or exactly one jerk away |
| PulseGenerator.PlansAreLimited | src/modules/pulse_gen.cpp:92-134 | So do the end rates of every planned block follow from what was asked for, with its nominal rate and its scaled acceleration |
| PulseGenerator.PlannedStart | src/modules/pulse_gen.cpp:119-128 | A plan starts at its feed rate if that is no higher than the last rate, whatever the jerk, and at most one jerk faster than the last rate otherwise |
| PulseGenerator.PlansAreWellPlanned | src/modules/pulse_gen.cpp:92-134 | A planned block in range meets what Step needs of its rates and phases |
| PulseGenerator.PlansFollowProfile | src/modules/pulse_gen.cpp:92-134 | Every move planned in range that is in time follows its profile, up to the feed rate asked for |
| PulseGenerator.PlansAreDriven | src/modules/pulse_gen.cpp:92-134 | From the request to the timer: with the tables of the 2 MHz timer, a plan in range whose ramps fit is executed as its profile says |
| PulseGenerator.PulseGen.constructor | src/modules/pulse_gen.cpp:7-16 | An axis at zero with an empty queue |
| PulseGenerator.PulseGen.Fetch | src/modules/pulse_gen.h:81-101 | The oldest block becomes current with the step parameters of its start |
| PulseGenerator.PulseGen.Pulse | src/modules/pulse_gen.h:103-108 | The pulse loop stops at the end of the block |
| PulseGenerator.PulseGen.NextInterval | src/modules/pulse_gen.h:110-148 | The three phases of the ramp, as specified |
| PulseGenerator.PulseGen.Step | src/modules/pulse_gen.h:80-157 | In place over the ring, exactly the interrupt event of the axis |
| PulseGenerator.PulseGen.BeginPlan | src/modules/pulse_gen.cpp:93-96 | Refuses a plan exactly when the queue is full |
| PulseGenerator.PulseGen.Fill | src/modules/pulse_gen.cpp:96-128 | Writing the slot leaves the axis as the interrupt sees it |
| PulseGenerator.PulseGen.PushBlock | src/modules/pulse_gen.cpp:130-131 | Publishing appends the filled block |
| PulseGenerator.PulseGen.CommitPosition | src/modules/pulse_gen.cpp:132-132 | The position becomes the end of the pushed block |
| PulseGenerator.PulseGen.PlanMoveTo | src/modules/pulse_gen.cpp:92-134 | With any number of interrupts after the capacity check, each of the three writings of the slot, the rate and the push, the move is a run of the axis that pushes one block with the intended profile, or none for a zero move or a full queue; then position and last rate are the target and the final rate |
| PulseGenerator.PulseGen.CurPosition | src/modules/pulse_gen.cpp:136-153 | Rolling the queue back arrives at the pulses made |
| PulseGenerator.PulseGen.AbortPlannedMoves | src/modules/pulse_gen.cpp:155-171 | Empties the queue and sets the position to the place of the axis |
| PulseGenerator.PulseGen.SetPosition | src/modules/pulse_gen.h:61-64 | Renames the place where the moves end and every place on the way, which need not fit only when moves are planned |
| PulseGenerator.RestIsRenamed | src/modules/pulse_gen.h:61-64 | With an empty queue every name fits, and the axis then stands there |
| Scheduler.AxisAnswers | src/modules/motion.h:273-283 | The pulse generator only gives the answers the scheduler relies on |
| Scheduler.Timer | src/modules/motion.h:271-285 | The time to the next step of an axis fits 16 bits and is at least 100 or zero |
| Scheduler.Closest | src/modules/motion.h:288-293 | The least non-zero timer, zero when all are |
| Scheduler.RunKeepsBalance | src/modules/motion.h:266-301 | Over any run, for each axis since it last started, intervals returned plus its residual equal its step intervals |
| Scheduler.StepsAreTimely | src/modules/motion.h:266-301 | So a step is never late and at most the quantum early; the returned interval never exceeds any running timer, is at least 100, and zero exactly when all axes are idle |
| Motors.After | src/modules/motion.h:271-285 | A stepped axis stays consistent and keeps the target of its plans |
| Motors.MeasureFalls | src/modules/motion.h:266-301 | As long as any axis has steps to come or an interval to wait for, each timer interrupt lowers a bound on what is left |
| Motors.AllMovesFinish | src/modules/motion.h:266-301 | Under the shared timer, with its own generator on every axis and from any residuals, interrupts alone finish every planned move of every axis within that bound, each axis ending at its last target |
| Motion.StepOneIs | src/modules/motion.h:269-286 | An axis is stepped exactly when its rest is within the quantum and it has a rest or a move, and its timer follows from the answer |
| Motion.Motion.StepAxes | src/modules/motion.h:269-286 | The first loop steps exactly the pulse generators that are due, in place, and takes their timers |
| Motion.Motion.FindClosest | src/modules/motion.h:288-293 | The second loop finds the least non-zero timer |
| Motion.Motion.Carry | src/modules/motion.h:295-298 | The third loop carries the residuals and leaves the axes alone |
| Motion.Motion.Step | src/modules/motion.h:266-301 | One interrupt over an array of pulse generators is one call on all axes as `Motors` specifies it, and returns the closest timer |
| Crc.UpdateCX | src/modules/crc.h:16-27 | The eight-round loop is the byte step |
| Crc.UpdateW | src/modules/crc.h:30-38 | A word is folded low byte first |
| Crc.ByteStepLinear | src/modules/crc.h:16-27 | The byte step is linear |
| Crc.ByteStepInjective | src/modules/crc.h:16-27 | The byte step is injective |
| Crc.FoldLinear | src/modules/crc.h:16-38 | The difference of two CRCs is the CRC of the difference, for strings of any length |
| Crc.BurstSurvives | src/modules/crc.h:16-27 | No burst of at most eight bits cancels itself across two bytes |
| Crc.BurstIsDetected | src/modules/crc.h:16-38 | Strings of any length that differ by one burst of at most eight consecutive bits have different CRCs |
| Crc.ByteChangeIsDetected | src/modules/crc.h:16-38 | So have strings that differ in one byte |
| Crc.InvisiblePair | src/modules/crc.h:30-38 | Exactly which two bytes leave the CRC as two zero bytes do |
| CrcRemainder.RemainderIsUnique | src/modules/crc.h:11-27 | Quotient and remainder of the division by x^8 + x^2 + x + 1 are unique |
| CrcRemainder.CrcIsRemainder | src/modules/crc.h:11-38 | The CRC of a byte string, begun with zero, is its remainder, and nothing else is |
| Hex.Hex8RoundTrip | src/modules/protocol.cpp:312-328 | A printed byte has no leading zero and reads back |
| Hex.Hex16RoundTrip | src/modules/protocol.cpp:330-349 | So does a printed word |
| Requests.FrameIsDecoded | src/modules/protocol.cpp:29-126 | A request with any number of digits and either line end is taken for its meaning exactly when its CRC is right; only its last byte completes or breaks it |
| Requests.EncodedFrame | src/modules/protocol.cpp:128-151 | Both encoders write a frame with a right CRC that means the message |
| Requests.MessageRoundTrip | src/modules/protocol.cpp:29-151 | An encoded request decodes to itself |
| Requests.StreamRoundTrip | src/modules/protocol.cpp:29-151 | A stream of encoded requests, plain and write, decodes to that sequence, completing at each line end and nowhere else |
| Requests.LineEnds | src/modules/protocol.cpp:99-125 | A line end leaves any decoder between messages or in error |
| Requests.ErrorSkipsLine | src/modules/protocol.cpp:116-124 | A decoder in error reports the rest of the line as one unknown message |
| Requests.Resynchronises | src/modules/protocol.cpp:104-124 | After any garbage and a line end a stream decodes exactly, except that its first message is lost exactly when the line end left the decoder in error |
| Requests.CompletedIsGenuine | src/modules/protocol.cpp:29-126 | For any byte stream a completed message with a known code is the meaning of a well-formed frame with a matching CRC that ends the stream |
| Requests.CodesAreLetters | src/modules/protocol.h:15-33 | The decoder knows exactly the letters of the sixteen requests |
| Requests.CRCIsRemainder | src/modules/protocol.h:57-63 | The CRC byte of a request fits if and only if it is the remainder of code, value and second value, low byte first |
| Requests.CorruptedIsRejected | src/modules/protocol.h:57-63 | A request whose covered bytes were hit by one burst of at most eight bits fails the CRC |
| RequestErrors.OneByteOff | src/modules/protocol.cpp:29-126 | No frame with a matching CRC is made of a short one by one wrong byte before its end |
| RequestErrors.OneByteIsNoticed | src/modules/protocol.cpp:29-151 | Replace any byte of an encoded request by any other: no other request comes out, and the request itself does if and only if the line end became the other line end, or the only digit of a CRC of zero became a line end |
| RequestErrors.ShortBurstPasses | src/modules/protocol.cpp:29-151 | A burst of six bits over two neighbouring bytes can pass: the query of 2 becomes a reset of 11 with the same CRC |
| Responses.PrintedFits | src/modules/protocol.cpp:262-310 | The printed CRC fits the printed text exactly when the reply is readable: its request has no second value, one the CRC cannot see, or the encoder drops it |
| Responses.ReplyIsDecoded | src/modules/protocol.cpp:153-310 | Every reply of every encoder is read as its meaning exactly when it is readable; its last byte completes or breaks it |
| Responses.ZeroIsReadable | src/modules/protocol.cpp:262-270 | All replies to requests without a second value are readable |
| Responses.ParamsAreLetters | src/modules/protocol.h:36-44 | The decoder knows exactly the letters of the six parameters |
| Responses.CRCIsRemainder | src/modules/protocol.h:94-99 | The CRC byte of a response fits if and only if it is the remainder of its request and its parameter |
| Responses.StreamRoundTrip | src/modules/protocol.cpp:153-310 | A stream of readable replies of all encoders decodes to their meanings, completing at each line end and nowhere else |
| Responses.LineEndsAreSkipped | src/modules/protocol.cpp:179-182 | A waiting decoder answers every line end with "need more", keeps its message and goes on as if there had been none |
| Responses.SpacedRoundTrip | src/modules/protocol.cpp:153-259 | Replies with any line ends between them decode to their meanings without an error |
| Responses.Resynchronises | src/modules/protocol.cpp:153-259 | After any garbage and a line end a stream of replies decodes exactly, except that the first is lost exactly when the line end left the decoder in error |
| Responses.CompletedIsGenuine | src/modules/protocol.cpp:153-259 | For any stream a completed response is what the last line says under a matching CRC if and only if the byte before the line end was not answered by an error |
| Responses.StaleIsCompleted | src/modules/protocol.cpp:183-185 | One refused byte and a line end complete with the response before |
| ResponseLines.QuietExactly | src/modules/protocol.cpp:153-259 | A waiting decoder answers "need more" throughout exactly to how a response may begin |
| ResponseLines.GoodLineIs | src/modules/protocol.cpp:234-249 | A line end after such a beginning completes a whole response with a matching CRC, and is an error after any other |
| ResponseLines.BadLineIs | src/modules/protocol.cpp:183-259 | In any other line the first byte that no response goes on with and all after it are answered by an error, and the line end completes a message without a parameter, but for the one case in which the old parameter stays |
| Protocol.RequestCRC8 | src/modules/protocol.h:57-63 | Computes the fold over code, value and second value |
| Protocol.ResponseCRC8 | src/modules/protocol.h:94-99 | Continues it over parameter code and value |
| Protocol.UInt8ToHex | src/modules/protocol.cpp:312-328 | Writes the digits in place and nothing else |
| Protocol.LeadingZero | src/modules/protocol.cpp:336-341 | A leading zero can be shifted out; the first other digit is found in time |
| Protocol.UInt16ToHex | src/modules/protocol.cpp:330-349 | Both shift loops write the digits in place and nothing else |
| Protocol.EncodeRequest | src/modules/protocol.cpp:128-138 | Writes the request text, at most 13 bytes, and nothing else |
| Protocol.EncodeWriteRequest | src/modules/protocol.cpp:140-151 | Writes the write request text, at most 13 bytes, and nothing else |
| Protocol.EncodeResponseCmdAR | src/modules/protocol.cpp:261-278 | Writes the reply text, at most 14 bytes, and nothing else |
| Protocol.EncodeResponseReadFINDA | src/modules/protocol.cpp:280-282 | Writes the reply text, at most 14 bytes, and nothing else |
| Protocol.EncodeResponseQueryOperation | src/modules/protocol.cpp:284-293 | Writes the reply text, at most 14 bytes, and nothing else |
| Protocol.EncodeResponseRead | src/modules/protocol.cpp:295-310 | Writes the reply text, at most 14 bytes, and nothing else |
| Protocol.Protocol.constructor | src/modules/protocol.h:136-141 | Both decoders wait for a message |
| Protocol.Protocol.DecodeRequest | src/modules/protocol.cpp:29-126 | One step of the request decoder in place, leaving the response decoder alone |
| Protocol.Protocol.DecodeResponse | src/modules/protocol.cpp:153-259 | One step of the response decoder in place, leaving the request decoder alone |
| Protocol.Protocol.ResetRequestDecoder | src/modules/protocol.h:205-207 | Waits for a message, keeping the last one |
| Protocol.Protocol.ResetResponseDecoder | src/modules/protocol.h:210-212 | Waits for a response, keeping the last one |

## Left out

- Registers, pins, SPI, the motor driver, watchdog, ADC and USB: device access. EEPROM bytes and motor pulses are abstract effects.
- The command machines of the logic layer, homing and error recovery: they depend on sensors.
- Floating-point unit conversion: everything is in steps. The square root of the planner is the integer square root rounded down, where the original truncates a floating-point root.
- The AVR assembly in `src/modules/math.h`, which rounds differently: the C forms are modelled.
- The first-time erase with its layout byte, and the other EEPROM settings: table access.
- Torn byte writes, and cells that go bad while in use: the code does not look for them.
- FilamentWear.WearIsEven: for a store without bad cells; a bad cell shortens some sweeps.
- Trapezoid.CalculateTrapezoid: asks that twice and four times the acceleration are not zero modulo 2^32, where the original would divide by zero; the profile is claimed for rates up to 40000, accelerations up to 2^25 and less than 2^31 steps.
- Trapezoid.ExitRate: a block too short to brake keeps the requested final rate although it ends faster, as the code does.
- StepRamp.RatesFollowProfile: its condition is about the run; `PulseGenerator.PlansFollowProfile` replaces it by one on the planned block. That one is sufficient, not necessary: a rate that wraps late may happen to stay on the profile.
- PulseGenerator.PulseGen.PlanMoveTo: asks that the distance fits the signed 32-bit type, beyond which the original is undefined.
- Interrupts come between the atomic pieces of a plan as counts given by the caller; aborts and position queries run with the interrupt suspended, as `src/modules/motion.cpp` arranges.
- Requests.CorruptedIsRejected: about the covered bytes of a message. For the text on the wire `RequestErrors` treats one wrong byte, of eight bits; which bursts over two bytes pass is not characterised beyond the example.
- The panic of the motion layer when a move is refused: the refusal itself is modelled.
