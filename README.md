# A verified model of the self-driving car simulation

The program evolves neural networks that drive cars around a track image. Each
generation gives every genome one car. On every tick, each car's network reads
the car's five radar distances and picks one of four actions: turn left, turn
right, slow down or speed up. Then every car that is still alive is updated:
it sets its speed on the first update, moves along its heading, is clamped to
the screen, counts distance and time, and rebuilds its four corners. It is
marked dead if a corner lies on a border pixel, and it re-casts its five radars.
It then earns its reward as fitness. A generation ends when no car is alive or
after 30 * 40 ticks.

The model has three modules:

- `Geometry` (geometry.dfy) holds the numeric vocabulary:
  - the track as a predicate on pixels (`GameMap`);
  - the heading trigonometry as two uninterpreted functions (`Trig`);
  - Python's `int()` truncation toward zero (`Trunc`);
  - the `min(max(...))` clamp (`Clamp`);
  - the integer square root behind `int(math.sqrt(...))` (`ISqrt`).
- `CarModel` (car.dfy) holds the car:
  - `CarState` is the car's fields as a value;
  - `Step` says what an update does to that value, as three phases: `SpeedInitialised`, `Moved` and `Sensed`;
  - `Steered` says what an action does to it;
  - `Invariant` is what holds of every car at all times;
  - `class Car` has the same fields, and its methods change them step by step, as the program does. Each method is proved to produce the state the matching function gives.
- `Simulation` (simulation.dfy) holds the generation loop:
  - the choice of the first largest network output;
  - the action loop and the update-and-credit loop over all cars;
  - the loop that runs ticks until the generation ends;
  - the same tick and generation as functions on values (`NextStates`, `NextFitness`, `Generation`), which the methods are proved to compute.

`CarModel.Car.IsAlive` is a plain accessor of the alive flag; it has no contract of its own.

## Model

| member | source | states |
|---|---|---|
| Geometry.TruncTowardZero | support/newcar.py:76-77 | `int()` of a float drops the fractional part toward zero, for positive and negative values alike |
| Geometry.PixelOf | support/newcar.py:69 | each coordinate of the pixel a corner is looked up at lies less than one unit from the corner's coordinate, on the side of zero, as `int()` gives it |
| Geometry.Clamp | support/newcar.py:98-100 | `min(max(v, lo), hi)` always lies in [lo, hi]; it is v when v is inside, lo when v is below and hi when v is above |
| Geometry.ISqrtIsRoot | support/newcar.py:86 | the radar distance's integer root r is the largest r with r * r <= n, which is `int(math.sqrt(n))` for a whole n |
| CarModel.Reward | support/newcar.py:142-144 | the reward times 30 (`CAR_SIZE_X / 2`) is the distance, and it is never negative for a car that keeps the invariant |
| CarModel.RewardGrows | support/newcar.py:142-144 | a longer distance never earns a smaller reward |
| CarModel.HitLength | support/newcar.py:75-83 | the ray march stops at a length in [from, 300]; there the pixel is a border pixel or the length is 300, and no earlier length hit the border |
| CarModel.ReadingIsFirstHit | support/newcar.py:73-87 | a radar's point is on its ray at some length in [0, 300], at the first border pixel on the ray or at length 300 if the ray meets none |
| CarModel.HitsBorderIff | support/newcar.py:66-71 | the in-order scan of the corners that stops at the first border corner finds one exactly when some corner is on a border pixel |
| CarModel.OffsetIsInRange | support/newcar.py:127 | the five radar offsets are the values of `range(-90, 120, 45)`, in order |
| CarModel.StepSetsSpeedOnce | support/newcar.py:91-94 | after an update the speed flag is set; the first update sets the speed to 20, later ones keep it, and updating twice gives the same speed as updating once |
| CarModel.StepClamps | support/newcar.py:98-112 | after any update both coordinates lie in [20, WIDTH - 120]; the y axis is clamped against WIDTH too, as written; the centre minus half the car's size lies in the same range |
| CarModel.StepCounts | support/newcar.py:102-104 | an update adds exactly the current speed to the distance and exactly one to the time |
| CarModel.StepCollision | support/newcar.py:114-123 | after an update there are four corners, and the car is dead exactly when one of them is on a border pixel |
| CarModel.StepRadars | support/newcar.py:124-128 | after an update there are exactly five readings, the i-th for heading plus offset i of -90, -45, 0, 45, 90 from the new centre |
| CarModel.StepKeepsInvariant | support/newcar.py:89-128 | an update keeps the invariant: speed >= 0, speed >= 12 once set, both coordinates clamped, 0 or 5 radars; the distance never decreases |
| CarModel.SteeredEffect | support/newcar.py:199-207 | choice 0 adds 10 to the angle, 1 takes 10 off, 2 takes 2 off the speed only if the speed stays >= 12, anything else adds 2; no other field changes |
| CarModel.SteeredKeepsInvariant | support/newcar.py:203-205 | an action keeps the invariant, so the speed never drops below 12 once set |
| CarModel.InitialStateValid | support/newcar.py:33-49 | a fresh car satisfies the invariant, and its network input is five zeros |
| CarModel.Car.constructor | support/newcar.py:27-49 | a new car starts at (830, 920), angle 0, speed 0, flag unset, centre (860, 950), alive, no distance, no time, no radars |
| CarModel.Car.CheckCollision | support/newcar.py:64-71 | after the scan the car is dead exactly when some corner is on a border pixel; only the alive flag changes |
| CarModel.Car.CheckRadar | support/newcar.py:73-87 | the march loop appends exactly one reading, the first-hit reading of the ray at heading plus degree, with its truncated distance from the centre; only the radar list changes |
| CarModel.Car.SweepRadars | support/newcar.py:124-128 | the radar list is cleared and refilled with the readings for the five offsets, in order |
| CarModel.Car.Move | support/newcar.py:96-112 | position, distance, time and centre change as `Moved` says, and nothing else |
| CarModel.Car.Sense | support/newcar.py:114-128 | corners, alive flag and radars change as `Sensed` says, and nothing else |
| CarModel.Car.Update | support/newcar.py:89-128 | the car's new state is `Step` of its old state, and the invariant is kept |
| CarModel.Car.GetData | support/newcar.py:130-136 | the network input has five entries: the i-th radar's distance divided by 30 for each radar, 0 for each missing one |
| CarModel.Car.GetReward | support/newcar.py:142-144 | the reward is `Reward` of the car's state |
| Simulation.FirstMaxIndex | support/newcar.py:198 | `output.index(max(output))` is a valid index whose output is at least every other one and strictly above every earlier one |
| Simulation.CountAlive | support/newcar.py:210-213 | the live count never exceeds the number of cars |
| Simulation.CountAliveZero | support/newcar.py:217-219 | the live count is zero exactly when no car is alive |
| Simulation.CreditedGrows | support/newcar.py:211-215 | crediting a tick never lowers a car's fitness, and a live car gains at least its reward so far |
| Simulation.ApplyActions | support/newcar.py:196-207 | every car, dead or alive, ends in `Steered` of its old state with the first largest output of its network on its sensor vector, and keeps the invariant |
| Simulation.TickCar | support/newcar.py:212-215 | a live car is updated and credited with its new reward; a dead car, its fitness and every other car are left as they were |
| Simulation.UpdateOne | support/newcar.py:211-215 | handling one more car moves the count, the states and the fitness of the second loop on by one car |
| Simulation.UpdateLive | support/newcar.py:209-215 | the count is the number of cars alive before the loop; each live car takes one `Step` and gains the reward of its new state; each dead car keeps its state and its fitness |
| Simulation.TickedCarEffect | support/newcar.py:196-215 | in one tick a live car takes its action on its sensor vector and one update step, and gains the reward of its new state; a dead car stays dead, keeps its fitness and only turns or changes speed; the invariant holds afterwards and no fitness drops |
| Simulation.NextStatesAt | support/newcar.py:196-215 | after a tick, car i's state is what the tick does to car i alone |
| Simulation.NextFitnessAt | support/newcar.py:196-215 | after a tick, car i's fitness is what the tick credits to car i alone |
| Simulation.NextAt | support/newcar.py:196-215 | both of the above, for states and fitness together |
| Simulation.CountAliveSameFlags | support/newcar.py:210-213 | two lists of cars with the same alive flags have the same live count |
| Simulation.TickKeepsInvariant | support/newcar.py:196-215 | a tick keeps every car's invariant and lowers no fitness |
| Simulation.TickKeepsDead | support/newcar.py:211-215 | a car that is dead when a tick begins stays dead and keeps its fitness |
| Simulation.TickAllDead | support/newcar.py:210-219 | a tick that begins with no live car leaves every car dead and every fitness as it was |
| Simulation.TickLoops | support/newcar.py:196-215 | the action loop followed by the update-and-credit loop computes `NextStates` and `NextFitness`; the count is the number of cars alive when the tick began |
| Simulation.Tick | support/newcar.py:195-215 | the cars' new states are `NextStates` of their old states; the new fitness is `NextFitness`; the count is the number of cars alive before the tick; every car stays valid; no fitness drops; when the count is zero every car is dead |
| Simulation.Generation | support/newcar.py:187-224 | the generation from tick `counter` on ends after at least one more tick and after at most 1200 ticks in all; it keeps one state and one fitness per car, and every car keeps the invariant |
| Simulation.GenerationNext | support/newcar.py:217-224 | one step of the generation: after a tick that counted no live car, or after tick 1200, it ends with that tick's states and fitness; it goes on to the next tick, from those states and fitness, only after a tick that counted a live car |
| Simulation.GenerationEndsDead | support/newcar.py:217-224 | a generation that ends before 1200 ticks ends with every car dead |
| Simulation.GenerationFitness | support/newcar.py:209-224 | over a generation no fitness drops |
| Simulation.GenerationKeepsDead | support/newcar.py:209-224 | a car that is dead when a generation begins stays dead and keeps its fitness to the end |
| Simulation.RunTicks | support/newcar.py:187-224 | the tick loop leaves the cars, the fitness and the tick count that `Generation` gives for the cars' states and fitness at its start |
| Simulation.NewCars | support/newcar.py:172-176 | one fresh, distinct car per genome, each in the initial state |
| Simulation.RunSimulation | support/newcar.py:163-224 | the cars, fitness and tick count are `Generation` of fresh cars and zero fitness; one car and fitness per network; every fitness is non-negative; between 1 and 1200 ticks run; fewer than 1200 only when every car is dead |

## Left out

- Rendering: `draw`, `draw_radar`, `rotate_center`, the rotated sprite, the fonts and the screen. They hold no state the model needs.
- Asset loading: the car sprite and the map image. The map is a parameter, `track`, a predicate that says whether a pixel has the border colour.
- NEAT: network creation and `activate`, and the evolutionary run around a generation. A network is a parameter, a function from five inputs to outputs. `HasOutputs` requires it to return at least one output, since `output.index(max(output))` fails on an empty list.
- Trigonometry: `math.cos(math.radians(360 - d)) * l` and the matching `sin` term are left uninterpreted as `Trig.dx(d, l)` and `Trig.dy(d, l)`. Every `l` the program uses is whole: a speed, a radar length, or `0.5 * CAR_SIZE_X` = 30. Float rounding in position and distance arithmetic is not modelled; arithmetic on reals is exact.
- `int(math.sqrt(n))` is the exact integer root `ISqrt(n)`. n is a whole number here because the centre is always integral, but the float square root could round differently for very large n.
- A map lookup outside the image (the program raises an error) is not modelled: the map answers every pixel. The y clamp lets a car go below the image, because it clamps against WIDTH rather than HEIGHT; the model keeps that bound as written.
- NaN network outputs are not modelled; outputs are exact reals.
- CarModel.Car.GetData: requires at most five radars. The program raises an IndexError on a sixth radar; that case cannot arise, because every car keeps zero or five radars (`Invariant`).
- Process plumbing: the event loop, `sys.exit` on quit, the frame clock, the `current_generation` counter and the main block.
- `drawing_radars` is never used by the core and is not a field of the model.
- The corner list does not exist before the first update in the program. The model starts it empty; the collision check only runs after the corners are built.
- The program's `update` re-casts the radars even on the update whose collision check has just marked the car dead. The model does the same, rather than re-casting only for live cars.
- Fitness is a real and distance an integer. The program starts both at 0 and adds whole speeds to the distance.
- `update` is three methods in the model, `Move`, `Sense` and `Update` around them. The second loop of a tick is split the same way into `TickCar` and `UpdateOne`, and each tick is `Tick`. `run_simulation` is `NewCars` for the car list, then `RunTicks` for the tick loop. The statements run in the program's order.
