/** One generation of the simulation: every genome drives one car, each tick
    every car's network picks an action from its radar readings, the live cars
    are updated and credited with their reward, and the generation ends when no
    car is alive or after TICK_LIMIT ticks. */
module Simulation {
  import opened Geometry
  import opened CarModel

  /** The tick budget of a generation: 30 * 40 ticks, about 20 seconds. */
  const TICK_LIMIT := 30 * 40

  /** A genome's network, reduced to the map from its five inputs to its outputs. */
  type Network = seq<int> -> seq<real>

  /** The network answers every five-entry input with at least one output. */
  ghost predicate HasOutputs(net: Network)
  {
    forall v: seq<int> :: |v| == 5 ==> |net(v)| > 0
  }

  /** output.index(max(output)): the position of the first largest output. */
  function FirstMaxIndex(output: seq<real>): (r: nat)
    requires |output| > 0
    ensures r < |output|
    ensures forall j :: 0 <= j < |output| ==> output[j] <= output[r]
    ensures forall j :: 0 <= j < r ==> output[j] < output[r]
  {
    if |output| == 1 then 0
    else
      var k := FirstMaxIndex(output[..|output| - 1]);
      if output[|output| - 1] > output[k] then |output| - 1 else k
  }

  /** The action a network picks for a car with the given radar readings. */
  function Choice(net: Network, radars: seq<Radar>): nat
    requires |radars| <= 5 && HasOutputs(net)
  {
    FirstMaxIndex(net(SensorVector(radars)))
  }

  /** No car appears twice. */
  predicate Distinct(cars: seq<Car>)
  {
    forall i, j :: 0 <= i < |cars| && 0 <= j < |cars| && i != j ==> cars[i] != cars[j]
  }

  /** The states of the given cars. */
  ghost function States(cars: seq<Car>): (r: seq<CarState>)
    reads cars
    ensures |r| == |cars|
    ensures forall i :: 0 <= i < |cars| ==> r[i] == cars[i].State()
  {
    if cars == [] then [] else States(cars[..|cars| - 1]) + [cars[|cars| - 1].State()]
  }

  /** How many of the states are alive. */
  function CountAlive(states: seq<CarState>): (n: nat)
    ensures n <= |states|
  {
    if states == [] then 0
    else CountAlive(states[..|states| - 1]) + (if states[|states| - 1].alive then 1 else 0)
  }

  /** The live count is zero exactly when no car is alive. */
  lemma {:induction false} CountAliveZero(states: seq<CarState>)
    ensures CountAlive(states) == 0 <==> forall i :: 0 <= i < |states| ==> !states[i].alive
  {
    if states != [] {
      var n := |states| - 1;
      CountAliveZero(states[..n]);
      assert forall i :: 0 <= i < n ==> states[..n][i] == states[i];
    }
  }

  /** Counting one more state of a prefix adds one exactly when that state is alive. */
  lemma CountAliveStep(states: seq<CarState>, i: nat)
    requires i < |states|
    ensures CountAlive(states[..i + 1]) == CountAlive(states[..i]) + if states[i].alive then 1 else 0
  {
    assert states[..i + 1][..i] == states[..i];
  }

  /** The first loop of a tick: every car, dead or alive, has its network pick an
      action from its sensor vector, and the action is applied to it. */
  method ApplyActions(cars: seq<Car>, nets: seq<Network>)
    requires |nets| == |cars| && Distinct(cars)
    requires forall i :: 0 <= i < |cars| ==> cars[i].Valid()
    requires forall i :: 0 <= i < |nets| ==> HasOutputs(nets[i])
    modifies cars
    ensures forall i :: 0 <= i < |cars| ==> cars[i].Valid()
    ensures forall i :: 0 <= i < |cars| ==>
              && old(|cars[i].radars|) <= 5
              && cars[i].State() == Steered(old(cars[i].State()), Choice(nets[i], old(cars[i].radars)))
  {
    for i := 0 to |cars|
      invariant forall j :: 0 <= j < |cars| ==> cars[j].Valid()
      invariant forall j :: 0 <= j < i ==>
                  cars[j].State() == Steered(old(cars[j].State()), Choice(nets[j], old(cars[j].radars)))
      invariant forall j :: i <= j < |cars| ==> cars[j].State() == old(cars[j].State())
    {
      var car := cars[i];
      var data := car.GetData();
      var output := nets[i](data);
      var choice := FirstMaxIndex(output);
      ghost var before := car.State();
      if choice == 0 {
        car.angle := car.angle + 10;
      } else if choice == 1 {
        car.angle := car.angle - 10;
      } else if choice == 2 {
        if car.speed - 2 >= MIN_SPEED {
          car.speed := car.speed - 2;
        }
      } else {
        car.speed := car.speed + 2;
      }
      assert car.State() == Steered(before, choice);
      SteeredKeepsInvariant(before, choice);
    }
  }

  /** The state a car is in after the second loop of a tick: a live car takes
      one update step, a dead one stays where it is. */
  function Ticked(s: CarState, track: GameMap, trig: Trig): CarState
  {
    if s.alive then Step(s, track, trig) else s
  }

  /** The fitness a car has after the second loop of a tick: a live car earns
      the reward of its updated state, a dead one earns nothing. */
  function Credited(fit: real, s: CarState, track: GameMap, trig: Trig): real
  {
    if s.alive then fit + Reward(Step(s, track, trig)) else fit
  }

  /** A car that keeps the invariant never loses fitness in a tick, and a live
      one gains at least what it had already earned before. */
  lemma CreditedGrows(fit: real, s: CarState, track: GameMap, trig: Trig)
    requires Invariant(s)
    ensures Credited(fit, s, track, trig) >= fit
    ensures s.alive ==> Credited(fit, s, track, trig) >= fit + Reward(s)
  {
    if s.alive {
      StepKeepsInvariant(s, track, trig);
      RewardGrows(s, Step(s, track, trig));
    }
  }

  /** The second loop's work on car i: a live car is updated and its reward is
      added to its fitness; a dead car and its fitness are left alone, and so
      are all the other cars. */
  method TickCar(cars: seq<Car>, i: nat, fit: real, track: GameMap, trig: Trig)
    returns (wasAlive: bool, newFit: real)
    requires i < |cars| && Distinct(cars)
    requires forall j :: 0 <= j < |cars| ==> cars[j].Valid()
    modifies cars[i]
    ensures forall j :: 0 <= j < |cars| ==> cars[j].Valid()
    ensures wasAlive == old(cars[i].alive)
    ensures States(cars) == old(States(cars))[i := Ticked(old(cars[i].State()), track, trig)]
    ensures newFit == Credited(fit, old(cars[i].State()), track, trig)
  {
    var car := cars[i];
    wasAlive := car.IsAlive();
    newFit := fit;
    if wasAlive {
      car.Update(track, trig);
      newFit := fit + car.GetReward();
    }
  }

  /** The states after the second loop has handled the first i cars. */
  function TickedUpTo(states: seq<CarState>, i: nat, track: GameMap, trig: Trig): seq<CarState>
  {
    seq(|states|, j requires 0 <= j < |states| => if j < i then Ticked(states[j], track, trig) else states[j])
  }

  /** The fitness after the second loop has handled the first i cars. */
  function CreditedUpTo(fitness: seq<real>, states: seq<CarState>, i: nat, track: GameMap, trig: Trig): seq<real>
    requires |fitness| == |states|
  {
    seq(|states|, j requires 0 <= j < |states| =>
      if j < i then Credited(fitness[j], states[j], track, trig) else fitness[j])
  }

  /** Handling car i moves both prefixes on by one. */
  lemma UpToStep(fitness: seq<real>, states: seq<CarState>, i: nat, track: GameMap, trig: Trig)
    requires |fitness| == |states| && i < |states|
    ensures TickedUpTo(states, i, track, trig)[i := Ticked(states[i], track, trig)]
            == TickedUpTo(states, i + 1, track, trig)
    ensures CreditedUpTo(fitness, states, i, track, trig)[i := Credited(fitness[i], states[i], track, trig)]
            == CreditedUpTo(fitness, states, i + 1, track, trig)
  {
  }

  // ---------------------------------------------------------------------------
  // A tick and a generation as values

  /** One network per car state, every state keeps the invariant and every
      network answers. */
  ghost predicate Fleet(states: seq<CarState>, nets: seq<Network>)
  {
    && |nets| == |states|
    && (forall i :: 0 <= i < |states| ==> Invariant(states[i]))
    && (forall i :: 0 <= i < |nets| ==> HasOutputs(nets[i]))
  }

  /** What a tick does to one car: it takes the action its network picks from
      its sensor vector and then, if it is alive, one update step. */
  function TickedCar(s: CarState, net: Network, track: GameMap, trig: Trig): CarState
    requires Invariant(s) && HasOutputs(net)
  {
    Ticked(Steered(s, Choice(net, s.radars)), track, trig)
  }

  /** The fitness a car has after a tick, from its fitness and state before it. */
  function CreditedCar(fit: real, s: CarState, net: Network, track: GameMap, trig: Trig): real
    requires Invariant(s) && HasOutputs(net)
  {
    Credited(fit, Steered(s, Choice(net, s.radars)), track, trig)
  }

  /** What one tick does to one car. A live car takes its action and one update
      step and gains the reward of its new state. A dead car stays dead, keeps
      its fitness, and only turns or changes speed. Either way the invariant
      holds afterwards and the fitness does not drop. */
  lemma TickedCarEffect(fit: real, s: CarState, net: Network, track: GameMap, trig: Trig)
    requires Invariant(s) && HasOutputs(net)
    ensures Invariant(TickedCar(s, net, track, trig))
    ensures CreditedCar(fit, s, net, track, trig) >= fit
    ensures s.alive ==>
              && TickedCar(s, net, track, trig) == Step(Steered(s, Choice(net, s.radars)), track, trig)
              && CreditedCar(fit, s, net, track, trig) == fit + Reward(TickedCar(s, net, track, trig))
    ensures !s.alive ==>
              && TickedCar(s, net, track, trig).(angle := s.angle, speed := s.speed) == s
              && CreditedCar(fit, s, net, track, trig) == fit
  {
    var acted := Steered(s, Choice(net, s.radars));
    SteeredEffect(s, Choice(net, s.radars));
    SteeredKeepsInvariant(s, Choice(net, s.radars));
    if acted.alive {
      StepKeepsInvariant(acted, track, trig);
    }
    CreditedGrows(fit, acted, track, trig);
  }

  /** The states after a whole tick, car by car. */
  function NextStates(states: seq<CarState>, nets: seq<Network>, track: GameMap, trig: Trig): (r: seq<CarState>)
    requires Fleet(states, nets)
    ensures |r| == |states|
    decreases |states|
  {
    if states == [] then []
    else
      var n := |states| - 1;
      NextStates(states[..n], nets[..n], track, trig) + [TickedCar(states[n], nets[n], track, trig)]
  }

  /** The fitness after a whole tick, car by car. */
  function NextFitness(fitness: seq<real>, states: seq<CarState>, nets: seq<Network>,
                       track: GameMap, trig: Trig): (r: seq<real>)
    requires Fleet(states, nets) && |fitness| == |states|
    ensures |r| == |states|
    decreases |states|
  {
    if states == [] then []
    else
      var n := |states| - 1;
      NextFitness(fitness[..n], states[..n], nets[..n], track, trig)
        + [CreditedCar(fitness[n], states[n], nets[n], track, trig)]
  }

  /** Car i's state after a tick depends on car i alone. */
  lemma {:induction false} NextStatesAt(states: seq<CarState>, nets: seq<Network>, track: GameMap, trig: Trig)
    requires Fleet(states, nets)
    ensures forall i :: 0 <= i < |states| ==>
              NextStates(states, nets, track, trig)[i] == TickedCar(states[i], nets[i], track, trig)
  {
    if states != [] {
      var n := |states| - 1;
      var prefix := NextStates(states[..n], nets[..n], track, trig);
      NextStatesAt(states[..n], nets[..n], track, trig);
      forall i | 0 <= i < n
        ensures prefix[i] == TickedCar(states[i], nets[i], track, trig)
      {
        assert states[..n][i] == states[i] && nets[..n][i] == nets[i];
      }
      assert NextStates(states, nets, track, trig) == prefix + [TickedCar(states[n], nets[n], track, trig)];
    }
  }

  /** Car i's fitness after a tick depends on car i alone. */
  lemma {:induction false} NextFitnessAt(fitness: seq<real>, states: seq<CarState>, nets: seq<Network>,
                                         track: GameMap, trig: Trig)
    requires Fleet(states, nets) && |fitness| == |states|
    ensures forall i :: 0 <= i < |states| ==>
              NextFitness(fitness, states, nets, track, trig)[i] == CreditedCar(fitness[i], states[i], nets[i], track, trig)
  {
    if states != [] {
      var n := |states| - 1;
      assert forall i :: 0 <= i < n ==> states[..n][i] == states[i] && nets[..n][i] == nets[i];
      assert forall i :: 0 <= i < n ==> fitness[..n][i] == fitness[i];
      NextFitnessAt(fitness[..n], states[..n], nets[..n], track, trig);
    }
  }

  /** Car i's state and fitness after a tick depend on car i alone. */
  lemma NextAt(fitness: seq<real>, states: seq<CarState>, nets: seq<Network>, track: GameMap, trig: Trig)
    requires Fleet(states, nets) && |fitness| == |states|
    ensures forall i :: 0 <= i < |states| ==>
              NextStates(states, nets, track, trig)[i] == TickedCar(states[i], nets[i], track, trig)
    ensures forall i :: 0 <= i < |states| ==>
              NextFitness(fitness, states, nets, track, trig)[i] == CreditedCar(fitness[i], states[i], nets[i], track, trig)
  {
    NextStatesAt(states, nets, track, trig);
    NextFitnessAt(fitness, states, nets, track, trig);
  }

  /** Two lists of states with the same alive flags have the same live count. */
  lemma {:induction false} CountAliveSameFlags(a: seq<CarState>, b: seq<CarState>)
    requires |a| == |b|
    requires forall i :: 0 <= i < |a| ==> a[i].alive == b[i].alive
    ensures CountAlive(a) == CountAlive(b)
  {
    if a != [] {
      var n := |a| - 1;
      assert forall i :: 0 <= i < n ==> a[..n][i] == a[i] && b[..n][i] == b[i];
      CountAliveSameFlags(a[..n], b[..n]);
    }
  }

  /** A tick keeps every car's invariant and never lowers any fitness. */
  lemma TickKeepsInvariant(fitness: seq<real>, states: seq<CarState>, nets: seq<Network>,
                           track: GameMap, trig: Trig)
    requires Fleet(states, nets) && |fitness| == |states|
    ensures Fleet(NextStates(states, nets, track, trig), nets)
    ensures forall i :: 0 <= i < |states| ==> NextFitness(fitness, states, nets, track, trig)[i] >= fitness[i]
  {
    NextAt(fitness, states, nets, track, trig);
    forall i | 0 <= i < |states|
      ensures Invariant(TickedCar(states[i], nets[i], track, trig))
      ensures CreditedCar(fitness[i], states[i], nets[i], track, trig) >= fitness[i]
    {
      TickedCarEffect(fitness[i], states[i], nets[i], track, trig);
    }
  }

  /** A car that is dead when a tick begins stays dead and keeps its fitness. */
  lemma TickKeepsDead(fitness: seq<real>, states: seq<CarState>, nets: seq<Network>,
                      track: GameMap, trig: Trig)
    requires Fleet(states, nets) && |fitness| == |states|
    ensures forall i :: 0 <= i < |states| && !states[i].alive ==>
              !NextStates(states, nets, track, trig)[i].alive
              && NextFitness(fitness, states, nets, track, trig)[i] == fitness[i]
  {
    NextAt(fitness, states, nets, track, trig);
    forall i | 0 <= i < |states| && !states[i].alive
      ensures !TickedCar(states[i], nets[i], track, trig).alive
      ensures CreditedCar(fitness[i], states[i], nets[i], track, trig) == fitness[i]
    {
      TickedCarEffect(fitness[i], states[i], nets[i], track, trig);
    }
  }

  /** A tick that begins with no live car leaves every car dead and every
      fitness as it was. */
  lemma TickAllDead(fitness: seq<real>, states: seq<CarState>, nets: seq<Network>, track: GameMap, trig: Trig)
    requires Fleet(states, nets) && |fitness| == |states|
    requires CountAlive(states) == 0
    ensures forall i :: 0 <= i < |states| ==> !NextStates(states, nets, track, trig)[i].alive
    ensures NextFitness(fitness, states, nets, track, trig) == fitness
  {
    CountAliveZero(states);
    TickKeepsDead(fitness, states, nets, track, trig);
  }

  /** The states of new cars, and their fitness. */
  function InitialStates(n: nat): seq<CarState>
  {
    seq(n, _ => InitialState())
  }

  function Zeros(n: nat): seq<real>
  {
    seq(n, _ => 0.0)
  }

  /** What the generation loop computes from the states and fitness at the start
      of the tick `counter`: it runs a tick, stops when that tick counted no live
      car or was tick TICK_LIMIT, and goes on otherwise. The result is the final
      states, the final fitness and the number of ticks run. */
  function Generation(states: seq<CarState>, fitness: seq<real>, nets: seq<Network>,
                      track: GameMap, trig: Trig, counter: nat): (r: (seq<CarState>, seq<real>, nat))
    requires Fleet(states, nets) && |fitness| == |states| && counter < TICK_LIMIT
    ensures |r.0| == |states| && |r.1| == |states|
    ensures counter < r.2 <= TICK_LIMIT
    ensures Fleet(r.0, nets)
    decreases TICK_LIMIT - counter
  {
    TickKeepsInvariant(fitness, states, nets, track, trig);
    var next := NextStates(states, nets, track, trig);
    var fit := NextFitness(fitness, states, nets, track, trig);
    if CountAlive(states) == 0 || counter + 1 == TICK_LIMIT then (next, fit, counter + 1)
    else Generation(next, fit, nets, track, trig, counter + 1)
  }

  /** One tick of a generation: it either ends the generation or hands the next
      states and fitness on to tick `counter + 1`. */
  lemma GenerationNext(states: seq<CarState>, fitness: seq<real>, nets: seq<Network>,
                       track: GameMap, trig: Trig, counter: nat)
    requires Fleet(states, nets) && |fitness| == |states| && counter < TICK_LIMIT
    ensures Fleet(NextStates(states, nets, track, trig), nets)
    ensures CountAlive(states) == 0 || counter + 1 == TICK_LIMIT ==>
              Generation(states, fitness, nets, track, trig, counter)
              == (NextStates(states, nets, track, trig), NextFitness(fitness, states, nets, track, trig), counter + 1)
    ensures CountAlive(states) != 0 && counter + 1 < TICK_LIMIT ==>
              Generation(states, fitness, nets, track, trig, counter)
              == Generation(NextStates(states, nets, track, trig), NextFitness(fitness, states, nets, track, trig),
                            nets, track, trig, counter + 1)
  {
    TickKeepsInvariant(fitness, states, nets, track, trig);
  }

  /** A generation that ends before TICK_LIMIT ticks ends with every car dead. */
  lemma {:induction false} GenerationEndsDead(states: seq<CarState>, fitness: seq<real>, nets: seq<Network>,
                                              track: GameMap, trig: Trig, counter: nat)
    requires Fleet(states, nets) && |fitness| == |states| && counter < TICK_LIMIT
    decreases TICK_LIMIT - counter
    ensures var r := Generation(states, fitness, nets, track, trig, counter);
            r.2 < TICK_LIMIT ==> forall i :: 0 <= i < |states| ==> !r.0[i].alive
  {
    GenerationNext(states, fitness, nets, track, trig, counter);
    if CountAlive(states) == 0 {
      TickAllDead(fitness, states, nets, track, trig);
    } else if counter + 1 < TICK_LIMIT {
      GenerationEndsDead(NextStates(states, nets, track, trig), NextFitness(fitness, states, nets, track, trig),
                         nets, track, trig, counter + 1);
    }
  }

  /** Over a generation no fitness drops. */
  lemma {:induction false} GenerationFitness(states: seq<CarState>, fitness: seq<real>, nets: seq<Network>,
                                             track: GameMap, trig: Trig, counter: nat)
    requires Fleet(states, nets) && |fitness| == |states| && counter < TICK_LIMIT
    decreases TICK_LIMIT - counter
    ensures var r := Generation(states, fitness, nets, track, trig, counter);
            forall i :: 0 <= i < |states| ==> r.1[i] >= fitness[i]
  {
    GenerationNext(states, fitness, nets, track, trig, counter);
    TickKeepsInvariant(fitness, states, nets, track, trig);
    if CountAlive(states) != 0 && counter + 1 < TICK_LIMIT {
      var next, fit := NextStates(states, nets, track, trig), NextFitness(fitness, states, nets, track, trig);
      GenerationFitness(next, fit, nets, track, trig, counter + 1);
    }
  }

  /** A car that is dead when a generation begins stays dead, and its fitness
      stays as it was. */
  lemma {:induction false} GenerationKeepsDead(states: seq<CarState>, fitness: seq<real>, nets: seq<Network>,
                                               track: GameMap, trig: Trig, counter: nat)
    requires Fleet(states, nets) && |fitness| == |states| && counter < TICK_LIMIT
    decreases TICK_LIMIT - counter
    ensures var r := Generation(states, fitness, nets, track, trig, counter);
            forall i :: 0 <= i < |states| && !states[i].alive ==> !r.0[i].alive && r.1[i] == fitness[i]
  {
    GenerationNext(states, fitness, nets, track, trig, counter);
    TickKeepsDead(fitness, states, nets, track, trig);
    if CountAlive(states) != 0 && counter + 1 < TICK_LIMIT {
      var next, fit := NextStates(states, nets, track, trig), NextFitness(fitness, states, nets, track, trig);
      GenerationKeepsDead(next, fit, nets, track, trig, counter + 1);
    }
  }

  /** What holds after the second loop has handled the first i cars: they have
      been counted, updated and credited; the others are as they were. */
  ghost predicate LoopState(cars: seq<Car>, before: seq<CarState>, fitness: seq<real>,
                            stillAlive: nat, newFitness: seq<real>, i: nat, track: GameMap, trig: Trig)
    reads cars
  {
    && |before| == |cars| == |fitness| && i <= |cars| && Distinct(cars)
    && (forall j :: 0 <= j < |cars| ==> cars[j].Valid())
    && stillAlive == CountAlive(before[..i])
    && States(cars) == TickedUpTo(before, i, track, trig)
    && newFitness == CreditedUpTo(fitness, before, i, track, trig)
  }

  /** The body of the second loop for car i. */
  method UpdateOne(cars: seq<Car>, ghost before: seq<CarState>, fitness: seq<real>,
                   stillAlive: nat, newFitness: seq<real>, i: nat, track: GameMap, trig: Trig)
    returns (stillAlive': nat, newFitness': seq<real>)
    requires i < |cars| && LoopState(cars, before, fitness, stillAlive, newFitness, i, track, trig)
    modifies cars[i]
    ensures LoopState(cars, before, fitness, stillAlive', newFitness', i + 1, track, trig)
  {
    CountAliveStep(before, i);
    UpToStep(fitness, before, i, track, trig);
    var wasAlive, fit := TickCar(cars, i, newFitness[i], track, trig);
    stillAlive' := if wasAlive then stillAlive + 1 else stillAlive;
    newFitness' := newFitness[i := fit];
  }

  /** The second loop of a tick: count the live cars, update each of them and add
      its reward to its fitness; dead cars and their fitness stay as they are. */
  method UpdateLive(cars: seq<Car>, fitness: seq<real>, track: GameMap, trig: Trig)
    returns (stillAlive: nat, newFitness: seq<real>)
    requires |fitness| == |cars| && Distinct(cars)
    requires forall i :: 0 <= i < |cars| ==> cars[i].Valid()
    modifies cars
    ensures |newFitness| == |cars|
    ensures forall i :: 0 <= i < |cars| ==> cars[i].Valid()
    ensures stillAlive == CountAlive(old(States(cars)))
    ensures forall i :: 0 <= i < |cars| ==> cars[i].State() == Ticked(old(cars[i].State()), track, trig)
    ensures forall i :: 0 <= i < |cars| ==> newFitness[i] == Credited(fitness[i], old(cars[i].State()), track, trig)
  {
    ghost var before := States(cars);
    stillAlive := 0;
    newFitness := fitness;
    for i := 0 to |cars|
      invariant LoopState(cars, before, fitness, stillAlive, newFitness, i, track, trig)
    {
      stillAlive, newFitness := UpdateOne(cars, before, fitness, stillAlive, newFitness, i, track, trig);
    }
    assert before[..|cars|] == before;
  }

  /** The two loops of a tick, stated on values: the first takes every car from
      `before` to `acted`, the second from `acted` to `after`, crediting
      `newFitness`. Together they compute `NextStates` and `NextFitness`, and the
      second loop counts the cars alive when the tick began. */
  lemma TickLoops(fitness: seq<real>, before: seq<CarState>, acted: seq<CarState>, after: seq<CarState>,
                  newFitness: seq<real>, nets: seq<Network>, track: GameMap, trig: Trig)
    requires Fleet(before, nets) && |fitness| == |before|
    requires |acted| == |before| && |after| == |before| && |newFitness| == |before|
    requires forall i :: 0 <= i < |before| ==> acted[i] == Steered(before[i], Choice(nets[i], before[i].radars))
    requires forall i :: 0 <= i < |before| ==> after[i] == Ticked(acted[i], track, trig)
    requires forall i :: 0 <= i < |before| ==> newFitness[i] == Credited(fitness[i], acted[i], track, trig)
    ensures after == NextStates(before, nets, track, trig)
    ensures newFitness == NextFitness(fitness, before, nets, track, trig)
    ensures CountAlive(acted) == CountAlive(before)
  {
    NextAt(fitness, before, nets, track, trig);
    CountAliveSameFlags(acted, before);
  }

  /** One tick: every car takes the action its network picks, then the live cars
      are updated and credited. This is `NextStates` and `NextFitness` of the
      states before the tick; the count is the number of cars alive when the
      tick began. */
  method Tick(cars: seq<Car>, nets: seq<Network>, fitness: seq<real>, track: GameMap, trig: Trig)
    returns (stillAlive: nat, newFitness: seq<real>)
    requires Fleet(States(cars), nets) && |fitness| == |cars| && Distinct(cars)
    modifies cars
    ensures Fleet(States(cars), nets)
    ensures States(cars) == NextStates(old(States(cars)), nets, track, trig)
    ensures newFitness == NextFitness(fitness, old(States(cars)), nets, track, trig)
    ensures stillAlive == CountAlive(old(States(cars)))
    ensures forall i :: 0 <= i < |cars| ==> newFitness[i] >= fitness[i]
    ensures stillAlive == 0 ==> forall i :: 0 <= i < |cars| ==> !cars[i].alive
  {
    ghost var before := States(cars);
    ApplyActions(cars, nets);
    ghost var acted := States(cars);
    stillAlive, newFitness := UpdateLive(cars, fitness, track, trig);
    TickLoops(fitness, before, acted, States(cars), newFitness, nets, track, trig);
    TickKeepsInvariant(fitness, before, nets, track, trig);
    if stillAlive == 0 {
      TickAllDead(fitness, before, nets, track, trig);
    }
  }

  /** The generation loop from tick `counter` on: it runs ticks until one finds
      no live car or TICK_LIMIT ticks have run, and computes what `Generation`
      says. */
  method RunTicks(cars: seq<Car>, nets: seq<Network>, fitness: seq<real>, counter: nat,
                  track: GameMap, trig: Trig)
    returns (newFitness: seq<real>, ticks: nat)
    requires Fleet(States(cars), nets) && |fitness| == |cars| && Distinct(cars) && counter < TICK_LIMIT
    modifies cars
    ensures Fleet(States(cars), nets)
    ensures (States(cars), newFitness, ticks)
            == Generation(old(States(cars)), fitness, nets, track, trig, counter)
  {
    ghost var result := Generation(States(cars), fitness, nets, track, trig, counter);
    var tick := counter;
    newFitness := fitness;
    ticks := counter;
    while true
      invariant |newFitness| == |cars| && counter <= tick < TICK_LIMIT && ticks == tick
      invariant Fleet(States(cars), nets)
      invariant Generation(States(cars), newFitness, nets, track, trig, tick) == result
      decreases TICK_LIMIT - tick
    {
      ghost var states, fit := States(cars), newFitness;
      var stillAlive;
      stillAlive, newFitness := Tick(cars, nets, newFitness, track, trig);
      GenerationNext(states, fit, nets, track, trig, tick);
      ticks := ticks + 1;
      if stillAlive == 0 {
        break;
      }
      tick := tick + 1;
      if tick == TICK_LIMIT {
        break;
      }
    }
  }

  /** One fresh car per genome, each in the initial state. */
  method NewCars(n: nat) returns (cars: seq<Car>)
    ensures |cars| == n && Distinct(cars)
    ensures forall i :: 0 <= i < n ==> fresh(cars[i])
    ensures States(cars) == InitialStates(n)
  {
    cars := [];
    for i := 0 to n
      invariant |cars| == i && Distinct(cars)
      invariant forall j :: 0 <= j < i ==> fresh(cars[j]) && cars[j].State() == InitialState()
    {
      var car := new Car();
      cars := cars + [car];
    }
  }

  /** One generation. Every genome gets a fresh car and a fitness of zero; then
      ticks run until a tick finds no live car or TICK_LIMIT ticks have run.
      Returns the cars, their fitness and the number of ticks run: what
      `Generation` says of fresh cars and zero fitness. */
  method RunSimulation(nets: seq<Network>, track: GameMap, trig: Trig)
    returns (cars: seq<Car>, fitness: seq<real>, ticks: nat)
    requires forall i :: 0 <= i < |nets| ==> HasOutputs(nets[i])
    ensures |cars| == |nets| && |fitness| == |nets|
    ensures (States(cars), fitness, ticks)
            == Generation(InitialStates(|nets|), Zeros(|nets|), nets, track, trig, 0)
    ensures 1 <= ticks <= TICK_LIMIT
    ensures ticks < TICK_LIMIT ==> forall i :: 0 <= i < |cars| ==> !cars[i].alive
    ensures forall i :: 0 <= i < |fitness| ==> fitness[i] >= 0.0
    ensures forall i :: 0 <= i < |cars| ==> cars[i].Valid()
  {
    var n := |nets|;
    cars := NewCars(n);
    InitialStateValid();
    fitness, ticks := RunTicks(cars, nets, Zeros(n), 0, track, trig);
    GenerationEndsDead(InitialStates(n), Zeros(n), nets, track, trig, 0);
    GenerationFitness(InitialStates(n), Zeros(n), nets, track, trig, 0);
  }
}
