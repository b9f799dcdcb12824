/** One simulated car: its state, the per-tick physics and sensor update, and
    the steering rule the generation loop applies to it. The class Car keeps the
    fields the program mutates; CarState is the same state as a value, and the
    functions Step and Steered say what an update and an action do to it. */
module CarModel {
  import opened Geometry

  const WIDTH := 1920
  const CAR_SIZE_X := 60
  const CAR_SIZE_Y := 60

  /** The lowest and highest value either coordinate is clamped to. Both axes
      use WIDTH - 120, the vertical one included. */
  const POS_MIN: real := 20.0
  const POS_MAX: real := (WIDTH - 120) as real

  /** The speed the first update sets, and the floor a deceleration respects. */
  const INITIAL_SPEED := 20
  const MIN_SPEED := 12

  /** How far a radar ray is marched, and the directions of the five rays
      relative to the heading, in the order they are cast: range(-90, 120, 45). */
  const RADAR_RANGE := 300
  const RADAR_OFFSETS: seq<int> := [-90, -45, 0, 45, 90]

  /** Divisor of the radar distances handed to the network. */
  const SENSOR_SCALE := 30

  /** A radar reading: the pixel where the ray stopped and its distance from the centre. */
  datatype Radar = Radar(point: Pixel, dist: nat)

  datatype CarState = CarState(
    posX: real,
    posY: real,
    angle: int,
    speed: int,
    speedSet: bool,
    center: Pixel,
    corners: seq<Point>,
    alive: bool,
    distance: int,
    time: int,
    radars: seq<Radar>)

  /** The state of a freshly constructed car. The program creates the corner
      list only in the first update; before it the model holds no corners. */
  function InitialState(): CarState
  {
    CarState(830.0, 920.0, 0, 0, false, (830 + CAR_SIZE_X / 2, 920 + CAR_SIZE_Y / 2),
             [], true, 0, 0, [])
  }

  /** What holds of every car at every point of the simulation. */
  predicate Invariant(s: CarState)
  {
    && s.speed >= 0
    && (s.speedSet ==> s.speed >= MIN_SPEED)
    && POS_MIN <= s.posX <= POS_MAX
    && POS_MIN <= s.posY <= POS_MAX
    && s.distance >= 0
    && s.time >= 0
    && (|s.radars| == 0 || |s.radars| == 5)
    && (!s.speedSet ==> s.distance == 0 && s.time == 0 && s.radars == [])
  }

  /** The fitness a car earns for a tick: the distance travelled so far divided
      by half the car's width, CAR_SIZE_X / 2; never negative for a car that
      keeps the invariant. */
  function Reward(s: CarState): (r: real)
    ensures r * (CAR_SIZE_X / 2) as real == s.distance as real
    ensures Invariant(s) ==> r >= 0.0
  {
    s.distance as real / (CAR_SIZE_X / 2) as real
  }

  /** The reward grows with the distance travelled. */
  lemma RewardGrows(s: CarState, t: CarState)
    requires s.distance <= t.distance
    ensures Reward(s) <= Reward(t)
  {
    assert (CAR_SIZE_X / 2) as real == 30.0;
    assert s.distance as real <= t.distance as real;
  }

  // ---------------------------------------------------------------------------
  // Sensors

  /** The pixel a ray from the centre reaches after `length` steps along `heading`. */
  function RayPoint(trig: Trig, center: Pixel, heading: int, length: int): Pixel
  {
    (Trunc(center.0 as real + trig.dx(heading, length)),
     Trunc(center.1 as real + trig.dy(heading, length)))
  }

  /** The length at which the march of a ray, started at `from`, stops: the first
      length whose pixel is a border pixel, or RADAR_RANGE if none is. */
  function HitLength(track: GameMap, trig: Trig, center: Pixel, heading: int, from: nat): (r: nat)
    requires from <= RADAR_RANGE
    ensures from <= r <= RADAR_RANGE
    ensures track(RayPoint(trig, center, heading, r)) || r == RADAR_RANGE
    ensures forall k :: from <= k < r ==> !track(RayPoint(trig, center, heading, k))
    decreases RADAR_RANGE - from
  {
    if track(RayPoint(trig, center, heading, from)) || from >= RADAR_RANGE then from
    else HitLength(track, trig, center, heading, from + 1)
  }

  /** A march that has not stopped at `from` goes on to `from + 1`. */
  lemma HitLengthSkips(track: GameMap, trig: Trig, center: Pixel, heading: int, from: nat)
    requires from < RADAR_RANGE && !track(RayPoint(trig, center, heading, from))
    ensures HitLength(track, trig, center, heading, from) == HitLength(track, trig, center, heading, from + 1)
  {
  }

  /** A march stops at `from` when its pixel is a border one or the range is used up. */
  lemma HitLengthStops(track: GameMap, trig: Trig, center: Pixel, heading: int, from: nat)
    requires from <= RADAR_RANGE
    requires track(RayPoint(trig, center, heading, from)) || from == RADAR_RANGE
    ensures HitLength(track, trig, center, heading, from) == from
  {
  }

  /** The reading one radar produces: where its march stopped, and the distance
      int(sqrt(dx^2 + dy^2)) of that pixel from the centre. */
  function Reading(track: GameMap, trig: Trig, center: Pixel, heading: int): Radar
  {
    var p := RayPoint(trig, center, heading, HitLength(track, trig, center, heading, 0));
    Radar(p, Distance(p, center))
  }

  /** int(math.sqrt(dx^2 + dy^2)): the truncated Euclidean distance between two pixels. */
  function Distance(p: Pixel, q: Pixel): nat
  {
    ISqrt(Square(p.0 - q.0) + Square(p.1 - q.1))
  }

  /** The reading of a ray whose march stops at `length`. */
  lemma ReadingAt(track: GameMap, trig: Trig, center: Pixel, heading: int, length: nat)
    requires length <= RADAR_RANGE && length == HitLength(track, trig, center, heading, 0)
    ensures var p := RayPoint(trig, center, heading, length);
            Reading(track, trig, center, heading) == Radar(p, Distance(p, center))
  {
  }

  /** The readings of the radars at the given offsets from `angle`, in order. */
  function Sweep(track: GameMap, trig: Trig, center: Pixel, angle: int, offsets: seq<int>): seq<Radar>
  {
    seq(|offsets|, i requires 0 <= i < |offsets| => Reading(track, trig, center, angle + offsets[i]))
  }

  /** The network input: the radar distances divided by SENSOR_SCALE, padded with
      zeros to five entries. */
  function SensorVector(radars: seq<Radar>): seq<int>
    requires |radars| <= 5
  {
    seq(5, i requires 0 <= i < 5 => if i < |radars| then radars[i].dist / SENSOR_SCALE else 0)
  }

  // ---------------------------------------------------------------------------
  // Collision

  /** The point at `length` from the centre along `heading`. */
  function Offset(trig: Trig, center: Pixel, heading: int, length: int): Point
  {
    (center.0 as real + trig.dx(heading, length), center.1 as real + trig.dy(heading, length))
  }

  /** The four corners of the car's footprint: left top, right top, left bottom,
      right bottom, at half the car's width (0.5 * CAR_SIZE_X, a whole number)
      from the centre. */
  function Corners(trig: Trig, center: Pixel, angle: int): seq<Point>
  {
    var half := CAR_SIZE_X / 2;
    [Offset(trig, center, angle + 30, half), Offset(trig, center, angle + 150, half),
     Offset(trig, center, angle + 210, half), Offset(trig, center, angle + 330, half)]
  }

  /** Some corner lies on a border pixel, looking at the corners in order. */
  predicate HitsBorder(track: GameMap, corners: seq<Point>)
    decreases |corners|
  {
    |corners| > 0 && (track(PixelOf(corners[0])) || HitsBorder(track, corners[1..]))
  }

  /** The in-order scan finds a border corner exactly when there is one. */
  lemma {:induction false} HitsBorderIff(track: GameMap, corners: seq<Point>)
    decreases |corners|
    ensures HitsBorder(track, corners) <==> exists i :: 0 <= i < |corners| && track(PixelOf(corners[i]))
  {
    if |corners| > 0 {
      HitsBorderIff(track, corners[1..]);
      assert forall i :: 1 <= i < |corners| ==> corners[1..][i - 1] == corners[i];
      if track(PixelOf(corners[0])) {
        assert exists i :: 0 <= i < |corners| && track(PixelOf(corners[i]));
      } else if HitsBorder(track, corners[1..]) {
        var j :| 0 <= j < |corners[1..]| && track(PixelOf(corners[1..][j]));
        assert track(PixelOf(corners[j + 1]));
      }
    }
  }

  // ---------------------------------------------------------------------------
  // The two state changes

  /** What one update does to a car: it sets its speed if that has not been
      done, moves, then looks. */
  function Step(s: CarState, track: GameMap, trig: Trig): CarState
  {
    Sensed(Moved(SpeedInitialised(s), trig), track, trig)
  }

  /** The one-shot speed initialisation that starts an update. */
  function SpeedInitialised(s: CarState): CarState
  {
    if s.speedSet then s else s.(speed := INITIAL_SPEED, speedSet := true)
  }

  /** The middle of an update: advance along the heading and clamp, count
      distance and time, and recompute the centre. */
  function Moved(s: CarState, trig: Trig): CarState
  {
    var x := Clamp(s.posX + trig.dx(s.angle, s.speed), POS_MIN, POS_MAX);
    var y := Clamp(s.posY + trig.dy(s.angle, s.speed), POS_MIN, POS_MAX);
    s.(posX := x, posY := y,
       center := (Trunc(x) + CAR_SIZE_X / 2, Trunc(y) + CAR_SIZE_Y / 2),
       distance := s.distance + s.speed, time := s.time + 1)
  }

  /** The second half: rebuild the corners around the centre, check them against
      the track, and re-cast all five radars. */
  function Sensed(s: CarState, track: GameMap, trig: Trig): CarState
  {
    var corners := Corners(trig, s.center, s.angle);
    s.(corners := corners, alive := !HitsBorder(track, corners),
       radars := Sweep(track, trig, s.center, s.angle, RADAR_OFFSETS))
  }

  /** What the action `choice` does to a car: turn by 10 degrees either way,
      slow down by 2 unless that drops below MIN_SPEED, or speed up by 2. */
  function Steered(s: CarState, choice: nat): CarState
  {
    if choice == 0 then s.(angle := s.angle + 10)
    else if choice == 1 then s.(angle := s.angle - 10)
    else if choice == 2 then (if s.speed - 2 >= MIN_SPEED then s.(speed := s.speed - 2) else s)
    else s.(speed := s.speed + 2)
  }

  // ---------------------------------------------------------------------------
  // Properties of the state changes

  /** The first update sets the speed to INITIAL_SPEED; later ones keep it. */
  lemma StepSetsSpeedOnce(s: CarState, track: GameMap, trig: Trig)
    ensures Step(s, track, trig).speedSet
    ensures !s.speedSet ==> Step(s, track, trig).speed == INITIAL_SPEED
    ensures s.speedSet ==> Step(s, track, trig).speed == s.speed
    ensures Step(Step(s, track, trig), track, trig).speed == Step(s, track, trig).speed
  {
  }

  /** After an update both coordinates lie in [POS_MIN, POS_MAX], whatever the state before. */
  lemma StepClamps(s: CarState, track: GameMap, trig: Trig)
    ensures POS_MIN <= Step(s, track, trig).posX <= POS_MAX
    ensures POS_MIN <= Step(s, track, trig).posY <= POS_MAX
    ensures POS_MIN.Floor <= Step(s, track, trig).center.0 - CAR_SIZE_X / 2 <= POS_MAX.Floor
    ensures POS_MIN.Floor <= Step(s, track, trig).center.1 - CAR_SIZE_Y / 2 <= POS_MAX.Floor
  {
  }

  /** An update adds the (possibly just initialised) speed to the distance and one to the time. */
  lemma StepCounts(s: CarState, track: GameMap, trig: Trig)
    ensures Step(s, track, trig).distance - s.distance == Step(s, track, trig).speed
    ensures Step(s, track, trig).time == s.time + 1
  {
  }

  /** After an update the car is dead exactly when one of its four corners is on a border pixel. */
  lemma StepCollision(s: CarState, track: GameMap, trig: Trig)
    ensures |Step(s, track, trig).corners| == 4
    ensures !Step(s, track, trig).alive <==>
              exists i :: 0 <= i < 4 && track(PixelOf(Step(s, track, trig).corners[i]))
  {
    HitsBorderIff(track, Step(s, track, trig).corners);
  }

  /** Sweeping one more offset appends one more reading. */
  lemma SweepExtend(track: GameMap, trig: Trig, center: Pixel, angle: int, offsets: seq<int>, k: nat)
    requires k < |offsets|
    ensures Sweep(track, trig, center, angle, offsets[..k + 1])
            == Sweep(track, trig, center, angle, offsets[..k]) + [Reading(track, trig, center, angle + offsets[k])]
  {
  }

  /** The k-th radar offset is the k-th value of range(-90, 120, 45). */
  lemma OffsetIsInRange(k: nat)
    requires k < 5
    ensures |RADAR_OFFSETS| == 5 && RADAR_OFFSETS[k] == -90 + 45 * k
  {
  }

  /** A radar reading is the first border pixel on its ray, or the pixel at
      RADAR_RANGE when the ray meets none. */
  lemma ReadingIsFirstHit(track: GameMap, trig: Trig, center: Pixel, heading: int)
    ensures exists length :: 0 <= length <= RADAR_RANGE
              && Reading(track, trig, center, heading).point == RayPoint(trig, center, heading, length)
              && (track(RayPoint(trig, center, heading, length)) || length == RADAR_RANGE)
              && forall k :: 0 <= k < length ==> !track(RayPoint(trig, center, heading, k))
  {
    var length := HitLength(track, trig, center, heading, 0);
    assert Reading(track, trig, center, heading).point == RayPoint(trig, center, heading, length);
  }

  /** After an update there are exactly five readings, for offsets -90, -45, 0, 45
      and 90 from the heading, in that order. */
  lemma StepRadars(s: CarState, track: GameMap, trig: Trig)
    ensures |Step(s, track, trig).radars| == 5
    ensures forall i :: 0 <= i < 5 ==>
              Step(s, track, trig).radars[i] == Reading(track, trig, Step(s, track, trig).center, s.angle + RADAR_OFFSETS[i])
  {
  }

  /** An update keeps the invariant, and the distance never decreases. */
  lemma StepKeepsInvariant(s: CarState, track: GameMap, trig: Trig)
    requires Invariant(s)
    ensures Invariant(Step(s, track, trig))
    ensures Step(s, track, trig).distance >= s.distance
  {
  }

  /** The effect of each action: only the angle and the speed can change. */
  lemma SteeredEffect(s: CarState, choice: nat)
    ensures Steered(s, choice).(angle := s.angle, speed := s.speed) == s
    ensures Steered(s, choice).angle - s.angle == (if choice == 0 then 10 else if choice == 1 then -10 else 0)
    ensures Steered(s, choice).speed - s.speed ==
              (if choice == 2 then (if s.speed >= MIN_SPEED + 2 then -2 else 0) else if choice >= 3 then 2 else 0)
  {
  }

  /** An action keeps the invariant: in particular speed >= MIN_SPEED once it has been set. */
  lemma SteeredKeepsInvariant(s: CarState, choice: nat)
    requires Invariant(s)
    ensures Invariant(Steered(s, choice))
  {
  }

  /** A fresh car satisfies the invariant, and its network input is all zeros. */
  lemma InitialStateValid()
    ensures Invariant(InitialState())
    ensures SensorVector(InitialState().radars) == [0, 0, 0, 0, 0]
  {
  }

  // ---------------------------------------------------------------------------
  // The mutable car

  class Car {
    var posX: real
    var posY: real
    var angle: int
    var speed: int
    var speedSet: bool
    var center: Pixel
    var corners: seq<Point>
    var alive: bool
    var distance: int
    var time: int
    var radars: seq<Radar>

    /** The car's fields as a value. */
    function State(): CarState
      reads this
    {
      CarState(posX, posY, angle, speed, speedSet, center, corners, alive, distance, time, radars)
    }

    ghost predicate Valid()
      reads this
    {
      Invariant(State())
    }

    constructor ()
      ensures State() == InitialState()
      ensures Valid()
    {
      posX, posY := 830.0, 920.0;
      angle := 0;
      speed := 0;
      speedSet := false;
      center := (830 + CAR_SIZE_X / 2, 920 + CAR_SIZE_Y / 2);
      corners := [];
      radars := [];
      alive := true;
      distance := 0;
      time := 0;
    }

    /** Marks the car dead when one of its corners is on a border pixel, and alive otherwise. */
    method CheckCollision(track: GameMap)
      modifies this`alive
      ensures !alive <==> exists i :: 0 <= i < |corners| && track(PixelOf(corners[i]))
    {
      alive := true;
      for i := 0 to |corners|
        invariant alive
        invariant forall k :: 0 <= k < i ==> !track(PixelOf(corners[k]))
      {
        if track(PixelOf(corners[i])) {
          alive := false;
          break;
        }
      }
    }

    /** Marches the ray at `degree` from the heading one pixel at a time until it
        meets a border pixel or reaches RADAR_RANGE, and appends the reading. */
    method CheckRadar(degree: int, track: GameMap, trig: Trig)
      modifies this`radars
      ensures radars == old(radars) + [Reading(track, trig, center, angle + degree)]
    {
      var heading := angle + degree;
      var length := 0;
      var p := RayPoint(trig, center, heading, length);
      while !track(p) && length < RADAR_RANGE
        invariant radars == old(radars)
        invariant 0 <= length <= RADAR_RANGE
        invariant p == RayPoint(trig, center, heading, length)
        invariant HitLength(track, trig, center, heading, length) == HitLength(track, trig, center, heading, 0)
        decreases RADAR_RANGE - length
      {
        HitLengthSkips(track, trig, center, heading, length);
        length := length + 1;
        p := RayPoint(trig, center, heading, length);
      }
      HitLengthStops(track, trig, center, heading, length);
      var dist := Distance(p, center);
      ReadingAt(track, trig, center, heading, length);
      radars := radars + [Radar(p, dist)];
    }

    /** Clears the radar list and casts one radar per offset in range(-90, 120, 45). */
    method SweepRadars(track: GameMap, trig: Trig)
      modifies this`radars
      ensures radars == Sweep(track, trig, center, angle, RADAR_OFFSETS)
    {
      radars := [];
      for k := 0 to 5
        invariant radars == Sweep(track, trig, center, angle, RADAR_OFFSETS[..k])
      {
        var d := -90 + 45 * k;
        OffsetIsInRange(k);
        SweepExtend(track, trig, center, angle, RADAR_OFFSETS, k);
        CheckRadar(d, track, trig);
      }
      assert RADAR_OFFSETS[..5] == RADAR_OFFSETS;
    }

    /** One tick of driving: initialise the speed once, move and clamp, count,
        rebuild the corners, check for a collision and re-cast the five radars. */
    method Update(track: GameMap, trig: Trig)
      modifies this
      ensures State() == Step(old(State()), track, trig)
      ensures old(Valid()) ==> Valid()
    {
      if !speedSet {
        speed := INITIAL_SPEED;
        speedSet := true;
      }
      Move(trig);
      Sense(track, trig);
      if old(Valid()) {
        StepKeepsInvariant(old(State()), track, trig);
      }
    }

    /** The moving part of an update: advance along the heading by the speed,
        clamp each coordinate, count distance and time, recompute the centre. */
    method Move(trig: Trig)
      modifies this
      ensures State() == Moved(old(State()), trig)
    {
      posX := posX + trig.dx(angle, speed);
      posX := Max(posX, POS_MIN);
      posX := Min(posX, POS_MAX);

      distance := distance + speed;
      time := time + 1;

      posY := posY + trig.dy(angle, speed);
      posY := Max(posY, POS_MIN);
      posY := Min(posY, POS_MAX);

      center := (Trunc(posX) + CAR_SIZE_X / 2, Trunc(posY) + CAR_SIZE_Y / 2);
    }

    /** The sensing part of an update: rebuild the corners, check them against
        the track, and re-cast the radars. */
    method Sense(track: GameMap, trig: Trig)
      modifies this
      ensures State() == Sensed(old(State()), track, trig)
    {
      corners := Corners(trig, center, angle);
      CheckCollision(track);
      HitsBorderIff(track, corners);
      SweepRadars(track, trig);
    }

    /** The normalised radar distances, one slot per radar and zero for a
        missing one; the program fails on more than five radars. */
    method GetData() returns (values: seq<int>)
      requires |radars| <= 5
      ensures |values| == 5
      ensures forall i :: 0 <= i < |radars| ==> values[i] == radars[i].dist / SENSOR_SCALE
      ensures forall i :: |radars| <= i < 5 ==> values[i] == 0
      ensures values == SensorVector(radars)
    {
      values := [0, 0, 0, 0, 0];
      for i := 0 to |radars|
        invariant |values| == 5
        invariant forall j :: 0 <= j < i ==> values[j] == radars[j].dist / SENSOR_SCALE
        invariant forall j :: i <= j < 5 ==> values[j] == 0
      {
        values := values[i := radars[i].dist / SENSOR_SCALE];
      }
    }

    /** Whether the car is still in the race. */
    function IsAlive(): bool
      reads this
    {
      alive
    }

    /** The fitness credited per tick, as Reward gives it for the car's state. */
    function GetReward(): (r: real)
      reads this
      ensures r == Reward(State())
    {
      distance as real / (CAR_SIZE_X / 2) as real
    }
  }
}
