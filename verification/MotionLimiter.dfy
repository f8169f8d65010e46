/**
 The frequency command of one joint in each servo period (update_freq in remora-eth-3.0.c and remora-spi.c), over
 the reals: parameters are checked and rewritten, the command is clamped, and its change is limited.
 */
module MotionLimiter {
  const TINY: real := 0.00000000000000000001

  function Abs(x: real): (r: real)
    ensures r >= 0.0 && (r == x || r == -x)
  {
    if x < 0.0 then -x else x
  }

  datatype Joint = Joint(posScale: real, oldScale: real, maxvel: real, maxaccel: real, posMode: bool,
                         freq: real, prevCmd: real, cmdD: real)

  datatype Pins = Pins(posCmd: real, posFb: real, velCmd: real, pgain: real, ff1gain: real, deadband: real)

  // ----- Scale -----------------------------------------------------------------------------------------------

  /** A scale is looked at when it has changed; one too small becomes 1. */
  function Guard(j: Joint): (r: Joint) {
    if j.posScale != j.oldScale then
      j.(oldScale := j.posScale, posScale := if -TINY < j.posScale < TINY then 1.0 else j.posScale)
    else j
  }

  /** A zero scale gets past the check if and only if the scale checked before was zero too. */
  lemma ZeroScaleSlips(j: Joint)
    ensures Guard(j).posScale == 0.0 <==> j.posScale == 0.0 && j.oldScale == 0.0
  {
  }

  /** So setting it to zero twice in a row does it: the first zero is replaced by 1, the second one stays. */
  lemma ZeroTwiceSlips(j: Joint)
    requires j.oldScale != 0.0
    ensures Guard(j.(posScale := 0.0)).posScale == 1.0
    ensures Guard(Guard(j.(posScale := 0.0)).(posScale := 0.0)).posScale == 0.0
  {
  }

  lemma GuardAgain(j: Joint)
    ensures Guard(Guard(j)).posScale == Guard(j).posScale
  {
  }

  // ----- Limits ----------------------------------------------------------------------------------------------

  /** A limit parameter as rewritten, and the limit on steps that it gives; `most` is the highest limit there is. */
  function Limit(scale: real, param: real, most: real): (r: (real, real))
    requires most >= 0.0
    ensures 0.0 <= r.1 <= most && r.0 >= 0.0
  {
    if param <= 0.0 then (0.0, most)
    else if param * Abs(scale) > most then
      Nonzero(scale, param, most);
      Quotient(most, Abs(scale));
      (most / Abs(scale), most)
    else
      Product(param, Abs(scale));
      (param, param * Abs(scale))
  }

  lemma Nonzero(scale: real, param: real, most: real)
    requires most >= 0.0 && param * Abs(scale) > most
    ensures Abs(scale) > 0.0
  {
  }

  lemma Quotient(x: real, y: real)
    requires x >= 0.0 && y > 0.0
    ensures x / y >= 0.0 && x / y * y == x
  {
  }

  lemma Product(x: real, y: real)
    requires x >= 0.0 && y >= 0.0
    ensures x * y >= 0.0
  {
  }

  /** Rewriting a parameter once more changes neither it nor the limit. */
  lemma LimitIdempotent(scale: real, param: real, most: real)
    requires most >= 0.0
    ensures Limit(scale, Limit(scale, param, most).0, most) == Limit(scale, param, most)
  {
    if param > 0.0 && param * Abs(scale) > most {
      Nonzero(scale, param, most);
      Quotient(most, Abs(scale));
      LimitOfQuotient(scale, most / Abs(scale), most);
      assert Limit(scale, param, most) == (most / Abs(scale), most);
    } else if param > 0.0 {
      assert Limit(scale, param, most) == (param, param * Abs(scale));
    }
  }

  lemma LimitOfQuotient(scale: real, q: real, most: real)
    requires most >= 0.0 && q >= 0.0 && q * Abs(scale) == most
    ensures Limit(scale, q, most) == (q, most)
  {
  }

  function Clamp(v: real, limit: real): (r: real)
    requires limit >= 0.0
    ensures -limit <= r <= limit
    ensures -limit <= v <= limit ==> r == v
  {
    if v > limit then limit else if v < -limit then -limit else v
  }

  /** At most `dv` closer to the target. */
  function Slew(freq: real, target: real, dv: real): (r: real)
    requires dv >= 0.0
    ensures Abs(r - freq) <= dv
  {
    if target > freq + dv then freq + dv else if target < freq - dv then freq - dv else target
  }

  // ----- One period ------------------------------------------------------------------------------------------

  predicate Runs(base: real, dt: real) {
    base >= 0.0 && dt > 0.0
  }

  /** The limits that hold in a period: maxvel and maxaccel as rewritten, frequency, and change of frequency. */
  datatype Limits = Limits(maxvel: real, maxaccel: real, maxFreq: real, dv: real)

  function LimitsOf(j: Joint, base: real, dt: real): (l: Limits)
    requires Runs(base, dt)
    ensures 0.0 <= l.maxFreq <= base && 0.0 <= l.dv <= l.maxFreq
  {
    LimitsAt(Guard(j).posScale, j.maxvel, j.maxaccel, base, dt)
  }

  function LimitsAt(scale: real, maxvel: real, maxaccel: real, base: real, dt: real): (l: Limits)
    requires Runs(base, dt)
    ensures 0.0 <= l.maxFreq <= base && 0.0 <= l.dv <= l.maxFreq
  {
    var v := Limit(scale, maxvel, base);
    var a := Limit(scale, maxaccel, FullSpeed(v.1, dt));
    Limits(v.0, a.0, v.1, Change(a.1, v.1, dt))
  }

  /** The highest acceleration limit: to full speed in one period. */
  function FullSpeed(maxFreq: real, dt: real): (a: real)
    requires maxFreq >= 0.0 && dt > 0.0
    ensures a >= 0.0 && a * dt == maxFreq
  {
    MostPerPeriod(maxFreq, dt);
    maxFreq * (1.0 / dt)
  }

  /** The change of frequency in one period. */
  function Change(maxAc: real, maxFreq: real, dt: real): (dv: real)
    requires maxFreq >= 0.0 && dt > 0.0 && 0.0 <= maxAc <= FullSpeed(maxFreq, dt)
    ensures 0.0 <= dv <= maxFreq
  {
    ChangePerPeriod(maxAc, maxFreq, dt);
    maxAc * dt
  }

  /** The rewriting of maxvel and maxaccel is idempotent. */
  lemma LimitsIdempotent(scale: real, maxvel: real, maxaccel: real, base: real, dt: real)
    requires Runs(base, dt)
    ensures var l := LimitsAt(scale, maxvel, maxaccel, base, dt);
            LimitsAt(scale, l.maxvel, l.maxaccel, base, dt) == l
  {
    LimitIdempotent(scale, maxvel, base);
    LimitIdempotent(scale, maxaccel, FullSpeed(Limit(scale, maxvel, base).1, dt));
  }

  lemma MostPerPeriod(maxFreq: real, dt: real)
    requires maxFreq >= 0.0 && dt > 0.0
    ensures 1.0 / dt > 0.0 && maxFreq * (1.0 / dt) >= 0.0 && maxFreq * (1.0 / dt) * dt == maxFreq
  {
    var r := 1.0 / dt;
    assert r * dt == 1.0;
    assert maxFreq * r * dt == maxFreq * (r * dt);
    Product(maxFreq, r);
  }

  lemma ChangePerPeriod(maxAc: real, maxFreq: real, dt: real)
    requires maxFreq >= 0.0 && dt > 0.0 && 0.0 <= maxAc <= maxFreq * (1.0 / dt)
    ensures 0.0 <= maxAc * dt <= maxFreq
  {
    MostPerPeriod(maxFreq, dt);
    var most := maxFreq * (1.0 / dt);
    Product(maxAc, dt);
    Product(most - maxAc, dt);
    assert most * dt == maxAc * dt + (most - maxAc) * dt;
  }

  function Deadband(error: real, band: real): (r: real) {
    if error > band then error - band else if error < -band then error + band else 0.0
  }

  function OrOne(x: real): (r: real) {
    if x != 0.0 then x else 1.0
  }

  function Derivative(now: real, before: real, recip: real): (r: real) {
    (now - before) * recip
  }

  function Output(pgain: real, error: real, ff1gain: real, cmdD: real): (r: real) {
    pgain * error + cmdD * ff1gain
  }

  /** Only the default deadband divides by the scale. */
  predicate Defined(j: Joint, pins: Pins) {
    j.posMode && pins.deadband == 0.0 ==> Guard(j).posScale != 0.0
  }

  function Band(j: Joint, pins: Pins): (r: real)
    requires j.posMode && Defined(j, pins)
  {
    if pins.deadband != 0.0 then pins.deadband else Abs(1.0 / Guard(j).posScale)
  }

  /** The command in position units per second, and the derivative kept. */
  function Command(j: Joint, pins: Pins, dt: real): (r: (real, real))
    requires dt > 0.0 && Defined(j, pins)
  {
    if j.posMode then
      var band := Band(j, pins);
      var cmdD := Derivative(pins.posCmd, j.prevCmd, 1.0 / dt);
      (Output(OrOne(pins.pgain), Deadband(pins.posCmd - pins.posFb, band), OrOne(pins.ff1gain), cmdD), cmdD)
    else (pins.velCmd, j.cmdD)
  }

  function InSteps(velocity: real, scale: real): (r: real) {
    velocity * scale
  }

  function Target(j: Joint, pins: Pins, base: real, dt: real): (r: real)
    requires Runs(base, dt) && Defined(j, pins)
  {
    Clamp(InSteps(Command(j, pins, dt).0, Guard(j).posScale), LimitsOf(j, base, dt).maxFreq)
  }

  /** One period; `noPin` says that joint 0 has no enable pin, which is what the test for a disabled joint tests. */
  function Update(j: Joint, pins: Pins, base: real, dt: real, noPin: bool): (r: Joint)
    requires Runs(base, dt) && Defined(j, pins)
  {
    var l := LimitsOf(j, base, dt);
    Guard(j).(
      maxvel := l.maxvel, maxaccel := l.maxaccel,
      prevCmd := if j.posMode then pins.posCmd else j.prevCmd,
      cmdD := Command(j, pins, dt).1,
      freq := if noPin then 0.0 else Slew(j.freq, Target(j, pins, base, dt), l.dv))
  }

  // ----- Position control ------------------------------------------------------------------------------------

  /**
   With the position command standing still, the joint is commanded to stop exactly while the following error is
   within the deadband; outside it is driven towards the commanded position.
   */
  lemma PositionControl(j: Joint, pins: Pins, dt: real)
    requires dt > 0.0 && j.posMode && Defined(j, pins) && pins.posCmd == j.prevCmd
    requires Band(j, pins) >= 0.0 && OrOne(pins.pgain) > 0.0
    ensures var error, command := pins.posCmd - pins.posFb, Command(j, pins, dt).0;
            && (command == 0.0 <==> Abs(error) <= Band(j, pins))
            && (command > 0.0 <==> error > Band(j, pins)) && (command < 0.0 <==> error < -Band(j, pins))
  {
    var error, band := pins.posCmd - pins.posFb, Band(j, pins);
    OutputSign(OrOne(pins.pgain), Deadband(error, band), OrOne(pins.ff1gain));
    assert Derivative(pins.posCmd, j.prevCmd, 1.0 / dt) == 0.0;
  }

  lemma OutputSign(pgain: real, error: real, ff1gain: real)
    requires pgain > 0.0
    ensures var out := Output(pgain, error, ff1gain, 0.0);
            (error == 0.0 ==> out == 0.0) && (error > 0.0 ==> out > 0.0) && (error < 0.0 ==> out < 0.0)
  {
    assert 0.0 * ff1gain == 0.0;
    if error > 0.0 {
      assert pgain * error > 0.0;
    } else if error < 0.0 {
      assert pgain * error < 0.0;
    }
  }

  // ----- Bounds ----------------------------------------------------------------------------------------------

  /** The frequency stays within the base frequency and, with its enable pin there, changes by `dv` at most. */
  lemma UpdateBounds(j: Joint, pins: Pins, base: real, dt: real, noPin: bool)
    requires Runs(base, dt) && Defined(j, pins) && Abs(j.freq) <= base
    ensures var k := Update(j, pins, base, dt, noPin); var l := LimitsOf(j, base, dt);
            && Abs(k.freq) <= base
            && (!noPin ==> Abs(k.freq - j.freq) <= l.dv <= l.maxFreq <= base)
  {
  }

  /** The user sets parameters, or a period passes. */
  datatype Event = Set(posScale: real, maxvel: real, maxaccel: real) | Tick(pins: Pins, dt: real, noPin: bool)

  function After(j: Joint, e: Event, base: real): (r: Joint)
    requires e.Tick? ==> Runs(base, e.dt) && Defined(j, e.pins)
  {
    match e
    case Set(posScale, maxvel, maxaccel) => j.(posScale := posScale, maxvel := maxvel, maxaccel := maxaccel)
    case Tick(pins, dt, noPin) => Update(j, pins, base, dt, noPin)
  }

  ghost predicate Reaches(j: Joint, es: seq<Event>, base: real, k: Joint) {
    if es == [] then k == j
    else
      var n := |es| - 1;
      exists m :: Reaches(j, es[..n], base, m)
                  && (es[n].Tick? ==> Runs(base, es[n].dt) && Defined(m, es[n].pins)) && k == After(m, es[n], base)
  }

  /** From rest the frequency is within the base frequency in every state there is. */
  lemma {:induction false} AlwaysInRange(j: Joint, es: seq<Event>, base: real, k: Joint)
    requires base >= 0.0 && j.freq == 0.0 && Reaches(j, es, base, k)
    ensures Abs(k.freq) <= base
  {
    if es != [] {
      var n := |es| - 1;
      var m :| Reaches(j, es[..n], base, m)
               && (es[n].Tick? ==> Runs(base, es[n].dt) && Defined(m, es[n].pins)) && k == After(m, es[n], base);
      AlwaysInRange(j, es[..n], base, m);
      if es[n].Tick? {
        UpdateBounds(m, es[n].pins, base, es[n].dt, es[n].noPin);
      }
    }
  }

  // ----- A constant velocity command -------------------------------------------------------------------------

  function Slews(freq: real, target: real, dv: real, n: nat): (r: real)
    requires dv >= 0.0
  {
    if n == 0 then freq else Slew(Slews(freq, target, dv, n - 1), target, dv)
  }

  function Max(x: real, y: real): (r: real) {
    if x < y then y else x
  }

  function Times(n: nat, dv: real): (r: real) {
    if n == 0 then 0.0 else Times(n - 1, dv) + dv
  }

  lemma {:induction false} TimesIsProduct(n: nat, dv: real)
    ensures Times(n, dv) == n as real * dv
  {
    if n > 0 {
      TimesIsProduct(n - 1, dv);
      var m := (n - 1) as real;
      assert n as real == m + 1.0;
      assert (m + 1.0) * dv == m * dv + dv;
    }
  }

  /** The distance shrinks by `dv` each period until it is zero, without crossing over. */
  lemma {:induction false} SlewsDistance(freq: real, target: real, dv: real, n: nat)
    requires dv >= 0.0
    ensures var f := Slews(freq, target, dv, n);
            && Abs(target - f) == Max(0.0, Abs(target - freq) - Times(n, dv))
            && (freq <= target ==> freq <= f <= target) && (target <= freq ==> target <= f <= freq)
  {
    if n > 0 {
      SlewsDistance(freq, target, dv, n - 1);
    }
  }

  /**
   `f` lies `n` periods on the way from `freq` to `target`: it is there exactly if `n` changes cover the distance,
   has come that much closer otherwise, and lies between the two.
   */
  predicate OnTheWay(freq: real, target: real, dv: real, n: nat, f: real) {
    && (f == target <==> n as real * dv >= Abs(target - freq))
    && Abs(target - f) == Max(0.0, Abs(target - freq) - n as real * dv)
    && (freq <= target ==> freq <= f <= target) && (target <= freq ==> target <= f <= freq)
  }

  lemma SlewsArrive(freq: real, target: real, dv: real, n: nat)
    requires dv >= 0.0
    ensures OnTheWay(freq, target, dv, n, Slews(freq, target, dv, n))
  {
    SlewsDistance(freq, target, dv, n);
    TimesIsProduct(n, dv);
  }

  function Updates(j: Joint, pins: Pins, base: real, dt: real, n: nat): (k: Joint)
    requires Runs(base, dt) && !j.posMode
    ensures !k.posMode
  {
    if n == 0 then j else Update(Updates(j, pins, base, dt, n - 1), pins, base, dt, false)
  }

  /** So a second period finds the same limits and the same target. */
  lemma UpdateIdempotent(j: Joint, pins: Pins, base: real, dt: real)
    requires Runs(base, dt) && !j.posMode
    ensures var k := Update(j, pins, base, dt, false);
            LimitsOf(k, base, dt) == LimitsOf(j, base, dt) && Target(k, pins, base, dt) == Target(j, pins, base, dt)
  {
    var k := Update(j, pins, base, dt, false);
    GuardAgain(j);
    assert Guard(k).posScale == Guard(j).posScale;
    LimitsIdempotent(Guard(j).posScale, j.maxvel, j.maxaccel, base, dt);
    assert LimitsOf(k, base, dt) == LimitsOf(j, base, dt);
  }

  lemma {:induction false} UpdatesSlew(j: Joint, pins: Pins, base: real, dt: real, n: nat)
    requires Runs(base, dt) && !j.posMode
    ensures var l, target := LimitsOf(j, base, dt), Target(j, pins, base, dt);
            var k := Updates(j, pins, base, dt, n);
            && k.freq == Slews(j.freq, target, l.dv, n)
            && LimitsOf(k, base, dt) == l && Target(k, pins, base, dt) == target
  {
    if n > 0 {
      UpdatesSlew(j, pins, base, dt, n - 1);
      UpdateIdempotent(Updates(j, pins, base, dt, n - 1), pins, base, dt);
    }
  }

  lemma ConstantTarget(j: Joint, pins: Pins, base: real, dt: real, n: nat)
    requires Runs(base, dt) && !j.posMode
    ensures var l, target := LimitsOf(j, base, dt), Target(j, pins, base, dt);
            OnTheWay(j.freq, target, l.dv, n, Updates(j, pins, base, dt, n).freq)
  {
    UpdatesSlew(j, pins, base, dt, n);
    SlewsArrive(j.freq, Target(j, pins, base, dt), LimitsOf(j, base, dt).dv, n);
  }

  // ----- What a command leads to, in numbers -----------------------------------------------------------------

  /** What a parameter worth `per` each comes to, of at most `top`; without a positive parameter that is `top`. */
  function Cap(param: real, per: real, top: real): (r: real)
    requires per >= 0.0 && top >= 0.0
    ensures 0.0 <= r <= top
  {
    if param > 0.0 && param * per <= top then
      Product(param, per);
      param * per
    else top
  }

  /** What one position unit per second squared comes to in one period, in steps per second. */
  function PerPeriod(scale: real, dt: real): (r: real)
    requires dt > 0.0
    ensures r >= 0.0
  {
    Product(Abs(scale), dt);
    Abs(scale) * dt
  }

  /** The parameter as it is kept: lowered where it would come to more than `top`, and zero where it sets no limit. */
  predicate Kept(param: real, per: real, top: real, r: real) {
    if param <= 0.0 then r == 0.0
    else if param * per <= top then r == param
    else r * per == top
  }

  lemma LimitMeans(scale: real, param: real, most: real)
    requires most >= 0.0
    ensures Limit(scale, param, most).1 == Cap(param, Abs(scale), most)
    ensures Kept(param, Abs(scale), most, Limit(scale, param, most).0)
  {
    if param > 0.0 && param * Abs(scale) > most {
      Nonzero(scale, param, most);
      Quotient(most, Abs(scale));
    }
  }

  lemma Scaled(x: real, y: real, dt: real)
    requires dt > 0.0
    ensures x <= y <==> x * dt <= y * dt
  {
    if x <= y {
      assert (y - x) * dt >= 0.0;
    } else {
      assert (x - y) * dt > 0.0;
    }
  }

  lemma Regroup(x: real, y: real, z: real)
    ensures x * (y * z) == x * y * z
  {
  }

  lemma CapScaled(param: real, a: real, per: real, most: real, top: real, dt: real, r: real)
    requires a >= 0.0 && per >= 0.0 && most >= 0.0 && top >= 0.0 && dt > 0.0
    requires per == a * dt && top == most * dt && Kept(param, a, most, r)
    ensures Cap(param, per, top) == Cap(param, a, most) * dt
    ensures Kept(param, per, top, r)
  {
    Scaled(param * a, most, dt);
    Regroup(param, a, dt);
    Regroup(r, a, dt);
  }

  lemma LimitsParts(scale: real, maxvel: real, maxaccel: real, base: real, dt: real)
    requires Runs(base, dt)
    ensures var l := LimitsAt(scale, maxvel, maxaccel, base, dt);
            var most := FullSpeed(l.maxFreq, dt);
            && (l.maxvel, l.maxFreq) == Limit(scale, maxvel, base)
            && l.maxaccel == Limit(scale, maxaccel, most).0 && l.dv == Limit(scale, maxaccel, most).1 * dt
  {
    hide Limit;
    hide FullSpeed;
  }

  lemma ChangeMeans(scale: real, maxaccel: real, top: real, dt: real)
    requires top >= 0.0 && dt > 0.0
    ensures var r := Limit(scale, maxaccel, FullSpeed(top, dt));
            r.1 * dt == Cap(maxaccel, PerPeriod(scale, dt), top) && Kept(maxaccel, PerPeriod(scale, dt), top, r.0)
  {
    var most := FullSpeed(top, dt);
    assert PerPeriod(scale, dt) == Abs(scale) * dt;
    hide *;
    LimitMeans(scale, maxaccel, most);
    CapScaled(maxaccel, Abs(scale), PerPeriod(scale, dt), most, top, dt, Limit(scale, maxaccel, most).0);
  }

  lemma LimitsMean(scale: real, maxvel: real, maxaccel: real, base: real, dt: real)
    requires Runs(base, dt)
    ensures var l, a := LimitsAt(scale, maxvel, maxaccel, base, dt), Abs(scale);
            && l.maxFreq == Cap(maxvel, a, base) && Kept(maxvel, a, base, l.maxvel)
            && l.dv == Cap(maxaccel, PerPeriod(scale, dt), l.maxFreq)
            && Kept(maxaccel, PerPeriod(scale, dt), l.maxFreq, l.maxaccel)
  {
    assert base >= 0.0 && dt > 0.0;
    hide *;
    LimitsParts(scale, maxvel, maxaccel, base, dt);
    LimitMeans(scale, maxvel, base);
    ChangeMeans(scale, maxaccel, LimitsAt(scale, maxvel, maxaccel, base, dt).maxFreq, dt);
  }

  /** Proportional control with feed forward; a gain or deadband of zero stands for its default. */
  function Wanted(p: Pins, prevCmd: real, scale: real, dt: real): (r: real)
    requires dt > 0.0
  {
    var moved, error := (p.posCmd - prevCmd) / dt, p.posCmd - p.posFb;
    var band := if p.deadband != 0.0 then p.deadband else if scale == 0.0 then 0.0 else Abs(1.0 / scale);
    var left := if error > band then error - band else if error < -band then error + band else 0.0;
    (if p.pgain != 0.0 then p.pgain else 1.0) * left + moved * (if p.ff1gain != 0.0 then p.ff1gain else 1.0)
  }

  /** The scale that a period goes by. */
  function ScaleOf(j: Joint): (r: real) {
    if j.posScale != j.oldScale && -TINY < j.posScale < TINY then 1.0 else j.posScale
  }

  /** The frequency that follows is as far on the way to velocity times scale as the limits let it be. */
  predicate Moves(j: Joint, velocity: real, base: real, dt: real, freq: real)
    requires Runs(base, dt)
  {
    var top := Cap(j.maxvel, Abs(ScaleOf(j)), base);
    var change := Cap(j.maxaccel, PerPeriod(ScaleOf(j), dt), top);
    freq == Slew(j.freq, Clamp(velocity * ScaleOf(j), top), change)
  }

  /** From `j` to `k` a period passed. */
  predicate Period(j: Joint, pins: Pins, base: real, dt: real, noPin: bool, k: Joint)
    requires Runs(base, dt)
  {
    var scale := ScaleOf(j);
    && k.posScale == scale && k.oldScale == j.posScale && k.posMode == j.posMode
    && Kept(j.maxvel, Abs(scale), base, k.maxvel)
    && Kept(j.maxaccel, PerPeriod(scale, dt), Cap(j.maxvel, Abs(scale), base), k.maxaccel)
    && k.prevCmd == (if j.posMode then pins.posCmd else j.prevCmd)
    && k.cmdD == (if j.posMode then (pins.posCmd - j.prevCmd) / dt else j.cmdD)
    && if noPin then k.freq == 0.0
       else Moves(j, if j.posMode then Wanted(pins, j.prevCmd, scale, dt) else pins.velCmd, base, dt, k.freq)
  }

  lemma UpdateParts(j: Joint, pins: Pins, base: real, dt: real, noPin: bool)
    requires Runs(base, dt) && Defined(j, pins)
    ensures var k, scale, c := Update(j, pins, base, dt, noPin), Guard(j).posScale, Command(j, pins, dt);
            var l := LimitsAt(scale, j.maxvel, j.maxaccel, base, dt);
            && k.posScale == scale && k.oldScale == Guard(j).oldScale && k.posMode == j.posMode
            && k.maxvel == l.maxvel && k.maxaccel == l.maxaccel
            && k.prevCmd == (if j.posMode then pins.posCmd else j.prevCmd) && k.cmdD == c.1
            && k.freq == if noPin then 0.0 else Slew(j.freq, Clamp(InSteps(c.0, scale), l.maxFreq), l.dv)
  {
    hide Defined;
    hide LimitsAt;
    hide Slew;
    hide Clamp;
    hide Command;
    hide InSteps;
  }

  lemma InStepsMeans(velocity: real, scale: real)
    ensures InSteps(velocity, scale) == velocity * scale
  {
  }

  lemma GuardMeans(j: Joint)
    ensures Guard(j).posScale == ScaleOf(j) && Guard(j).oldScale == j.posScale
  {
  }

  lemma DerivativeMeans(now: real, before: real, dt: real)
    requires dt > 0.0
    ensures Derivative(now, before, 1.0 / dt) == (now - before) / dt
  {
    var d, r := now - before, 1.0 / dt;
    assert d * r == d / dt;
  }

  lemma WantedMeans(p: Pins, prevCmd: real, scale: real, dt: real, band: real, moved: real)
    requires dt > 0.0 && moved == (p.posCmd - prevCmd) / dt
    requires band == if p.deadband != 0.0 then p.deadband else if scale == 0.0 then 0.0 else Abs(1.0 / scale)
    ensures Wanted(p, prevCmd, scale, dt) ==
            Output(OrOne(p.pgain), Deadband(p.posCmd - p.posFb, band), OrOne(p.ff1gain), moved)
  {
  }

  lemma CommandMeans(j: Joint, pins: Pins, dt: real)
    requires dt > 0.0 && Defined(j, pins)
    ensures Command(j, pins, dt) ==
            if j.posMode then (Wanted(pins, j.prevCmd, ScaleOf(j), dt), (pins.posCmd - j.prevCmd) / dt)
            else (pins.velCmd, j.cmdD)
  {
    GuardMeans(j);
    hide Guard;
    hide ScaleOf;
    hide Abs;
    if j.posMode {
      DerivativeMeans(pins.posCmd, j.prevCmd, dt);
      WantedMeans(pins, j.prevCmd, ScaleOf(j), dt, Band(j, pins), (pins.posCmd - j.prevCmd) / dt);
      hide Derivative;
      hide Wanted;
      hide Output;
    }
  }

  /** One period, in numbers. */
  lemma UpdateMeans(j: Joint, pins: Pins, base: real, dt: real, noPin: bool)
    requires Runs(base, dt) && Defined(j, pins)
    ensures Period(j, pins, base, dt, noPin, Update(j, pins, base, dt, noPin))
  {
    assert dt > 0.0 && base >= 0.0;
    hide *;
    var c, scale := Command(j, pins, dt), ScaleOf(j);
    UpdateParts(j, pins, base, dt, noPin);
    GuardMeans(j);
    CommandMeans(j, pins, dt);
    InStepsMeans(c.0, scale);
    LimitsMean(scale, j.maxvel, j.maxaccel, base, dt);
    var l := LimitsAt(scale, j.maxvel, j.maxaccel, base, dt);
    PeriodFrom(j, pins, base, dt, noPin, c.0, InSteps(c.0, scale), l, Update(j, pins, base, dt, noPin));
  }

  lemma PeriodFrom(j: Joint, pins: Pins, base: real, dt: real, noPin: bool, velocity: real, wanted: real, l: Limits,
                   k: Joint)
    requires Runs(base, dt) && wanted == velocity * ScaleOf(j)
    requires velocity == if j.posMode then Wanted(pins, j.prevCmd, ScaleOf(j), dt) else pins.velCmd
    requires l.maxFreq == Cap(j.maxvel, Abs(ScaleOf(j)), base)
    requires l.dv == Cap(j.maxaccel, PerPeriod(ScaleOf(j), dt), l.maxFreq)
    requires k.posScale == ScaleOf(j) && k.oldScale == j.posScale && k.posMode == j.posMode
    requires Kept(j.maxvel, Abs(ScaleOf(j)), base, k.maxvel)
    requires Kept(j.maxaccel, PerPeriod(ScaleOf(j), dt), l.maxFreq, k.maxaccel)
    requires k.prevCmd == (if j.posMode then pins.posCmd else j.prevCmd)
    requires k.cmdD == (if j.posMode then (pins.posCmd - j.prevCmd) / dt else j.cmdD)
    requires k.freq == if noPin then 0.0 else Slew(j.freq, Clamp(wanted, l.maxFreq), l.dv)
    ensures Period(j, pins, base, dt, noPin, k)
  {
    if !noPin {
      MovesExactly(j, velocity, wanted, base, dt, k.freq);
    }
    hide Moves;
    hide ScaleOf;
    hide Wanted;
    hide Slew;
    hide Clamp;
    hide Cap;
    hide Kept;
    hide Abs;
    hide PerPeriod;
  }

  lemma MovesExactly(j: Joint, velocity: real, steps: real, base: real, dt: real, freq: real)
    requires Runs(base, dt) && steps == velocity * ScaleOf(j)
    ensures var top := Cap(j.maxvel, Abs(ScaleOf(j)), base);
            Moves(j, velocity, base, dt, freq)
            <==> freq == Slew(j.freq, Clamp(steps, top), Cap(j.maxaccel, PerPeriod(ScaleOf(j), dt), top))
  {
    hide ScaleOf;
    hide Slew;
    hide Clamp;
    hide Cap;
    hide Abs;
    hide PerPeriod;
  }

  lemma SlewReaches(freq: real, steps: real, top: real, change: real)
    requires Abs(steps) <= top && Abs(steps - freq) <= change
    ensures Slew(freq, Clamp(steps, top), change) == steps
  {
  }

  /** A command within both limits is met at once: the frequency is the velocity times the scale. */
  lemma Reached(j: Joint, velocity: real, steps: real, base: real, dt: real, freq: real)
    requires base >= 0.0 && dt > 0.0 && Runs(base, dt) && Moves(j, velocity, base, dt, freq)
    requires steps == velocity * ScaleOf(j) && Abs(steps) <= Cap(j.maxvel, Abs(ScaleOf(j)), base)
    requires Abs(steps - j.freq) <=
             Cap(j.maxaccel, PerPeriod(ScaleOf(j), dt), Cap(j.maxvel, Abs(ScaleOf(j)), base))
    ensures freq == steps
  {
    hide *;
    var top := Cap(j.maxvel, Abs(ScaleOf(j)), base);
    MovesExactly(j, velocity, steps, base, dt, freq);
    SlewReaches(j.freq, steps, top, Cap(j.maxaccel, PerPeriod(ScaleOf(j), dt), top));
  }

  lemma SlewMeans(freq: real, wanted: real, top: real, change: real)
    requires top >= 0.0 && change >= 0.0
    ensures var goal := if wanted > top then top else if wanted < -top then -top else wanted;
            Slew(freq, Clamp(wanted, top), change) == if goal > freq + change then freq + change
                                                      else if goal < freq - change then freq - change
                                                      else goal
  {
  }

  lemma TargetMeans(j: Joint, pins: Pins, base: real, dt: real)
    requires Runs(base, dt) && !j.posMode
    ensures var l := LimitsAt(ScaleOf(j), j.maxvel, j.maxaccel, base, dt);
            LimitsOf(j, base, dt) == l && Target(j, pins, base, dt) == Clamp(pins.velCmd * ScaleOf(j), l.maxFreq)
  {
    GuardMeans(j);
    InStepsMeans(pins.velCmd, ScaleOf(j));
    hide InSteps;
    hide Guard;
    hide ScaleOf;
    hide LimitsAt;
    hide Clamp;
  }

  /**
   With a constant velocity command the frequency goes straight to velocity times scale, as far as the limits let it,
   in as many periods as it takes to cover the distance, and stays.
   */
  lemma ConstantCommand(j: Joint, pins: Pins, base: real, dt: real, n: nat)
    requires Runs(base, dt) && !j.posMode
    ensures var scale := ScaleOf(j);
            var top := Cap(j.maxvel, Abs(scale), base);
            var change := Cap(j.maxaccel, PerPeriod(scale, dt), top);
            OnTheWay(j.freq, Clamp(pins.velCmd * scale, top), change, n, Updates(j, pins, base, dt, n).freq)
  {
    assert base >= 0.0 && dt > 0.0;
    hide *;
    var scale := ScaleOf(j);
    GuardMeans(j);
    ConstantTarget(j, pins, base, dt, n);
    LimitsMean(scale, j.maxvel, j.maxaccel, base, dt);
    TargetMeans(j, pins, base, dt);
  }

  // ----- The code --------------------------------------------------------------------------------------------

  function Seconds(period: int): (r: real) {
    period as real * 0.000000001
  }

  class Generators {
    const joints: array<Joint>
    /** PRU_base_freq. */
    const base: real
    var oldPeriod: int
    var dt: real
    var recipDt: real

    ghost predicate Valid()
      reads this
    {
      base >= 0.0 && (oldPeriod != 0 ==> oldPeriod > 0 && dt == Seconds(oldPeriod) && recipDt == 1.0 / dt)
    }

    /** All joints at rest, with scale 1, acceleration limit 1 and no velocity limit. */
    constructor (posMode: seq<bool>, base: real)
      requires base >= 0.0
      ensures Valid() && fresh(joints) && joints.Length == |posMode| && this.base == base
      ensures forall i :: 0 <= i < |posMode| ==> joints[i] == Joint(1.0, 0.0, 0.0, 1.0, posMode[i], 0.0, 0.0, 0.0)
    {
      joints := new Joint[|posMode|](i requires 0 <= i < |posMode| =>
        Joint(1.0, 0.0, 0.0, 1.0, posMode[i], 0.0, 0.0, 0.0));
      this.base := base;
      oldPeriod, dt, recipDt := 0, 0.0, 0.0;
    }

    /** A changed scale is checked. */
    method CheckScale(i: nat)
      requires i < joints.Length
      modifies joints
      ensures joints[..] == old(joints[..])[i := Guard(old(joints[i]))]
    {
      if joints[i].posScale != joints[i].oldScale {
        joints[i] := joints[i].(oldScale := joints[i].posScale);
        if joints[i].posScale < TINY && joints[i].posScale > -TINY {
          joints[i] := joints[i].(posScale := 1.0);
        }
      }
    }

    /** One parameter and the limit it lowers; the caller writes the parameter back. */
    method ApplyLimit(scale: real, param0: real, most: real) returns (param: real, limit: real)
      requires most >= 0.0
      ensures (param, limit) == Limit(scale, param0, most)
    {
      param, limit := param0, most;
      if param <= 0.0 {
        param := 0.0;
      } else {
        var desired := param * Abs(scale);
        if desired > most {
          Nonzero(scale, param, most);
          param := most / Abs(scale);
        } else {
          limit := desired;
        }
      }
    }

    /**
     Proportional control with feed forward, or the velocity as commanded; `j0` is the joint before its scale
     check.
     */
    method GetCommand(j: Joint, pins: Pins, recip: real, ghost j0: Joint, ghost d: real)
      returns (velCmd: real, cmdD: real)
      requires d > 0.0 && recip == 1.0 / d && Defined(j0, pins)
      requires j.posMode == j0.posMode && j.posScale == Guard(j0).posScale && j.prevCmd == j0.prevCmd
               && j.cmdD == j0.cmdD
      ensures (velCmd, cmdD) == Command(j0, pins, d)
    {
      if j.posMode {
        var pgain := if pins.pgain != 0.0 then pins.pgain else 1.0;
        var ff1gain := if pins.ff1gain != 0.0 then pins.ff1gain else 1.0;
        var deadband := if pins.deadband != 0.0 then pins.deadband else Abs(1.0 / j.posScale);
        assert deadband == Band(j0, pins);
        var error := pins.posCmd - pins.posFb;
        if error > deadband {
          error := error - deadband;
        } else if error < -deadband {
          error := error + deadband;
        } else {
          error := 0.0;
        }
        cmdD := Derivative(pins.posCmd, j.prevCmd, recip);
        velCmd := Output(pgain, error, ff1gain, cmdD);
      } else {
        velCmd, cmdD := pins.velCmd, j.cmdD;
      }
    }

    /** The frequency limit and the acceleration limit. */
    method Approach(freq: real, command: real, maxFreq: real, dv: real) returns (newVel: real)
      requires maxFreq >= 0.0 && dv >= 0.0
      ensures newVel == Slew(freq, Clamp(command, maxFreq), dv)
    {
      var velCmd := command;
      if velCmd > maxFreq {
        velCmd := maxFreq;
      } else if velCmd < -maxFreq {
        velCmd := -maxFreq;
      }
      if velCmd > freq + dv {
        newVel := freq + dv;
      } else if velCmd < freq - dv {
        newVel := freq - dv;
      } else {
        newVel := velCmd;
      }
    }

    /** The limits, with the parameters of joint `i` rewritten. */
    method ApplyLimits(i: nat, ghost j0: Joint) returns (maxFreq: real, dv: real)
      requires Valid() && oldPeriod != 0 && i < joints.Length && joints[i] == Guard(j0)
      modifies joints
      ensures var l := LimitsOf(j0, base, dt);
              && maxFreq == l.maxFreq && dv == l.dv
              && joints[..] == old(joints[..])[i := old(joints[i]).(maxvel := l.maxvel, maxaccel := l.maxaccel)]
    {
      var param;
      param, maxFreq := ApplyLimit(joints[i].posScale, joints[i].maxvel, base);
      joints[i] := joints[i].(maxvel := param);
      MostPerPeriod(maxFreq, dt);
      var maxAc := maxFreq * recipDt;
      assert maxAc == FullSpeed(maxFreq, dt);
      param, maxAc := ApplyLimit(joints[i].posScale, joints[i].maxaccel, maxAc);
      joints[i] := joints[i].(maxaccel := param);
      dv := maxAc * dt;
      assert dv == Change(maxAc, maxFreq, dt);
    }

    method UpdateJoint(i: nat, pins: Pins, noPin: bool)
      requires Valid() && oldPeriod != 0 && i < joints.Length && Defined(joints[i], pins)
      modifies joints
      ensures joints[..] == old(joints[..])[i := Update(old(joints[i]), pins, base, dt, noPin)]
    {
      ghost var j0 := joints[i];
      CheckScale(i);
      var maxFreq, dv := ApplyLimits(i, j0);
      var velCmd, cmdD := GetCommand(joints[i], pins, recipDt, j0, dt);
      if joints[i].posMode {
        joints[i] := joints[i].(cmdD := cmdD, prevCmd := pins.posCmd);
      }
      var newVel := Approach(joints[i].freq, InSteps(velCmd, joints[i].posScale), maxFreq, dv);
      if noPin {
        newVel := 0.0;
      }
      joints[i] := joints[i].(freq := newVel);
    }

    /** update_freq: constants of the period are kept while it does not change; then every joint in turn. */
    method UpdateFreq(pins: seq<Pins>, period: int, noPin: bool)
      requires Valid() && period > 0 && |pins| == joints.Length
      requires forall i :: 0 <= i < |pins| ==> Defined(joints[i], pins[i])
      modifies this, joints
      ensures Valid() && dt == Seconds(period)
      ensures forall i :: 0 <= i < joints.Length ==>
                joints[i] == Update(old(joints[i]), pins[i], base, Seconds(period), noPin)
      // The same in numbers.
      ensures forall i :: 0 <= i < joints.Length ==>
                Period(old(joints[i]), pins[i], base, period as real / 1000000000.0, noPin, joints[i])
    {
      hide Update;
      hide Period;
      if period != oldPeriod {
        oldPeriod := period;
        dt := Seconds(period);
        recipDt := 1.0 / dt;
      }
      for i := 0 to joints.Length
        invariant Valid() && oldPeriod == period && dt == Seconds(period)
        invariant forall k :: 0 <= k < i ==> joints[k] == Update(old(joints[k]), pins[k], base, dt, noPin)
        invariant forall k :: i <= k < joints.Length ==> joints[k] == old(joints[k])
      {
        UpdateJoint(i, pins[i], noPin);
      }
      forall i | 0 <= i < joints.Length
        ensures Period(old(joints[i]), pins[i], base, dt, noPin, joints[i])
      {
        UpdateMeans(old(joints[i]), pins[i], base, dt, noPin);
      }
    }
  }
}
