/**
 * A car of the game and the timer task that charges it. A claim blocks the
 * car and schedules a task; every firing of the task (`Tick`) applies one
 * increment of energy or ends the cycle and unblocks the car. The timer
 * itself is replaced by whoever calls `Tick`: it fires an uncancelled task
 * and never a cancelled one.
 */
module GameObjects {
  import opened Charging

  /** A package of energy a player hands to a car, in watt-hours. */
  datatype EnergyPackage = EnergyPackage(size: nat)

  /** How `claimPackage` ends: it returns its flag, or throws on a division by zero. */
  datatype ClaimResult = Returned(accepted: bool) | DivisionByZero

  class Car {
    const chipId: string
    const name: string
    const batteryCapacityWh: int
    var chargedCapacityWh: int
    var isBlocked: bool
    /** Whether a player owns the car (the owner reference is not null). */
    var hasOwner: bool
    /** The timer task of the cycle in progress, while its timer still fires it. */
    var task: ChargeTask?
    /** A claim threw after blocking the car, so nothing will ever unblock it. */
    ghost var stuck: bool
    /** The LED count the last charge sent to the owner's strip. */
    ghost var ledsLit: int

    /**
     * The car is blocked exactly while a cycle's task runs, or after a claim
     * that threw; a running task belongs to this car and keeps its invariant.
     */
    ghost predicate Valid()
      reads this, task
    {
      && 0 < batteryCapacityWh
      && (isBlocked <==> task != null || stuck)
      && (task != null ==> task.car == this && !stuck && task.Valid())
    }

    constructor (chipId: string, name: string, batteryCapacityWh: int)
      requires 0 < batteryCapacityWh
      ensures Valid()
      ensures this.chipId == chipId && this.name == name
      ensures this.batteryCapacityWh == batteryCapacityWh
      ensures chargedCapacityWh == 0 && !isBlocked && !hasOwner && task == null && !stuck
    {
      this.chipId := chipId;
      this.name := name;
      this.batteryCapacityWh := batteryCapacityWh;
      chargedCapacityWh := 0;
      isBlocked := false;
      hasOwner := false;
      task := null;
      stuck := false;
      ledsLit := 0;
    }

    method SetOwner(present: bool)
      modifies this`hasOwner
      ensures hasOwner == present
    {
      hasOwner := present;
    }

    /**
     * Adds `energyWh` to the charge, with no clamping, and lights the owner's
     * strip in proportion to the new charge.
     */
    method Charge(energyWh: int)
      requires Valid() && hasOwner
      modifies this`chargedCapacityWh, this`ledsLit
      ensures Valid()
      ensures chargedCapacityWh == old(chargedCapacityWh) + energyWh
      ensures ledsLit == LedsToLight(chargedCapacityWh, batteryCapacityWh)
      ensures 0 <= chargedCapacityWh <= batteryCapacityWh ==> 0 <= ledsLit <= LedCount
    {
      chargedCapacityWh := chargedCapacityWh + energyWh;
      ledsLit := LedsToLight(chargedCapacityWh, batteryCapacityWh);
      if 0 <= chargedCapacityWh <= batteryCapacityWh {
        LedsWithinStrip(chargedCapacityWh, batteryCapacityWh);
      }
    }

    /**
     * Claims a package for this car; `totalChargeDurationSeconds` is the
     * length of the cycle as the configuration makes it for this package.
     * A blocked car refuses and nothing changes. Otherwise the car is blocked
     * and, unless the division by the duration throws, a fresh cycle is
     * scheduled and `true` is returned before any energy is delivered.
     */
    method ClaimPackage(energyPackage: EnergyPackage, totalChargeDurationSeconds: int, hasCallback: bool)
      returns (r: ClaimResult)
      requires Valid()
      modifies this
      ensures Valid()
      ensures old(isBlocked) ==> r == Returned(false) && unchanged(this)
      ensures !old(isBlocked) && totalChargeDurationSeconds != 0 ==>
        && r == Returned(true) && isBlocked && !stuck
        && task != null && fresh(task)
        && task.Plan() == NewPlan(batteryCapacityWh, energyPackage.size, totalChargeDurationSeconds, hasCallback)
        && task.State() == Start(chargedCapacityWh)
      ensures !old(isBlocked) && totalChargeDurationSeconds == 0 ==>
        r == DivisionByZero && isBlocked && stuck && task == null
      ensures chargedCapacityWh == old(chargedCapacityWh)
      ensures hasOwner == old(hasOwner) && ledsLit == old(ledsLit)
    {
      if isBlocked {
        return Returned(false);
      }
      isBlocked := true;
      if totalChargeDurationSeconds == 0 {
        stuck := true;
        return DivisionByZero;
      }
      var t := new ChargeTask(this, energyPackage.size, totalChargeDurationSeconds, hasCallback);
      StartInvariant(t.Plan(), chargedCapacityWh);
      task := t;
      r := Returned(true);
    }

    /**
     * `ClaimPackage` with the duration guarded: a cycle whose computed
     * length is not positive completes at once, delivering nothing and
     * leaving the car unblocked, so no claim ever leaves the car stuck.
     */
    method ClaimPackageFailClosed(energyPackage: EnergyPackage, totalChargeDurationSeconds: int, hasCallback: bool)
      returns (r: ClaimResult)
      requires Valid()
      modifies this
      ensures Valid()
      ensures r != DivisionByZero
      ensures old(isBlocked) ==> r == Returned(false) && unchanged(this)
      ensures !old(isBlocked) && 0 < totalChargeDurationSeconds ==>
        && r == Returned(true) && isBlocked
        && task != null && fresh(task)
        && task.Plan() == NewPlan(batteryCapacityWh, energyPackage.size, totalChargeDurationSeconds, hasCallback)
        && task.State() == Start(chargedCapacityWh)
      ensures !old(isBlocked) && totalChargeDurationSeconds <= 0 ==>
        r == Returned(true) && !isBlocked && task == null
      ensures stuck == old(stuck)
      ensures chargedCapacityWh == old(chargedCapacityWh)
      ensures hasOwner == old(hasOwner) && ledsLit == old(ledsLit)
    {
      if isBlocked {
        return Returned(false);
      }
      if totalChargeDurationSeconds <= 0 {
        return Returned(true);
      }
      isBlocked := true;
      var t := new ChargeTask(this, energyPackage.size, totalChargeDurationSeconds, hasCallback);
      StartInvariant(t.Plan(), chargedCapacityWh);
      task := t;
      r := Returned(true);
    }
  }

  /**
   * The timer task of one cycle: the values the claim computed, the two
   * counters it keeps between firings, and whether it has been cancelled.
   */
  class ChargeTask {
    const car: Car
    const totalChargeDurationSeconds: int
    const totalEnergyToDeliver: int
    const chargeIncrement: int
    const hasCallback: bool
    var secondsPassed: int
    var energyDelivered: int
    var cancelled: bool
    /** Increments applied so far. */
    ghost var applied: nat
    /** Times the progress callback has run. */
    ghost var callbackRuns: nat

    function Plan(): Plan {
      Charging.Plan(car.batteryCapacityWh, totalChargeDurationSeconds, totalEnergyToDeliver,
                    chargeIncrement, hasCallback)
    }

    ghost function State(): Meter
      reads this, car
    {
      Meter(car.chargedCapacityWh, car.isBlocked, secondsPassed, energyDelivered,
            applied, callbackRuns, !cancelled)
    }

    ghost predicate Valid()
      reads this, car
    {
      Invariant(Plan(), State())
    }

    constructor (car: Car, size: nat, totalChargeDurationSeconds: int, hasCallback: bool)
      requires totalChargeDurationSeconds != 0
      ensures this.car == car
      ensures Plan() == NewPlan(car.batteryCapacityWh, size, totalChargeDurationSeconds, hasCallback)
      ensures secondsPassed == 0 && energyDelivered == 0 && !cancelled
      ensures applied == 0 && callbackRuns == 0
    {
      this.car := car;
      this.totalChargeDurationSeconds := totalChargeDurationSeconds;
      totalEnergyToDeliver := size;
      chargeIncrement := JavaDiv(size, totalChargeDurationSeconds);
      this.hasCallback := hasCallback;
      secondsPassed := 0;
      energyDelivered := 0;
      cancelled := false;
      applied := 0;
      callbackRuns := 0;
    }

    /** Ends the cycle: unblocks the car and cancels this task. */
    method OnComplete()
      requires car.task == this
      modifies this`cancelled, car`isBlocked, car`task
      ensures cancelled && !car.isBlocked && car.task == null
    {
      car.isBlocked := false;
      cancelled := true;
      car.task := null;
    }

    /**
     * One firing of the timer. While time and energy are left, the increment
     * is applied if it fits both the battery and the package; otherwise, or
     * once time or energy has run out, the cycle ends.
     */
    method Tick()
      requires car.Valid() && car.task == this
      requires InBudget(Plan(), State()) && Fits(Plan(), State()) ==> car.hasOwner
      modifies this, car
      ensures car.Valid() && car.hasOwner == old(car.hasOwner) && car.stuck == old(car.stuck)
      ensures State() == Step(Plan(), old(State()))
      ensures cancelled <==> car.task == null
      ensures !cancelled ==> car.task == this
      ensures !cancelled ==>
        && car.chargedCapacityWh == old(car.chargedCapacityWh) + chargeIncrement
        && energyDelivered == old(energyDelivered) + chargeIncrement
        && callbackRuns == old(callbackRuns) + (if hasCallback then 1 else 0)
        && secondsPassed == old(secondsPassed) + 1
        && car.ledsLit == LedsToLight(car.chargedCapacityWh, car.batteryCapacityWh)
      ensures cancelled ==>
        && !car.isBlocked
        && car.chargedCapacityWh == old(car.chargedCapacityWh)
        && energyDelivered == old(energyDelivered)
        && callbackRuns == old(callbackRuns)
        && car.ledsLit == old(car.ledsLit)
      ensures old(car.chargedCapacityWh) <= car.batteryCapacityWh ==> car.chargedCapacityWh <= car.batteryCapacityWh
      ensures 0 <= old(car.chargedCapacityWh) ==> 0 <= car.chargedCapacityWh
      ensures 0 <= energyDelivered <= totalEnergyToDeliver
    {
      ghost var before := State();
      StepKeepsInvariant(Plan(), before);
      if energyDelivered < totalEnergyToDeliver && secondsPassed < totalChargeDurationSeconds {
        if car.chargedCapacityWh + chargeIncrement <= car.batteryCapacityWh
           && energyDelivered + chargeIncrement <= totalEnergyToDeliver
        {
          car.Charge(chargeIncrement);
          energyDelivered := energyDelivered + chargeIncrement;
          applied := applied + 1;
          if hasCallback {
            callbackRuns := callbackRuns + 1;
          }
        } else {
          OnComplete();
        }
        secondsPassed := secondsPassed + 1;
      } else {
        OnComplete();
      }
    }
  }

  /** Two claims in a row: the second is refused and the first cycle is undisturbed. */
  method ClaimTwiceInARow() returns (first: ClaimResult, second: ClaimResult, delivered: int, blocked: bool)
    ensures first == Returned(true) && second == Returned(false)
    ensures delivered == 0 && blocked
  {
    var car := new Car("1a2b:3c4d", "car", 50000);
    first := car.ClaimPackage(EnergyPackage(6000), 60, true);
    var t := car.task;
    second := car.ClaimPackage(EnergyPackage(6000), 60, true);
    delivered := t.energyDelivered;
    blocked := car.isBlocked;
  }

  /**
   * A package whose computed duration is zero: the claim throws after
   * blocking the car, and every later claim is refused.
   */
  method ZeroDurationClaimBlocksForever() returns (first: ClaimResult, second: ClaimResult, blocked: bool)
    ensures first == DivisionByZero && second == Returned(false) && blocked
  {
    var car := new Car("1a2b", "car", 1000);
    first := car.ClaimPackage(EnergyPackage(0), 0, false);
    second := car.ClaimPackage(EnergyPackage(6000), 60, false);
    blocked := car.isBlocked;
  }

  /** The same package with the guarded claim: done at once, and the car can be claimed again. */
  method ZeroDurationClaimFailsClosed() returns (first: ClaimResult, second: ClaimResult, charged: int)
    ensures first == Returned(true) && second == Returned(true) && charged == 0
  {
    var car := new Car("1a2b", "car", 1000);
    first := car.ClaimPackageFailClosed(EnergyPackage(0), 0, false);
    second := car.ClaimPackageFailClosed(EnergyPackage(6000), 60, false);
    charged := car.chargedCapacityWh;
  }

  /**
   * A car without an owner, 100 Wh of capacity, offered 200 Wh per second:
   * the first firing ends the cycle without touching the owner, and the car
   * is unblocked.
   */
  method OwnerlessCarOverflowEnds() returns (accepted: ClaimResult, blocked: bool, charged: int)
    ensures accepted == Returned(true) && !blocked && charged == 0
  {
    var car := new Car("1a2b", "car", 100);
    accepted := car.ClaimPackage(EnergyPackage(2000), 10, false);
    var t := car.task;
    t.Tick();
    blocked := car.isBlocked;
    charged := car.chargedCapacityWh;
  }

  /**
   * An empty 50 000 Wh car takes a 6 000 Wh package over 60 seconds: the
   * timer fires 61 times and the car ends holding 6 000 Wh, unblocked.
   */
  method ChargeFullPackage() returns (charged: int, blocked: bool, ticks: nat)
    ensures charged == 6000 && !blocked && ticks == 61
  {
    var car := new Car("1a2b", "car", 50000);
    car.SetOwner(true);
    var r := car.ClaimPackage(EnergyPackage(6000), 60, true);
    var t := car.task;
    ghost var p := t.Plan();
    ScenarioFullPackage();
    ticks := 0;
    while !t.cancelled
      invariant car.Valid() && car.hasOwner && t.car == car && t.Plan() == p
      invariant !t.cancelled ==> car.task == t
      invariant t.State() == Run(p, Start(0), ticks)
      invariant ticks <= 61
      decreases 61 - ticks
    {
      t.Tick();
      RunSplit(p, Start(0), ticks, 1);
      ticks := ticks + 1;
      if ticks == 61 {
        assert t.cancelled;
      }
    }
    if ticks <= 60 {
      StartInvariant(p, 0);
      RunApplies(p, Start(0), ticks);
    }
    charged := car.chargedCapacityWh;
    blocked := car.isBlocked;
    assert t.callbackRuns == 60;
  }
}
