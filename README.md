# Renewable charge: the per-car charging state machine

This project models, in Dafny, how a car of the *renewable charge* game takes
an energy package and charges over time (`Car.java`):

- `claimPackage` refuses a blocked car. Otherwise it blocks the car, derives
  the cycle's length and the per-second increment from the package size, and
  schedules a timer task.
- Each firing of the task applies one increment if it fits both the battery
  and the package. Otherwise, or once time or energy has run out, it ends the
  cycle: the car is unblocked and the task cancelled.
- `charge` adds energy without clamping and computes how many of the six
  LEDs of the owner's strip to light.
- `getChipIds` splits the car's `:`-joined registration string.

The model has three modules:

- `Charging` (charging.dfy) describes a firing of the task as a function on
  values. `Step` is one firing and `Run` is any number of them. The lemmas
  about them cover the cycle's invariant, the battery and package bounds,
  termination, and two worked scenarios.
- `GameObjects` (game_objects.dfy) holds the two objects the source mutates.
  `Car` owns the charge, the blocked flag and the owner flag. `ChargeTask` is
  the timer task, with the two counters the source keeps in one-element
  arrays. `ChargeTask.Tick` is proved to change the state exactly as `Step`
  says. The java.util.Timer is replaced by the caller of `Tick`, which fires
  a task only until it is cancelled.
- `ChipIds` (chip_ids.dfy) gives `String.split(":")` semantics, with its
  round trips to `Join`.

Where the documented design and the code disagree, the model follows the code:

- A computed duration of zero is not guarded. `size / duration` throws after
  the car has been blocked, so the car stays blocked for good. This is
  modelled as written and logged under Findings. The corrected claim
  completes at once.
- The full-package example needs 61 firings, not 60. Sixty firings deliver
  6 000 Wh and the 61st ends the cycle, because the outer test is checked at
  the start of a firing.
- A battery of 1 000 Wh holding 900 Wh, offered a 2 000 Wh package, stops on
  the first firing only when the increment exceeds 100 Wh (a duration under
  20 s). `ScenarioBatteryFull` uses 10 s.
- `getChipIds` returns a list, not a set. Trailing empty identifiers are
  dropped, and a string made only of separators yields no identifier at all.

## Model

| member | source | states |
|---|---|---|
| `Charging.JavaDiv` | src/main/java/ch/fhnw/elektroautos/mvc/renewablecharge/model/gameobjects/Car.java:142-143 | Java's int division: the remainder is smaller than the divisor in magnitude and has the dividend's sign; for non-negative operands it is floor division |
| `Charging.NewPlan` | src/main/java/ch/fhnw/elektroautos/mvc/renewablecharge/model/gameobjects/Car.java:138-143 | the plan keeps the given capacity, duration, package size and callback flag; the increment is `size / duration`, so for a positive duration `duration * increment <= size` and less than one duration is left over |
| `Charging.LedsToLight` | src/main/java/ch/fhnw/elektroautos/mvc/renewablecharge/model/gameobjects/Car.java:202-203 | the LED count is the least `n` with `charged * 6 <= n * capacity`, i.e. `ceil(charged / capacity * 6)` |
| `Charging.LedsWithinStrip` | src/main/java/ch/fhnw/elektroautos/mvc/renewablecharge/model/gameobjects/Car.java:202-203 | a charge between empty and full lights 0 to 6 LEDs: none when empty, all six when full |
| `Charging.Complete` | src/main/java/ch/fhnw/elektroautos/mvc/renewablecharge/model/gameobjects/Car.java:182-186 | ending the cycle unblocks the car and stops the task, and leaves the charge, both counters and the callback count as they were |
| `Charging.Step` | src/main/java/ch/fhnw/elektroautos/mvc/renewablecharge/model/gameobjects/Car.java:151-177 | one firing: the task keeps running exactly when time and energy are left and the increment fits battery and package, and then one increment and one second are counted; otherwise the charge, delivered energy and callback count are unchanged and the car is unblocked; the charge always rises by exactly what is delivered |
| `Charging.Run` | src/main/java/ch/fhnw/elektroautos/mvc/renewablecharge/model/gameobjects/Car.java:149-187 | `n` firings of the periodic task: a task still running after them was running before and counted `n` more seconds; a cancelled task is left as it is |
| `Charging.IncrementNonNegative` | src/main/java/ch/fhnw/elektroautos/mvc/renewablecharge/model/gameobjects/Car.java:142-143 | whenever a firing passes the outer test the increment is non-negative and a full cycle of increments fits the package |
| `Charging.StartInvariant` | src/main/java/ch/fhnw/elektroautos/mvc/renewablecharge/model/gameobjects/Car.java:137-145 | a freshly claimed cycle (blocked, both counters at zero) satisfies the cycle invariant |
| `Charging.StepKeepsInvariant` | src/main/java/ch/fhnw/elektroautos/mvc/renewablecharge/model/gameobjects/Car.java:153-176 | one firing keeps the cycle invariant (delivered within the package, whole increments only, one callback per increment, blocked exactly while running), never pushes the charge past capacity or below zero, and adds to the charge exactly what it delivers |
| `Charging.RunKeepsInvariant` | src/main/java/ch/fhnw/elektroautos/mvc/renewablecharge/model/gameobjects/Car.java:149-187 | any number of firings keep the invariant; the charge stays within `0..batteryCapacityWh` and rises by exactly the energy delivered; delivered energy never exceeds the package size |
| `Charging.RunSplit` | src/main/java/ch/fhnw/elektroautos/mvc/renewablecharge/model/gameobjects/Car.java:187 | firings of the periodic task compose: `a + b` firings are `a` firings followed by `b` |
| `Charging.RunStopped` | src/main/java/ch/fhnw/elektroautos/mvc/renewablecharge/model/gameobjects/Car.java:182-186 | a cancelled task changes nothing however often the timer is asked to fire |
| `Charging.RunTerminates` | src/main/java/ch/fhnw/elektroautos/mvc/renewablecharge/model/gameobjects/Car.java:153-175 | a running task that has used `seconds` of its time is cancelled, and the car unblocked, within `duration - seconds + 1` more firings |
| `Charging.CycleEnds` | src/main/java/ch/fhnw/elektroautos/mvc/renewablecharge/model/gameobjects/Car.java:137-187 | every accepted cycle ends within `duration + 1` firings, with the car unblocked and at most the package size delivered |
| `Charging.RunApplies` | src/main/java/ch/fhnw/elektroautos/mvc/renewablecharge/model/gameobjects/Car.java:153-172 | while time, energy and battery room last, `k` firings add exactly `k` increments to charge and delivered, `k` seconds, and `k` callbacks when a callback was given |
| `Charging.ScenarioFullPackage` | src/main/java/ch/fhnw/elektroautos/mvc/renewablecharge/model/gameobjects/Car.java:137-187 | an empty 50 000 Wh car with a 6 000 Wh package over 60 s gets 100 Wh per firing, holds 6 000 Wh and is still blocked after 60 firings, and is unblocked by the 61st |
| `Charging.ScenarioBatteryFull` | src/main/java/ch/fhnw/elektroautos/mvc/renewablecharge/model/gameobjects/Car.java:154-171 | a 1 000 Wh car holding 900 Wh offered 200 Wh per firing ends the cycle on the first firing with its charge unchanged |
| `GameObjects.Car.constructor` | src/main/java/ch/fhnw/elektroautos/mvc/renewablecharge/model/gameobjects/Car.java:68-73 | a new car is empty, unblocked, unowned, has no cycle, and keeps the given chip string, name and capacity |
| `GameObjects.Car.SetOwner` | src/main/java/ch/fhnw/elektroautos/mvc/renewablecharge/model/gameobjects/Car.java:75-77 | sets whether the car has an owner and changes nothing else |
| `GameObjects.Car.Charge` | src/main/java/ch/fhnw/elektroautos/mvc/renewablecharge/model/gameobjects/Car.java:198-213 | the charge rises by exactly `energyWh`, with no clamping, and no other modelled field changes except the LED count, which is `LedsToLight` of the new charge and lies in `0..6` when the charge is within capacity |
| `GameObjects.Car.ClaimPackage` | src/main/java/ch/fhnw/elektroautos/mvc/renewablecharge/model/gameobjects/Car.java:131-190 | a blocked car returns false with nothing changed. Otherwise the car is blocked and either a fresh task with the derived plan and zeroed counters is scheduled and true returned with the charge untouched, or, for a zero duration, the division throws and the car is left blocked for good |
| `GameObjects.Car.ClaimPackageFailClosed` | src/main/java/ch/fhnw/elektroautos/mvc/renewablecharge/model/gameobjects/Car.java:137-143 | the claim with the duration guarded: never throws; a non-positive duration completes at once with the car unblocked and nothing delivered; otherwise as `ClaimPackage` |
| `GameObjects.ChargeTask.constructor` | src/main/java/ch/fhnw/elektroautos/mvc/renewablecharge/model/gameobjects/Car.java:138-145 | the task holds the plan `NewPlan` derives from capacity, package size and duration, with both counters at zero |
| `GameObjects.ChargeTask.OnComplete` | src/main/java/ch/fhnw/elektroautos/mvc/renewablecharge/model/gameobjects/Car.java:182-186 | ending the cycle unblocks the car and cancels the task |
| `GameObjects.ChargeTask.Tick` | src/main/java/ch/fhnw/elektroautos/mvc/renewablecharge/model/gameobjects/Car.java:151-177 | one firing changes car and task exactly as `Step`. A firing that keeps running adds one increment to charge and delivered, runs the callback once if there is one, and counts one second. A firing that cancels applies nothing, runs no callback and unblocks the car. The charge stays within capacity and the delivered energy within the package. Only a firing that adds energy needs an owner |
| `GameObjects.ClaimTwiceInARow` | src/main/java/ch/fhnw/elektroautos/mvc/renewablecharge/model/gameobjects/Car.java:132-137 | of two claims in immediate succession the first is accepted and the second refused, and the first cycle is still blocked with nothing delivered |
| `GameObjects.ZeroDurationClaimBlocksForever` | src/main/java/ch/fhnw/elektroautos/mvc/renewablecharge/model/gameobjects/Car.java:137-143 | as written, a claim with a zero duration throws, and the car stays blocked so a later valid claim is refused |
| `GameObjects.ZeroDurationClaimFailsClosed` | src/main/java/ch/fhnw/elektroautos/mvc/renewablecharge/model/gameobjects/Car.java:137-143 | with the guarded claim the same package completes at once with nothing charged, and the next claim is accepted |
| `GameObjects.OwnerlessCarOverflowEnds` | src/main/java/ch/fhnw/elektroautos/mvc/renewablecharge/model/gameobjects/Car.java:153-175 | a car without an owner whose first increment would overfill it is unblocked by its first firing, with nothing charged, since an ending firing never reads the owner |
| `GameObjects.ChargeFullPackage` | src/main/java/ch/fhnw/elektroautos/mvc/renewablecharge/model/gameobjects/Car.java:131-190 | driving the objects themselves: an empty 50 000 Wh car with a 6 000 Wh, 60 s package is cancelled after exactly 61 firings, holding 6 000 Wh and unblocked |
| `ChipIds.Fields` | src/main/java/ch/fhnw/elektroautos/mvc/renewablecharge/model/gameobjects/Car.java:79-81 | the pieces between separators, at least one, none containing the separator |
| `ChipIds.DropTrailingEmpty` | src/main/java/ch/fhnw/elektroautos/mvc/renewablecharge/model/gameobjects/Car.java:79-81 | the longest prefix not ending in an empty string; everything dropped is empty |
| `ChipIds.GetChipIds` | src/main/java/ch/fhnw/elektroautos/mvc/renewablecharge/model/gameobjects/Car.java:79-81 | a string without `:` yields exactly itself as the one identifier; no identifier contains `:` |
| `ChipIds.JoinFields` | src/main/java/ch/fhnw/elektroautos/mvc/renewablecharge/model/gameobjects/Car.java:79-81 | joining the fields of any string with `:` gives the string back |
| `ChipIds.FieldsAfterFirst` | src/main/java/ch/fhnw/elektroautos/mvc/renewablecharge/model/gameobjects/Car.java:79-81 | a separator-free piece, a `:`, then the rest splits into that piece followed by the fields of the rest |
| `ChipIds.FieldsJoin` | src/main/java/ch/fhnw/elektroautos/mvc/renewablecharge/model/gameobjects/Car.java:79-81 | splitting a `:`-join of separator-free pieces gives the pieces back |
| `ChipIds.ChipIdsAreLeadingFields` | src/main/java/ch/fhnw/elektroautos/mvc/renewablecharge/model/gameobjects/Car.java:79-81 | the identifiers are a prefix of the fields, and only empty fields are dropped |
| `ChipIds.ChipIdsOfJoin` | src/main/java/ch/fhnw/elektroautos/mvc/renewablecharge/model/gameobjects/Car.java:79-81 | a registration string written as separator-free identifiers, the last one non-empty, yields exactly those identifiers |

## Left out

- The java.util.Timer and its scheduling are replaced by an explicit `Tick`: the 1 000 ms period, the start at delay 0, the timer thread, and the cross-thread visibility of `isBlocked`. The caller fires a task only while it is the car's running task.
- The duration `(int) (TIME_BLOCKED_PER_CHARGED_KWH * size / 1000.0)` is computed in floating point from configuration, so it is a parameter of the claim. The configuration lookup is not part of this model.
- `energyEfficiencyKmWh` and `getRangeInKm` are float arithmetic and are not modelled.
- `Charging.LedsToLight` is an exact integer ceiling. The float quotient in the source can round differently near a whole number of LEDs.
- The hardware and logging are not modelled: `LedStrip.sendMany`, the `I2CButton` colour lookups, the caught `InterruptedException` and the `Logger` calls. The LED count sent is kept as the ghost field `ledsLit`.
- The owner is reduced to the flag `hasOwner`. `getOwner` and the `Player` class are not part of this model.
- GameObjects.Car.Charge requires an owner, because the source dereferences it unconditionally. The `NullPointerException` path is not modelled.
- GameObjects.ChargeTask.Tick requires an owner only for a firing that adds energy, because only that firing calls `charge`. Such a firing without an owner would throw inside the timer thread, which is not modelled. A firing that ends the cycle does not read the owner and needs none.
- GameObjects.Car.constructor requires a positive capacity. With capacity 0 the source's float division gives an infinite or NaN LED count, which is not modelled.
- Integers are unbounded. The 32-bit wrap-around of `chargedCapacityWh + chargeIncrement` for capacities near 2^31 Wh is not modelled; capacities and package sizes are configuration values far below that.
- The `EnergyPackage` class is not part of this model. Its size is taken as a non-negative number of watt-hours.
- The `onEveryCharge` callback is reduced to whether one was given. What it does is not modelled, only how often it runs (the ghost field `callbackRuns`).
- The accessors `getName`, `getBatteryCapacityWh`, `getChargedCapacityWh`, `getEnergyEfficiencyKmWh` and `isBlocked` are the model's fields, read directly. `toString` and `Serializable` are not modelled.
- `getChipIds` models only the split on the literal `:`. It returns a Dafny sequence instead of an immutable `List`.
- The car-selection screen (`CarSelectionScreen.java`) is user interface and is not part of this model.

## Findings

| source | as written | input that shows it | evidently intended | confidence | as-written member | corrected member |
|---|---|---|---|---|---|---|
| src/main/java/ch/fhnw/elektroautos/mvc/renewablecharge/model/gameobjects/Car.java:137-143 | `isBlocked` is set before the unguarded `totalEnergyToDeliver / totalChargeDurationSeconds`. A zero duration throws and leaves the car blocked with no task to unblock it | a package of size 0 (any configuration), or a configuration where `-1 < TIME_BLOCKED_PER_CHARGED_KWH * size / 1000 < 1`, which the `(int)` cast truncates to 0 | a non-positive duration completes the claim at once, delivers nothing and leaves the car claimable | high, not executed | `GameObjects.ZeroDurationClaimBlocksForever` | `GameObjects.Car.ClaimPackageFailClosed` |
