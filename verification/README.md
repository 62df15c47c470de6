# Adjustment engine of the commerce server, in Dafny

This project models the part of the server that turns promotions and tax
rates into **adjustments**: records carrying an integer amount in minor
currency units, a kind (PROMOTION or TAX), a description and a reference to
the source that made them.

- `wrappers.dfy` (module `Wrappers`): `Option` for `T | undefined` and
  `Result` for a computation that throws.
- `adjustments.dfy` (module `Adjustments`): the `Adjustment` record and
  `Round`, which is JavaScript's `Math.round` on exact reals. It rounds halves
  towards positive infinity, as `(x + 0.5).Floor`.
- `registry.dfy` (module `Registry`): the code-keyed registries that a
  promotion builds when it is constructed. This is a left fold in which a
  later entry with the same code overwrites an earlier one.
- `promotion.dfy` (module `Promotions`): the `Promotion` class.
  - `Test` is a loop over the stored conditions that stops at the first one
    that is unresolved or rejects the order.
  - `Apply` is a loop over the stored actions. It adds up the rounded result
    of each action whose scope matches the target, then returns an
    adjustment only when the total is not zero.
  - Both loops are proved against recursive specification functions
    (`ConditionsHold`, `ActionsTotal`), and the lemmas beside them state
    what the source promises.
- `tax_rate.dfy` (module `TaxRates`): the `TaxRate` value.
  - It has four price conversions between gross and net.
  - `Apply` always returns an adjustment, even one of amount 0.
  - `Test` matches a zone and a tax category by id.
  - The lemmas bound the rounding error of each conversion and relate the
    conversions to each other. Gross→net→gross lands within one minor unit
    of the start for rates above -100% and up to 100%; above 100% it can
    land further away (at 300%, gross 2 → net 0 → gross 0). Net→gross→net is exact for non-negative rates.

The registries are explicit parameters of the promotion's constructor. They
are the configured condition and action lists, in place of a global
configuration lookup. Concrete conditions and actions are opaque functions
inside the `PromotionCondition` and `PromotionAction` datatypes. An action is
either `ItemAction` or `OrderAction`. Its scope is read from that tag, in
place of an `instanceof` test. A promotion's target is
`OrderTarget(order)` or `ItemTarget(item, line?)`.

Two behaviours of the code are worth stating on their own:

- **An action code with no registered implementation.** An unresolved
  condition fails quietly, so one might expect an unresolved action to
  contribute zero. The code instead treats an unresolved action as not
  item-scoped, so on an order target it calls `execute` on `undefined`, which
  throws. The model returns `Failure(UnresolvedAction(code))` for the first
  such action in stored order. On an item target such an action falls
  through and contributes nothing, as in the code.
- **Rounding.** `Math.round` rounds halves up (`-2.5` becomes `-2`), not to
  even and not away from zero; the model does the same.

## Model

| member | source | states |
|---|---|---|
| `Adjustments.Round` | server/src/entity/promotion/promotion.entity.ts:65-69 | `Math.round` gives the unique integer `r` with `x - 1/2 < r <= x + 1/2` |
| `Adjustments.RoundHalvesUp` | server/src/entity/tax-rate/tax-rate.entity.ts:52 | halves go towards +∞ (`-2.5` → `-2`, `2.5` → `3`, `-0.5` → `0`), and `199.8` rounds to `200` |
| `Registry.Build` | server/src/entity/promotion/promotion.entity.ts:25-26 | the registry's keys are exactly the configured codes, and each key maps to an entry with that code |
| `Registry.BuildLastWins` | server/src/entity/promotion/promotion.entity.ts:25-26 | a code resolves to the last configured entry with that code, so a later duplicate overwrites an earlier one |
| `Registry.BuildSnoc` | server/src/entity/promotion/promotion.entity.ts:25-26 | one reduce step sets the new entry's code and leaves every other code's presence and entry as they were |
| `Registry.BuildIgnoresLaterCodes` | server/src/entity/promotion/promotion.entity.ts:25-26 | entries configured after a code's last occurrence, with other codes, do not change what it resolves to |
| `Promotions.Promotion.constructor` | server/src/entity/promotion/promotion.entity.ts:21-27 | stores the persisted fields, fixes the kind to PROMOTION, and builds both registries from the configured lists |
| `Promotions.Promotion.Test` | server/src/entity/promotion/promotion.entity.ts:83-91 | true iff every stored condition resolves and accepts the order, i.e. the result is `ConditionsHold`, the recursive short-circuit conjunction specifying the loop; on false, the last condition consulted is the first failing one and every earlier one passed; true on an empty list |
| `Promotions.ConditionsHoldIff` | server/src/entity/promotion/promotion.entity.ts:84-90 | the short-circuit conjunction holds iff every stored condition resolves and its check returns true |
| `Promotions.UnresolvedConditionFails` | server/src/entity/promotion/promotion.entity.ts:85-88 | one stored condition whose code is not registered makes the test false for every order |
| `Promotions.ConditionsHoldAppend` | server/src/entity/promotion/promotion.entity.ts:84-88 | the test over `front + rest` is the test over `front` and then `rest`; once `front` fails, nothing in `rest` matters |
| `Promotions.Promotion.Apply` | server/src/entity/promotion/promotion.entity.ts:56-81 | fails with the unresolved code exactly when the running total fails; otherwise it returns an adjustment iff the total of rounded contributions is non-zero, and that adjustment is `{total, PROMOTION, name, sourceId}` |
| `Promotions.Contribution` | server/src/entity/promotion/promotion.entity.ts:61-71 | an action fails only when its code is unresolved on an order target; an item action adds nothing unless the target is an item with a line; an order-scoped or unresolved action adds nothing to an item target |
| `Promotions.ActionsTotal` | server/src/entity/promotion/promotion.entity.ts:59-72 | the running total (each step an `Accumulate` of the previous total and one contribution) fails iff the target is an order and some stored action code is unregistered |
| `Promotions.ActionsTotalAppend` | server/src/entity/promotion/promotion.entity.ts:59-72 | for all lists, the total over `a + b` is the total over `a` accumulated with the total over `b`: each action is added on its own |
| `Promotions.ActionsTotalReportsFirstUnresolved` | server/src/entity/promotion/promotion.entity.ts:61-69 | the failure names the first unregistered action code in stored order |
| `Promotions.ActionsTotalFailureStays` | server/src/entity/promotion/promotion.entity.ts:61-72 | once the running total has failed, actions stored after that point do not change the outcome |
| `Promotions.IsItemAction` | server/src/entity/promotion/promotion.entity.ts:93-95 | an action is item-scoped only when its code resolves to an item action; an unresolved code (`undefined`) is never item-scoped |
| `Promotions.OrderScoped` | server/src/entity/promotion/promotion.entity.ts:61-70 | the actions the order branch of the loop sees: no item action, and every other stored action as many times as it is stored |
| `Promotions.ItemScoped` | server/src/entity/promotion/promotion.entity.ts:61-70 | the actions the item branch of the loop sees: only item actions, each as many times as it is stored |
| `Promotions.OrderScopedAppend` | server/src/entity/promotion/promotion.entity.ts:61-70 | the order-scoped selection distributes over concatenation, so it keeps the stored order |
| `Promotions.ItemScopedAppend` | server/src/entity/promotion/promotion.entity.ts:61-70 | the item-scoped selection distributes over concatenation, so it keeps the stored order |
| `Promotions.OrderTargetSkipsItemActions` | server/src/entity/promotion/promotion.entity.ts:63-70 | on an order, the total equals the total over the order-scoped actions alone; item actions are skipped |
| `Promotions.ItemTargetSkipsOrderActions` | server/src/entity/promotion/promotion.entity.ts:63-66 | on an item with its line, the total equals the total over the item actions alone and never fails |
| `Promotions.ItemTargetWithoutLineIsZero` | server/src/entity/promotion/promotion.entity.ts:64 | on an item without a line, the total is 0, so no adjustment is returned |
| `Promotions.ActionsTotalNearRawTotal` | server/src/entity/promotion/promotion.entity.ts:59-72 | because each action is rounded on its own, the total is within n/2 of the unrounded sum of n actions |
| `Promotions.PerActionRounding` | server/src/entity/promotion/promotion.entity.ts:65-69 | two order actions of 0.5 each total 2, while rounding their raw sum 1.0 gives 1 |
| `TaxRates.TaxRate.TaxComponentOf` | server/src/entity/tax-rate/tax-rate.entity.ts:37-39 | within 1/2 of the exact tax in the gross price; between 0 and the price when the rate and price are non-negative; 0 at a 0% rate |
| `TaxRates.TaxRate.NetPriceOf` | server/src/entity/tax-rate/tax-rate.entity.ts:44-46 | within 1/2 of the exact net share of the gross price; between 0 and the price when both are non-negative; the price itself at 0% |
| `TaxRates.TaxRate.TaxPayableOn` | server/src/entity/tax-rate/tax-rate.entity.ts:51-53 | within 1/2 of `netPrice * value / 100`; non-negative for a non-negative price and rate; 0 at 0% |
| `TaxRates.TaxRate.GrossPriceOf` | server/src/entity/tax-rate/tax-rate.entity.ts:58-60 | within 1/2 of `netPrice * (1 + value / 100)`; at least the net price for a non-negative price and rate; the net price at 0% |
| `TaxRates.TaxRate.Apply` | server/src/entity/tax-rate/tax-rate.entity.ts:62-69 | always an adjustment: kind TAX, the rate's name and source id, and amount equal to the tax payable on the price (gross minus net); amount 0 at 0%, never negative for a non-negative price and rate |
| `TaxRates.TaxRate.Test` | server/src/entity/tax-rate/tax-rate.entity.ts:71-73 | true iff the category ids are equal and the zone ids are equal |
| `TaxRates.TestMatchesIdsOnly` | server/src/entity/tax-rate/tax-rate.entity.ts:71-73 | for every rate, zone, category, customer group and pair of names: changing the customer group and the zone and category names leaves the result unchanged, so only ids are compared |
| `TaxRates.ExactTaxInBounds` | server/src/entity/tax-rate/tax-rate.entity.ts:37-39 | the exact tax contained in a non-negative gross price at a non-negative rate lies between 0 and the price |
| `TaxRates.NetPlusTaxIsGross` | server/src/entity/tax-rate/tax-rate.entity.ts:37-46 | `netPriceOf(g) + taxComponentOf(g) == g` for every gross price |
| `TaxRates.TaxPayableMonotone` | server/src/entity/tax-rate/tax-rate.entity.ts:51-60 | at a non-negative rate, tax payable and gross price are monotone in the net price |
| `TaxRates.GrossOfNetNearInverse` | server/src/entity/tax-rate/tax-rate.entity.ts:37-60 | for -100 < value <= 100 and every gross price `g`, `grossPriceOf(netPriceOf(g))` is within 1 of `g` |
| `TaxRates.NetOfGrossIsExact` | server/src/entity/tax-rate/tax-rate.entity.ts:37-60 | for value >= 0, `netPriceOf(grossPriceOf(n)) == n` exactly |
| `TaxRates.GrossOfNetCanDiffer` | server/src/entity/tax-rate/tax-rate.entity.ts:37-60 | the tolerance of 1 is needed: at 20%, gross 3 → net 2 → gross 2 |
| `TaxRates.GrossOfNetFarAbove100` | server/src/entity/tax-rate/tax-rate.entity.ts:37-60 | the near-inverse bound needs rates up to 100%: at 300%, gross 2 → net 0 → gross 0 |
| `TaxRates.TaxPayableExamples` | server/src/entity/tax-rate/tax-rate.entity.ts:51-53 | at 20%, the tax on 1000 is 200, and the tax on 999 (199.8) is also 200 |

## Left out

- Persistence (column and relation declarations) is not modelled. A
  promotion's `enabled` flag and its `channels` are not modelled either:
  `test` and `apply` never read them. `TaxRate` stores its `enabled` flag,
  but no member reads it.
- `Promotions.Promotion.Test`: registry lookups are modelled as lookups of
  the registry's own keys. In the source the registry is a plain object, so
  a stored condition code that is not configured but names an inherited
  object member (`constructor`, `toString`, `hasOwnProperty`, ...) finds
  that member; `check` is then undefined and `test` throws a TypeError
  instead of returning false. The model returns false for such a code, and
  `Promotions.UnresolvedConditionFails` is stated for own-key lookups.
  (`apply` is unaffected: such a code throws on an order target and is
  skipped on an item target, as in the model.)
- The priority score is a stored field of `Promotion` and nothing more.
  The code shown does not compute it from the registries or sort promotions
  by it.
- The global configuration lookup is replaced by the configured condition
  and action lists, passed to the constructor. The `|| []` fallback for an
  absent list is left to the caller, who passes an empty sequence.
- `getSourceId()` belongs to the adjustment-source base class, which is not
  part of this model. Each source carries the reference it reports as a
  stored `sourceId` string.
- `idsAreEqual` is not part of this model. Ids are integers compared with
  `==`.
- Concrete condition and action implementations are not part of this
  model. They are opaque, total functions inside the registry entries.
- Calling `apply(order, line)` with both an order and a line is not
  modelled. The TypeScript overloads forbid it, and the line would be
  ignored anyway.
- IEEE-754 arithmetic is not modelled. Prices and amounts are exact
  integers, and intermediate values are exact reals. NaN, infinities and
  binary-fraction artefacts of the division and multiplication do not
  appear.
- `TaxRates.TaxRate.TaxComponentOf`: requires `value != -100`. At that rate
  the source divides by zero and yields an infinity or NaN, which the model
  cannot represent. The same applies to `NetPriceOf`.
- The other source files around the core are not part of this model: the
  product GraphQL documents, the auth-token cookie and header helper, and
  the session entity. None of them has behaviour in the adjustment engine.
