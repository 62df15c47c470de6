/**
 * A promotion: an ordered list of conditions that decide whether it applies to
 * an order, and an ordered list of actions that compute its discount, either
 * for the order as a whole or for one item of an order line. Conditions and
 * actions are stored as code-plus-arguments records and resolved, when they
 * are evaluated, against registries built from the configured implementations.
 */
module Promotions {
  import opened Wrappers
  import opened Adjustments
  import Registry

  datatype OrderItem = OrderItem(id: int, unitPrice: int)
  datatype OrderLine = OrderLine(id: int, items: seq<OrderItem>)
  datatype Order = Order(id: int, lines: seq<OrderLine>)

  /** One named argument of a stored condition or action. */
  datatype ConfigArg = ConfigArg(name: string, value: string)

  /** A stored condition or action: the code of its implementation and the arguments to call it with. */
  datatype AdjustmentOperation = AdjustmentOperation(code: string, args: seq<ConfigArg>)

  /** A configured condition implementation: a predicate on the order. */
  datatype PromotionCondition = PromotionCondition(
    code: string,
    check: (Order, seq<ConfigArg>) -> bool)

  /**
   * A configured action implementation, either item-scoped or order-scoped,
   * computing a raw (possibly fractional) amount.
   */
  datatype PromotionAction =
    | ItemAction(code: string, executeItem: (OrderItem, OrderLine, seq<ConfigArg>) -> real)
    | OrderAction(code: string, executeOrder: (Order, seq<ConfigArg>) -> real)

  /** What a promotion is applied to: a whole order, or an item with (possibly) its order line. */
  datatype Target =
    | OrderTarget(order: Order)
    | ItemTarget(item: OrderItem, line: Option<OrderLine>)

  /** The failure of an application: an action code with no implementation, met on an order target. */
  datatype PromotionError = UnresolvedAction(code: string)

  function ConditionCode(c: PromotionCondition): string { c.code }
  function ActionCode(a: PromotionAction): string { a.code }

  // ---------------------------------------------------------------------------
  // Testing an order against the stored conditions
  // ---------------------------------------------------------------------------

  /** A stored condition passes when its code resolves and the implementation accepts the order. */
  predicate Passes(op: AdjustmentOperation, conditions: map<string, PromotionCondition>, order: Order)
  {
    op.code in conditions && conditions[op.code].check(order, op.args)
  }

  /** The short-circuiting conjunction of the stored conditions, evaluated from the first. */
  predicate ConditionsHold(ops: seq<AdjustmentOperation>, conditions: map<string, PromotionCondition>, order: Order)
  {
    |ops| == 0 || (Passes(ops[0], conditions, order) && ConditionsHold(ops[1..], conditions, order))
  }

  /** The conjunction holds exactly when every stored condition resolves and accepts the order. */
  lemma {:induction false} ConditionsHoldIff(ops: seq<AdjustmentOperation>, conditions: map<string, PromotionCondition>, order: Order)
    ensures ConditionsHold(ops, conditions, order) <==>
      forall i :: 0 <= i < |ops| ==> ops[i].code in conditions && conditions[ops[i].code].check(order, ops[i].args)
  {
    if |ops| > 0 {
      ConditionsHoldIff(ops[1..], conditions, order);
      assert forall i :: 1 <= i < |ops| ==> ops[i] == ops[1..][i - 1];
    }
  }

  /** A single condition whose code is not registered makes the whole test fail, whatever the order. */
  lemma UnresolvedConditionFails(ops: seq<AdjustmentOperation>, conditions: map<string, PromotionCondition>, order: Order, i: int)
    requires 0 <= i < |ops| && ops[i].code !in conditions
    ensures !ConditionsHold(ops, conditions, order)
  {
    ConditionsHoldIff(ops, conditions, order);
  }

  /**
   * Short circuit: once a condition fails, the conditions stored after it are
   * irrelevant; before that, the result is that of the remaining conditions.
   */
  lemma {:induction false} ConditionsHoldAppend(
    front: seq<AdjustmentOperation>, rest: seq<AdjustmentOperation>,
    conditions: map<string, PromotionCondition>, order: Order)
    ensures ConditionsHold(front + rest, conditions, order) ==
      (ConditionsHold(front, conditions, order) && ConditionsHold(rest, conditions, order))
    ensures !ConditionsHold(front, conditions, order) ==> !ConditionsHold(front + rest, conditions, order)
  {
    if |front| > 0 {
      assert (front + rest)[1..] == front[1..] + rest;
      ConditionsHoldAppend(front[1..], rest, conditions, order);
    } else {
      assert front + rest == rest;
    }
  }

  // ---------------------------------------------------------------------------
  // Applying the stored actions
  // ---------------------------------------------------------------------------

  /**
   * True when the stored action resolves to an item-scoped implementation. An
   * unresolved code is never item-scoped.
   */
  predicate IsItemAction(op: AdjustmentOperation, actions: map<string, PromotionAction>)
    ensures IsItemAction(op, actions) ==> op.code in actions
  {
    op.code in actions && actions[op.code].ItemAction?
  }

  /**
   * What one stored action adds to the running total for a target: its own
   * result, rounded, when its scope matches the target; nothing when it does
   * not. An unresolved code is handled like an order-scoped action, which on an
   * order target fails.
   */
  function Contribution(op: AdjustmentOperation, actions: map<string, PromotionAction>, target: Target): (r: Result<int, PromotionError>)
    ensures r.Failure? <==> target.OrderTarget? && op.code !in actions
    ensures r.Failure? ==> r.error == UnresolvedAction(op.code)
    ensures IsItemAction(op, actions) && !(target.ItemTarget? && target.line.Some?) ==> r == Success(0)
    ensures !IsItemAction(op, actions) && target.ItemTarget? ==> r == Success(0)
  {
    if IsItemAction(op, actions) then
      if target.ItemTarget? && target.line.Some? then
        Success(Round(actions[op.code].executeItem(target.item, target.line.value, op.args)))
      else Success(0)
    else if target.OrderTarget? then
      if op.code !in actions then Failure(UnresolvedAction(op.code))
      else Success(Round(actions[op.code].executeOrder(target.order, op.args)))
    else Success(0)
  }

  /**
   * The running total over the stored actions, in stored order: the sum of the
   * actions' individually rounded contributions, or the first failure.
   */
  function ActionsTotal(ops: seq<AdjustmentOperation>, actions: map<string, PromotionAction>, target: Target): (r: Result<int, PromotionError>)
    ensures r.Failure? <==> target.OrderTarget? && exists i :: 0 <= i < |ops| && ops[i].code !in actions
  {
    if |ops| == 0 then Success(0)
    else Accumulate(ActionsTotal(ops[..|ops| - 1], actions, target), Contribution(ops[|ops| - 1], actions, target))
  }

  /** One step of the running total: add a contribution, unless something has already failed. */
  function Accumulate(total: Result<int, PromotionError>, c: Result<int, PromotionError>): Result<int, PromotionError>
  {
    if total.Failure? then total
    else if c.Failure? then c
    else Success(total.value + c.value)
  }

  /** Each stored action is added on its own: the total over `a + b` accumulates the totals over `a` and over `b`. */
  lemma {:induction false} ActionsTotalAppend(
    a: seq<AdjustmentOperation>, b: seq<AdjustmentOperation>, actions: map<string, PromotionAction>, target: Target)
    ensures ActionsTotal(a + b, actions, target) == Accumulate(ActionsTotal(a, actions, target), ActionsTotal(b, actions, target))
    decreases |b|
  {
    if |b| == 0 {
      assert a + b == a;
    } else {
      var front, last := b[..|b| - 1], b[|b| - 1];
      assert (a + b)[..|a + b| - 1] == a + front;
      assert (a + b)[|a + b| - 1] == last;
      ActionsTotalAppend(a, front, actions, target);
    }
  }

  /** The first stored action whose code is unregistered is the one reported. */
  lemma {:induction false} ActionsTotalReportsFirstUnresolved(
    ops: seq<AdjustmentOperation>, actions: map<string, PromotionAction>, order: Order, i: int)
    requires 0 <= i < |ops| && ops[i].code !in actions
    requires forall j :: 0 <= j < i ==> ops[j].code in actions
    ensures ActionsTotal(ops, actions, OrderTarget(order)) == Failure(UnresolvedAction(ops[i].code))
  {
    var n := |ops|;
    var front := ops[..n - 1];
    if i < n - 1 {
      ActionsTotalReportsFirstUnresolved(front, actions, order, i);
    } else {
      assert forall j :: 0 <= j < |front| ==> front[j].code in actions;
    }
  }

  /** Once the running total has failed, the actions stored after that point do not change the outcome. */
  lemma {:induction false} ActionsTotalFailureStays(
    prefix: seq<AdjustmentOperation>, ops: seq<AdjustmentOperation>, actions: map<string, PromotionAction>, target: Target)
    requires |prefix| <= |ops| && ops[..|prefix|] == prefix
    requires ActionsTotal(prefix, actions, target).Failure?
    ensures ActionsTotal(ops, actions, target) == ActionsTotal(prefix, actions, target)
    decreases |ops|
  {
    if |ops| > |prefix| {
      var front := ops[..|ops| - 1];
      assert front[..|prefix|] == prefix;
      ActionsTotalFailureStays(prefix, front, actions, target);
    } else {
      assert ops == prefix;
    }
  }

  /** How many times `op` is stored in `ops`. */
  ghost function Occurrences(ops: seq<AdjustmentOperation>, op: AdjustmentOperation): nat
  {
    multiset(ops)[op]
  }

  /** Adding one action at the end adds one occurrence of it and leaves the other counts alone. */
  lemma OccurrencesSnoc(ops: seq<AdjustmentOperation>, y: AdjustmentOperation)
    ensures forall x {:trigger Occurrences(ops + [y], x)} :: Occurrences(ops + [y], x) == Occurrences(ops, x) + (if x == y then 1 else 0)
  {
  }

  /**
   * The stored actions that an order target sees: every one not resolving to an
   * item-scoped implementation, each as often as it is stored, in stored order
   * (OrderScopedAppend).
   */
  function OrderScoped(ops: seq<AdjustmentOperation>, actions: map<string, PromotionAction>): (r: seq<AdjustmentOperation>)
    ensures forall i :: 0 <= i < |r| ==> !IsItemAction(r[i], actions)
    ensures forall x {:trigger Occurrences(r, x)} :: Occurrences(r, x) == if IsItemAction(x, actions) then 0 else Occurrences(ops, x)
  {
    if |ops| == 0 then []
    else
      var front, last := ops[..|ops| - 1], ops[|ops| - 1];
      var kept := OrderScoped(front, actions);
      assert ops == front + [last];
      OccurrencesSnoc(front, last);
      OccurrencesSnoc(kept, last);
      if IsItemAction(last, actions) then kept else kept + [last]
  }

  /**
   * The stored actions that an item target sees: every one resolving to an
   * item-scoped implementation, each as often as it is stored, in stored order
   * (ItemScopedAppend).
   */
  function ItemScoped(ops: seq<AdjustmentOperation>, actions: map<string, PromotionAction>): (r: seq<AdjustmentOperation>)
    ensures forall i :: 0 <= i < |r| ==> IsItemAction(r[i], actions)
    ensures forall x {:trigger Occurrences(r, x)} :: Occurrences(r, x) == if IsItemAction(x, actions) then Occurrences(ops, x) else 0
  {
    if |ops| == 0 then []
    else
      var front, last := ops[..|ops| - 1], ops[|ops| - 1];
      var kept := ItemScoped(front, actions);
      assert ops == front + [last];
      OccurrencesSnoc(front, last);
      OccurrencesSnoc(kept, last);
      if IsItemAction(last, actions) then kept + [last] else kept
  }

  /** Selecting order-scoped actions from a list with one more action at its end. */
  lemma OrderScopedSnoc(ops: seq<AdjustmentOperation>, x: AdjustmentOperation, actions: map<string, PromotionAction>)
    ensures OrderScoped(ops + [x], actions) == if IsItemAction(x, actions) then OrderScoped(ops, actions) else OrderScoped(ops, actions) + [x]
  {
    assert (ops + [x])[..|ops|] == ops;
  }

  /** Selecting order-scoped actions keeps their stored order: it distributes over concatenation. */
  lemma {:induction false} OrderScopedAppend(a: seq<AdjustmentOperation>, b: seq<AdjustmentOperation>, actions: map<string, PromotionAction>)
    ensures OrderScoped(a + b, actions) == OrderScoped(a, actions) + OrderScoped(b, actions)
    decreases |b|
  {
    if |b| == 0 {
      assert a + b == a;
    } else {
      var front, last := b[..|b| - 1], b[|b| - 1];
      assert OrderScoped(a + b, actions) == if IsItemAction(last, actions) then OrderScoped(a + front, actions) else OrderScoped(a + front, actions) + [last] by {
        assert a + b == (a + front) + [last];
        OrderScopedSnoc(a + front, last, actions);
      }
      assert OrderScoped(b, actions) == if IsItemAction(last, actions) then OrderScoped(front, actions) else OrderScoped(front, actions) + [last] by {
        assert b == front + [last];
        OrderScopedSnoc(front, last, actions);
      }
      OrderScopedAppend(a, front, actions);
      var x, y := OrderScoped(a, actions), OrderScoped(front, actions);
      assert x + (y + [last]) == (x + y) + [last];
    }
  }

  /** Selecting item-scoped actions from a list with one more action at its end. */
  lemma ItemScopedSnoc(ops: seq<AdjustmentOperation>, x: AdjustmentOperation, actions: map<string, PromotionAction>)
    ensures ItemScoped(ops + [x], actions) == if IsItemAction(x, actions) then ItemScoped(ops, actions) + [x] else ItemScoped(ops, actions)
  {
    assert (ops + [x])[..|ops|] == ops;
  }

  /** Selecting item-scoped actions keeps their stored order: it distributes over concatenation. */
  lemma {:induction false} ItemScopedAppend(a: seq<AdjustmentOperation>, b: seq<AdjustmentOperation>, actions: map<string, PromotionAction>)
    ensures ItemScoped(a + b, actions) == ItemScoped(a, actions) + ItemScoped(b, actions)
    decreases |b|
  {
    if |b| == 0 {
      assert a + b == a;
    } else {
      var front, last := b[..|b| - 1], b[|b| - 1];
      assert ItemScoped(a + b, actions) == if IsItemAction(last, actions) then ItemScoped(a + front, actions) + [last] else ItemScoped(a + front, actions) by {
        assert a + b == (a + front) + [last];
        ItemScopedSnoc(a + front, last, actions);
      }
      assert ItemScoped(b, actions) == if IsItemAction(last, actions) then ItemScoped(front, actions) + [last] else ItemScoped(front, actions) by {
        assert b == front + [last];
        ItemScopedSnoc(front, last, actions);
      }
      ItemScopedAppend(a, front, actions);
      var x, y := ItemScoped(a, actions), ItemScoped(front, actions);
      assert x + (y + [last]) == (x + y) + [last];
    }
  }

  /** Applied to an order, a promotion sums only its order-scoped actions; item-scoped ones are skipped. */
  lemma {:induction false} OrderTargetSkipsItemActions(
    ops: seq<AdjustmentOperation>, actions: map<string, PromotionAction>, order: Order)
    ensures ActionsTotal(ops, actions, OrderTarget(order)) == ActionsTotal(OrderScoped(ops, actions), actions, OrderTarget(order))
  {
    if |ops| > 0 {
      var target := OrderTarget(order);
      var front, last := ops[..|ops| - 1], ops[|ops| - 1];
      var scopedFront := OrderScoped(front, actions);
      OrderTargetSkipsItemActions(front, actions, order);
      assert ActionsTotal(ops, actions, target) == Accumulate(ActionsTotal(front, actions, target), Contribution(last, actions, target));
      if IsItemAction(last, actions) {
        assert OrderScoped(ops, actions) == scopedFront;
        assert Contribution(last, actions, target) == Success(0);
      } else {
        var scoped := scopedFront + [last];
        assert OrderScoped(ops, actions) == scoped;
        assert scoped[..|scoped| - 1] == scopedFront;
        assert ActionsTotal(scoped, actions, target) == Accumulate(ActionsTotal(scopedFront, actions, target), Contribution(last, actions, target));
      }
    }
  }

  /**
   * Applied to an item with its line, a promotion sums only its item-scoped
   * actions, and never fails: order-scoped and unresolved actions are skipped.
   */
  lemma {:induction false} ItemTargetSkipsOrderActions(
    ops: seq<AdjustmentOperation>, actions: map<string, PromotionAction>, item: OrderItem, line: OrderLine)
    ensures ActionsTotal(ops, actions, ItemTarget(item, Some(line))) ==
      ActionsTotal(ItemScoped(ops, actions), actions, ItemTarget(item, Some(line)))
    ensures ActionsTotal(ops, actions, ItemTarget(item, Some(line))).Success?
  {
    if |ops| > 0 {
      var target := ItemTarget(item, Some(line));
      var front, last := ops[..|ops| - 1], ops[|ops| - 1];
      var scopedFront := ItemScoped(front, actions);
      ItemTargetSkipsOrderActions(front, actions, item, line);
      assert ActionsTotal(ops, actions, target) == Accumulate(ActionsTotal(front, actions, target), Contribution(last, actions, target));
      if IsItemAction(last, actions) {
        var scoped := scopedFront + [last];
        assert ItemScoped(ops, actions) == scoped;
        assert scoped[..|scoped| - 1] == scopedFront;
        assert ActionsTotal(scoped, actions, target) == Accumulate(ActionsTotal(scopedFront, actions, target), Contribution(last, actions, target));
      } else {
        assert ItemScoped(ops, actions) == scopedFront;
        assert Contribution(last, actions, target) == Success(0);
      }
    }
  }

  /** Applied to an item without a line, no action contributes anything. */
  lemma {:induction false} ItemTargetWithoutLineIsZero(
    ops: seq<AdjustmentOperation>, actions: map<string, PromotionAction>, item: OrderItem)
    ensures ActionsTotal(ops, actions, ItemTarget(item, None)) == Success(0)
  {
    if |ops| > 0 {
      ItemTargetWithoutLineIsZero(ops[..|ops| - 1], actions, item);
    }
  }

  /** The unrounded sum of the raw amounts of the actions matching the target (unresolved ones count as zero). */
  ghost function RawTotal(ops: seq<AdjustmentOperation>, actions: map<string, PromotionAction>, target: Target): real
  {
    if |ops| == 0 then 0.0
    else
      var op := ops[|ops| - 1];
      var raw :=
        if IsItemAction(op, actions) && target.ItemTarget? && target.line.Some? then
          actions[op.code].executeItem(target.item, target.line.value, op.args)
        else if !IsItemAction(op, actions) && target.OrderTarget? && op.code in actions then
          actions[op.code].executeOrder(target.order, op.args)
        else 0.0;
      RawTotal(ops[..|ops| - 1], actions, target) + raw
  }

  /**
   * Each action is rounded on its own, so the total can drift from the raw sum
   * by up to half a unit per action (and not just by half a unit in all).
   */
  lemma {:induction false} ActionsTotalNearRawTotal(ops: seq<AdjustmentOperation>, actions: map<string, PromotionAction>, target: Target)
    requires ActionsTotal(ops, actions, target).Success?
    ensures RawTotal(ops, actions, target) - 0.5 * |ops| as real
      <= ActionsTotal(ops, actions, target).value as real
      <= RawTotal(ops, actions, target) + 0.5 * |ops| as real
  {
    if |ops| > 0 {
      ActionsTotalNearRawTotal(ops[..|ops| - 1], actions, target);
    }
  }

  /**
   * Rounding each action on its own is not rounding the sum: two order actions
   * of 0.5 each give a total of 2, although their sum, 1.0, rounds to 1.
   */
  lemma PerActionRounding(order: Order)
    ensures var actions := map["half" := OrderAction("half", (o: Order, args: seq<ConfigArg>) => 0.5)];
      var ops := [AdjustmentOperation("half", []), AdjustmentOperation("half", [])];
      ActionsTotal(ops, actions, OrderTarget(order)) == Success(2) &&
      RawTotal(ops, actions, OrderTarget(order)) == 1.0 && Round(1.0) == 1
  {
    var actions := map["half" := OrderAction("half", (o: Order, args: seq<ConfigArg>) => 0.5)];
    var ops := [AdjustmentOperation("half", []), AdjustmentOperation("half", [])];
    var target := OrderTarget(order);
    assert actions["half"].executeOrder(order, []) == 0.5;
    assert Round(0.5) == 1;
    assert Contribution(ops[0], actions, target) == Success(1);
    assert ops[..1][..0] == [];
    assert ActionsTotal(ops[..1], actions, target) == Success(1);
    assert ops[..1] == ops[..|ops| - 1];
    assert RawTotal(ops[..1], actions, target) == 0.5;
  }

  // ---------------------------------------------------------------------------
  // The promotion entity
  // ---------------------------------------------------------------------------

  class Promotion {
    /** Every promotion produces PROMOTION adjustments. */
    const kind: AdjustmentType := Promotion
    /** The reference to this promotion that its adjustments carry. */
    const sourceId: string
    /** Registries of the configured implementations, built once at construction. */
    const allConditions: map<string, PromotionCondition>
    const allActions: map<string, PromotionAction>

    var name: string
    var conditions: seq<AdjustmentOperation>
    var actions: seq<AdjustmentOperation>
    var priorityScore: int

    /**
     * Builds the promotion and its two registries from the configured
     * condition and action implementations; a code configured twice resolves
     * to its later implementation.
     */
    constructor (
      sourceId: string, name: string,
      conditions: seq<AdjustmentOperation>, actions: seq<AdjustmentOperation>, priorityScore: int,
      configuredConditions: seq<PromotionCondition>, configuredActions: seq<PromotionAction>)
      ensures this.kind == Promotion && this.sourceId == sourceId && this.name == name
      ensures this.conditions == conditions && this.actions == actions && this.priorityScore == priorityScore
      ensures allConditions == Registry.Build(configuredConditions, ConditionCode)
      ensures allActions == Registry.Build(configuredActions, ActionCode)
    {
      this.sourceId := sourceId;
      this.name := name;
      this.conditions := conditions;
      this.actions := actions;
      this.priorityScore := priorityScore;
      allConditions := Registry.Build(configuredConditions, ConditionCode);
      allActions := Registry.Build(configuredActions, ActionCode);
    }

    /**
     * Whether the promotion applies to `order`: every stored condition must
     * resolve and accept it. Conditions are consulted in stored order and the
     * first failure ends the test; `consulted` counts those looked at.
     */
    method Test(order: Order) returns (passed: bool, ghost consulted: nat)
      ensures passed <==> forall i :: 0 <= i < |conditions| ==> Passes(conditions[i], allConditions, order)
      ensures passed == ConditionsHold(conditions, allConditions, order)
      ensures passed ==> consulted == |conditions|
      ensures !passed ==> 1 <= consulted <= |conditions| && !Passes(conditions[consulted - 1], allConditions, order)
      ensures forall i :: 0 <= i < consulted - 1 ==> Passes(conditions[i], allConditions, order)
    {
      ConditionsHoldIff(conditions, allConditions, order);
      var i := 0;
      while i < |conditions|
        invariant 0 <= i <= |conditions|
        invariant forall j :: 0 <= j < i ==> Passes(conditions[j], allConditions, order)
      {
        var condition := conditions[i];
        if condition.code !in allConditions || !allConditions[condition.code].check(order, condition.args) {
          return false, i + 1;
        }
        i := i + 1;
      }
      return true, i;
    }

    /**
     * Applies the promotion to a target. The result is the first unresolved
     * action on an order target, or else an adjustment carrying the sum of the
     * individually rounded contributions of the matching actions, present
     * exactly when that sum is not zero.
     */
    method Apply(target: Target) returns (r: Result<Option<Adjustment>, PromotionError>)
      ensures ActionsTotal(actions, allActions, target).Failure? ==>
        r == Failure(ActionsTotal(actions, allActions, target).error)
      ensures ActionsTotal(actions, allActions, target).Success? ==>
        r.Success? && (r.value.Some? <==> ActionsTotal(actions, allActions, target).value != 0)
      ensures r.Success? && r.value.Some? ==>
        r.value.value == Adjustment(ActionsTotal(actions, allActions, target).value, kind, name, sourceId)
    {
      var amount := 0;
      var i := 0;
      while i < |actions|
        invariant 0 <= i <= |actions|
        invariant ActionsTotal(actions[..i], allActions, target) == Success(amount)
      {
        var action := actions[i];
        assert actions[..i + 1][..i] == actions[..i];
        if action.code in allActions && allActions[action.code].ItemAction? {
          if target.ItemTarget? && target.line.Some? {
            amount := amount + Round(allActions[action.code].executeItem(target.item, target.line.value, action.args));
          }
        } else {
          if target.OrderTarget? {
            if action.code !in allActions {
              assert actions[..i + 1][i] == action;
              ActionsTotalFailureStays(actions[..i + 1], actions, allActions, target);
              return Failure(UnresolvedAction(action.code));
            }
            amount := amount + Round(allActions[action.code].executeOrder(target.order, action.args));
          }
        }
        i := i + 1;
      }
      assert actions[..i] == actions;
      if amount != 0 {
        return Success(Some(Adjustment(amount, kind, name, sourceId)));
      }
      return Success(None);
    }
  }
}
