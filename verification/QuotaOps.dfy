/** Resource lists and the three operations on a quota: reserve, roll back, refresh. */
module QuotaOps {
  import opened Int64
  import opened Wrappers

  type Resources = map<string, int>

  const UNLIMITED := -1

  function Value(a: Resources, k: string): int {
    if k in a then a[k] else 0
  }

  ghost predicate Int64s(a: Resources) {
    forall k :: k in a ==> IsInt64(a[k])
  }

  function Add(a: Resources, b: Resources): Resources {
    map k | k in a.Keys + b.Keys :: Wrap(Value(a, k) + Value(b, k))
  }

  function Subtract(a: Resources, b: Resources): Resources {
    map k | k in a.Keys + b.Keys :: Wrap(Value(a, k) - Value(b, k))
  }

  predicate Negative(a: Resources) {
    exists k :: k in a && a[k] < 0
  }

  predicate Limited(hard: Resources, k: string) {
    k in hard && hard[k] != UNLIMITED
  }

  /** Every used resource has a hard value, and stays within it unless limits are ignored. */
  predicate IsSafe(hard: Resources, used: Resources, ignoreLimits: bool) {
    forall k :: k in used ==> k in hard && (hard[k] == UNLIMITED || used[k] <= hard[k] || ignoreLimits)
  }

  datatype Op =
    | Reserve(r: Resources)
    | Rollback(r: Resources)
    | Refresh(counted: Resources, ignoreLimits: bool)

  /** The new usage, or none when the operation is refused. */
  function Apply(op: Op, hard: Resources, used: Resources): Option<Resources> {
    match op
    case Reserve(r) =>
      var after := Add(used, r);
      if IsSafe(hard, after, false) then Some(after) else None
    case Rollback(r) =>
      var after := Subtract(used, r);
      if Negative(after) then None else Some(after)
    case Refresh(counted, ignoreLimits) =>
      if Negative(counted) || !IsSafe(hard, counted, ignoreLimits) then None else Some(counted)
  }

  /** The addition of a reservation stays in 64 bits. */
  ghost predicate Fits(used: Resources, r: Resources) {
    forall k :: k in r ==> IsInt64(Value(used, k) + r[k])
  }

  ghost predicate Below(hard: Resources, used: Resources) {
    forall k :: k in used && Limited(hard, k) ==> used[k] <= hard[k]
  }

  /** A hard value is an amount or the mark for no limit. */
  ghost predicate ValidLimits(hard: Resources) {
    forall k :: k in hard ==> hard[k] >= UNLIMITED
  }

  ghost predicate NonNegative(a: Resources) {
    forall k :: k in a ==> a[k] >= 0
  }

  /** A reservation of non-negative amounts from a non-negative usage never leaves a negative
      one, if and only if no addition overflows. */
  lemma ReserveStaysNonNegative(hard: Resources, used: Resources, r: Resources)
    requires Int64s(used) && Int64s(r) && NonNegative(used) && NonNegative(r)
    requires Apply(Reserve(r), hard, used).Some?
    ensures NonNegative(Apply(Reserve(r), hard, used).value) <==> Fits(used, r)
  {
    var after := Add(used, r);
    if Fits(used, r) {
      forall k | k in after ensures after[k] >= 0 {
        assert IsInt64(Value(used, k) + Value(r, k));
      }
    } else {
      var k :| k in r && !IsInt64(Value(used, k) + r[k]);
      assert k in after && after[k] < 0;
    }
  }

  /** An overflowing request slips under a limit. */
  lemma OverflowingReserve()
    ensures Apply(Reserve(map["storage" := MAX_INT64]), map["storage" := 10], map["storage" := 5])
            == Some(map["storage" := MIN_INT64 + 4])
  {
    var after := Add(map["storage" := 5], map["storage" := MAX_INT64]);
    assert after["storage"] == MIN_INT64 + 4;
    assert after == map["storage" := MIN_INT64 + 4];
  }

  /** Within 64 bits, an operation never leaves a negative usage, and only a refresh that
      ignores limits moves a limited resource above its value. */
  lemma ApplySafe(op: Op, hard: Resources, used: Resources)
    requires Int64s(used) && NonNegative(used) && ValidLimits(hard)
    requires op.Reserve? ==> Int64s(op.r) && NonNegative(op.r) && Fits(used, op.r)
    requires op.Rollback? ==> Int64s(op.r) && NonNegative(op.r)
    requires op.Refresh? ==> Int64s(op.counted)
    requires Apply(op, hard, used).Some?
    ensures Int64s(Apply(op, hard, used).value) && NonNegative(Apply(op, hard, used).value)
    ensures Below(hard, used) && !Below(hard, Apply(op, hard, used).value) ==> op.Refresh? && op.ignoreLimits
  {
    var after := Apply(op, hard, used).value;
    if op.Reserve? {
      ReserveStaysNonNegative(hard, used, op.r);
    } else if op.Rollback? && Below(hard, used) {
      forall k | k in after && Limited(hard, k) ensures after[k] <= hard[k] {
        assert IsInt64(Value(used, k) - Value(op.r, k));
      }
    }
  }

  /** Rolling back what was reserved restores every amount, and is never refused. */
  lemma RollbackUndoesReserve(hard: Resources, used: Resources, r: Resources)
    requires Int64s(used) && Int64s(r) && NonNegative(used) && NonNegative(r) && Fits(used, r)
    requires Apply(Reserve(r), hard, used).Some?
    ensures Apply(Rollback(r), hard, Apply(Reserve(r), hard, used).value).Some?
    ensures forall k :: Value(Apply(Rollback(r), hard, Apply(Reserve(r), hard, used).value).value, k) == Value(used, k)
  {
    var mid := Add(used, r);
    var after := Subtract(mid, r);
    forall k | k in after ensures after[k] == Value(used, k) {
      assert IsInt64(Value(used, k) + Value(r, k));
      assert k in mid;
    }
  }

  // When an operation is accepted, and what it stores, resource by resource

  /** A reservation is accepted if and only if every resource used or asked for has a hard value
      that is -1 or not below the 64-bit sum; the sums are stored. */
  lemma ReserveOutcome(hard: Resources, used: Resources, r: Resources)
    ensures Apply(Reserve(r), hard, used).Some? <==>
      forall k :: k in used || k in r ==> k in hard && (hard[k] == -1 || Wrap(Value(used, k) + Value(r, k)) <= hard[k])
    ensures Apply(Reserve(r), hard, used).Some? && Int64s(used) ==>
      forall k :: Value(Apply(Reserve(r), hard, used).value, k) == Wrap(Value(used, k) + Value(r, k))
  {
    var after := Add(used, r);
    assert forall k :: k in after <==> k in used || k in r;
    assert forall k :: k in after ==> after[k] == Wrap(Value(used, k) + Value(r, k));
  }

  /** A rollback is accepted if and only if no 64-bit difference is negative; hard values do not
      matter. */
  lemma RollbackOutcome(hard: Resources, used: Resources, r: Resources)
    ensures Apply(Rollback(r), hard, used).Some? <==>
      forall k :: k in used || k in r ==> Wrap(Value(used, k) - Value(r, k)) >= 0
    ensures Apply(Rollback(r), hard, used).Some? && Int64s(used) ==>
      forall k :: Value(Apply(Rollback(r), hard, used).value, k) == Wrap(Value(used, k) - Value(r, k))
  {
    var after := Subtract(used, r);
    assert forall k :: k in after <==> k in used || k in r;
    assert forall k :: k in after ==> after[k] == Wrap(Value(used, k) - Value(r, k));
  }

  /** A refresh is accepted if and only if every count is non-negative and its resource has a hard
      value that is -1, not below the count, or to be ignored; the counts replace the usage. */
  lemma RefreshOutcome(hard: Resources, used: Resources, counted: Resources, ignoreLimits: bool)
    ensures Apply(Refresh(counted, ignoreLimits), hard, used).Some? <==>
      forall k :: k in counted ==> counted[k] >= 0 && k in hard && (hard[k] == -1 || counted[k] <= hard[k] || ignoreLimits)
    ensures Apply(Refresh(counted, ignoreLimits), hard, used).Some? ==>
      forall k :: Value(Apply(Refresh(counted, ignoreLimits), hard, used).value, k) == Value(counted, k)
  {
  }
}
