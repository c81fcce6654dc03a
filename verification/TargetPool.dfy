/** Weighted round-robin over a pool of targets, and its exact fairness. */
module TargetPool {
  import opened Wrappers
  import opened Bytes

  datatype Target = Target(address: string, weight: U32)

  function Total(targets: seq<Target>): nat
  {
    if targets == [] then 0 else Total(targets[..|targets| - 1]) + targets[|targets| - 1].weight
  }

  /** The position whose stretch of the line of weights holds `slot`. */
  predicate Holds(targets: seq<Target>, position: nat, slot: nat)
    requires position < |targets|
  {
    Total(targets[..position]) <= slot < Total(targets[..position + 1])
  }

  /** The first position whose weight exceeds what is left of `slot`. */
  function Pick(targets: seq<Target>, slot: nat): Option<nat>
  {
    if targets == [] then None
    else if slot < targets[0].weight then Some(0)
    else
      match Pick(targets[1..], slot - targets[0].weight)
      case None => None
      case Some(k) => Some(k + 1)
  }

  function Position(targets: seq<Target>, sequence: nat): Option<nat>
  {
    if Total(targets) == 0 then None else Pick(targets, sequence % Total(targets))
  }

  function Select(targets: seq<Target>, sequence: nat): Option<string>
  {
    match Position(targets, sequence)
    case Some(k) => if k < |targets| then Some(targets[k].address) else None
    case None => None
  }

  // ---------------------------------------------------------------- the line of weights

  lemma {:induction false} TotalFirst(targets: seq<Target>)
    requires targets != []
    ensures Total(targets) == targets[0].weight + Total(targets[1..])
    decreases |targets|
  {
    var n := |targets|;
    if n > 1 {
      TotalFirst(targets[..n - 1]);
      assert targets[..n - 1][1..] == targets[1..][..n - 2];
    } else {
      assert targets[..0] == [] && targets[1..] == [];
    }
  }

  lemma {:induction false} TotalStep(targets: seq<Target>, k: nat)
    requires k < |targets|
    ensures Total(targets[..k + 1]) == Total(targets[..k]) + targets[k].weight
  {
    assert targets[..k + 1][..k] == targets[..k];
  }

  lemma {:induction false} TotalGrows(targets: seq<Target>, j: nat, k: nat)
    requires j <= k <= |targets|
    ensures Total(targets[..j]) <= Total(targets[..k]) <= Total(targets)
    decreases |targets| - j
  {
    assert targets[..|targets|] == targets;
    if j < k {
      TotalStep(targets, j);
      TotalGrows(targets, j + 1, k);
    } else if k < |targets| {
      TotalStep(targets, k);
      TotalGrows(targets, k + 1, k + 1);
    }
  }

  /** Picking finds the position that holds the slot, and fails exactly past the end. */
  lemma {:induction false} PickExact(targets: seq<Target>, slot: nat)
    ensures Pick(targets, slot).None? <==> slot >= Total(targets)
    ensures Pick(targets, slot).Some? ==>
      Pick(targets, slot).value < |targets| && Holds(targets, Pick(targets, slot).value, slot)
  {
    if targets == [] {
    } else {
      TotalFirst(targets);
      if slot < targets[0].weight {
        assert targets[..1] == [targets[0]] && targets[..1][..0] == [];
      } else {
        PickExact(targets[1..], slot - targets[0].weight);
        if Pick(targets, slot).Some? {
          var k := Pick(targets, slot).value;
          PrefixShift(targets, k - 1);
          PrefixShift(targets, k);
        }
      }
    }
  }

  lemma {:induction false} PrefixShift(targets: seq<Target>, k: nat)
    requires k < |targets|
    ensures Total(targets[..k + 1]) == targets[0].weight + Total(targets[1..][..k])
  {
    TotalFirst(targets[..k + 1]);
    assert targets[..k + 1][1..] == targets[1..][..k];
  }

  lemma {:induction false} HoldsOnce(targets: seq<Target>, j: nat, k: nat, slot: nat)
    requires j < |targets| && k < |targets| && Holds(targets, j, slot) && Holds(targets, k, slot)
    ensures j == k
  {
    if j < k {
      TotalGrows(targets, j + 1, k);
    } else if k < j {
      TotalGrows(targets, k + 1, j);
    }
  }

  /** A position is chosen exactly when it holds the slot of the sequence number. */
  lemma {:induction false} PositionExact(targets: seq<Target>, sequence: nat, k: nat)
    requires k < |targets|
    ensures Position(targets, sequence) == Some(k) <==>
      Total(targets) > 0 && Holds(targets, k, sequence % Total(targets))
  {
    hide Pick, Total;
    if Total(targets) > 0 {
      var slot := sequence % Total(targets);
      PickExact(targets, slot);
      if Holds(targets, k, slot) {
        HoldsOnce(targets, Pick(targets, slot).value, k, slot);
      }
    }
  }

  /** There is a choice exactly when the pool has weight; the choice has a positive weight. */
  lemma {:induction false} ChoiceExists(targets: seq<Target>, sequence: nat)
    ensures Position(targets, sequence).Some? <==> Total(targets) > 0
    ensures Select(targets, sequence).Some? <==> Total(targets) > 0
    ensures Position(targets, sequence).Some? ==>
      Position(targets, sequence).value < |targets| && targets[Position(targets, sequence).value].weight > 0
  {
    hide Pick, Total;
    if Total(targets) > 0 {
      PickExact(targets, sequence % Total(targets));
      TotalStep(targets, Position(targets, sequence).value);
    }
  }

  // ---------------------------------------------------------------- fairness

  function Chosen(targets: seq<Target>, k: nat, sequence: nat): nat
  {
    if Position(targets, sequence) == Some(k) then 1 else 0
  }

  /** How often position `k` is chosen among `count` sequence numbers from `start` on. */
  function Times(targets: seq<Target>, k: nat, start: nat, count: nat): nat
  {
    if count == 0 then 0 else Times(targets, k, start, count - 1) + Chosen(targets, k, start + count - 1)
  }

  lemma {:induction false} TimesFront(targets: seq<Target>, k: nat, start: nat, count: nat)
    requires count > 0
    ensures Times(targets, k, start, count) == Chosen(targets, k, start) + Times(targets, k, start + 1, count - 1)
    decreases count
  {
    hide Position;
    if count > 1 {
      TimesFront(targets, k, start, count - 1);
    }
  }

  /** Moving a window of one period does not change how often a position is chosen. */
  lemma {:induction false} WindowMoves(targets: seq<Target>, k: nat, start: nat)
    requires Total(targets) > 0
    ensures Times(targets, k, start, Total(targets)) == Times(targets, k, 0, Total(targets))
    decreases start
  {
    hide Total;
    if start == 0 {
    } else {
      WindowMoves(targets, k, start - 1);
      var total := Total(targets);
      TimesFront(targets, k, start - 1, total);
      SameSlot(targets, k, start - 1);
    }
  }

  lemma {:induction false} SameSlot(targets: seq<Target>, k: nat, sequence: nat)
    requires Total(targets) > 0
    ensures Chosen(targets, k, sequence + Total(targets)) == Chosen(targets, k, sequence)
  {
    hide Total, Pick;
    var total := Total(targets);
    DivUnique(sequence + total, total, sequence / total + 1, sequence % total);
  }

  function Min(a: int, b: int): int
  {
    if a <= b then a else b
  }

  function Max(a: int, b: int): int
  {
    if a >= b then a else b
  }

  lemma {:induction false} TimesInPeriod(targets: seq<Target>, k: nat, count: nat)
    requires k < |targets| && count <= Total(targets)
    ensures Times(targets, k, 0, count) == Max(0, Min(count, Total(targets[..k + 1])) - Total(targets[..k]))
  {
    hide Total, Position;
    TotalStep(targets, k);
    if count == 0 {
    } else {
      TimesInPeriod(targets, k, count - 1);
      PositionExact(targets, count - 1, k);
      SmallMod(count - 1, Total(targets));
    }
  }

  lemma {:induction false} SmallMod(n: nat, d: nat)
    requires n < d
    ensures n % d == n
  {
  }

  /** Over any window of total-weight consecutive sequence numbers each position is chosen exactly its weight times. */
  lemma {:induction false} Fairness(targets: seq<Target>, k: nat, start: nat)
    requires k < |targets| && Total(targets) > 0
    ensures Times(targets, k, start, Total(targets)) == targets[k].weight
  {
    hide Total, Position;
    WindowMoves(targets, k, start);
    TimesInPeriod(targets, k, Total(targets));
    TotalGrows(targets, k + 1, k + 1);
    TotalStep(targets, k);
  }

  // ---------------------------------------------------------------- the code

  method TotalWeight(targets: seq<Target>) returns (total: nat)
    ensures total == Total(targets)
  {
    total := 0;
    for i := 0 to |targets|
      invariant total == Total(targets[..i])
    {
      TotalStep(targets, i);
      total := total + targets[i].weight;
    }
    assert targets[..|targets|] == targets;
  }

  method SelectWeightedTarget(targets: seq<Target>, sequence: nat) returns (r: Option<string>)
    ensures r == Select(targets, sequence)
  {
    hide Total, Pick;
    var total := TotalWeight(targets);
    if total == 0 {
      return None;
    }
    PickExact(targets, sequence % total);
    ghost var k := Position(targets, sequence).value;
    var slot: nat := sequence % total;
    Prefixes(targets);
    for i := 0 to |targets|
      invariant slot + Total(targets[..i]) == sequence % total && i <= k
    {
      var weight := targets[i].weight;
      TotalStep(targets, i);
      if slot < weight {
        HoldsOnce(targets, i, k, sequence % total);
        return Some(targets[i].address);
      }
      if i < k {
        TotalGrows(targets, i + 1, k);
      }
      slot := slot - weight;
    }
    r := None;
  }

  lemma {:induction false} Prefixes(targets: seq<Target>)
    ensures Total(targets[..0]) == 0
  {
  }
}
