/** The block gas limit of core/block_validator.go and how it moves from block to block. */
module GasLimit {
  import opened Values

  const TWO_64 := 0x1_0000_0000_0000_0000
  const GAS_LIMIT_BOUND_DIVISOR := 1024
  const MIN_GAS_LIMIT := 5000

  /** Unsigned 64-bit arithmetic wraps around. */
  function Wrap(n: int): nat {
    n % TWO_64
  }

  /** `CalcGasLimit` from the parent's gas limit and gas used. */
  function CalcGasLimit(parent: nat, used: nat, floor: nat, ceil: nat): nat {
    var contrib := Wrap(used + used / 2) / GAS_LIMIT_BOUND_DIVISOR;
    var decay := Wrap(parent / GAS_LIMIT_BOUND_DIVISOR - 1);
    var first := Wrap(parent - decay + contrib);
    var limit := if first < MIN_GAS_LIMIT then MIN_GAS_LIMIT else first;
    if limit < floor then
      var up := Wrap(parent + decay);
      if up > floor then floor else up
    else if limit > ceil then
      var down := Wrap(parent - decay);
      if down < ceil then ceil else down
    else limit
  }

  /** No sum in the computation leaves the 64-bit range. */
  predicate Small(n: nat) {
    n + n / 2 < TWO_64
  }

  /** What the iteration needs: a sensible range, and a limit large enough to decay. */
  predicate Sensible(limit: nat, floor: nat, ceil: nat) {
    2048 <= floor <= ceil && 2048 <= limit && Small(limit) && Small(ceil)
  }

  function Distance(limit: nat, floor: nat, ceil: nat): nat {
    if limit < floor then floor - limit else if limit > ceil then limit - ceil else 0
  }

  /** The result without the wrap-around. */
  lemma NoWrap(parent: nat, used: nat)
    requires 2048 <= parent && Small(parent) && used <= parent
    ensures var contrib, decay := (used + used / 2) / 1024, parent / 1024 - 1;
            && Wrap(used + used / 2) == used + used / 2 && Wrap(decay) == decay && 1 <= decay
            && Wrap(parent - decay + contrib) == parent - decay + contrib
            && Wrap(parent + decay) == parent + decay && Wrap(parent - decay) == parent - decay
  {
  }

  /**
   One block moves the limit into the range, or towards it by a 1024th less one; inside the range it
   stays. It never passes the range.
   */
  lemma Moves(parent: nat, used: nat, floor: nat, ceil: nat)
    requires Sensible(parent, floor, ceil) && used <= parent
    ensures var next, decay := CalcGasLimit(parent, used, floor, ceil), parent / 1024 - 1;
            && Sensible(next, floor, ceil)
            && (floor <= parent <= ceil ==> floor <= next <= ceil)
            && (parent < floor ==> parent < next <= ceil && (next < floor ==> next == parent + decay))
            && (parent > ceil ==> floor <= next < parent && (next > ceil ==> next == parent - decay))
            && Distance(next, floor, ceil) <= Distance(parent, floor, ceil)
            && (Distance(parent, floor, ceil) > 0 ==> Distance(next, floor, ceil) < Distance(parent, floor, ceil))
  {
    NoWrap(parent, used);
  }

  /**
   Inside the range the limit follows the use: it rises, stays or falls as half as much again of the gas
   used exceeds, equals or is below the limit, in 1024ths, and by the difference until it meets the range.
   */
  lemma Follows(parent: nat, used: nat, floor: nat, ceil: nat)
    requires Sensible(parent, floor, ceil) && floor <= parent <= ceil && used <= parent
    ensures var next, up, down := CalcGasLimit(parent, used, floor, ceil), (used + used / 2) / 1024, parent / 1024 - 1;
            && next == Min(Max(Max(parent + up - down, 5000), floor), ceil)
            && (parent >= 5000 ==>
                  && (up > down ==> if parent < ceil then next > parent else next == parent)
                  && (up == down ==> next == parent)
                  && (up < down ==> if parent > Max(floor, 5000) then next < parent else next == parent))
  {
    NoWrap(parent, used);
  }

  /** The usage of each block in turn is within the limit that the blocks before it lead to. */
  predicate Usable(limit: nat, useds: seq<nat>, floor: nat, ceil: nat)
    decreases useds
  {
    useds == [] || (useds[0] <= limit && Usable(CalcGasLimit(limit, useds[0], floor, ceil), useds[1..], floor, ceil))
  }

  function Iterate(limit: nat, useds: seq<nat>, floor: nat, ceil: nat): nat
    decreases useds
  {
    if useds == [] then limit else Iterate(CalcGasLimit(limit, useds[0], floor, ceil), useds[1..], floor, ceil)
  }

  /**
   Whatever the blocks use, the limit is in the range after at most as many blocks as it is away
   from it, gets no further away on the way there, and then never leaves it.
   */
  lemma {:induction false} Converges(limit: nat, useds: seq<nat>, floor: nat, ceil: nat)
    requires Sensible(limit, floor, ceil) && Usable(limit, useds, floor, ceil)
    ensures var last := Iterate(limit, useds, floor, ceil);
            && Sensible(last, floor, ceil)
            && (|useds| >= Distance(limit, floor, ceil) ==> floor <= last <= ceil)
            && Distance(last, floor, ceil) <= Distance(limit, floor, ceil)
    decreases useds
  {
    if useds != [] {
      Moves(limit, useds[0], floor, ceil);
      Converges(CalcGasLimit(limit, useds[0], floor, ceil), useds[1..], floor, ceil);
    }
  }

  /** With a decay of zero a limit outside the range stays where it is, unless the minimum lifts it. */
  lemma Stuck(parent: nat, used: nat, floor: nat, ceil: nat)
    requires floor <= ceil && used <= parent && 1024 <= parent < 2048
    ensures parent < floor && MIN_GAS_LIMIT < floor ==> CalcGasLimit(parent, used, floor, ceil) == parent
    ensures ceil < parent ==> CalcGasLimit(parent, used, floor, ceil) == parent
  {
    assert parent / 1024 == 1 && Wrap(0) == 0 && Wrap(parent) == parent;
  }

  /** With a decay that wraps around it moves by one the wrong way. */
  lemma Wraps(parent: nat, used: nat, floor: nat, ceil: nat)
    requires floor <= ceil && Small(ceil) && used <= parent < 1024
    ensures parent < floor && MIN_GAS_LIMIT < floor ==>
              CalcGasLimit(parent, used, floor, ceil) == if parent == 0 then floor else parent - 1
    ensures ceil < parent ==> CalcGasLimit(parent, used, floor, ceil) == parent + 1
  {
    assert Wrap(-1) == TWO_64 - 1;
    var contrib := Wrap(used + used / 2) / 1024;
    assert contrib <= 1;
    assert Wrap(parent - (TWO_64 - 1) + contrib) == parent + 1 + contrib;
    assert Wrap(parent - (TWO_64 - 1)) == parent + 1;
    assert parent > 0 ==> Wrap(parent + (TWO_64 - 1)) == parent - 1;
  }

  /** A floor within reach of the minimum limit lifts a small limit at once. */
  lemma Lifted(parent: nat, used: nat, floor: nat, ceil: nat)
    requires floor <= ceil && used <= parent < 2048 && parent < floor <= MIN_GAS_LIMIT && Small(ceil)
    ensures CalcGasLimit(parent, used, floor, ceil) > parent
  {
    if parent >= 1024 {
      assert parent / 1024 == 1 && Wrap(0) == 0 && Wrap(parent) == parent;
    } else {
      assert Wrap(-1) == TWO_64 - 1;
      var contrib := Wrap(used + used / 2) / 1024;
      assert contrib <= 1 && Wrap(parent - (TWO_64 - 1) + contrib) == parent + 1 + contrib;
      assert Wrap(parent - (TWO_64 - 1)) == parent + 1;
    }
  }

  /**
   Below the floor the limit rises exactly if it is at least 2048, or zero, which wraps all the way to
   the floor, or the floor is no higher than the minimum limit.
   */
  lemma RisesIff(parent: nat, used: nat, floor: nat, ceil: nat)
    requires parent < floor <= ceil && Small(ceil) && used <= parent
    ensures CalcGasLimit(parent, used, floor, ceil) > parent <==>
              parent >= 2048 || parent == 0 || floor <= MIN_GAS_LIMIT
  {
    if parent >= 2048 {
      Moves(parent, used, floor, ceil);
    } else if floor <= MIN_GAS_LIMIT {
      Lifted(parent, used, floor, ceil);
    } else if parent >= 1024 {
      Stuck(parent, used, floor, ceil);
    } else {
      Wraps(parent, used, floor, ceil);
    }
  }

  /** A large limit above the range falls, and not below it, whatever the floor is. */
  lemma FallsFar(parent: nat, used: nat, floor: nat, ceil: nat)
    requires floor <= ceil < parent && 2048 <= parent && Small(parent) && used <= parent
    ensures floor <= CalcGasLimit(parent, used, floor, ceil) < parent
  {
    NoWrap(parent, used);
  }

  /** Above the ceiling the limit falls exactly if it is at least 2048. */
  lemma FallsIff(parent: nat, used: nat, floor: nat, ceil: nat)
    requires floor <= ceil < parent && Small(parent) && used <= parent
    ensures CalcGasLimit(parent, used, floor, ceil) < parent <==> parent >= 2048
  {
    if parent >= 2048 {
      FallsFar(parent, used, floor, ceil);
    } else if parent >= 1024 {
      Stuck(parent, used, floor, ceil);
    } else {
      Wraps(parent, used, floor, ceil);
    }
  }
}
