/**
  The fuel calculator (day 1), shared by the puzzle-runner crate and the
  standalone crate, whose library is the same code: the fuel a mass needs,
  the fuel that fuel needs in turn (the `Fuel` iterator and its fold), and
  the sums over a list of module masses.
*/
module Day1 {
  import opened Wrappers
  import Text

  /**
    The source computes `m / 3` in `f32`. For every mass below 2^24 the
    conversion `m as f32` is exact, and the quotient, although rounded to
    the nearest `f32`, still truncates to `m div 3`; so below this bound
    the integer formula is the source's result.
  */
  const ExactLimit: nat := 0x100_0000

  /** A mass (`Mass(pub usize)`). */
  datatype Mass = Mass(units: nat) {

    /**
      `Mass::required_fuel`: a third of the mass, rounded down, less 2, and
      never below 0. So masses below 9 need no fuel.
    */
    function RequiredFuel(): (f: Fuel)
      requires units < ExactLimit
      ensures units >= 6 ==> 3 * (f.units + 2) <= units < 3 * (f.units + 3)
      ensures f.units == 0 <==> units < 9
      ensures f.units <= units / 3
      ensures units > 0 ==> f.units < units
    {
      var n: int := units / 3;
      var n' := n - 2;
      if n' >= 0 then Fuel(n') else Fuel(0)
    }

    /** `Mass::all_required_fuel`: the fuel for the mass plus the fuel for that fuel. */
    function AllRequiredFuel(): (f: Fuel)
      requires units < ExactLimit
      ensures f.units >= RequiredFuel().units
      ensures f.units <= RequiredFuel().units + RequiredFuel().units / 2
    {
      var fuel := RequiredFuel();
      RequiredFuelBound(fuel);
      fuel.Plus(fuel.RequiredFuel())
    }
  }

  /** An amount of fuel (`Fuel(pub usize)`); it is also an iterator over the fuel it needs. */
  datatype Fuel = Fuel(units: nat) {

    /** `Fuel::mass`: the same number, seen as a mass. */
    function ToMass(): (m: Mass)
      ensures m.units == units
    {
      Mass(units)
    }

    /** `Add` (and `AddAssign`): the wrapped numbers added. */
    function Plus(other: Fuel): (r: Fuel)
      ensures r.units == units + other.units
    {
      Fuel(units + other.units)
    }

    /**
      `Iterator::next` on a value: the new state is the fuel its own mass
      needs, and that state is yielded if it is positive.
    */
    function Next(): (r: (Fuel, Option<Fuel>))
      requires units < ExactLimit
      ensures r.0 == ToMass().RequiredFuel()
      ensures r.1.Some? <==> r.0.units > 0
      ensures r.1.Some? ==> r.1.value == r.0
      ensures units > 0 ==> r.0.units < units
    {
      var next := ToMass().RequiredFuel();
      (next, if next.units > 0 then Some(next) else None)
    }

    /** `Iterator::fold`: `acc` plus every item the iterator yields from this state on. */
    function Fold(acc: Fuel): (r: Fuel)
      requires units < ExactLimit
      ensures r.units == acc.units + Sum(Trajectory(this))
      decreases units
    {
      var (state, item) := Next();
      match item
      case None => acc
      case Some(f) =>
        assert Trajectory(this)[1..] == Trajectory(state);
        state.Fold(acc.Plus(f))
    }

    /**
      `Fuel::required_fuel`: `self.fold(Fuel(0), |acc, f| acc + f)`, the sum
      of the successive positive values `next` produces.
    */
    function RequiredFuel(): (r: Fuel)
      requires units < ExactLimit
      ensures r.units == Sum(Trajectory(this))
    {
      Fold(Fuel(0))
    }
  }

  /**
    The items the iterator yields from `f`, as an independent definition:
    positive, strictly decreasing, each the fuel the one before it needs,
    and the last one needing none.
  */
  function Trajectory(f: Fuel): (s: seq<Fuel>)
    requires f.units < ExactLimit
    ensures forall i | 0 <= i < |s| :: 0 < s[i].units < ExactLimit
    ensures |s| > 0 ==> s[0] == f.ToMass().RequiredFuel()
    ensures |s| > 0 ==> s[0].units < f.units
    ensures forall i | 0 < i < |s| :: s[i] == s[i - 1].ToMass().RequiredFuel() && s[i].units < s[i - 1].units
    ensures f.ToMass().RequiredFuel().units == 0 <==> s == []
    ensures |s| > 0 ==> s[|s| - 1].ToMass().RequiredFuel().units == 0
    decreases f.units
  {
    var next := f.ToMass().RequiredFuel();
    if next.units > 0 then [next] + Trajectory(next) else []
  }

  /** The trajectory from `f` is the first item followed by the trajectory from that item. */
  lemma TrajectoryUnfold(f: Fuel)
    requires f.units < ExactLimit
    ensures var next := f.ToMass().RequiredFuel();
      Sum(Trajectory(f)) == if next.units > 0 then next.units + Sum(Trajectory(next)) else 0
  {
    var next := f.ToMass().RequiredFuel();
    if next.units > 0 {
      assert Trajectory(f)[1..] == Trajectory(next);
    }
  }

  /** The total of a list of fuel amounts. */
  function Sum(s: seq<Fuel>): nat
    decreases |s|
  {
    if s == [] then 0 else s[0].units + Sum(s[1..])
  }

  /** The recurrence the fold follows: the first item, plus the fuel that item needs. */
  lemma RequiredFuelUnfold(f: Fuel)
    requires f.units < ExactLimit
    ensures var next := f.ToMass().RequiredFuel();
      f.RequiredFuel().units == if next.units > 0 then next.units + next.RequiredFuel().units else 0
  {
    var next := f.ToMass().RequiredFuel();
    if next.units > 0 {
      assert Trajectory(f)[1..] == Trajectory(next);
    }
  }

  /** Fuel for fuel never exceeds half of it: `f/3 + f/9 + ... <= f/2`. */
  lemma {:induction false} RequiredFuelBound(f: Fuel)
    requires f.units < ExactLimit
    ensures f.RequiredFuel().units <= f.units / 2
    decreases f.units
  {
    var next := f.ToMass().RequiredFuel();
    if next.units > 0 {
      RequiredFuelBound(next);
      assert Trajectory(f)[1..] == Trajectory(next);
      assert next.units <= f.units / 3;
    }
  }

  /** The doc-tests of `Mass::required_fuel`. */
  lemma MassRequiredFuelExamples()
    ensures Mass(2).RequiredFuel() == Fuel(0)
    ensures Mass(12).RequiredFuel() == Fuel(2)
    ensures Mass(14).RequiredFuel() == Fuel(2)
    ensures Mass(1969).RequiredFuel() == Fuel(654)
    ensures Mass(100756).RequiredFuel() == Fuel(33583)
  {
  }

  /** The doc-tests of `Fuel::next`. */
  lemma NextExamples()
    ensures Fuel(2).Next().1 == None && Fuel(3).Next().1 == None && Fuel(5).Next().1 == None
    ensures Fuel(21).Next().1 == Some(Fuel(5))
    ensures Fuel(70).Next().1 == Some(Fuel(21))
    ensures Fuel(216).Next().1 == Some(Fuel(70))
    ensures Fuel(654).Next().1 == Some(Fuel(216))
  {
  }

  /**
    One step of a worked example: fuel `f` whose mass needs `next` units,
    where `next` in turn needs `rest`, needs `next + rest`.
  */
  lemma FuelStep(f: nat, next: nat, rest: nat)
    requires f < ExactLimit && next > 0 && f / 3 == next + 2
    requires Fuel(next).RequiredFuel().units == rest
    ensures Fuel(f).RequiredFuel().units == next + rest
  {
    RequiredFuelUnfold(Fuel(f));
  }

  /** Fuel of less than 9 units needs no more fuel. */
  lemma FuelStop(f: nat)
    requires f < 9
    ensures Fuel(f).RequiredFuel().units == 0
  {
    RequiredFuelUnfold(Fuel(f));
  }

  /**
    The fuel chains of the worked examples, one `next` per lemma: 654 yields
    216, 70, 21 and 5, so it needs 312; 33583 yields 11192, 3728, 1240, 411,
    135, 43, 12 and 2, so it needs 16763.
  */
  lemma FuelChain21()
    ensures Fuel(21).RequiredFuel().units == 5
  {
    FuelStop(5);
    FuelStep(21, 5, 0);
  }

  lemma FuelChain70()
    ensures Fuel(70).RequiredFuel().units == 26
  {
    FuelChain21();
    FuelStep(70, 21, 5);
  }

  lemma FuelChain216()
    ensures Fuel(216).RequiredFuel().units == 96
  {
    FuelChain70();
    FuelStep(216, 70, 26);
  }

  lemma FuelChain654()
    ensures Fuel(654).RequiredFuel().units == 312
  {
    FuelChain216();
    FuelStep(654, 216, 96);
  }

  lemma FuelChain12()
    ensures Fuel(12).RequiredFuel().units == 2
  {
    FuelStop(2);
    FuelStep(12, 2, 0);
  }

  lemma FuelChain43()
    ensures Fuel(43).RequiredFuel().units == 14
  {
    FuelChain12();
    FuelStep(43, 12, 2);
  }

  lemma FuelChain135()
    ensures Fuel(135).RequiredFuel().units == 57
  {
    FuelChain43();
    FuelStep(135, 43, 14);
  }

  lemma FuelChain411()
    ensures Fuel(411).RequiredFuel().units == 192
  {
    FuelChain135();
    FuelStep(411, 135, 57);
  }

  lemma FuelChain1240()
    ensures Fuel(1240).RequiredFuel().units == 603
  {
    FuelChain411();
    FuelStep(1240, 411, 192);
  }

  lemma FuelChain3728()
    ensures Fuel(3728).RequiredFuel().units == 1843
  {
    FuelChain1240();
    FuelStep(3728, 1240, 603);
  }

  lemma FuelChain11192()
    ensures Fuel(11192).RequiredFuel().units == 5571
  {
    FuelChain3728();
    FuelStep(11192, 3728, 1843);
  }

  lemma FuelChain33583()
    ensures Fuel(33583).RequiredFuel().units == 16763
  {
    FuelChain11192();
    FuelStep(33583, 11192, 5571);
  }

  /** The doc-tests of `Fuel::required_fuel`. */
  lemma FuelRequiredFuelExamples()
    ensures Fuel(2).RequiredFuel() == Fuel(0)
    ensures Fuel(654).RequiredFuel() == Fuel(312)
  {
    FuelStop(2);
    FuelChain654();
  }

  /** The worked examples of the puzzle for fuel that needs fuel: 1969 needs 966, 100756 needs 50346. */
  lemma AllRequiredFuelExample1969()
    ensures Mass(1969).AllRequiredFuel() == Fuel(966)
  {
    FuelChain654();
    assert Mass(1969).RequiredFuel() == Fuel(654);
  }

  lemma AllRequiredFuelExample100756()
    ensures Mass(100756).AllRequiredFuel() == Fuel(50346)
  {
    FuelChain33583();
    assert Mass(100756).RequiredFuel() == Fuel(33583);
  }

  /**
    A place holding a `Fuel`: the receiver `&mut self` of `Iterator::next`
    and of `AddAssign::add_assign`.
  */
  class FuelCell {
    var value: Fuel

    constructor (f: Fuel)
      ensures value == f
    {
      value := f;
    }

    /** `Fuel::next`: `*self` becomes its own required fuel, and is yielded if positive. */
    method Next() returns (item: Option<Fuel>)
      requires value.units < ExactLimit
      modifies this
      ensures value == old(value).ToMass().RequiredFuel()
      ensures item == if value.units > 0 then Some(value) else None
    {
      var next := value.ToMass().RequiredFuel();
      value := next;
      if next.units > 0 {
        item := Some(next);
      } else {
        item := None;
      }
    }

    /** `AddAssign::add_assign`: `*self` becomes the sum. */
    method AddAssign(other: Fuel)
      modifies this
      ensures value == old(value).Plus(other)
    {
      value := Fuel(value.units + other.units);
    }
  }

  /**
    `Fuel::required_fuel` as the iterator protocol runs it: call `next` on
    the state until it yields nothing, adding every item to an accumulator.
  */
  method RequiredFuelByIteration(f: Fuel) returns (total: Fuel)
    requires f.units < ExactLimit
    ensures total == f.RequiredFuel()
  {
    var state := new FuelCell(f);
    var acc := new FuelCell(Fuel(0));
    var item := state.Next();
    while item.Some?
      invariant acc != state
      invariant state.value.units < ExactLimit
      invariant item == (if state.value.units > 0 then Some(state.value) else None)
      invariant acc.value.units + Sum(Trajectory(state.value)) + (if item.Some? then item.value.units else 0)
             == Sum(Trajectory(f))
      decreases state.value.units
    {
      acc.AddAssign(item.value);
      ghost var before := state.value;
      item := state.Next();
      TrajectoryUnfold(before);
    }
    assert acc.value.units == Sum(Trajectory(f));
    total := acc.value;
  }

  /** Every mass is small enough for the exact integer formula. */
  predicate Moderate(masses: seq<Mass>)
  {
    forall i | 0 <= i < |masses| :: masses[i].units < ExactLimit
  }

  /**
    A left fold that adds each fuel amount to the accumulator
    (`fold(acc, |acc, f| acc + f)`): the accumulator plus the list's sum.
  */
  function FoldPlus(acc: Fuel, fs: seq<Fuel>): (r: Fuel)
    ensures r.units == acc.units + Sum(fs)
    decreases |fs|
  {
    if fs == [] then acc else FoldPlus(acc.Plus(fs[0]), fs[1..])
  }

  /** The sum of a concatenation is the sum of the sums. */
  lemma {:induction false} SumAppend(a: seq<Fuel>, b: seq<Fuel>)
    ensures Sum(a + b) == Sum(a) + Sum(b)
    decreases |a|
  {
    if a != [] {
      SumAppend(a[1..], b);
      assert (a + b)[0] == a[0];
      assert (a + b)[1..] == a[1..] + b;
    } else {
      assert a + b == b;
    }
  }

  /** The fuel each module needs. */
  function RequiredFuels(masses: seq<Mass>): (fs: seq<Fuel>)
    requires Moderate(masses)
    ensures |fs| == |masses|
    ensures forall i | 0 <= i < |masses| :: fs[i] == masses[i].RequiredFuel()
  {
    seq(|masses|, i requires 0 <= i < |masses| && Moderate(masses) => masses[i].RequiredFuel())
  }

  /**
    `solve_part1` and the standalone `part_1`: the fuel of every module,
    added up from `Fuel(0)`; this is the sum of the modules' fuel.
  */
  function SolvePart1(masses: seq<Mass>): (r: Fuel)
    requires Moderate(masses)
    ensures r.units == Sum(RequiredFuels(masses))
  {
    FoldPlus(Fuel(0), RequiredFuels(masses))
  }

  /** No modules need no fuel. */
  lemma Part1Empty()
    ensures SolvePart1([]) == Fuel(0)
  {
  }

  /** The fuel of two lists of modules together is the sum of their fuels. */
  lemma Part1Append(a: seq<Mass>, b: seq<Mass>)
    requires Moderate(a) && Moderate(b)
    ensures Moderate(a + b)
    ensures SolvePart1(a + b) == SolvePart1(a).Plus(SolvePart1(b))
  {
    assert RequiredFuels(a + b) == RequiredFuels(a) + RequiredFuels(b);
    SumAppend(RequiredFuels(a), RequiredFuels(b));
  }

  /** The first module's fuel, then the rest's. */
  lemma FuelsUncons(masses: seq<Mass>)
    requires Moderate(masses) && masses != []
    ensures Moderate(masses[1..])
    ensures Sum(RequiredFuels(masses)) == masses[0].RequiredFuel().units + Sum(RequiredFuels(masses[1..]))
    ensures Sum(AllRequiredFuels(masses)) == masses[0].AllRequiredFuel().units + Sum(AllRequiredFuels(masses[1..]))
  {
    assert Moderate(masses[1..]) by {
      forall i | 0 <= i < |masses| - 1 ensures masses[1..][i].units < ExactLimit {
        assert masses[1..][i] == masses[i + 1];
      }
    }
    assert RequiredFuels(masses)[1..] == RequiredFuels(masses[1..]);
    assert AllRequiredFuels(masses)[1..] == AllRequiredFuels(masses[1..]);
  }

  /** The total of `m div 3` over the masses. */
  function Thirds(masses: seq<Mass>): nat
    decreases |masses|
  {
    if masses == [] then 0 else masses[0].units / 3 + Thirds(masses[1..])
  }

  /** Each module needs at most a third of its mass, so the total is at most the total of the thirds. */
  lemma {:induction false} Part1Bound(masses: seq<Mass>)
    requires Moderate(masses)
    ensures SolvePart1(masses).units <= Thirds(masses)
    decreases |masses|
  {
    if masses != [] {
      FuelsUncons(masses);
      Part1Bound(masses[1..]);
    }
  }

  /** The fuel of every module including the fuel for its fuel. */
  function AllRequiredFuels(masses: seq<Mass>): (fs: seq<Fuel>)
    requires Moderate(masses)
    ensures |fs| == |masses|
    ensures forall i | 0 <= i < |masses| :: fs[i] == masses[i].AllRequiredFuel()
  {
    seq(|masses|, i requires 0 <= i < |masses| && Moderate(masses) => masses[i].AllRequiredFuel())
  }

  /** `solve_part2`: `fold(Fuel(0), |acc, m| acc + m.all_required_fuel())`, the sum of the modules' total fuel. */
  function SolvePart2(masses: seq<Mass>): (r: Fuel)
    requires Moderate(masses)
    ensures r.units == Sum(AllRequiredFuels(masses))
  {
    FoldPlus(Fuel(0), AllRequiredFuels(masses))
  }

  /** Counting the fuel for the fuel never lowers the total, and at most adds half of it. */
  lemma {:induction false} Part2Bounds(masses: seq<Mass>)
    requires Moderate(masses)
    ensures SolvePart1(masses).units <= SolvePart2(masses).units
    ensures 2 * SolvePart2(masses).units <= 3 * SolvePart1(masses).units
    decreases |masses|
  {
    if masses != [] {
      FuelsUncons(masses);
      Part2Bounds(masses[1..]);
    }
  }

  /**
    `input_generator`: one mass per line, each line parsed as a `usize`;
    None where a line does not parse (the unwrap panics).
  */
  function InputGenerator(input: string): (r: Option<seq<Mass>>)
    ensures r.Some? <==> Text.ParseAll(Text.Lines(input)).Some?
    ensures r.Some? ==> |r.value| == |Text.Lines(input)|
    ensures r.Some? ==> forall i | 0 <= i < |r.value| :: Text.ParseUsize(Text.Lines(input)[i]) == Some(r.value[i].units)
  {
    match Text.ParseAll(Text.Lines(input))
    case None => None
    case Some(ns) => Some(seq(|ns|, i requires 0 <= i < |ns| => Mass(ns[i])))
  }
}
