/**
  The day-2 solver of the puzzle-runner crate: a run on a copy of the input
  with a given noun and verb, part 1 (noun 12, verb 2), and part 2, the
  search over nouns and verbs in `[0, 100)`.
*/
module Day2 {
  import opened Wrappers
  import opened Intcode

  /**
    `solve_with_noun_and_verb`: copies the input (the caller's slice is a
    value and stays as it was), puts noun and verb in cells 1 and 2, runs
    the copy in place and returns its cell 0. None where the source panics.
  */
  method SolveWithNounAndVerb(input: seq<nat>, noun: nat, verb: nat) returns (r: Option<nat>)
    ensures r == Output(RunWith(input, noun, verb))
    ensures r.Some? ==> |input| >= 3 && r.value == Exec(input[1 := noun][2 := verb], 0).memory[0]
  {
    if |input| < 3 {
      // `registers[1]` or `registers[2]` is out of range
      return None;
    }
    var registers := new nat[|input|](i requires 0 <= i < |input| => input[i]);
    registers[1] := noun;
    registers[2] := verb;
    assert registers[..] == input[1 := noun][2 := verb];
    var ok := Run(registers);
    if !ok {
      return None;
    }
    return Some(registers[0]);
  }

  /** `solve_part1`: the run with noun 12 and verb 2. */
  method SolvePart1(input: seq<nat>) returns (r: Option<nat>)
    ensures r == Output(RunWith(input, 12, 2))
  {
    r := SolveWithNounAndVerb(input, 12, 2);
  }

  /**
    The inner loop of `solve_part2` for one noun: verbs 0 to 99. It ends the
    whole search with the first pair that hits (the `break 'outer`) or whose
    run panics, or finds nothing for this noun and leaves the search to the
    next one.
  */
  method SearchVerbs(input: seq<nat>, noun: nat) returns (stop: Option<SearchResult>)
    requires noun < 100
    ensures stop.None? ==> Search(input, 0, 100, noun, 0) == Search(input, 0, 100, noun + 1, 0)
    ensures stop.Some? ==> stop.value == Search(input, 0, 100, noun, 0) && !stop.value.Exhausted?
    ensures stop.Some? ==> stop.value.noun == noun
  {
    for verbCandidate := 0 to 100
      invariant Search(input, 0, 100, noun, 0) == Search(input, 0, 100, noun, verbCandidate)
    {
      var output := SolveWithNounAndVerb(input, noun, verbCandidate);
      SearchStep(input, 0, 100, noun, verbCandidate);
      if output.None? {
        return Some(Crashed(noun, verbCandidate));
      }
      if output.value == Target {
        return Some(Found(noun, verbCandidate));
      }
    }
    stop := None;
  }

  /**
    `solve_part2`: nouns and verbs each in `[0, 100)`, noun-major, stopping
    at the first pair whose run puts the target in cell 0; the answer is
    `100 * noun + verb`, or 101 from the defaults when no pair hits.
  */
  method SolvePart2(input: seq<nat>) returns (r: Option<nat>)
    ensures r == Answer(Search(input, 0, 100, 0, 0))
  {
    var noun, verb := 1, 1;
    for nounCandidate := 0 to 100
      invariant Search(input, 0, 100, 0, 0) == Search(input, 0, 100, nounCandidate, 0)
      invariant noun == 1 && verb == 1
    {
      var stop := SearchVerbs(input, nounCandidate);
      if stop.Some? {
        if stop.value.Crashed? {
          assert Search(input, 0, 100, 0, 0) == stop.value;
          return None;
        }
        noun, verb := nounCandidate, stop.value.verb;
        assert Search(input, 0, 100, 0, 0) == Found(noun, verb);
        break;
      }
    }
    r := Some(100 * noun + verb);
  }

  /**
    Part 2 in terms of the search's meaning: either the answer encodes the
    first hitting pair in noun-major order, with every earlier pair missing,
    or no pair in `[0, 100)²` hits and the answer is 101, or some run panics.
  */
  lemma {:induction false} SolvePart2Meaning(input: seq<nat>)
    ensures var a := Answer(Search(input, 0, 100, 0, 0));
      || (exists n, v :: InGrid(0, 100, n, v) && Hits(input, n, v) && a == Some(100 * n + v)
            && forall n', v' :: InGrid(0, 100, n', v') && Before(n', v', n, v) ==> Misses(input, n', v'))
      || ((forall n, v :: InGrid(0, 100, n, v) ==> Misses(input, n, v)) && a == Some(101))
      || (exists n, v :: InGrid(0, 100, n, v) && RunWith(input, n, v) == Panicked && a == None)
  {
    SearchSound(input, 0, 100, 0, 0);
    match Search(input, 0, 100, 0, 0)
    case Found(n, v) =>
      assert InGrid(0, 100, n, v) && Hits(input, n, v);
    case Crashed(n, v) =>
      assert InGrid(0, 100, n, v) && RunWith(input, n, v) == Panicked;
    case Exhausted =>
  }
}
