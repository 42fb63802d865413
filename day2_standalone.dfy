/**
  The standalone day-2 binary: `part_1` runs the program it is given in
  place, and the search of `main` builds each candidate program from the
  parsed input and tries nouns and verbs in `[1, 99)`, counting the pairs
  it tries.
*/
module Day2Standalone {
  import opened Wrappers
  import opened Intcode

  /**
    `part_1`: runs `ns` in place and returns cell 0. None where the source
    panics (an index out of range, or `ns[0]` of an empty vector).
  */
  method Part1(ns: array<nat>) returns (r: Option<nat>)
    modifies ns
    ensures r == Output(Exec(old(ns[..]), 0))
    ensures r.Some? ==> ns[..] == Exec(old(ns[..]), 0).memory
  {
    var ok := Run(ns);
    if !ok || ns.Length == 0 {
      return None;
    }
    return Some(ns[0]);
  }

  /**
    The candidate memory `[clean[0], noun, verb] ++ clean[3..]`, with cells 1
    and 2 set once more: the input with cells 1 and 2 replaced. An input of
    fewer than three cells makes `clean[0]` or `clean[3..]` panic.
  */
  function Candidate(clean: seq<nat>, noun: nat, verb: nat): (r: Option<seq<nat>>)
    ensures r.Some? <==> |clean| >= 3
    ensures r.Some? ==> |r.value| == |clean| && r.value[1] == noun && r.value[2] == verb
    ensures r.Some? ==> forall i | 0 <= i < |clean| && i != 1 && i != 2 :: r.value[i] == clean[i]
  {
    if |clean| < 3 then None
    else Some(([clean[0], noun, verb] + clean[3..])[1 := noun][2 := verb])
  }

  /** Running a candidate is running the input with noun and verb in cells 1 and 2. */
  lemma CandidateRun(clean: seq<nat>, noun: nat, verb: nat)
    requires |clean| >= 3
    ensures Candidate(clean, noun, verb) == Some(clean[1 := noun][2 := verb])
    ensures Exec(Candidate(clean, noun, verb).value, 0) == RunWith(clean, noun, verb)
  {
    assert Candidate(clean, noun, verb).value == clean[1 := noun][2 := verb];
  }

  /**
    One try of the search of `main`: the candidate built from `clean` with
    this noun and verb, copied into a fresh vector and run by `part_1`.
  */
  method Try(clean: seq<nat>, noun: nat, verb: nat) returns (output: Option<nat>)
    ensures output == Output(RunWith(clean, noun, verb))
  {
    var nums := Candidate(clean, noun, verb);
    if nums.None? {
      return None;
    }
    CandidateRun(clean, noun, verb);
    var memory := new nat[|nums.value|](i requires 0 <= i < |nums.value| => nums.value[i]);
    assert memory[..] == nums.value;
    output := Part1(memory);
  }

  /**
    The first block of `main`: the candidate with noun 12 and verb 2, run by
    `part_1`. It is the puzzle-runner's part 1 on the same input.
  */
  method RestoredRun(clean: seq<nat>) returns (r: Option<nat>)
    ensures r == Output(RunWith(clean, 12, 2))
  {
    r := Try(clean, 12, 2);
  }

  /**
    The number of pairs the search of `main` has tried when it ends this
    way: every pair up to and including the one it stops at, 98 per noun,
    or all 98 * 98 when none hits.
  */
  function Tried(s: SearchResult): (r: int)
    ensures s.Exhausted? ==> r == 98 * 98
    ensures !s.Exhausted? && 1 <= s.noun < 99 && 1 <= s.verb < 99 ==>
      1 <= r <= 98 * 98 && s.noun == (r - 1) / 98 + 1 && s.verb == (r - 1) % 98 + 1
  {
    match s
    case Exhausted => 98 * 98
    case Found(n, v) => (n - 1) * 98 + v
    case Crashed(n, v) => (n - 1) * 98 + v
  }

  /** The search of `main` tries at least one pair and at most 98 * 98. */
  lemma TriedBound(clean: seq<nat>)
    ensures 1 <= Tried(Search(clean, 1, 99, 1, 1)) <= 98 * 98
  {
    SearchSound(clean, 1, 99, 1, 1);
  }

  /**
    The inner loop of the search of `main` for one noun: verbs 1 to 98,
    each counted in `iterations` before its try. It ends the whole search
    (a hit or a panic) with that pair, or finds nothing for this noun and
    leaves the search to the next one.
  */
  method SearchVerbs(clean: seq<nat>, noun: nat, iterations: nat) returns (stop: Option<SearchResult>, count: nat)
    requires 1 <= noun < 99
    ensures stop.None? ==> Search(clean, 1, 99, noun, 1) == Search(clean, 1, 99, noun + 1, 1)
    ensures stop.None? ==> count == iterations + 98
    ensures stop.Some? ==> stop.value == Search(clean, 1, 99, noun, 1) && !stop.value.Exhausted?
    ensures stop.Some? ==> stop.value.noun == noun && count == iterations + stop.value.verb
  {
    count := iterations;
    for verbCandidate := 1 to 99
      invariant Search(clean, 1, 99, noun, 1) == Search(clean, 1, 99, noun, verbCandidate)
      invariant count == iterations + verbCandidate - 1
    {
      count := count + 1;
      var output := Try(clean, noun, verbCandidate);
      SearchStep(clean, 1, 99, noun, verbCandidate);
      if output.None? {
        return Some(Crashed(noun, verbCandidate)), count;
      }
      if output.value == Target {
        return Some(Found(noun, verbCandidate)), count;
      }
    }
    stop := None;
  }

  /**
    The search of `main`: nouns and verbs each in `[1, 99)`, that is 1 to
    98, noun-major, stopping at the first hit or the first panic. Returns
    the answer and the number of pairs tried.
  */
  method SearchNounVerb(clean: seq<nat>) returns (r: Option<nat>, iterations: nat)
    ensures r == Answer(Search(clean, 1, 99, 1, 1))
    ensures iterations == Tried(Search(clean, 1, 99, 1, 1))
  {
    var noun, verb := 1, 1;
    iterations := 0;
    for nounCandidate := 1 to 99
      invariant Search(clean, 1, 99, 1, 1) == Search(clean, 1, 99, nounCandidate, 1)
      invariant noun == 1 && verb == 1
      invariant iterations == (nounCandidate - 1) * 98
    {
      var stop;
      stop, iterations := SearchVerbs(clean, nounCandidate, iterations);
      if stop.Some? && stop.value.Crashed? {
        assert Search(clean, 1, 99, 1, 1) == stop.value;
        return None, iterations;
      }
      if stop.Some? {
        noun := nounCandidate;
        verb := stop.value.verb;
        assert Search(clean, 1, 99, 1, 1) == Found(noun, verb);
        break;
      }
    }
    r := Some(100 * noun + verb);
  }
}
