/**
  The stored-program calculator shared by both versions of the day-2 solver:
  decoding an opcode, the effect of one instruction, a whole run, the
  interpreter loop that runs a program in place on an array, and the
  noun-major search for the inputs that produce the target output.

  Memory cells hold unbounded naturals (the source's `usize` additions and
  multiplications are taken not to overflow). Every index the source uses
  unchecked is checked here: where the source would panic, the model says so
  with `Panicked`, `Fault` or `None`.
*/
module Intcode {
  import opened Wrappers
  import Text

  /** The instructions the calculator knows; every other code is `Unknown`. */
  datatype Opcode = Add | Multiply | Halt | Unknown

  type Memory = seq<nat>

  /** `Opcode::from`: 1 is Add, 2 is Multiply, exactly 99 is Halt, anything else is Unknown. */
  function Decode(n: nat): (op: Opcode)
    ensures op == Add <==> n == 1
    ensures op == Multiply <==> n == 2
    ensures op == Halt <==> n == 99
    ensures op == Unknown <==> n != 1 && n != 2 && n != 99
  {
    match n
    case 1 => Add
    case 2 => Multiply
    case 99 => Halt
    case _ => Unknown
  }

  /** The doc-test examples of `Opcode::from`, and 0 as one more unknown code. */
  lemma DecodeExamples()
    ensures Decode(1) == Add && Decode(2) == Multiply && Decode(99) == Halt
    ensures Decode(3) == Unknown && Decode(0) == Unknown && Decode(98) == Unknown
  {
  }

  /**
    Whether an Add or Multiply at `pc` can run: the three cells after the
    opcode exist and each of them names a cell that exists. Otherwise one of
    the source's indexing operations panics.
  */
  predicate OperandsInRange(mem: Memory, pc: nat)
  {
    pc + 3 < |mem| && mem[pc + 1] < |mem| && mem[pc + 2] < |mem| && mem[pc + 3] < |mem|
  }

  /** What one instruction does: go on with a new memory, stop (Halt), or panic. */
  datatype StepResult = Continue(memory: Memory) | Stop | Fault

  /** The effect of the instruction at `pc`, operands addressed by position. */
  function Step(mem: Memory, pc: nat): (r: StepResult)
    requires pc < |mem|
    ensures r.Stop? <==> Decode(mem[pc]) == Halt
    ensures r.Fault? <==> (Decode(mem[pc]) == Add || Decode(mem[pc]) == Multiply) && !OperandsInRange(mem, pc)
    ensures r.Continue? ==> |r.memory| == |mem|
  {
    match Decode(mem[pc])
    case Add =>
      if OperandsInRange(mem, pc) then Continue(mem[mem[pc + 3] := mem[mem[pc + 1]] + mem[mem[pc + 2]]])
      else Fault
    case Multiply =>
      if OperandsInRange(mem, pc) then Continue(mem[mem[pc + 3] := mem[mem[pc + 1]] * mem[mem[pc + 2]]])
      else Fault
    case Halt => Stop
    case Unknown => Continue(mem)
  }

  /**
    An Add writes the sum of the cells named by `pc+1` and `pc+2` into the
    cell named by `pc+3`; no other cell changes and the length is kept.
  */
  lemma AddStep(mem: Memory, pc: nat)
    requires pc < |mem| && mem[pc] == 1 && OperandsInRange(mem, pc)
    ensures Step(mem, pc).Continue?
    ensures var m := Step(mem, pc).memory;
      |m| == |mem| && m[mem[pc + 3]] == mem[mem[pc + 1]] + mem[mem[pc + 2]]
      && forall i | 0 <= i < |mem| && i != mem[pc + 3] :: m[i] == mem[i]
  {
  }

  /** A Multiply is the same as an Add except that it writes the product. */
  lemma MultiplyStep(mem: Memory, pc: nat)
    requires pc < |mem| && mem[pc] == 2 && OperandsInRange(mem, pc)
    ensures Step(mem, pc).Continue?
    ensures var m := Step(mem, pc).memory;
      |m| == |mem| && m[mem[pc + 3]] == mem[mem[pc + 1]] * mem[mem[pc + 2]]
      && forall i | 0 <= i < |mem| && i != mem[pc + 3] :: m[i] == mem[i]
  {
  }

  /** An unknown opcode is a no-op: memory is unchanged and the run goes on. */
  lemma UnknownStep(mem: Memory, pc: nat)
    requires pc < |mem| && Decode(mem[pc]) == Unknown
    ensures Step(mem, pc) == Continue(mem)
  {
  }

  /** How a whole run ends: with the final memory, or with a panic. */
  datatype Outcome = Exited(memory: Memory) | Panicked

  /**
    The run from offset `pc`: the offset grows by 4 after every instruction
    other than Halt, and the run exits once the offset reaches the length.
  */
  function Exec(mem: Memory, pc: nat): (r: Outcome)
    ensures r.Exited? ==> |r.memory| == |mem|
    decreases |mem| - pc
  {
    if pc >= |mem| then Exited(mem)
    else
      match Step(mem, pc)
      case Stop => Exited(mem)
      case Fault => Panicked
      case Continue(next) => Exec(next, pc + 4)
  }

  /** Halt exits with memory untouched; so does running off the end. */
  lemma HaltExits(mem: Memory, pc: nat)
    requires pc >= |mem| || Decode(mem[pc]) == Halt
    ensures Exec(mem, pc) == Exited(mem)
  {
  }

  /** The doc-test of `part_1`: `[1,0,0,0,99]` becomes `[2,0,0,0,99]`. */
  lemma ExecSmallExample()
    ensures Exec([1, 0, 0, 0, 99], 0) == Exited([2, 0, 0, 0, 99])
  {
    var m0: Memory := [1, 0, 0, 0, 99];
    var m1: Memory := [2, 0, 0, 0, 99];
    assert Step(m0, 0) == Continue(m1);
    assert Step(m1, 4) == Stop;
  }

  /** The worked example of the puzzle: the program halts with 3500 in cell 0. */
  lemma ExecLargerExample()
    ensures Exec([1, 9, 10, 3, 2, 3, 11, 0, 99, 30, 40, 50], 0)
         == Exited([3500, 9, 10, 70, 2, 3, 11, 0, 99, 30, 40, 50])
  {
    var m0: Memory := [1, 9, 10, 3, 2, 3, 11, 0, 99, 30, 40, 50];
    var m1: Memory := [1, 9, 10, 70, 2, 3, 11, 0, 99, 30, 40, 50];
    var m2: Memory := [3500, 9, 10, 70, 2, 3, 11, 0, 99, 30, 40, 50];
    assert Step(m0, 0) == Continue(m1);
    assert Step(m1, 4) == Continue(m2);
    assert Step(m2, 8) == Stop;
  }

  /** `OperandsInRange`, read off the array (an index out of range panics in the source). */
  predicate InRange(mem: array<nat>, offset: nat)
    reads mem
    ensures InRange(mem, offset) <==> offset < mem.Length && OperandsInRange(mem[..], offset)
  {
    offset + 3 < mem.Length && mem[offset + 1] < mem.Length
    && mem[offset + 2] < mem.Length && mem[offset + 3] < mem.Length
  }

  /**
    The interpreter loop (`while offset < len`), run in place on `mem`. It
    returns false exactly when the source would panic; otherwise `mem` holds
    the final memory of the run.
  */
  method Run(mem: array<nat>) returns (ok: bool)
    modifies mem
    ensures ok <==> Exec(old(mem[..]), 0).Exited?
    ensures ok ==> mem[..] == Exec(old(mem[..]), 0).memory
  {
    var offset := 0;
    while offset < mem.Length
      invariant Exec(mem[..], offset) == Exec(old(mem[..]), 0)
      decreases mem.Length - offset
    {
      ghost var before := mem[..];
      var op := mem[offset];
      match Decode(op) {
        case Halt =>
          break;
        case Unknown =>
        case Add =>
          if !InRange(mem, offset) {
            return false;
          }
          var arg1 := mem[mem[offset + 1]];
          var arg2 := mem[mem[offset + 2]];
          var res := mem[offset + 3];
          mem[res] := arg1 + arg2;
          assert Step(before, offset) == Continue(mem[..]);
        case Multiply =>
          if !InRange(mem, offset) {
            return false;
          }
          var arg1 := mem[mem[offset + 1]];
          var arg2 := mem[mem[offset + 2]];
          var res := mem[offset + 3];
          mem[res] := arg1 * arg2;
          assert Step(before, offset) == Continue(mem[..]);
      }
      offset := offset + 4;
    }
    return true;
  }

  /** Cell 0 of a finished run, or None when the run panicked or memory is empty (`ns[0]` panics). */
  function Output(o: Outcome): (r: Option<nat>)
    ensures r.Some? <==> o.Exited? && |o.memory| > 0
    ensures r.Some? ==> r.value == o.memory[0]
  {
    match o
    case Panicked => None
    case Exited(m) => if |m| > 0 then Some(m[0]) else None
  }

  /**
    The run of `program` with cells 1 and 2 replaced by `noun` and `verb`. A
    program of fewer than three cells has no cell 2 to set, and the source
    panics.
  */
  function RunWith(program: Memory, noun: nat, verb: nat): (r: Outcome)
    ensures |program| < 3 ==> r == Panicked
    ensures |program| >= 3 ==> r == Exec(program[1 := noun][2 := verb], 0)
  {
    if |program| < 3 then Panicked else Exec(program[1 := noun][2 := verb], 0)
  }

  /** The output both searches look for. */
  const Target: nat := 19_690_720

  /** The run with these inputs finishes with the target in cell 0. */
  predicate Hits(program: Memory, noun: nat, verb: nat)
  {
    Output(RunWith(program, noun, verb)) == Some(Target)
  }

  /** The run with these inputs finishes, with something else in cell 0. */
  predicate Misses(program: Memory, noun: nat, verb: nat)
  {
    RunWith(program, noun, verb).Exited? && !Hits(program, noun, verb)
  }

  /** How the search ends: the first hit, no hit at all, or a run that panicked. */
  datatype SearchResult = Found(noun: nat, verb: nat) | Exhausted | Crashed(noun: nat, verb: nat)

  /**
    The noun-major search over `[lo, hi)²`, from the pair `(n, v)` on: each
    verb of one noun is tried before the next noun.
  */
  function Search(program: Memory, lo: nat, hi: nat, n: nat, v: nat): (r: SearchResult)
    requires lo <= n <= hi && lo <= v <= hi
    ensures r.Found? ==> InGrid(lo, hi, r.noun, r.verb) && !Before(r.noun, r.verb, n, v) && Hits(program, r.noun, r.verb)
    ensures r.Crashed? ==> InGrid(lo, hi, r.noun, r.verb) && !Before(r.noun, r.verb, n, v) && RunWith(program, r.noun, r.verb) == Panicked
    decreases hi - n, hi - v
  {
    if n == hi then Exhausted
    else if v == hi then Search(program, lo, hi, n + 1, lo)
    else
      match RunWith(program, n, v)
      case Panicked => Crashed(n, v)
      case Exited(_) =>
        if Hits(program, n, v) then Found(n, v) else Search(program, lo, hi, n, v + 1)
  }

  /** One step of the search: a panic ends it, a hit ends it, a miss moves on to the next verb. */
  lemma SearchStep(program: Memory, lo: nat, hi: nat, n: nat, v: nat)
    requires lo <= n < hi && lo <= v < hi
    ensures Output(RunWith(program, n, v)).None? ==> Search(program, lo, hi, n, v) == Crashed(n, v)
    ensures Output(RunWith(program, n, v)) == Some(Target) ==> Search(program, lo, hi, n, v) == Found(n, v)
    ensures Output(RunWith(program, n, v)).Some? && Output(RunWith(program, n, v)) != Some(Target) ==>
      Search(program, lo, hi, n, v) == Search(program, lo, hi, n, v + 1)
  {
  }

  /** The pair `(n, v)` lies in the square `[lo, hi)²`. */
  predicate InGrid(lo: nat, hi: nat, n: nat, v: nat)
  {
    lo <= n < hi && lo <= v < hi
  }

  /** `(n, v)` comes strictly before `(n1, v1)` in noun-major order. */
  predicate Before(n: nat, v: nat, n1: nat, v1: nat)
  {
    n < n1 || (n == n1 && v < v1)
  }

  /**
    What the search promises. A `Found` pair is in range and hits, and every
    pair tried before it ran to the end and missed. `Crashed` names a pair
    whose run panicked after every earlier pair missed. `Exhausted` means
    every pair in range ran to the end and missed.
  */
  lemma {:induction false} SearchSound(program: Memory, lo: nat, hi: nat, n0: nat, v0: nat)
    requires lo <= n0 <= hi && lo <= v0 <= hi
    ensures match Search(program, lo, hi, n0, v0)
      case Found(n, v) =>
        InGrid(lo, hi, n, v) && !Before(n, v, n0, v0) && Hits(program, n, v)
        && forall n', v' :: InGrid(lo, hi, n', v') && !Before(n', v', n0, v0) && Before(n', v', n, v)
             ==> Misses(program, n', v')
      case Crashed(n, v) =>
        InGrid(lo, hi, n, v) && !Before(n, v, n0, v0) && RunWith(program, n, v) == Panicked
        && forall n', v' :: InGrid(lo, hi, n', v') && !Before(n', v', n0, v0) && Before(n', v', n, v)
             ==> Misses(program, n', v')
      case Exhausted =>
        forall n', v' :: InGrid(lo, hi, n', v') && !Before(n', v', n0, v0) ==> Misses(program, n', v')
    decreases hi - n0, hi - v0
  {
    if n0 == hi {
    } else if v0 == hi {
      SearchSound(program, lo, hi, n0 + 1, lo);
    } else if RunWith(program, n0, v0).Panicked? || Hits(program, n0, v0) {
    } else {
      SearchSound(program, lo, hi, n0, v0 + 1);
    }
  }

  /** The search's answer `100 * noun + verb`; the defaults noun = verb = 1 give 101; a crash gives None. */
  function Answer(s: SearchResult): (r: Option<nat>)
    ensures s.Found? ==> r == Some(100 * s.noun + s.verb)
    ensures s.Exhausted? ==> r == Some(101)
    ensures s.Crashed? <==> r.None?
  {
    match s
    case Found(n, v) => Some(100 * n + v)
    case Exhausted => Some(100 * 1 + 1)
    case Crashed(_, _) => None
  }

  /** The comma-separated tokens of all lines of the input, in order. */
  function ProgramTokens(input: string): seq<string>
  {
    Text.Tokens(Text.Lines(input))
  }

  /**
    `input_generator` (and `parse_input`, its copy): every comma-separated
    token of every line, in order, parsed as a `usize`. None when a token is
    not a number; the source's `unwrap` panics there.
  */
  function ParseProgram(input: string): (r: Option<Memory>)
    ensures r.Some? <==> forall i | 0 <= i < |ProgramTokens(input)| :: Text.ParseUsize(ProgramTokens(input)[i]).Some?
    ensures r.Some? ==> |r.value| == |ProgramTokens(input)|
    ensures r.Some? ==> forall i | 0 <= i < |ProgramTokens(input)| :: Text.ParseUsize(ProgramTokens(input)[i]) == Some(r.value[i])
  {
    Text.ParseAll(ProgramTokens(input))
  }

  /**
    A program printed as one comma-separated line holds no line ending and
    splits at its commas into the printed numbers.
  */
  lemma CommaLine(xs: Memory)
    requires xs != []
    ensures var s := Text.CommaSeparated(xs);
      s != "" && '\n' !in s && '\r' !in s && Text.Split(s, ',') == Text.ShowAll(xs)
  {
    var shown := Text.ShowAll(xs);
    var s := Text.CommaSeparated(xs);
    forall i | 0 <= i < |shown| ensures '\n' !in shown[i] && '\r' !in shown[i] && ',' !in shown[i] {
      assert Text.AllDigits(shown[i]);
    }
    Text.JoinAvoids(shown, ',', '\n');
    Text.JoinAvoids(shown, ',', '\r');
    Text.SplitJoin(shown, ',');
    assert s != "" by {
      if |shown| > 1 {
        assert s == shown[0] + [','] + Text.Join(shown[1..], ',');
      }
    }
  }

  /** Printing a program as one comma-separated line and parsing it again gives it back. */
  lemma ParseProgramRoundTrip(xs: Memory)
    requires forall i | 0 <= i < |xs| :: xs[i] < Text.UsizeLimit
    ensures ParseProgram(Text.CommaSeparated(xs)) == Some(xs)
  {
    var s := Text.CommaSeparated(xs);
    if xs == [] {
      assert Text.Lines(s) == [];
    } else {
      CommaLine(xs);
      Text.LinesOfOneLine(s);
      assert Text.Tokens([s]) == Text.Split(s, ',') + Text.Tokens([]);
      assert ProgramTokens(s) == Text.ShowAll(xs);
      Text.ParseShowAll(xs);
    }
  }

  /**
    A program printed over two lines parses to the numbers of both lines in
    order: the tokens run across line endings as across commas.
  */
  lemma ParseProgramTwoLines(a: Memory, b: Memory)
    requires a != [] && b != []
    requires forall i | 0 <= i < |a| :: a[i] < Text.UsizeLimit
    requires forall i | 0 <= i < |b| :: b[i] < Text.UsizeLimit
    ensures ParseProgram(Text.CommaSeparated(a) + ['\n'] + Text.CommaSeparated(b)) == Some(a + b)
  {
    var sa, sb := Text.CommaSeparated(a), Text.CommaSeparated(b);
    CommaLine(a);
    CommaLine(b);
    var s := sa + ['\n'] + sb;
    Text.LinesOfTwo(sa, sb);
    assert Text.Tokens([sb]) == Text.ShowAll(b) by {
      assert Text.Tokens([sb]) == Text.Split(sb, ',') + Text.Tokens([]);
    }
    assert Text.Tokens([sa, sb]) == Text.ShowAll(a) + Text.ShowAll(b) by {
      assert [sa, sb][1..] == [sb];
    }
    Text.ShowAllAppend(a, b);
    assert ProgramTokens(s) == Text.ShowAll(a + b);
    Text.ParseShowAll(a + b);
  }

  /** The doc-test: `"1,2,3\n4,5"` parses to `[1,2,3,4,5]`, across lines and commas. */
  lemma ParseProgramExample()
    ensures ParseProgram("1,2,3\n4,5") == Some([1, 2, 3, 4, 5])
  {
    var a: Memory, b: Memory := [1, 2, 3], [4, 5];
    assert Text.ShowAll(a) == ["1", "2", "3"];
    assert Text.ShowAll(b) == ["4", "5"];
    assert Text.CommaSeparated(a) + ['\n'] + Text.CommaSeparated(b) == "1,2,3\n4,5";
    ParseProgramTwoLines(a, b);
    assert a + b == [1, 2, 3, 4, 5];
  }
}
