/**
  The pieces of Rust's string handling the solvers rely on: `str::split` on
  one character, `str::lines`, and `str::parse` for `usize` and `isize` on a
  64-bit target, together with decimal printing as their inverse.
*/
module Text {
  import opened Wrappers

  // ---------------------------------------------------------------- split

  /** `s.split(sep)`: the pieces between separators; always at least one piece. */
  function Split(s: string, sep: char): (r: seq<string>)
    ensures |r| >= 1
    ensures forall i | 0 <= i < |r| :: sep !in r[i]
    decreases |s|
  {
    if |s| == 0 then [""]
    else if s[0] == sep then [""] + Split(s[1..], sep)
    else
      var rest := Split(s[1..], sep);
      [[s[0]] + rest[0]] + rest[1..]
  }

  /** The pieces glued together with `sep` between each two. */
  function Join(pieces: seq<string>, sep: char): string
    decreases |pieces|
  {
    if |pieces| == 0 then ""
    else if |pieces| == 1 then pieces[0]
    else pieces[0] + [sep] + Join(pieces[1..], sep)
  }

  /** Gluing the pieces of a split back together gives the original string. */
  lemma {:induction false} JoinSplit(s: string, sep: char)
    ensures Join(Split(s, sep), sep) == s
    decreases |s|
  {
    if |s| == 0 {
    } else if s[0] == sep {
      JoinSplit(s[1..], sep);
      assert s == [] + [sep] + s[1..];
    } else {
      JoinSplit(s[1..], sep);
      var rest := Split(s[1..], sep);
      var pieces := [[s[0]] + rest[0]] + rest[1..];
      assert Split(s, sep) == pieces;
      if |rest| == 1 {
        assert Join(pieces, sep) == [s[0]] + Join(rest, sep);
      } else {
        assert pieces[1..] == rest[1..];
        calc {
          Join(pieces, sep);
          ([s[0]] + rest[0]) + [sep] + Join(rest[1..], sep);
          [s[0]] + (rest[0] + [sep] + Join(rest[1..], sep));
          [s[0]] + Join(rest, sep);
        }
      }
      assert [s[0]] + s[1..] == s;
    }
  }

  /** A string without the separator is one piece. */
  lemma {:induction false} SplitWithout(a: string, sep: char)
    requires sep !in a
    ensures Split(a, sep) == [a]
    decreases |a|
  {
    if |a| > 0 {
      assert sep !in a[1..] by {
        forall i | 0 <= i < |a| - 1 ensures a[1..][i] != sep {
          assert a[1..][i] == a[i + 1];
        }
      }
      SplitWithout(a[1..], sep);
      assert [a[0]] + a[1..] == a;
    }
  }

  /** Splitting stops at the first separator. */
  lemma {:induction false} SplitFirst(a: string, sep: char, b: string)
    requires sep !in a
    ensures Split(a + [sep] + b, sep) == [a] + Split(b, sep)
    decreases |a|
  {
    var s := a + [sep] + b;
    if |a| == 0 {
      assert s[1..] == b;
    } else {
      assert s[1..] == a[1..] + [sep] + b;
      assert sep !in a[1..] by {
        forall i | 0 <= i < |a| - 1 ensures a[1..][i] != sep {
          assert a[1..][i] == a[i + 1];
        }
      }
      SplitFirst(a[1..], sep, b);
      assert [a[0]] + a[1..] == a;
    }
  }

  /** Splitting a join of separator-free pieces gives the pieces back. */
  lemma {:induction false} SplitJoin(pieces: seq<string>, sep: char)
    requires |pieces| >= 1
    requires forall i | 0 <= i < |pieces| :: sep !in pieces[i]
    ensures Split(Join(pieces, sep), sep) == pieces
    decreases |pieces|
  {
    if |pieces| == 1 {
      SplitWithout(pieces[0], sep);
    } else {
      SplitJoin(pieces[1..], sep);
      SplitFirst(pieces[0], sep, Join(pieces[1..], sep));
    }
  }

  // ---------------------------------------------------------------- lines

  /** A line ended by `\r\n` loses its `\r` as well. */
  function StripCR(line: string): string
  {
    if |line| > 0 && line[|line| - 1] == '\r' then line[..|line| - 1] else line
  }

  /**
    `s.lines()`: the pieces between `\n`s, each piece that a `\n` ends losing
    one trailing `\r`; a final line ending adds no empty line, so `""` has
    no lines at all.
  */
  function Lines(s: string): (r: seq<string>)
    ensures forall i | 0 <= i < |r| :: '\n' !in r[i]
  {
    var pieces := Split(s, '\n');
    var ended := pieces[..|pieces| - 1];
    var last := pieces[|pieces| - 1];
    seq(|ended|, i requires 0 <= i < |ended| => StripCR(ended[i])) + (if last == "" then [] else [last])
  }

  /** A non-empty string without line endings is one line; the empty string is none. */
  lemma LinesOfOneLine(s: string)
    requires '\n' !in s
    ensures Lines(s) == if s == "" then [] else [s]
  {
    SplitWithout(s, '\n');
  }

  /**
    The first line of a string is the text before its first `\n`, less one
    trailing `\r`; the lines of the rest follow.
  */
  lemma LinesCons(a: string, b: string)
    requires '\n' !in a
    ensures Lines(a + ['\n'] + b) == [StripCR(a)] + Lines(b)
  {
    SplitFirst(a, '\n', b);
    var pieces := Split(a + ['\n'] + b, '\n');
    var rest := Split(b, '\n');
    assert pieces == [a] + rest;
    assert pieces[..|pieces| - 1] == [a] + rest[..|rest| - 1];
    assert pieces[|pieces| - 1] == rest[|rest| - 1];
  }

  /** Two non-empty lines joined by `\n`, the first without `\r`, are those two lines. */
  lemma LinesOfTwo(a: string, b: string)
    requires '\n' !in a && '\n' !in b && '\r' !in a && b != ""
    ensures Lines(a + ['\n'] + b) == [a, b]
  {
    SplitFirst(a, '\n', b);
    SplitWithout(b, '\n');
    assert a == [] || a[|a| - 1] in a;
  }

  /** Every comma-separated token of every line, lines in order (`flat_map(|l| l.split(','))`). */
  function Tokens(lines: seq<string>): (r: seq<string>)
    ensures forall i | 0 <= i < |r| :: ',' !in r[i]
    decreases |lines|
  {
    if lines == [] then [] else Split(lines[0], ',') + Tokens(lines[1..])
  }

  // ---------------------------------------------------------------- numbers

  predicate IsDigit(c: char)
  {
    '0' <= c <= '9'
  }

  predicate AllDigits(s: string)
  {
    forall i | 0 <= i < |s| :: IsDigit(s[i])
  }

  /** The number a string of decimal digits denotes, most significant digit first. */
  function DigitsValue(s: string): nat
    requires AllDigits(s)
    decreases |s|
  {
    if s == [] then 0 else 10 * DigitsValue(s[..|s| - 1]) + (s[|s| - 1] as int - '0' as int)
  }

  /** `usize::MAX + 1` and `isize::MAX + 1` on a 64-bit target. */
  const UsizeLimit: nat := 0x1_0000_0000_0000_0000
  const IsizeLimit: nat := 0x8000_0000_0000_0000

  /** The digits of an unsigned number: the string without one leading `+`. */
  function Unsigned(s: string): (d: string)
    ensures |s| > 0 && s[0] == '+' ==> [s[0]] + d == s
    ensures !(|s| > 0 && s[0] == '+') ==> d == s
  {
    if |s| > 0 && s[0] == '+' then s[1..] else s
  }

  /** The digits of a signed number: the string without one leading `+` or `-`. */
  function Magnitude(s: string): (d: string)
    ensures |s| > 0 && (s[0] == '+' || s[0] == '-') ==> [s[0]] + d == s
    ensures !(|s| > 0 && (s[0] == '+' || s[0] == '-')) ==> d == s
  {
    if |s| > 0 && (s[0] == '+' || s[0] == '-') then s[1..] else s
  }

  /**
    `s.parse::<usize>()`: an optional `+`, then at least one ASCII digit and
    nothing else, denoting a value below 2^64. None is the parse error that
    the source unwraps, and so a panic.
  */
  function ParseUsize(s: string): (r: Option<nat>)
    ensures r.Some? <==> |Unsigned(s)| > 0 && AllDigits(Unsigned(s)) && DigitsValue(Unsigned(s)) < UsizeLimit
    ensures r.Some? ==> r.value == DigitsValue(Unsigned(s))
    ensures r.Some? ==> r.value < UsizeLimit
    ensures r.Some? ==> |s| > 0 && (s[0] == '+' || IsDigit(s[0]))
    ensures s == "" || s == "+" ==> r.None?
  {
    var digits := if |s| > 0 && s[0] == '+' then s[1..] else s;
    if |digits| > 0 && AllDigits(digits) && DigitsValue(digits) < UsizeLimit then Some(DigitsValue(digits))
    else None
  }

  /**
    `s.parse::<isize>()`: an optional `+` or `-`, then at least one ASCII
    digit and nothing else, denoting a value in `[-2^63, 2^63)`.
  */
  function ParseIsize(s: string): (r: Option<int>)
    ensures r.Some? <==>
      (|Magnitude(s)| > 0 && AllDigits(Magnitude(s)) &&
       if |s| > 0 && s[0] == '-' then DigitsValue(Magnitude(s)) <= IsizeLimit else DigitsValue(Magnitude(s)) < IsizeLimit)
    ensures r.Some? ==> r.value == if s[0] == '-' then -(DigitsValue(Magnitude(s)) as int) else DigitsValue(Magnitude(s))
    ensures r.Some? ==> -(IsizeLimit as int) <= r.value < IsizeLimit
    ensures s == "" || s == "+" || s == "-" ==> r.None?
  {
    var negative := |s| > 0 && s[0] == '-';
    var digits := if |s| > 0 && (s[0] == '+' || s[0] == '-') then s[1..] else s;
    if |digits| == 0 || !AllDigits(digits) then None
    else if negative then (if DigitsValue(digits) <= IsizeLimit then Some(-(DigitsValue(digits) as int)) else None)
    else (if DigitsValue(digits) < IsizeLimit then Some(DigitsValue(digits)) else None)
  }

  /** Tokens that are not decimal numbers do not parse; a sign is taken once. */
  lemma ParseExamples()
    ensures ParseUsize("1a") == None && ParseUsize("+7") == Some(7) && ParseUsize("-7") == None
    ensures ParseUsize("42") == Some(42) && ParseUsize("") == None && ParseUsize("++1") == None
    ensures ParseIsize("-5") == Some(-5) && ParseIsize("+5") == Some(5) && ParseIsize("5-") == None
  {
    assert !AllDigits("1a") by { assert !IsDigit("1a"[1]); }
    assert !AllDigits("+1") by { assert !IsDigit("+1"[0]); }
    assert !AllDigits("5-") by { assert !IsDigit("5-"[1]); }
    assert !AllDigits("-7") by { assert !IsDigit("-7"[0]); }
    assert DigitsValue("42") == 42 by { assert "42"[..1] == "4"; }
    assert Unsigned("+7") == "7";
    assert Magnitude("-5") == "5" && Magnitude("+5") == "5";
  }

  /** The decimal digit for `d < 10`. */
  function DigitChar(d: nat): (c: char)
    requires d < 10
    ensures IsDigit(c) && c as int - '0' as int == d
  {
    (d + '0' as int) as char
  }

  /** The decimal representation of `n`, without leading zeros. */
  function ShowNat(n: nat): (s: string)
    ensures |s| >= 1 && AllDigits(s)
    decreases n
  {
    if n < 10 then [DigitChar(n)] else ShowNat(n / 10) + [DigitChar(n % 10)]
  }

  /** The digits of `ShowNat(n)` denote `n`. */
  lemma {:induction false} ShowNatValue(n: nat)
    ensures DigitsValue(ShowNat(n)) == n
    decreases n
  {
    var s := ShowNat(n);
    if n >= 10 {
      ShowNatValue(n / 10);
      assert s[..|s| - 1] == ShowNat(n / 10);
    }
  }

  /** Parsing the decimal representation of an in-range number gives the number. */
  lemma ParseShowNat(n: nat)
    requires n < UsizeLimit
    ensures ParseUsize(ShowNat(n)) == Some(n)
  {
    ShowNatValue(n);
  }

  /** The decimal representation of an integer, with `-` for negatives. */
  function ShowInt(n: int): (s: string)
  {
    if n < 0 then "-" + ShowNat(-n) else ShowNat(n)
  }

  /** Parsing the decimal representation of an in-range integer gives the integer. */
  lemma ParseShowInt(n: int)
    requires -(IsizeLimit as int) <= n < IsizeLimit
    ensures ParseIsize(ShowInt(n)) == Some(n)
  {
    var s := ShowInt(n);
    if n < 0 {
      var digits := ShowNat(-n);
      ShowNatValue(-n);
      assert s == "-" + digits;
      assert s[0] == '-' && s[1..] == digits;
      assert |digits| > 0 && AllDigits(digits) && DigitsValue(digits) <= IsizeLimit;
    } else {
      ShowNatValue(n);
      assert s == ShowNat(n);
      assert IsDigit(s[0]);
      assert |s| > 0 && AllDigits(s) && DigitsValue(s) < IsizeLimit;
    }
  }

  // ---------------------------------------------------------------- lists of numbers

  /**
    `tokens.map(|s| s.parse().unwrap()).collect()`: every token parsed as a
    `usize`, in order; None when some token does not parse (the unwrap panics).
  */
  function ParseAll(tokens: seq<string>): (r: Option<seq<nat>>)
    ensures r.Some? <==> forall i | 0 <= i < |tokens| :: ParseUsize(tokens[i]).Some?
    ensures r.Some? ==> |r.value| == |tokens|
    ensures r.Some? ==> forall i | 0 <= i < |tokens| :: ParseUsize(tokens[i]) == Some(r.value[i])
    decreases |tokens|
  {
    if tokens == [] then Some([])
    else
      match ParseUsize(tokens[0])
      case None => None
      case Some(x) =>
        match ParseAll(tokens[1..])
        case None => None
        case Some(xs) => Some([x] + xs)
  }

  /** The decimal representations of the numbers, in order. */
  function ShowAll(xs: seq<nat>): (r: seq<string>)
    ensures |r| == |xs|
    ensures forall i | 0 <= i < |xs| :: r[i] == ShowNat(xs[i])
  {
    seq(|xs|, i requires 0 <= i < |xs| => ShowNat(xs[i]))
  }

  /** Parsing the decimal representations of in-range numbers gives the numbers back. */
  lemma ParseShowAll(xs: seq<nat>)
    requires forall i | 0 <= i < |xs| :: xs[i] < UsizeLimit
    ensures ParseAll(ShowAll(xs)) == Some(xs)
  {
    var shown := ShowAll(xs);
    forall i | 0 <= i < |xs| ensures ParseUsize(shown[i]) == Some(xs[i]) {
      ParseShowNat(xs[i]);
    }
    var r := ParseAll(shown);
    assert r.Some?;
    assert r.value == xs;
  }

  /** Showing two lists one after the other shows their concatenation. */
  lemma ShowAllAppend(a: seq<nat>, b: seq<nat>)
    ensures ShowAll(a) + ShowAll(b) == ShowAll(a + b)
  {
    forall i | 0 <= i < |a| + |b| ensures (ShowAll(a) + ShowAll(b))[i] == ShowAll(a + b)[i] {
      if i < |a| {
        assert (a + b)[i] == a[i];
      } else {
        assert (a + b)[i] == b[i - |a|];
      }
    }
  }

  /** The numbers written out with commas between them, on one line. */
  function CommaSeparated(xs: seq<nat>): string
  {
    Join(ShowAll(xs), ',')
  }

  /** Joining separator-free pieces with another separator brings in none of the first. */
  lemma {:induction false} JoinAvoids(pieces: seq<string>, sep: char, c: char)
    requires c != sep
    requires forall i | 0 <= i < |pieces| :: c !in pieces[i]
    ensures c !in Join(pieces, sep)
    decreases |pieces|
  {
    if |pieces| > 1 {
      JoinAvoids(pieces[1..], sep, c);
    }
  }
}
