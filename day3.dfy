/**
  The wire tracer (day 3), shared by the puzzle-runner crate and the
  standalone binary, which differ only in spelling a coordinate as a struct
  or as a pair: the path tokens, the walk of each wire from the origin with
  the step at which each point is first reached, the crossings of all wires
  and the two minimisations over them.
*/
module Day3 {
  import opened Wrappers
  import Text

  // ---------------------------------------------------------------- coordinates

  datatype Dir = Up | Down | Left | Right | Unknown

  /** A direction and a signed distance (`(Dir, isize)`). */
  type WirePath = (Dir, int)

  /** A grid point (`Coord(isize, isize)`, or `(isize, isize)` in the standalone binary). */
  datatype Coord = Coord(x: int, y: int)

  const Origin: Coord := Coord(0, 0)

  function Abs(n: int): (a: nat)
    ensures a == n || a == -n
  {
    if n < 0 then -n else n
  }

  /** `manhatten_distance`: the length of the shortest grid path; zero exactly between equal points. */
  function ManhattanDistance(l: Coord, r: Coord): (d: nat)
    ensures d == 0 <==> l == r
    ensures d >= Abs(l.x - r.x) && d >= Abs(l.y - r.y)
  {
    Abs(l.x - r.x) + Abs(l.y - r.y)
  }

  /** The distance is symmetric and obeys the triangle inequality. */
  lemma ManhattanMetric(a: Coord, b: Coord, c: Coord)
    ensures ManhattanDistance(a, b) == ManhattanDistance(b, a)
    ensures ManhattanDistance(a, c) <= ManhattanDistance(a, b) + ManhattanDistance(b, c)
  {
  }

  // ---------------------------------------------------------------- path tokens

  /** The direction a token's first character names; any other character is `Unknown`. */
  function DirOf(c: char): (d: Dir)
    ensures d == Up <==> c == 'U'
    ensures d == Down <==> c == 'D'
    ensures d == Left <==> c == 'L'
    ensures d == Right <==> c == 'R'
  {
    match c
    case 'U' => Up
    case 'D' => Down
    case 'L' => Left
    case 'R' => Right
    case _ => Unknown
  }

  /**
    `parse_path`: `split_at(1)` cuts off the first byte, which panics on an
    empty token or when the first character takes more than one byte in
    UTF-8 (a code point of 128 or more); the rest must parse as an `isize`.
    None is a panic.
  */
  function ParsePath(s: string): (r: Option<WirePath>)
    ensures r.Some? <==> |s| > 0 && (s[0] as int) < 128 && Text.ParseIsize(s[1..]).Some?
    ensures r.Some? ==> r.value.0 == DirOf(s[0]) && Some(r.value.1) == Text.ParseIsize(s[1..])
  {
    if |s| == 0 || s[0] as int >= 128 then None
    else
      match Text.ParseIsize(s[1..])
      case None => None
      case Some(n) => Some((DirOf(s[0]), n))
  }

  /** The letter that names a known direction. */
  function Letter(d: Dir): (c: char)
    requires d != Unknown
    ensures DirOf(c) == d
  {
    match d
    case Up => 'U'
    case Down => 'D'
    case Left => 'L'
    case Right => 'R'
  }

  /** A token written from a known direction and an in-range distance parses back to them. */
  lemma ParsePathRoundTrip(d: Dir, n: int)
    requires d != Unknown
    requires -(Text.IsizeLimit as int) <= n < Text.IsizeLimit
    ensures ParsePath([Letter(d)] + Text.ShowInt(n)) == Some((d, n))
  {
    var s := [Letter(d)] + Text.ShowInt(n);
    assert s[1..] == Text.ShowInt(n);
    Text.ParseShowInt(n);
  }

  /** The tokens of one line of input (`l.split(',').map(parse_path).collect()`). */
  function ParseWire(line: string): (r: Option<seq<WirePath>>)
    ensures r.Some? ==> forall i | 0 <= i < |Text.Split(line, ',')| :: ParsePath(Text.Split(line, ',')[i]).Some?
    ensures (forall i | 0 <= i < |Text.Split(line, ',')| :: ParsePath(Text.Split(line, ',')[i]).Some?) ==> r.Some?
    ensures r.Some? ==> |r.value| == |Text.Split(line, ',')|
    ensures r.Some? ==> forall i | 0 <= i < |r.value| :: ParsePath(Text.Split(line, ',')[i]) == Some(r.value[i])
  {
    ParseTokens(Text.Split(line, ','))
  }

  /** Every token parsed as a path, in order; None when one of them panics. */
  function ParseTokens(tokens: seq<string>): (r: Option<seq<WirePath>>)
    ensures r.Some? <==> forall i | 0 <= i < |tokens| :: ParsePath(tokens[i]).Some?
    ensures r.Some? ==> |r.value| == |tokens|
    ensures r.Some? ==> forall i | 0 <= i < |tokens| :: ParsePath(tokens[i]) == Some(r.value[i])
    decreases |tokens|
  {
    if tokens == [] then Some([])
    else
      match ParsePath(tokens[0])
      case None => None
      case Some(p) =>
        match ParseTokens(tokens[1..])
        case None => None
        case Some(ps) => Some([p] + ps)
  }

  // ---------------------------------------------------------------- walks

  /** The number of unit moves a path makes: `1..=distance` is empty below 1, and `Unknown` moves nowhere. */
  function Reach(p: WirePath): nat
  {
    if p.0 == Unknown || p.1 < 1 then 0 else p.1
  }

  /** The point `n` units from `pos` in direction `d`. */
  function Offset(pos: Coord, d: Dir, n: int): Coord
  {
    match d
    case Up => Coord(pos.x, pos.y + n)
    case Right => Coord(pos.x + n, pos.y)
    case Down => Coord(pos.x, pos.y - n)
    case Left => Coord(pos.x - n, pos.y)
    case Unknown => pos
  }

  /**
    A chain of unit moves from `start`: the first point is one unit from
    `start` and each later point one unit from the one before.
  */
  predicate Chain(start: Coord, w: seq<Coord>)
  {
    && (|w| > 0 ==> ManhattanDistance(start, w[0]) == 1)
    && (forall i | 0 < i < |w| :: ManhattanDistance(w[i - 1], w[i]) == 1)
  }

  /** Where a chain from `start` ends. */
  function Last(start: Coord, w: seq<Coord>): Coord
  {
    if w == [] then start else w[|w| - 1]
  }

  /** A chain followed by a chain from its end is a chain. */
  lemma ChainAppend(start: Coord, a: seq<Coord>, b: seq<Coord>)
    requires Chain(start, a) && Chain(Last(start, a), b)
    ensures Chain(start, a + b)
    ensures Last(start, a + b) == Last(Last(start, a), b)
  {
    var w := a + b;
    forall i | 0 < i < |w| ensures ManhattanDistance(w[i - 1], w[i]) == 1 {
      if i < |a| {
        assert w[i - 1] == a[i - 1] && w[i] == a[i];
      } else if i == |a| {
        assert w[i - 1] == a[i - 1] && w[i] == b[0];
      } else {
        assert w[i - 1] == b[i - 1 - |a|] && w[i] == b[i - |a|];
      }
    }
    if a == [] {
      assert w == b;
    }
  }

  /** `new_coords`: the points one path visits from `pos`, one per unit move. */
  function Segment(pos: Coord, p: WirePath): (cs: seq<Coord>)
    ensures |cs| == Reach(p)
  {
    if p.0 == Unknown then []
    else seq(Reach(p), i requires 0 <= i < Reach(p) => Offset(pos, p.0, i + 1))
  }

  /** The points of a segment form a chain from `pos`, the `n`-th of them `n` units away. */
  lemma SegmentShape(pos: Coord, p: WirePath)
    ensures forall i | 0 <= i < |Segment(pos, p)| :: ManhattanDistance(pos, Segment(pos, p)[i]) == i + 1
    ensures Chain(pos, Segment(pos, p))
  {
  }

  /** Where a path leaves the wire: its last point, or `pos` when it moves nowhere. */
  function EndPoint(pos: Coord, p: WirePath): Coord
  {
    if Reach(p) == 0 then pos else Offset(pos, p.0, p.1)
  }

  /** The end point of a path is the last point of its segment. */
  lemma EndPointIsLast(pos: Coord, p: WirePath)
    ensures EndPoint(pos, p) == Last(pos, Segment(pos, p))
  {
  }

  /** `current_pos` after the paths: the origin moved along every path in turn. */
  function Position(paths: seq<WirePath>): Coord
    decreases |paths|
  {
    if paths == [] then Origin
    else EndPoint(Position(paths[..|paths| - 1]), paths[|paths| - 1])
  }

  /** One path moves `current_pos` exactly its reach away. */
  lemma EndPointDistance(pos: Coord, p: WirePath)
    ensures ManhattanDistance(pos, EndPoint(pos, p)) == Reach(p)
  {
    if Reach(p) != 0 {
      match p.0
      case Up => assert EndPoint(pos, p) == Coord(pos.x, pos.y + p.1);
      case Down => assert EndPoint(pos, p) == Coord(pos.x, pos.y - p.1);
      case Right => assert EndPoint(pos, p) == Coord(pos.x + p.1, pos.y);
      case Left => assert EndPoint(pos, p) == Coord(pos.x - p.1, pos.y);
    }
  }

  /**
    `current_pos` never gets further from the origin than the steps walked;
    with `ManhattanDistance` zero only between equal points, a wire that
    walks no steps ends where it started.
  */
  lemma {:induction false} PositionBound(paths: seq<WirePath>)
    ensures ManhattanDistance(Origin, Position(paths)) <= TotalReach(paths)
    decreases |paths|
  {
    if paths != [] {
      var prefix, last := paths[..|paths| - 1], paths[|paths| - 1];
      var before := Position(prefix);
      assert Position(paths) == EndPoint(before, last);
      assert TotalReach(paths) == TotalReach(prefix) + Reach(last);
      PositionBound(prefix);
      EndPointDistance(before, last);
      ManhattanMetric(Origin, before, EndPoint(before, last));
    }
  }

  /** The total of the unit moves of the paths. */
  function TotalReach(paths: seq<WirePath>): nat
    decreases |paths|
  {
    if paths == [] then 0 else TotalReach(paths[..|paths| - 1]) + Reach(paths[|paths| - 1])
  }

  /** Every point a wire visits, in order: one point per unit move of every path. */
  function Walk(paths: seq<WirePath>): (w: seq<Coord>)
    ensures |w| == TotalReach(paths)
    decreases |paths|
  {
    if paths == [] then []
    else
      var prefix := paths[..|paths| - 1];
      Walk(prefix) + Segment(Position(prefix), paths[|paths| - 1])
  }

  /** One more path extends the walk by its segment and moves the position to its end. */
  lemma WalkSnoc(paths: seq<WirePath>, p: WirePath)
    ensures Walk(paths + [p]) == Walk(paths) + Segment(Position(paths), p)
    ensures Position(paths + [p]) == EndPoint(Position(paths), p)
  {
    assert (paths + [p])[..|paths|] == paths;
  }

  /**
    The shape of a walk: a chain of unit moves from the origin, ending at
    `current_pos`.
  */
  lemma {:induction false} WalkShape(paths: seq<WirePath>)
    ensures Chain(Origin, Walk(paths))
    ensures Position(paths) == Last(Origin, Walk(paths))
    decreases |paths|
  {
    if paths != [] {
      var prefix := paths[..|paths| - 1];
      WalkShape(prefix);
      SegmentShape(Position(prefix), paths[|paths| - 1]);
      EndPointIsLast(Position(prefix), paths[|paths| - 1]);
      ChainAppend(Origin, Walk(prefix), Segment(Position(prefix), paths[|paths| - 1]));
    }
  }

  /**
    The map `or_insert` builds from a walk: each visited point with the
    step, counted from 1, at which the walk first reaches it.
  */
  function FirstVisits(w: seq<Coord>): map<Coord, nat>
    decreases |w|
  {
    if w == [] then map[]
    else
      var before := FirstVisits(w[..|w| - 1]);
      var c := w[|w| - 1];
      if c in before then before else before[c := |w|]
  }

  /** One more point is recorded, at the new step, unless the walk has been there already. */
  lemma FirstVisitsSnoc(w: seq<Coord>, c: Coord)
    ensures c in FirstVisits(w) ==> FirstVisits(w + [c]) == FirstVisits(w)
    ensures c !in FirstVisits(w) ==> FirstVisits(w + [c]) == FirstVisits(w)[c := |w| + 1]
  {
    assert (w + [c])[..|w|] == w;
  }

  /**
    A point is a key of the map exactly when the walk visits it, and then
    its value is the first step at which the walk is there.
  */
  lemma {:induction false} FirstVisitsAt(w: seq<Coord>, c: Coord)
    ensures c in FirstVisits(w) <==> c in w
    ensures c in FirstVisits(w) ==>
      && 1 <= FirstVisits(w)[c] <= |w|
      && w[FirstVisits(w)[c] - 1] == c
      && forall j | 0 <= j < FirstVisits(w)[c] - 1 :: w[j] != c
    decreases |w|
  {
    if w != [] {
      var w' := w[..|w| - 1];
      var last := w[|w| - 1];
      assert w == w' + [last];
      FirstVisitsAt(w', c);
      FirstVisitsSnoc(w', last);
      assert forall j | 0 <= j < |w'| :: w'[j] == w[j];
      assert c in w <==> c in w' || c == last;
    }
  }

  /**
    The keys of the map are exactly the visited points, and the value of a
    point is the first step at which the walk is there.
  */
  lemma FirstVisitsSpec(w: seq<Coord>)
    ensures forall c :: c in FirstVisits(w) <==> c in w
    ensures forall c | c in FirstVisits(w) :: 1 <= FirstVisits(w)[c] <= |w| && w[FirstVisits(w)[c] - 1] == c
    ensures forall c, j | c in FirstVisits(w) && 0 <= j < FirstVisits(w)[c] - 1 :: w[j] != c
  {
    forall c ensures c in FirstVisits(w) <==> c in w {
      FirstVisitsAt(w, c);
    }
    forall c | c in FirstVisits(w)
      ensures 1 <= FirstVisits(w)[c] <= |w| && w[FirstVisits(w)[c] - 1] == c
      ensures forall j | 0 <= j < FirstVisits(w)[c] - 1 :: w[j] != c
    {
      FirstVisitsAt(w, c);
    }
  }

  /** After the whole segment of the next path, the walk and the position are those of one more path. */
  lemma RecordPath(paths: seq<WirePath>, i: nat)
    requires i < |paths|
    ensures var segment := Segment(Position(paths[..i]), paths[i]);
      && Walk(paths[..i + 1]) == Walk(paths[..i]) + segment[..|segment|]
      && Position(paths[..i + 1]) == Last(Position(paths[..i]), segment[..|segment|])
  {
    var segment := Segment(Position(paths[..i]), paths[i]);
    assert segment[..|segment|] == segment;
    assert paths[..i + 1] == paths[..i] + [paths[i]];
    WalkSnoc(paths[..i], paths[i]);
    EndPointIsLast(Position(paths[..i]), paths[i]);
  }

  /** One more step of the walk records its point unless the map has it already. */
  lemma RecordStep(visited: seq<Coord>, coords: map<Coord, nat>, c: Coord)
    requires coords == FirstVisits(visited)
    ensures c in coords ==> FirstVisits(visited + [c]) == coords
    ensures c !in coords ==> FirstVisits(visited + [c]) == coords[c := |visited| + 1]
  {
    FirstVisitsSnoc(visited, c);
  }

  /** A prefix one longer is the prefix with the next element appended. */
  lemma TakeOneMore(s: seq<Coord>, k: nat)
    requires k < |s|
    ensures s[..k + 1] == s[..k] + [s[k]]
  {
  }

  /**
    `track_placements`: walks the paths from the origin one unit at a time,
    counting steps, and records each point the first time it is reached.
  */
  method TrackPlacements(paths: seq<WirePath>) returns (coords: map<Coord, nat>)
    ensures coords == FirstVisits(Walk(paths))
  {
    coords := map[];
    var currentPos := Origin;
    var step: nat := 0;
    ghost var visited: seq<Coord> := [];
    for i := 0 to |paths|
      invariant visited == Walk(paths[..i])
      invariant coords == FirstVisits(visited)
      invariant step == |visited|
      invariant currentPos == Position(paths[..i])
    {
      ghost var walked := visited;
      ghost var start := currentPos;
      var newCoords := Segment(currentPos, paths[i]);
      for k := 0 to |newCoords|
        invariant visited == walked + newCoords[..k]
        invariant coords == FirstVisits(visited)
        invariant step == |visited|
        invariant currentPos == Last(start, newCoords[..k])
      {
        var c := newCoords[k];
        ghost var next := visited + [c];
        RecordStep(visited, coords, c);
        TakeOneMore(newCoords, k);
        assert next == walked + newCoords[..k + 1];
        currentPos := c;
        step := step + 1;
        if c !in coords {
          coords := coords[c := step];
        }
        visited := next;
      }
      RecordPath(paths, i);
    }
    assert paths[..|paths|] == paths;
  }

  /** The step counter ends at the total distance of the known-direction paths. */
  lemma WalkLength(paths: seq<WirePath>)
    ensures |Walk(paths)| == TotalReach(paths)
    ensures (forall i | 0 <= i < |paths| :: paths[i].0 == Unknown) ==> Walk(paths) == []
  {
    if forall i | 0 <= i < |paths| :: paths[i].0 == Unknown {
      NoKnownMoves(paths);
    }
  }

  lemma {:induction false} NoKnownMoves(paths: seq<WirePath>)
    requires forall i | 0 <= i < |paths| :: paths[i].0 == Unknown
    ensures TotalReach(paths) == 0
    decreases |paths|
  {
    if paths != [] {
      NoKnownMoves(paths[..|paths| - 1]);
    }
  }

  /** The origin is recorded only when the wire comes back to it, and never at step 1. */
  lemma OriginVisits(paths: seq<WirePath>)
    ensures Origin in FirstVisits(Walk(paths)) <==> Origin in Walk(paths)
    ensures Origin in FirstVisits(Walk(paths)) ==> FirstVisits(Walk(paths))[Origin] >= 2
  {
    FirstVisitsAt(Walk(paths), Origin);
    WalkShape(paths);
  }

  // ---------------------------------------------------------------- crossings

  /** The points of `acc` that `p` also has, each with the two step counts added (`n + l`). */
  function Intersect(acc: map<Coord, nat>, p: map<Coord, nat>): (r: map<Coord, nat>)
    ensures forall c :: c in r <==> c in acc && c in p
    ensures forall c | c in r :: r[c] == acc[c] + p[c]
  {
    map c | c in acc && c in p :: p[c] + acc[c]
  }

  /** A point every wire visits. */
  predicate OnEveryWire(wires: seq<map<Coord, nat>>, c: Coord)
  {
    forall i | 0 <= i < |wires| :: c in wires[i]
  }

  /** The total of the first-visit steps of a point on every wire. */
  function StepSum(wires: seq<map<Coord, nat>>, c: Coord): nat
    requires OnEveryWire(wires, c)
    decreases |wires|
  {
    if wires == [] then 0 else wires[0][c] + StepSum(wires[1..], c)
  }

  /** The fold of the collisions: `acc` intersected with each map in turn. */
  function FoldIntersect(acc: map<Coord, nat>, wires: seq<map<Coord, nat>>): (r: map<Coord, nat>)
    ensures forall c :: c in r <==> c in acc && OnEveryWire(wires, c)
    ensures forall c | c in r :: OnEveryWire(wires, c) && r[c] == acc[c] + StepSum(wires, c)
    decreases |wires|
  {
    if wires == [] then acc
    else
      var r := FoldIntersect(Intersect(acc, wires[0]), wires[1..]);
      assert forall c :: OnEveryWire(wires, c) <==> c in wires[0] && OnEveryWire(wires[1..], c) by {
        forall c ensures OnEveryWire(wires, c) <==> c in wires[0] && OnEveryWire(wires[1..], c) {
          if c in wires[0] && OnEveryWire(wires[1..], c) {
            forall i | 0 < i < |wires| ensures c in wires[i] {
              assert wires[i] == wires[1..][i - 1];
            }
          }
        }
      }
      r
  }

  /**
    `collisions_on_paths` and the standalone fold: the points on every wire,
    each with the sum of its first-visit steps over the wires. None for an
    empty list of wires, where `paths[0]` panics.
  */
  function Collisions(wires: seq<map<Coord, nat>>): (r: Option<map<Coord, nat>>)
    ensures r.Some? <==> |wires| > 0
    ensures r.Some? ==> forall c :: c in r.value <==> OnEveryWire(wires, c)
    ensures r.Some? ==> forall c | c in r.value :: r.value[c] == StepSum(wires, c)
  {
    if |wires| == 0 then None
    else
      var r := FoldIntersect(wires[0], wires[1..]);
      assert forall c :: OnEveryWire(wires, c) <==> c in wires[0] && OnEveryWire(wires[1..], c) by {
        forall c ensures OnEveryWire(wires, c) <==> c in wires[0] && OnEveryWire(wires[1..], c) {
          if c in wires[0] && OnEveryWire(wires[1..], c) {
            forall i | 0 < i < |wires| ensures c in wires[i] {
              assert wires[i] == wires[1..][i - 1];
            }
          }
        }
      }
      Some(r)
  }

  // ---------------------------------------------------------------- answers

  /** The least element of a non-empty set of numbers. */
  ghost function MinOf(s: set<nat>): (m: nat)
    requires s != {}
    ensures m in s && forall y | y in s :: m <= y
  {
    var x :| x in s;
    if s - {x} == {} then
      assert forall y | y in s :: y == x by {
        forall y | y in s ensures y == x {
          assert y !in s - {x};
        }
      }
      x
    else
      var r := MinOf(s - {x});
      assert forall y | y in s :: y == x || y in s - {x};
      if x <= r then x else r
  }

  /**
    `solve_part1` and `closest` in the standalone binary: the least distance
    from the origin of a crossing other than the origin. None when there is
    no such crossing (the `unwrap` panics) or no wire at all.
  */
  ghost function SolvePart1(wires: seq<map<Coord, nat>>): (r: Option<nat>)
    ensures r.Some? <==> |wires| > 0 && exists c :: c in wires[0] && OnEveryWire(wires, c) && c != Origin
    ensures r.Some? ==> exists c :: c in wires[0] && OnEveryWire(wires, c) && c != Origin && r.value == ManhattanDistance(Origin, c)
    ensures r.Some? ==> forall c | c in wires[0] && OnEveryWire(wires, c) && c != Origin :: r.value <= ManhattanDistance(Origin, c)
  {
    match Collisions(wires)
    case None => None
    case Some(crossings) =>
      var distances := set c | c in crossings && c != Origin :: ManhattanDistance(c, Origin);
      assert forall c | c in wires[0] && OnEveryWire(wires, c) && c != Origin ::
        ManhattanDistance(c, Origin) in distances && ManhattanDistance(Origin, c) == ManhattanDistance(c, Origin);
      if distances == {} then None
      else
        var d := MinOf(distances);
        assert exists c :: c in crossings && c != Origin && d == ManhattanDistance(c, Origin);
        Some(d)
  }

  /**
    `solve_part2` and `shortest_intersection_steps`: the least total of
    first-visit steps over all crossings, the origin not excluded. None when
    there is no crossing or no wire.
  */
  ghost function SolvePart2(wires: seq<map<Coord, nat>>): (r: Option<nat>)
    ensures r.Some? <==> |wires| > 0 && exists c :: c in wires[0] && OnEveryWire(wires, c)
    ensures r.Some? ==> exists c :: c in wires[0] && OnEveryWire(wires, c) && r.value == StepSum(wires, c)
    ensures r.Some? ==> forall c | c in wires[0] && OnEveryWire(wires, c) :: r.value <= StepSum(wires, c)
  {
    match Collisions(wires)
    case None => None
    case Some(crossings) =>
      var totals := set c | c in crossings :: crossings[c];
      assert forall c | c in wires[0] && OnEveryWire(wires, c) :: crossings[c] in totals;
      if totals == {} then None
      else
        var t := MinOf(totals);
        assert exists c :: c in crossings && t == crossings[c];
        Some(t)
  }

  // ---------------------------------------------------------------- input

  /** Rust's `char::is_whitespace`: the characters with the Unicode `White_Space` property. */
  predicate IsWhitespace(c: char)
  {
    || '\U{0009}' <= c <= '\U{000D}'
    || c == '\U{0020}' || c == '\U{0085}' || c == '\U{00A0}' || c == '\U{1680}'
    || '\U{2000}' <= c <= '\U{200A}'
    || c == '\U{2028}' || c == '\U{2029}' || c == '\U{202F}' || c == '\U{205F}' || c == '\U{3000}'
  }

  /** `str::trim_start`: drops the leading whitespace. */
  function TrimStart(s: string): (r: string)
    ensures |r| <= |s| && r == s[|s| - |r|..]
    ensures forall i | 0 <= i < |s| - |r| :: IsWhitespace(s[i])
    ensures |r| > 0 ==> !IsWhitespace(r[0])
    decreases |s|
  {
    if |s| > 0 && IsWhitespace(s[0]) then TrimStart(s[1..]) else s
  }

  /** `str::trim_end`: drops the trailing whitespace. */
  function TrimEnd(s: string): (r: string)
    ensures |r| <= |s| && r == s[..|r|]
    ensures forall i | |r| <= i < |s| :: IsWhitespace(s[i])
    ensures |r| > 0 ==> !IsWhitespace(r[|r| - 1])
    decreases |s|
  {
    if |s| > 0 && IsWhitespace(s[|s| - 1]) then TrimEnd(s[..|s| - 1]) else s
  }

  /** `str::trim`: the string without its leading and trailing whitespace. */
  function Trim(s: string): string
  {
    TrimEnd(TrimStart(s))
  }

  /** Trimming the end of `t` keeps a prefix of it, so its first character is that of `t`. */
  lemma TrimEndKeepsFirst(t: string)
    ensures |TrimEnd(t)| > 0 ==> TrimEnd(t)[0] == t[0]
  {
  }

  /** `str::trim` keeps the characters from the first kept one on, contiguously. */
  lemma TrimSlice(s: string)
    ensures var k := |s| - |TrimStart(s)|;
      k + |Trim(s)| <= |s| && Trim(s) == s[k..k + |Trim(s)|]
  {
    var t := TrimStart(s);
    var k := |s| - |t|;
    assert t == s[k..];
  }

  /** What `TrimEnd` drops from `TrimStart(s)` is whitespace at the end of `s`. */
  lemma TrimTrailing(s: string)
    ensures var k := |s| - |TrimStart(s)|;
      forall i | k + |Trim(s)| <= i < |s| :: IsWhitespace(s[i])
  {
    var t := TrimStart(s);
    var k := |s| - |t|;
    forall i | k + |Trim(s)| <= i < |s|
      ensures IsWhitespace(s[i])
    {
      assert s[i] == t[i - k];
    }
  }

  /**
    `str::trim` keeps a contiguous part of the input, neither starting nor
    ending with whitespace, and drops only whitespace before and after it.
  */
  lemma TrimSpec(s: string)
    ensures var k := |s| - |TrimStart(s)|;
      k + |Trim(s)| <= |s| && Trim(s) == s[k..k + |Trim(s)|]
    ensures forall i | 0 <= i < |s| - |TrimStart(s)| :: IsWhitespace(s[i])
    ensures forall i | |s| - |TrimStart(s)| + |Trim(s)| <= i < |s| :: IsWhitespace(s[i])
    ensures |Trim(s)| > 0 ==> !IsWhitespace(Trim(s)[0]) && !IsWhitespace(Trim(s)[|Trim(s)| - 1])
  {
    TrimSlice(s);
    TrimEndKeepsFirst(TrimStart(s));
    TrimTrailing(s);
  }

  /** The paths of every wire, one wire per line of the trimmed input; None when a token panics. */
  function ParseWires(input: string): (r: Option<seq<seq<WirePath>>>)
    ensures r.Some? ==> |r.value| == |Text.Lines(Trim(input))|
    ensures r.Some? ==> forall i | 0 <= i < |r.value| :: ParseWire(Text.Lines(Trim(input))[i]) == Some(r.value[i])
    ensures r.None? ==> exists i | 0 <= i < |Text.Lines(Trim(input))| :: ParseWire(Text.Lines(Trim(input))[i]).None?
  {
    ParseLines(Text.Lines(Trim(input)))
  }

  function ParseLines(lines: seq<string>): (r: Option<seq<seq<WirePath>>>)
    ensures r.Some? ==> |r.value| == |lines|
    ensures r.Some? ==> forall i | 0 <= i < |lines| :: ParseWire(lines[i]) == Some(r.value[i])
    ensures r.None? ==> exists i | 0 <= i < |lines| :: ParseWire(lines[i]).None?
    decreases |lines|
  {
    if lines == [] then Some([])
    else
      match ParseWire(lines[0])
      case None => None
      case Some(ps) =>
        match ParseLines(lines[1..])
        case None =>
          assert exists i | 0 <= i < |lines| :: ParseWire(lines[i]).None? by {
            var i :| 0 <= i < |lines| - 1 && ParseWire(lines[1..][i]).None?;
            assert lines[1..][i] == lines[i + 1];
          }
          None
        case Some(pss) =>
          assert forall i | 0 < i < |lines| :: lines[i] == lines[1..][i - 1];
          Some([ps] + pss)
  }

  /** `track_placements` over every wire, in order. */
  method TrackAll(wires: seq<seq<WirePath>>) returns (maps: seq<map<Coord, nat>>)
    ensures |maps| == |wires|
    ensures forall k | 0 <= k < |wires| :: maps[k] == FirstVisits(Walk(wires[k]))
  {
    maps := [];
    for i := 0 to |wires|
      invariant |maps| == i
      invariant forall k | 0 <= k < i :: maps[k] == FirstVisits(Walk(wires[k]))
    {
      var coords := TrackPlacements(wires[i]);
      maps := maps + [coords];
      assert maps[i] == FirstVisits(Walk(wires[i]));
    }
  }

  /**
    `input_generator` and the first part of the standalone `main`: every
    wire's first-visit map. None when a token panics.
  */
  method InputGenerator(input: string) returns (r: Option<seq<map<Coord, nat>>>)
    ensures r.Some? <==> ParseWires(input).Some?
    ensures r.Some? ==> |r.value| == |ParseWires(input).value|
    ensures r.Some? ==> forall i | 0 <= i < |r.value| :: r.value[i] == FirstVisits(Walk(ParseWires(input).value[i]))
  {
    var wires := ParseWires(input);
    if wires.None? {
      return None;
    }
    var maps := TrackAll(wires.value);
    return Some(maps);
  }
}
