/**
  The worked example of the puzzle: the wires `R8,U5,L5,D3` and
  `U7,R6,D4,L4` cross at (3, 3) and (6, 5); the closest crossing is 6 from
  the origin, and the crossing reached in fewest combined steps takes 30.
*/
module Day3Example {
  import opened Wrappers
  import opened Day3

  /**
    The paths of the first wire, `R8,U5,L5,D3`. The wires are described
    path by path rather than as sequence literals so that the verifier
    does not evaluate whole walks on literals.
  */
  predicate IsFirst(ps: seq<WirePath>)
  {
    |ps| == 4 && ps[0] == (Right, 8) && ps[1] == (Up, 5) && ps[2] == (Left, 5) && ps[3] == (Down, 3)
  }

  /** The paths of the second wire, `U7,R6,D4,L4`. */
  predicate IsSecond(ps: seq<WirePath>)
  {
    |ps| == 4 && ps[0] == (Up, 7) && ps[1] == (Right, 6) && ps[2] == (Down, 4) && ps[3] == (Left, 4)
  }

  /** The `k`-th point of a segment is `k` units along its direction. */
  lemma SegmentPoints(pos: Coord, p: WirePath)
    ensures forall i | 0 <= i < |Segment(pos, p)| :: Segment(pos, p)[i] == Offset(pos, p.0, i + 1)
  {
  }

  /** The walk of one path is its segment. */
  lemma OnePath(a: WirePath)
    ensures Walk([a]) == Segment(Origin, a)
    ensures Position([a]) == EndPoint(Origin, a)
  {
    var q0: seq<WirePath> := [];
    assert [a][..0] == q0;
  }

  /** The walk of two paths: the second segment starts where the first ends. */
  lemma TwoPaths(a: WirePath, b: WirePath)
    ensures Walk([a, b]) == Segment(Origin, a) + Segment(EndPoint(Origin, a), b)
    ensures Position([a, b]) == EndPoint(EndPoint(Origin, a), b)
  {
    OnePath(a);
    WalkSnoc([a], b);
    assert [a] + [b] == [a, b];
  }

  /** The walk of three paths, segment after segment. */
  lemma ThreePaths(a: WirePath, b: WirePath, c: WirePath)
    ensures var p2 := EndPoint(EndPoint(Origin, a), b);
      && Walk([a, b, c]) == Segment(Origin, a) + Segment(EndPoint(Origin, a), b) + Segment(p2, c)
      && Position([a, b, c]) == EndPoint(p2, c)
  {
    TwoPaths(a, b);
    WalkSnoc([a, b], c);
    assert [a, b] + [c] == [a, b, c];
  }

  /** A walk of four paths is the four segments, each from where the one before ends. */
  lemma FourPaths(ps: seq<WirePath>)
    requires |ps| == 4
    ensures var p1 := EndPoint(Origin, ps[0]);
      var p2 := EndPoint(p1, ps[1]);
      var p3 := EndPoint(p2, ps[2]);
      Walk(ps) == Segment(Origin, ps[0]) + Segment(p1, ps[1]) + Segment(p2, ps[2]) + Segment(p3, ps[3])
  {
    ThreePaths(ps[0], ps[1], ps[2]);
    WalkSnoc([ps[0], ps[1], ps[2]], ps[3]);
    assert [ps[0], ps[1], ps[2]] + [ps[3]] == ps;
  }

  /** The `i`-th point of the first wire's walk. */
  function FirstPoint(i: int): Coord
  {
    if i < 8 then Coord(i + 1, 0)
    else if i < 13 then Coord(8, i - 7)
    else if i < 18 then Coord(20 - i, 5)
    else Coord(3, 22 - i)
  }

  /** The `i`-th point of the second wire's walk. */
  function SecondPoint(i: int): Coord
  {
    if i < 7 then Coord(0, i + 1)
    else if i < 13 then Coord(i - 6, 7)
    else if i < 17 then Coord(6, 19 - i)
    else Coord(22 - i, 3)
  }

  /** The first wire's walk, point by point. */
  lemma FirstWalk(ps: seq<WirePath>)
    requires IsFirst(ps)
    ensures |Walk(ps)| == 21
    ensures forall i | 0 <= i < 21 :: Walk(ps)[i] == FirstPoint(i)
  {
    assert EndPoint(Origin, ps[0]) == Coord(8, 0);
    assert EndPoint(Coord(8, 0), ps[1]) == Coord(8, 5);
    assert EndPoint(Coord(8, 5), ps[2]) == Coord(3, 5);
    FourPaths(ps);
    var s0, s1 := Segment(Origin, ps[0]), Segment(Coord(8, 0), ps[1]);
    var s2, s3 := Segment(Coord(8, 5), ps[2]), Segment(Coord(3, 5), ps[3]);
    var w := Walk(ps);
    assert w == s0 + s1 + s2 + s3;
    SegmentPoints(Origin, ps[0]);
    SegmentPoints(Coord(8, 0), ps[1]);
    SegmentPoints(Coord(8, 5), ps[2]);
    SegmentPoints(Coord(3, 5), ps[3]);
    forall i | 0 <= i < 21 ensures w[i] == FirstPoint(i) {
      if i < 8 {
        assert w[i] == s0[i];
      } else if i < 13 {
        assert w[i] == s1[i - 8];
      } else if i < 18 {
        assert w[i] == s2[i - 13];
      } else {
        assert w[i] == s3[i - 18];
      }
    }
  }

  /** The second wire's walk, point by point. */
  lemma SecondWalk(ps: seq<WirePath>)
    requires IsSecond(ps)
    ensures |Walk(ps)| == 21
    ensures forall i | 0 <= i < 21 :: Walk(ps)[i] == SecondPoint(i)
  {
    assert EndPoint(Origin, ps[0]) == Coord(0, 7);
    assert EndPoint(Coord(0, 7), ps[1]) == Coord(6, 7);
    assert EndPoint(Coord(6, 7), ps[2]) == Coord(6, 3);
    FourPaths(ps);
    var s0, s1 := Segment(Origin, ps[0]), Segment(Coord(0, 7), ps[1]);
    var s2, s3 := Segment(Coord(6, 7), ps[2]), Segment(Coord(6, 3), ps[3]);
    var w := Walk(ps);
    assert w == s0 + s1 + s2 + s3;
    SegmentPoints(Origin, ps[0]);
    SegmentPoints(Coord(0, 7), ps[1]);
    SegmentPoints(Coord(6, 7), ps[2]);
    SegmentPoints(Coord(6, 3), ps[3]);
    forall i | 0 <= i < 21 ensures w[i] == SecondPoint(i) {
      if i < 7 {
        assert w[i] == s0[i];
      } else if i < 13 {
        assert w[i] == s1[i - 7];
      } else if i < 17 {
        assert w[i] == s2[i - 13];
      } else {
        assert w[i] == s3[i - 17];
      }
    }
  }

  /** The two walks meet only where the first wire's 20th and 15th points are the second's. */
  lemma PointsMeet(i: int, j: int)
    requires 0 <= i < 21 && 0 <= j < 21
    ensures FirstPoint(i) == SecondPoint(j) <==> (i == 19 && j == 19) || (i == 14 && j == 14)
  {
  }

  /** Each crossing is on each walk at one index only. */
  lemma CrossingIndices(i: int)
    requires 0 <= i < 21
    ensures FirstPoint(i) == Coord(3, 3) <==> i == 19
    ensures FirstPoint(i) == Coord(6, 5) <==> i == 14
    ensures SecondPoint(i) == Coord(3, 3) <==> i == 19
    ensures SecondPoint(i) == Coord(6, 5) <==> i == 14
  {
  }

  /** The wires of the example cross at (3, 3) and (6, 5), and nowhere else. */
  lemma ExampleCrossings(ps: seq<WirePath>, qs: seq<WirePath>)
    requires IsFirst(ps) && IsSecond(qs)
    ensures forall c :: c in Walk(ps) && c in Walk(qs) <==> c == Coord(3, 3) || c == Coord(6, 5)
  {
    FirstWalk(ps);
    SecondWalk(qs);
    forall c | c in Walk(ps) && c in Walk(qs) ensures c == Coord(3, 3) || c == Coord(6, 5) {
      var i :| 0 <= i < 21 && Walk(ps)[i] == c;
      var j :| 0 <= j < 21 && Walk(qs)[j] == c;
      PointsMeet(i, j);
    }
    assert Walk(ps)[19] == Coord(3, 3) && Walk(qs)[19] == Coord(3, 3);
    assert Walk(ps)[14] == Coord(6, 5) && Walk(qs)[14] == Coord(6, 5);
  }

  /** The first-visit steps of the crossings: 20 and 20 at (3, 3), 15 and 15 at (6, 5). */
  lemma ExampleSteps(ps: seq<WirePath>, qs: seq<WirePath>)
    requires IsFirst(ps) && IsSecond(qs)
    ensures Coord(3, 3) in FirstVisits(Walk(ps)) && FirstVisits(Walk(ps))[Coord(3, 3)] == 20
    ensures Coord(6, 5) in FirstVisits(Walk(ps)) && FirstVisits(Walk(ps))[Coord(6, 5)] == 15
    ensures Coord(3, 3) in FirstVisits(Walk(qs)) && FirstVisits(Walk(qs))[Coord(3, 3)] == 20
    ensures Coord(6, 5) in FirstVisits(Walk(qs)) && FirstVisits(Walk(qs))[Coord(6, 5)] == 15
  {
    FirstWalk(ps);
    SecondWalk(qs);
    FirstStep(Walk(ps), Coord(3, 3), 19);
    FirstStep(Walk(ps), Coord(6, 5), 14);
    FirstStep(Walk(qs), Coord(3, 3), 19);
    FirstStep(Walk(qs), Coord(6, 5), 14);
  }

  /** A point on the walk at index `k` and at no earlier index is first visited at step `k + 1`. */
  lemma FirstStep(w: seq<Coord>, c: Coord, k: nat)
    requires k < |w| && w[k] == c
    requires forall j | 0 <= j < k :: w[j] != c
    ensures c in FirstVisits(w) && FirstVisits(w)[c] == k + 1
  {
    FirstVisitsAt(w, c);
  }

  /** The crossings and their step totals for two wires with the example's step counts. */
  lemma ExampleTotals(m1: map<Coord, nat>, m2: map<Coord, nat>)
    requires forall c :: c in m1 && c in m2 <==> c == Coord(3, 3) || c == Coord(6, 5)
    requires Coord(3, 3) in m1 && m1[Coord(3, 3)] == 20 && Coord(6, 5) in m1 && m1[Coord(6, 5)] == 15
    requires Coord(3, 3) in m2 && m2[Coord(3, 3)] == 20 && Coord(6, 5) in m2 && m2[Coord(6, 5)] == 15
    ensures forall c :: OnEveryWire([m1, m2], c) <==> c == Coord(3, 3) || c == Coord(6, 5)
    ensures StepSum([m1, m2], Coord(3, 3)) == 40 && StepSum([m1, m2], Coord(6, 5)) == 30
  {
    var wires: seq<map<Coord, nat>> := [m1, m2];
    forall c ensures OnEveryWire(wires, c) <==> c in m1 && c in m2 {
      assert wires[0] == m1 && wires[1] == m2;
    }
    var rest: seq<map<Coord, nat>> := [m2];
    assert wires[1..] == rest;
    assert rest[1..] == [];
    assert StepSum(rest, Coord(3, 3)) == 20;
    assert StepSum(rest, Coord(6, 5)) == 15;
  }

  /** The closest crossing of two wires with the example's crossings is 6 away. */
  lemma ExampleAnswer1(m1: map<Coord, nat>, m2: map<Coord, nat>)
    requires forall c :: c in m1 && c in m2 <==> c == Coord(3, 3) || c == Coord(6, 5)
    requires Coord(3, 3) in m1 && m1[Coord(3, 3)] == 20 && Coord(6, 5) in m1 && m1[Coord(6, 5)] == 15
    requires Coord(3, 3) in m2 && m2[Coord(3, 3)] == 20 && Coord(6, 5) in m2 && m2[Coord(6, 5)] == 15
    ensures SolvePart1([m1, m2]) == Some(6)
  {
    ExampleTotals(m1, m2);
    var wires: seq<map<Coord, nat>> := [m1, m2];
    assert wires[0] == m1;
    assert ManhattanDistance(Origin, Coord(3, 3)) == 6;
    assert ManhattanDistance(Origin, Coord(6, 5)) == 11;
    var r := SolvePart1(wires);
    assert r.Some?;
    assert r.value <= 6;
  }

  /** The fewest combined steps to a crossing of two wires with the example's step counts are 30. */
  lemma ExampleAnswer2(m1: map<Coord, nat>, m2: map<Coord, nat>)
    requires forall c :: c in m1 && c in m2 <==> c == Coord(3, 3) || c == Coord(6, 5)
    requires Coord(3, 3) in m1 && m1[Coord(3, 3)] == 20 && Coord(6, 5) in m1 && m1[Coord(6, 5)] == 15
    requires Coord(3, 3) in m2 && m2[Coord(3, 3)] == 20 && Coord(6, 5) in m2 && m2[Coord(6, 5)] == 15
    ensures SolvePart2([m1, m2]) == Some(30)
  {
    ExampleTotals(m1, m2);
    var wires: seq<map<Coord, nat>> := [m1, m2];
    assert wires[0] == m1;
    var r := SolvePart2(wires);
    assert r.Some?;
    assert r.value <= 30;
  }

  /**
    The worked example: the closest crossing to the origin is 6 away, and
    the fewest combined steps to a crossing are 30.
  */
  lemma Example(ps: seq<WirePath>, qs: seq<WirePath>)
    requires IsFirst(ps) && IsSecond(qs)
    ensures SolvePart1([FirstVisits(Walk(ps)), FirstVisits(Walk(qs))]) == Some(6)
    ensures SolvePart2([FirstVisits(Walk(ps)), FirstVisits(Walk(qs))]) == Some(30)
  {
    ExampleCrossings(ps, qs);
    ExampleSteps(ps, qs);
    var m1, m2 := FirstVisits(Walk(ps)), FirstVisits(Walk(qs));
    forall c ensures c in m1 && c in m2 <==> c in Walk(ps) && c in Walk(qs) {
      FirstVisitsAt(Walk(ps), c);
      FirstVisitsAt(Walk(qs), c);
    }
    ExampleAnswer1(FirstVisits(Walk(ps)), FirstVisits(Walk(qs)));
    ExampleAnswer2(FirstVisits(Walk(ps)), FirstVisits(Walk(qs)));
  }
}
