/** `Visualizer.load_lg` (visualizer/visualizer.py): every chip1 bump seeds a route with its own
    position, and each segment record of a net appends its end point (tokens 3 and 4) to that
    net's route. A line that is not a net header in command state ends the program
    (`sys.exit(1)`); an unseeded net or a short record raises. Both set `failed`. */
module VisRoutes {
  import opened Common
  import VisPlacement

  datatype RMode = Command | Route

  datatype Vlg = Vlg(mode: RMode, routeIdx: int, routes: map<int, seq<Point>>, failed: bool)

  /** `routes[bump.idx] = [bump.lower_left]` for every bump in order. */
  function Seed(m: map<int, seq<Point>>, bumps: seq<VisPlacement.VBump>): (r: map<int, seq<Point>>)
    ensures r.Keys == m.Keys + set k | 0 <= k < |bumps| :: bumps[k].idx
    decreases |bumps|
  {
    if bumps == [] then m
    else
      var n := |bumps| - 1;
      var r := Seed(m, bumps[..n])[bumps[n].idx := [bumps[n].lowerLeft]];
      assert (set k | 0 <= k < |bumps| :: bumps[k].idx)
          == (set k | 0 <= k < n :: bumps[..n][k].idx) + {bumps[n].idx};
      r
  }

  predicate IsHeader(line: Line) {
    line != [] && StartsWith(line[0].text, "n")
  }

  predicate IsEnd(line: Line) {
    line != [] && StartsWith(line[0].text, ".end")
  }

  predicate IsVia(line: Line) {
    line != [] && line[0].text == "via"
  }

  function Step(s: Vlg, line: Line): Vlg {
    if line == [] || s.failed then s
    else match s.mode
      case Command =>
        if IsHeader(line) then s.(routeIdx := line[0].num, mode := Route)
        else s.(failed := true)
      case Route =>
        if IsEnd(line) then s.(mode := Command)
        else if IsVia(line) then s
        else if s.routeIdx !in s.routes || |line| < 5 then s.(failed := true)
        else s.(routes := s.routes[s.routeIdx := s.routes[s.routeIdx] + [Point(line[3].num, line[4].num)]])
  }

  function Run(s: Vlg, lines: seq<Line>): Vlg
    decreases lines
  {
    if lines == [] then s else Run(Step(s, lines[0]), lines[1..])
  }

  lemma {:induction false} RunConcat(s: Vlg, a: seq<Line>, b: seq<Line>)
    ensures Run(s, a + b) == Run(Run(s, a), b)
    decreases a
  {
    if a != [] {
      assert (a + b)[1..] == a[1..] + b;
      RunConcat(Step(s, a[0]), a[1..], b);
    } else {
      assert a + b == b;
    }
  }

  lemma {:induction false} FailedRun(s: Vlg, lines: seq<Line>)
    requires s.failed
    ensures Run(s, lines) == s
    decreases lines
  {
    if lines != [] {
      FailedRun(Step(s, lines[0]), lines[1..]);
    }
  }

  // ---------------------------------------------------------------- properties

  /** `load_lg` skips a blank line before dispatching on the state (visualizer.py:202-204),
      so reading the file is reading it without its blank lines. */
  lemma {:induction false} BlankLinesIgnored(s: Vlg, lines: seq<Line>)
    ensures Run(s, lines) == Run(s, DropBlank(lines))
    decreases lines
  {
    if lines != [] {
      BlankLinesIgnored(Step(s, lines[0]), lines[1..]);
      if lines[0] != [] {
        assert DropBlank(lines)[1..] == DropBlank(lines[1..]);
      }
    }
  }

  /** With distinct bump indices, each bump's route starts as exactly its own position, and
      any other key keeps what it had. */
  lemma {:induction false} SeedRoutes(m: map<int, seq<Point>>, bumps: seq<VisPlacement.VBump>)
    requires forall i, j :: 0 <= i < j < |bumps| ==> bumps[i].idx != bumps[j].idx
    ensures forall k :: 0 <= k < |bumps| ==> Seed(m, bumps)[bumps[k].idx] == [bumps[k].lowerLeft]
    ensures forall key :: key in m && (forall k :: 0 <= k < |bumps| ==> bumps[k].idx != key) ==>
      Seed(m, bumps)[key] == m[key]
    decreases |bumps|
  {
    if bumps != [] {
      var n := |bumps| - 1;
      SeedRoutes(m, bumps[..n]);
      forall k | 0 <= k < |bumps|
        ensures Seed(m, bumps)[bumps[k].idx] == [bumps[k].lowerLeft]
      {
        if k < n {
          assert bumps[..n][k] == bumps[k];
        }
      }
      forall key | key in m && (forall k :: 0 <= k < |bumps| ==> bumps[k].idx != key)
        ensures Seed(m, bumps)[key] == m[key]
      {
        assert forall k :: 0 <= k < n ==> bumps[..n][k] == bumps[k];
      }
    }
  }

  /** In command state only a net header is accepted; anything else ends the program. */
  lemma NonHeaderFails(s: Vlg, line: Line)
    requires s.mode == Command && line != [] && !IsHeader(line)
    ensures Step(s, line).failed
  {
  }

  /** The records of one net: segments with at least five tokens, or `via` lines. */
  predicate RouteRecords(recs: seq<Line>) {
    forall k :: 0 <= k < |recs| ==> recs[k] != [] && !IsEnd(recs[k]) && (IsVia(recs[k]) || |recs[k]| >= 5)
  }

  /** The end points a net's records contribute: tokens 3 and 4 of each segment, vias skipped. */
  function Endpoints(recs: seq<Line>): (r: seq<Point>)
    requires RouteRecords(recs)
    ensures |r| <= |recs|
    ensures (forall k :: 0 <= k < |recs| ==> IsVia(recs[k])) ==> r == []
  {
    if recs == [] then []
    else
      var n := |recs| - 1;
      assert RouteRecords(recs[..n]);
      Endpoints(recs[..n]) + (if IsVia(recs[n]) then [] else [Point(recs[n][3].num, recs[n][4].num)])
  }

  lemma {:induction false} ReadRecords(s: Vlg, recs: seq<Line>)
    requires s.mode == Route && !s.failed && s.routeIdx in s.routes && RouteRecords(recs)
    ensures Run(s, recs) == s.(routes := s.routes[s.routeIdx := s.routes[s.routeIdx] + Endpoints(recs)])
  {
    if recs != [] {
      var n := |recs| - 1;
      assert RouteRecords(recs[..n]);
      ReadRecords(s, recs[..n]);
      RunConcat(s, recs[..n], [recs[n]]);
      assert recs[..n] + [recs[n]] == recs;
      var i := s.routeIdx;
      var a := s.routes[i] + Endpoints(recs[..n]);
      var s1 := s.(routes := s.routes[i := a]);
      assert Run(s, recs[..n]) == s1;
      assert Run(s1, [recs[n]]) == Step(s1, recs[n]);
      var tail := if IsVia(recs[n]) then [] else [Point(recs[n][3].num, recs[n][4].num)];
      assert a + tail == s.routes[i] + Endpoints(recs);
      if IsVia(recs[n]) {
        assert Step(s1, recs[n]) == s1;
        assert a == a + tail;
      } else {
        assert Step(s1, recs[n]) == s1.(routes := s1.routes[i := a + tail]);
        assert s1.routes[i := a + tail] == s.routes[i := a + tail];
      }
    } else {
      assert s.routes[s.routeIdx] + Endpoints(recs) == s.routes[s.routeIdx];
      assert s.routes[s.routeIdx := s.routes[s.routeIdx]] == s.routes;
    }
  }

  /** A seeded net's block, header to `.end`: its route gains the end points of its segments
      in file order, no other route changes, and the loader is back in command state. */
  lemma NetBlock(s: Vlg, h: Line, recs: seq<Line>, e: Line, rest: seq<Line>)
    requires s.mode == Command && !s.failed && IsHeader(h) && h[0].num in s.routes
    requires RouteRecords(recs) && IsEnd(e)
    ensures Run(s, [h] + recs + [e] + rest) ==
      Run(s.(routes := s.routes[h[0].num := s.routes[h[0].num] + Endpoints(recs)],
             routeIdx := h[0].num), rest)
  {
    var s1 := Step(s, h);
    RunConcat(s, [h], recs + [e] + rest);
    assert [h] + recs + [e] + rest == [h] + (recs + [e] + rest);
    assert Run(s, [h]) == s1;
    RunConcat(s1, recs, [e] + rest);
    assert recs + [e] + rest == recs + ([e] + rest);
    ReadRecords(s1, recs);
    assert ([e] + rest)[1..] == rest;
  }

  /** A net whose index no chip1 bump seeded fails at its first segment record. */
  lemma UnseededNetFails(s: Vlg, h: Line, r: Line, rest: seq<Line>)
    requires s.mode == Command && !s.failed && IsHeader(h) && h[0].num !in s.routes
    requires r != [] && !IsEnd(r) && !IsVia(r)
    ensures Run(s, [h, r] + rest).failed
  {
    assert ([h, r] + rest)[1..] == [r] + rest;
    assert ([r] + rest)[1..] == rest;
    FailedRun(Step(Step(s, h), r), rest);
  }
}
