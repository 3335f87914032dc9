/** `Visualizer.load_costs` (visualizer/visualizer.py) restricted to what it keeps: the first `.l`
    block's rows become `costM1_map`, every later block's rows `costM2_map`, each row the line's
    tokens in order. As in `VisPlacement`, a `.`-line ending a block is read as a command at once,
    where the source pushes it back and re-reads it. */
module VisCosts {
  import opened Common

  datatype CMode = Command | ViaCost | CostM1 | CostM2

  datatype Vcst = Vcst(mode: CMode, m1Loaded: bool, costM1Map: seq<Line>, costM2Map: seq<Line>)

  /** `.alpha`, `.beta`, `.gamma` and `.delta` stay in command state; `.v` makes the next line
      the via cost; `.l` opens the M1 table the first time and the M2 table after that. */
  function CommandStep(s: Vcst, t: Token): (r: Vcst)
    ensures r.costM1Map == s.costM1Map && r.costM2Map == s.costM2Map
  {
    if t.text == ".v" then s.(mode := ViaCost)
    else if t.text == ".l" then
      (if s.m1Loaded then s.(mode := CostM2) else s.(mode := CostM1, m1Loaded := true))
    else s
  }

  function Step(s: Vcst, line: Line): Vcst {
    if line == [] then s
    else match s.mode
      case Command => CommandStep(s, line[0])
      case ViaCost => s.(mode := Command)
      case CostM1 =>
        if IsDotToken(line[0]) then CommandStep(s.(mode := Command), line[0])
        else s.(costM1Map := s.costM1Map + [line])
      case CostM2 =>
        if IsDotToken(line[0]) then CommandStep(s.(mode := Command), line[0])
        else s.(costM2Map := s.costM2Map + [line])
  }

  function Run(s: Vcst, lines: seq<Line>): Vcst
    decreases lines
  {
    if lines == [] then s else Run(Step(s, lines[0]), lines[1..])
  }

  lemma {:induction false} RunConcat(s: Vcst, a: seq<Line>, b: seq<Line>)
    ensures Run(s, a + b) == Run(Run(s, a), b)
    decreases a
  {
    if a != [] {
      assert (a + b)[1..] == a[1..] + b;
      RunConcat(Step(s, a[0]), a[1..], b);
    } else {
      assert a + b == b;
    }
  }

  // ---------------------------------------------------------------- properties

  /** `load_costs` skips a blank line before dispatching on the state (visualizer.py:143-145),
      so reading the file is reading it without its blank lines. */
  lemma {:induction false} BlankLinesIgnored(s: Vcst, lines: seq<Line>)
    ensures Run(s, lines) == Run(s, DropBlank(lines))
    decreases lines
  {
    if lines != [] {
      BlankLinesIgnored(Step(s, lines[0]), lines[1..]);
      if lines[0] != [] {
        assert DropBlank(lines)[1..] == DropBlank(lines[1..]);
      }
    }
  }

  /** A `.`-line ending a cost table is not stored: it is read exactly as in command state. */
  lemma PushedBackLine(s: Vcst, line: Line)
    requires (s.mode == CostM1 || s.mode == CostM2) && line != [] && IsDotToken(line[0])
    ensures Step(s, line) == Step(s.(mode := Command), line)
    ensures Step(s, line).costM1Map == s.costM1Map && Step(s, line).costM2Map == s.costM2Map
  {
  }

  /** The line after `.v` is consumed without being read, whatever it holds. */
  lemma ViaLineDiscarded(s: Vcst, v: Line, x: Line, rest: seq<Line>)
    requires s.mode == Command && v != [] && v[0].text == ".v" && x != []
    ensures Run(s, [v, x] + rest) == Run(s, rest)
  {
    assert ([v, x] + rest)[1..] == [x] + rest;
    assert ([x] + rest)[1..] == rest;
  }

  /** The weights and any other command leave the state as it was. */
  lemma OtherCommandsIgnored(s: Vcst, line: Line)
    requires s.mode == Command && line != [] && line[0].text != ".v" && line[0].text != ".l"
    ensures Step(s, line) == s
  {
  }

  /** Rows of a cost table: non-blank lines that are not commands. */
  predicate CostRows(rows: seq<Line>) {
    forall k :: 0 <= k < |rows| ==> rows[k] != [] && !IsDotToken(rows[k][0])
  }

  lemma {:induction false} ReadRows(s: Vcst, rows: seq<Line>)
    requires (s.mode == CostM1 || s.mode == CostM2) && CostRows(rows)
    ensures Run(s, rows) == if s.mode == CostM1 then s.(costM1Map := s.costM1Map + rows)
                            else s.(costM2Map := s.costM2Map + rows)
  {
    if rows != [] {
      var n := |rows| - 1;
      ReadRows(s, rows[..n]);
      RunConcat(s, rows[..n], [rows[n]]);
      assert rows[..n] + [rows[n]] == rows;
      if s.mode == CostM1 {
        assert s.costM1Map + rows[..n] + [rows[n]] == s.costM1Map + rows;
      } else {
        assert s.costM2Map + rows[..n] + [rows[n]] == s.costM2Map + rows;
      }
    } else {
      assert s.costM1Map + rows == s.costM1Map && s.costM2Map + rows == s.costM2Map;
    }
  }

  /** An `.l` table ended by a command line: the first table's rows are appended to
      `costM1_map`, any later table's to `costM2_map`, each row whole and in file order;
      the closing line is then read as a command. */
  lemma LayerBlock(s: Vcst, l: Line, rows: seq<Line>, cmd: Line, rest: seq<Line>)
    requires s.mode == Command && l != [] && l[0].text == ".l" && CostRows(rows)
    requires cmd != [] && IsDotToken(cmd[0])
    ensures var t := if s.m1Loaded then s.(costM2Map := s.costM2Map + rows)
                     else s.(costM1Map := s.costM1Map + rows, m1Loaded := true);
      Run(s, [l] + rows + [cmd] + rest) == Run(CommandStep(t, cmd[0]), rest)
  {
    var s1 := Step(s, l);
    RunConcat(s, [l], rows + [cmd] + rest);
    assert [l] + rows + [cmd] + rest == [l] + (rows + [cmd] + rest);
    assert Run(s, [l]) == s1;
    RunConcat(s1, rows, [cmd] + rest);
    assert rows + [cmd] + rest == rows + ([cmd] + rest);
    ReadRows(s1, rows);
    var s2 := Run(s1, rows);
    assert ([cmd] + rest)[1..] == rest;
    assert Step(s2, cmd) == CommandStep(s2.(mode := Command), cmd[0]);
  }
}
