/**
 * Hull-painting robot (day 11): the robot's heading and position update, and
 * the rendering of the painted panels into rows of text. The painting loop
 * itself drives an Intcode program that is not part of this model.
 */
module HullRobot {
  import opened Common

  /** A panel location (`Loc` namedtuple). */
  datatype Loc = Loc(x: int, y: int)

  const UP: int := 0
  const RIGHT: int := 1
  const DOWN: int := 2
  const LEFT: int := 3

  function Distance(a: Loc, b: Loc): nat
  {
    Abs(a.x - b.x) + Abs(a.y - b.y)
  }

  /** One unit along a heading: UP y+1, DOWN y-1, RIGHT x+1, LEFT x-1. */
  function Ahead(loc: Loc, heading: int): (r: Loc)
    requires 0 <= heading < 4
    ensures Abs(r.x - loc.x) + Abs(r.y - loc.y) == 1
    ensures heading == UP || heading == DOWN ==> r.x == loc.x
    ensures heading == RIGHT || heading == LEFT ==> r.y == loc.y
    ensures heading == UP ==> r.y == loc.y + 1
    ensures heading == DOWN ==> r.y == loc.y - 1
    ensures heading == RIGHT ==> r.x == loc.x + 1
    ensures heading == LEFT ==> r.x == loc.x - 1
  {
    if heading == UP then Loc(loc.x, loc.y + 1)
    else if heading == DOWN then Loc(loc.x, loc.y - 1)
    else if heading == RIGHT then Loc(loc.x + 1, loc.y)
    else Loc(loc.x - 1, loc.y)
  }

  /** Moving ahead and then along the opposite heading returns to the start. */
  lemma AheadBack(loc: Loc, heading: int)
    requires 0 <= heading < 4
    ensures Ahead(Ahead(loc, heading), (heading + 2) % 4) == loc
  {
  }

  /**
   * `get_movement`: turn 0 turns left (counter-clockwise) 90 degrees, any
   * other value turns right, with Python's modulo keeping the heading in
   * 0..3; then the robot moves one panel forward.
   */
  function GetMovement(loc: Loc, heading: int, turn: int): (r: (Loc, int))
    ensures 0 <= r.1 < 4
    ensures turn == 0 ==> (r.1 + 1) % 4 == heading % 4
    ensures turn != 0 ==> (r.1 + 3) % 4 == heading % 4
    ensures r.0 == Ahead(loc, r.1)
    ensures Distance(loc, r.0) == 1
  {
    var h := if turn == 0 then (heading - 1) % 4 else (heading + 1) % 4;
    (Ahead(loc, h), h)
  }

  /** A left turn then a right turn (or a right then a left) faces the robot as it started. */
  lemma TurnBack(loc: Loc, heading: int, turn: int)
    ensures var a := GetMovement(loc, heading, 0); GetMovement(a.0, a.1, if turn == 0 then 1 else turn).1 == heading % 4
    ensures var b := GetMovement(loc, heading, 1); GetMovement(b.0, b.1, 0).1 == heading % 4
  {
  }

  /**
   * Four turns the same way trace a unit square: the robot ends on the panel
   * it started from, facing the way it started.
   */
  lemma FourTurnsSquare(loc: Loc, heading: int, turn: int)
    ensures var m1 := GetMovement(loc, heading, turn);
      var m2 := GetMovement(m1.0, m1.1, turn);
      var m3 := GetMovement(m2.0, m2.1, turn);
      var m4 := GetMovement(m3.0, m3.1, turn);
      m4.0 == loc && m4.1 == heading % 4
  {
    Normalize(loc, heading, turn);
    if turn == 0 {
      SquareLeft(loc, heading % 4);
    } else {
      SquareRight(loc, heading % 4, turn);
    }
  }

  lemma SquareLeft(loc: Loc, h: int)
    requires 0 <= h < 4
    ensures var m1 := GetMovement(loc, h, 0);
      var m2 := GetMovement(m1.0, m1.1, 0);
      var m3 := GetMovement(m2.0, m2.1, 0);
      var m4 := GetMovement(m3.0, m3.1, 0);
      m4.0 == loc && m4.1 == h
  {
    var m1 := GetMovement(loc, h, 0);
    var m2 := GetMovement(m1.0, m1.1, 0);
    var m3 := GetMovement(m2.0, m2.1, 0);
    if h == 0 { assert m1.1 == 3 && m2.1 == 2 && m3.1 == 1; }
    else if h == 1 { assert m1.1 == 0 && m2.1 == 3 && m3.1 == 2; }
    else if h == 2 { assert m1.1 == 1 && m2.1 == 0 && m3.1 == 3; }
    else { assert m1.1 == 2 && m2.1 == 1 && m3.1 == 0; }
  }

  lemma SquareRight(loc: Loc, h: int, turn: int)
    requires 0 <= h < 4 && turn != 0
    ensures var m1 := GetMovement(loc, h, turn);
      var m2 := GetMovement(m1.0, m1.1, turn);
      var m3 := GetMovement(m2.0, m2.1, turn);
      var m4 := GetMovement(m3.0, m3.1, turn);
      m4.0 == loc && m4.1 == h
  {
    var m1 := GetMovement(loc, h, turn);
    var m2 := GetMovement(m1.0, m1.1, turn);
    var m3 := GetMovement(m2.0, m2.1, turn);
    if h == 0 { assert m1.1 == 1 && m2.1 == 2 && m3.1 == 3; }
    else if h == 1 { assert m1.1 == 2 && m2.1 == 3 && m3.1 == 0; }
    else if h == 2 { assert m1.1 == 3 && m2.1 == 0 && m3.1 == 1; }
    else { assert m1.1 == 0 && m2.1 == 1 && m3.1 == 2; }
  }

  /** Only the heading modulo 4, and only whether the turn is 0, matter. */
  lemma Normalize(loc: Loc, heading: int, turn: int)
    ensures GetMovement(loc, heading, turn) == GetMovement(loc, heading % 4, if turn == 0 then 0 else 1)
  {
  }

  // ---------------------------------------------------------------------
  // `render_panels`

  /** The grid `render_panels` starts from: 2y+1 rows of 2x+1 zeroes (Python makes a negative count empty). */
  function Blank(x: int, y: int): (g: seq<seq<int>>)
    ensures |g| == if 2 * y + 1 < 0 then 0 else 2 * y + 1
    ensures forall r :: 0 <= r < |g| ==> |g[r]| == (if 2 * x + 1 < 0 then 0 else 2 * x + 1)
    ensures forall r, c :: 0 <= r < |g| && 0 <= c < |g[r]| ==> g[r][c] == 0
  {
    var rows := if 2 * y + 1 < 0 then 0 else 2 * y + 1;
    var cols := if 2 * x + 1 < 0 then 0 else 2 * x + 1;
    seq(rows, _ => seq(cols, _ => 0))
  }

  /** Every row of the grid has `cols` cells. */
  predicate Rectangular(g: seq<seq<int>>, cols: nat)
  {
    forall r :: 0 <= r < |g| ==> |g[r]| == cols
  }

  /** The cell a panel is written to: `render[y + loc.y][x + loc.x]`, with Python's negative subscripts. */
  function Target(g: seq<seq<int>>, cols: nat, loc: Loc, x: int, y: int): Option<(nat, nat)>
  {
    match (PyIndex(y + loc.y, |g|), PyIndex(x + loc.x, cols))
    case (Some(r), Some(c)) => Some((r, c))
    case _ => None
  }

  /** Writes the panels in the order the dictionary yields them; IndexError when a subscript is out of range. */
  function Paint(g: seq<seq<int>>, cols: nat, panels: seq<(Loc, int)>, x: int, y: int): (r: Result<seq<seq<int>>>)
    requires Rectangular(g, cols)
    ensures r.Success? ==> |r.value| == |g| && Rectangular(r.value, cols)
    ensures r.Failure? ==> r.error == IndexError
  {
    if |panels| == 0 then Success(g)
    else
      match Paint(g, cols, panels[..|panels| - 1], x, y)
      case Failure(e) => Failure(e)
      case Success(g') =>
        var (loc, color) := panels[|panels| - 1];
        match Target(g', cols, loc, x, y)
        case None => Failure(IndexError)
        case Some((row, col)) => Success(g'[row := g'[row][col := color]])
  }

  /** The colour a cell ends with: that of the last panel written there, else the cell's own. */
  function LastColor(panels: seq<(Loc, int)>, rows: nat, cols: nat, x: int, y: int, row: nat, col: nat, initial: int): int
  {
    if |panels| == 0 then initial
    else
      var (loc, color) := panels[|panels| - 1];
      if PyIndex(y + loc.y, rows) == Some(row) && PyIndex(x + loc.x, cols) == Some(col) then color
      else LastColor(panels[..|panels| - 1], rows, cols, x, y, row, col, initial)
  }

  /** The colour grid cell (row, col) of the render ends with: the last panel painted there, else black. */
  function FinalColor(panels: seq<(Loc, int)>, x: int, y: int, row: nat, col: nat): int
  {
    LastColor(panels, if 2 * y + 1 < 0 then 0 else 2 * y + 1, if 2 * x + 1 < 0 then 0 else 2 * x + 1, x, y, row, col, 0)
  }

  /**
   * Painting succeeds exactly when every panel's subscripts are in range, and
   * then each cell holds the colour of the last panel written to it.
   */
  lemma PaintLastWins(g: seq<seq<int>>, cols: nat, panels: seq<(Loc, int)>, x: int, y: int)
    requires Rectangular(g, cols)
    ensures Paint(g, cols, panels, x, y).Success? <==>
      forall k :: 0 <= k < |panels| ==> PyIndex(y + panels[k].0.y, |g|).Some? && PyIndex(x + panels[k].0.x, cols).Some?
    ensures Paint(g, cols, panels, x, y).Success? ==>
      forall row, col :: 0 <= row < |g| && 0 <= col < cols ==>
        Paint(g, cols, panels, x, y).value[row][col] == LastColor(panels, |g|, cols, x, y, row, col, g[row][col])
  {
    PaintSucceeds(g, cols, panels, x, y);
    if Paint(g, cols, panels, x, y).Success? {
      PaintCells(g, cols, panels, x, y);
    }
  }

  lemma {:induction false} PaintSucceeds(g: seq<seq<int>>, cols: nat, panels: seq<(Loc, int)>, x: int, y: int)
    requires Rectangular(g, cols)
    ensures Paint(g, cols, panels, x, y).Success? <==>
      forall k :: 0 <= k < |panels| ==> PyIndex(y + panels[k].0.y, |g|).Some? && PyIndex(x + panels[k].0.x, cols).Some?
  {
    if |panels| > 0 {
      var front := panels[..|panels| - 1];
      PaintSucceeds(g, cols, front, x, y);
      assert forall k :: 0 <= k < |front| ==> front[k] == panels[k];
    }
  }

  lemma {:induction false} PaintCells(g: seq<seq<int>>, cols: nat, panels: seq<(Loc, int)>, x: int, y: int)
    requires Rectangular(g, cols)
    requires Paint(g, cols, panels, x, y).Success?
    ensures forall row, col :: 0 <= row < |g| && 0 <= col < cols ==>
      Paint(g, cols, panels, x, y).value[row][col] == LastColor(panels, |g|, cols, x, y, row, col, g[row][col])
  {
    if |panels| > 0 {
      var front := panels[..|panels| - 1];
      var g' := Paint(g, cols, front, x, y).value;
      PaintCells(g, cols, front, x, y);
      var (loc, color) := panels[|panels| - 1];
      var (tr, tc) := Target(g', cols, loc, x, y).value;
      var painted := Paint(g, cols, panels, x, y).value;
      assert painted == g'[tr := g'[tr][tc := color]];
      forall row, col | 0 <= row < |g| && 0 <= col < cols
        ensures painted[row][col] == LastColor(panels, |g|, cols, x, y, row, col, g[row][col])
      {
        if row == tr && col == tc {
          assert painted[row][col] == color;
        } else {
          assert painted[row][col] == g'[row][col];
        }
      }
    }
  }

  /** `f'{color}'.replace('0', ' ').replace('1', '#')`. */
  function ColorText(color: int): string
  {
    Glyphs(Str(color))
  }

  function Glyph(c: char): char
  {
    if c == '0' then ' ' else if c == '1' then '#' else c
  }

  function Glyphs(s: string): (t: string)
    ensures |t| == |s|
    ensures forall i :: 0 <= i < |s| ==> t[i] == Glyph(s[i])
  {
    if |s| == 0 then [] else Glyphs(s[..|s| - 1]) + [Glyph(s[|s| - 1])]
  }

  /** A black panel renders as a blank and a white one as '#'. */
  lemma PanelGlyphs()
    ensures ColorText(0) == " "
    ensures ColorText(1) == "#"
  {
    assert Str(0) == "0";
    assert Str(1) == "1";
  }

  /** Texts written one after another. */
  function Concat(pieces: seq<string>): string
  {
    if |pieces| == 0 then "" else Concat(pieces[..|pieces| - 1]) + pieces[|pieces| - 1]
  }

  /** The colour texts of the first n cells of a row. */
  function CellTexts(row: seq<int>, n: nat): seq<string>
    requires n <= |row|
  {
    seq(n, j requires 0 <= j < n => ColorText(row[j]))
  }

  /** The first n cells of a row, each written as its colour text. */
  function RowText(row: seq<int>, n: nat): string
    requires n <= |row|
  {
    Concat(CellTexts(row, n))
  }

  /** Each text followed by a newline, in order. */
  function Terminated(lines: seq<string>): string
  {
    if |lines| == 0 then "" else lines[0] + "\n" + Terminated(lines[1..])
  }

  /** Rows i, i-1, .., 0 of the grid, each with its first 2x cells and a newline. */
  function Lines(g: seq<seq<int>>, i: int, x: int): string
    requires i < |g| && forall r :: 0 <= r < |g| ==> 2 * x <= |g[r]|
  {
    Terminated(Downward(RowTexts(g, x), i))
  }

  /**
   * `render_panels` without the printing: the painted grid as text, top row
   * (row 2y) first. It fails, with IndexError, exactly when some panel's
   * offset row or column is no valid Python subscript of the grid.
   */
  function RenderPanels(panels: seq<(Loc, int)>, x: int, y: int): (r: Result<string>)
    ensures var rows, cols := (if 2 * y + 1 < 0 then 0 else 2 * y + 1), (if 2 * x + 1 < 0 then 0 else 2 * x + 1);
      r.Success? <==> forall k :: 0 <= k < |panels| ==> PyIndex(y + panels[k].0.y, rows).Some? && PyIndex(x + panels[k].0.x, cols).Some?
    ensures r.Failure? ==> r.error == IndexError
  {
    var cols := if 2 * x + 1 < 0 then 0 else 2 * x + 1;
    var g := Blank(x, y);
    PaintSucceeds(g, cols, panels, x, y);
    match Paint(g, cols, panels, x, y)
    case Failure(e) => Failure(e)
    case Success(painted) => Success(Lines(painted, 2 * y, x))
  }

  /** Every cell holds a single digit, so it renders as one character. */
  predicate SingleDigits(g: seq<seq<int>>)
  {
    forall r, c :: 0 <= r < |g| && 0 <= c < |g[r]| ==> 0 <= g[r][c] <= 9
  }

  lemma SingleDigitText(v: int)
    requires 0 <= v <= 9
    ensures ColorText(v) == [Glyph(DigitChar(v))]
  {
    assert Str(v) == [DigitChar(v)];
  }

  /** Texts of one character each concatenate to those characters in order. */
  lemma {:induction false} ConcatSingles(pieces: seq<string>)
    requires forall i :: 0 <= i < |pieces| ==> |pieces[i]| == 1
    ensures |Concat(pieces)| == |pieces|
    ensures forall j :: 0 <= j < |pieces| ==> Concat(pieces)[j] == pieces[j][0]
  {
    if |pieces| > 0 {
      var front := pieces[..|pieces| - 1];
      ConcatSingles(front);
      var s := Concat(front) + pieces[|pieces| - 1];
      assert Concat(pieces) == s;
      forall j | 0 <= j < |pieces| - 1
        ensures s[j] == pieces[j][0]
      {
        assert s[j] == Concat(front)[j];
        assert front[j] == pieces[j];
      }
    }
  }

  /** Texts without a newline concatenate to a text without one. */
  lemma {:induction false} ConcatOneLine(pieces: seq<string>)
    requires forall i :: 0 <= i < |pieces| ==> OneLine(pieces[i])
    ensures OneLine(Concat(pieces))
  {
    if |pieces| > 0 {
      var front := pieces[..|pieces| - 1];
      ConcatOneLine(front);
      OneLineConcat(Concat(front), pieces[|pieces| - 1]);
    }
  }

  lemma RowTextStep(row: seq<int>, n: nat)
    requires 0 < n <= |row| && 0 <= row[n - 1] <= 9
    ensures RowText(row, n) == RowText(row, n - 1) + [Glyph(DigitChar(row[n - 1]))]
  {
    assert CellTexts(row, n)[..n - 1] == CellTexts(row, n - 1);
    SingleDigitText(row[n - 1]);
  }

  lemma RowTextLayout(row: seq<int>, n: nat)
    requires n <= |row| && forall c :: 0 <= c < |row| ==> 0 <= row[c] <= 9
    ensures |RowText(row, n)| == n
    ensures forall j :: 0 <= j < n ==> RowText(row, n)[j] == Glyph(DigitChar(row[j]))
  {
    var cells := CellTexts(row, n);
    forall j | 0 <= j < n
      ensures cells[j] == [Glyph(DigitChar(row[j]))]
    {
      SingleDigitText(row[j]);
    }
    ConcatSingles(cells);
  }

  /** Where the first line of `s` from position i ends: at the next newline, or at the end of the text. */
  function LineEnd(s: string, i: nat): (e: nat)
    requires i <= |s|
    ensures i <= e <= |s|
    ensures forall k :: i <= k < e ==> s[k] != '\n'
    ensures e < |s| ==> s[e] == '\n'
    decreases |s| - i
  {
    if i == |s| || s[i] == '\n' then i else LineEnd(s, i + 1)
  }

  /** The newline-terminated lines of a text (a last line without a newline counts too). */
  function TextLines(s: string): seq<string>
    decreases |s|
  {
    if |s| == 0 then []
    else
      var e := LineEnd(s, 0);
      [s[..e]] + TextLines(s[if e < |s| then e + 1 else e..])
  }

  lemma NoNewlineEnd(line: string, rest: string)
    requires OneLine(line)
    ensures TextLines(line + "\n" + rest) == [line] + TextLines(rest)
  {
    var s := line + "\n" + rest;
    var e := LineEnd(s, 0);
    assert s[|line|] == '\n';
    assert e == |line|;
    assert s[..e] == line;
    assert s[e + 1..] == rest;
  }

  /** A text without a newline in it. */
  predicate OneLine(s: string)
  {
    forall k :: 0 <= k < |s| ==> s[k] != '\n'
  }

  lemma OneLineConcat(a: string, b: string)
    requires OneLine(a) && OneLine(b)
    ensures OneLine(a + b)
  {
    forall k | 0 <= k < |a + b|
      ensures (a + b)[k] != '\n'
    {
      if k < |a| {
        assert (a + b)[k] == a[k];
      } else {
        assert (a + b)[k] == b[k - |a|];
      }
    }
  }

  /** The text of a colour never holds a newline: it is digits and maybe a minus sign. */
  lemma ColorTextOneLine(color: int)
    ensures OneLine(ColorText(color))
  {
    var s := Str(color);
    if color < 0 {
      assert s == "-" + Digits(-color);
      assert forall i :: 1 <= i < |s| ==> s[i] == Digits(-color)[i - 1];
    }
    assert forall i :: 0 <= i < |s| ==> s[i] != '\n';
  }

  lemma RowTextOneLine(row: seq<int>, n: nat)
    requires n <= |row|
    ensures OneLine(RowText(row, n))
  {
    var cells := CellTexts(row, n);
    forall j | 0 <= j < n
      ensures OneLine(cells[j])
    {
      ColorTextOneLine(row[j]);
    }
    ConcatOneLine(cells);
  }

  /** Elements i, i-1, .., 0 of a sequence. */
  function Downward<T>(s: seq<T>, i: int): seq<T>
    requires i < |s|
    decreases i + 1
  {
    if i < 0 then [] else [s[i]] + Downward(s, i - 1)
  }

  lemma {:induction false} DownwardAt<T>(s: seq<T>, i: int)
    requires i < |s|
    ensures |Downward(s, i)| == if i < 0 then 0 else i + 1
    ensures forall k :: 0 <= k <= i ==> Downward(s, i)[k] == s[i - k]
    decreases i + 1
  {
    if i >= 0 {
      DownwardAt(s, i - 1);
      var below := Downward(s, i - 1);
      assert |below| == i;
      forall k | 0 < k <= i
        ensures Downward(s, i)[k] == s[i - k]
      {
        assert Downward(s, i)[k] == below[k - 1];
      }
    }
  }

  /** The text of every row of the grid, each with its first 2x cells. */
  function RowTexts(g: seq<seq<int>>, x: int): (t: seq<string>)
    requires forall r :: 0 <= r < |g| ==> 2 * x <= |g[r]|
    ensures |t| == |g|
  {
    seq(|g|, r requires 0 <= r < |g| => RowText(g[r], if x < 0 then 0 else 2 * x))
  }

  /** Texts without newlines, each terminated by one, read back as those texts. */
  lemma {:induction false} ReadTerminated(lines: seq<string>)
    requires forall j :: 0 <= j < |lines| ==> OneLine(lines[j])
    ensures TextLines(Terminated(lines)) == lines
  {
    if |lines| > 0 {
      NoNewlineEnd(lines[0], Terminated(lines[1..]));
      ReadTerminated(lines[1..]);
      assert lines == [lines[0]] + lines[1..];
    }
  }

  /** Rows i down to 0, as texts: entry k is the text of row i-k. */
  lemma RowsDownward(g: seq<seq<int>>, i: int, x: int)
    requires i < |g| && forall r :: 0 <= r < |g| ==> 2 * x <= |g[r]|
    ensures |Downward(RowTexts(g, x), i)| == if i < 0 then 0 else i + 1
    ensures forall k :: 0 <= k <= i ==> Downward(RowTexts(g, x), i)[k] == RowText(g[i - k], if x < 0 then 0 else 2 * x)
  {
    var texts := RowTexts(g, x);
    DownwardAt(texts, i);
    forall k | 0 <= k <= i
      ensures Downward(texts, i)[k] == RowText(g[i - k], if x < 0 then 0 else 2 * x)
    {
      var r := i - k;
      assert Downward(texts, i)[k] == texts[r];
    }
  }

  /** No row text holds a newline. */
  lemma RowTextsOneLine(g: seq<seq<int>>, x: int)
    requires forall r :: 0 <= r < |g| ==> 2 * x <= |g[r]|
    ensures forall r :: 0 <= r < |g| ==> OneLine(RowTexts(g, x)[r])
  {
    forall r | 0 <= r < |g|
      ensures OneLine(RowTexts(g, x)[r])
    {
      RowTextOneLine(g[r], if x < 0 then 0 else 2 * x);
    }
  }

  /** The text read back line by line: line k is grid row i-k, rendered cell by cell. */
  lemma LinesLayout(g: seq<seq<int>>, i: int, x: int)
    requires i < |g| && forall r :: 0 <= r < |g| ==> 2 * x <= |g[r]|
    ensures |TextLines(Lines(g, i, x))| == if i < 0 then 0 else i + 1
    ensures forall k :: 0 <= k <= i ==> TextLines(Lines(g, i, x))[k] == RowText(g[i - k], if x < 0 then 0 else 2 * x)
  {
    var texts := RowTexts(g, x);
    var down := Downward(texts, i);
    DownwardAt(texts, i);
    RowTextsOneLine(g, x);
    assert forall k :: 0 <= k < |down| ==> down[k] == texts[i - k];
    ReadTerminated(down);
    RowsDownward(g, i, x);
  }

  lemma {:induction false} LastColorDigit(panels: seq<(Loc, int)>, rows: nat, cols: nat, x: int, y: int, row: nat, col: nat)
    requires forall k :: 0 <= k < |panels| ==> 0 <= panels[k].1 <= 9
    ensures 0 <= LastColor(panels, rows, cols, x, y, row, col, 0) <= 9
  {
    if |panels| > 0 {
      LastColorDigit(panels[..|panels| - 1], rows, cols, x, y, row, col);
    }
  }

  /** With single-digit colours painted on a blank grid, every cell holds a single digit. */
  lemma PaintedDigits(panels: seq<(Loc, int)>, x: int, y: int)
    requires x >= 0 && y >= 0
    requires forall k :: 0 <= k < |panels| ==> 0 <= panels[k].1 <= 9
    requires Paint(Blank(x, y), 2 * x + 1, panels, x, y).Success?
    ensures SingleDigits(Paint(Blank(x, y), 2 * x + 1, panels, x, y).value)
  {
    var g := Blank(x, y);
    var cols := 2 * x + 1;
    PaintCells(g, cols, panels, x, y);
    var painted := Paint(g, cols, panels, x, y).value;
    assert |painted| == |g| == 2 * y + 1 && Rectangular(painted, cols);
    forall r, c | 0 <= r < |painted| && 0 <= c < |painted[r]|
      ensures 0 <= painted[r][c] <= 9
    {
      assert g[r][c] == 0;
      assert painted[r][c] == LastColor(panels, |g|, cols, x, y, r, c, 0);
      LastColorDigit(panels, |g|, cols, x, y, r, c);
    }
  }

  /** A render of non-negative sizes is the lines of the painted grid. */
  lemma RenderIsLines(panels: seq<(Loc, int)>, x: int, y: int)
    requires x >= 0 && y >= 0
    requires RenderPanels(panels, x, y).Success?
    ensures Paint(Blank(x, y), 2 * x + 1, panels, x, y).Success?
    ensures RenderPanels(panels, x, y).value == Lines(Paint(Blank(x, y), 2 * x + 1, panels, x, y).value, 2 * y, x)
  {
  }

  /** The grid a successful render paints: single digits, each cell its final colour. */
  lemma PaintedGrid(panels: seq<(Loc, int)>, x: nat, y: nat) returns (painted: seq<seq<int>>)
    requires forall k :: 0 <= k < |panels| ==> 0 <= panels[k].1 <= 9
    requires RenderPanels(panels, x, y).Success?
    ensures |painted| == 2 * y + 1 && forall r :: 0 <= r < |painted| ==> |painted[r]| == 2 * x + 1
    ensures RenderPanels(panels, x, y).value == Lines(painted, 2 * y, x)
    ensures SingleDigits(painted)
    ensures forall r, c :: 0 <= r < |painted| && 0 <= c < |painted[r]| ==> painted[r][c] == FinalColor(panels, x, y, r, c)
  {
    RenderIsLines(panels, x, y);
    var g := Blank(x, y);
    PaintLastWins(g, 2 * x + 1, panels, x, y);
    PaintedDigits(panels, x, y);
    painted := Paint(g, 2 * x + 1, panels, x, y).value;
    forall r, c | 0 <= r < |painted| && 0 <= c < |painted[r]|
      ensures painted[r][c] == FinalColor(panels, x, y, r, c)
    {
      assert g[r][c] == 0;
    }
  }

  /** Line k of the text of a single-digit grid is row 2y-k, one glyph per cell. */
  lemma GridLine(g: seq<seq<int>>, x: nat, y: nat, k: nat)
    requires |g| == 2 * y + 1 && k <= 2 * y
    requires forall r :: 0 <= r < |g| ==> 2 * x <= |g[r]|
    requires SingleDigits(g)
    ensures |TextLines(Lines(g, 2 * y, x))| == 2 * y + 1
    ensures |TextLines(Lines(g, 2 * y, x))[k]| == 2 * x
    ensures forall j :: 0 <= j < 2 * x ==> TextLines(Lines(g, 2 * y, x))[k][j] == Glyph(DigitChar(g[2 * y - k][j]))
  {
    LinesLayout(g, 2 * y, x);
    RowTextLayout(g[2 * y - k], 2 * x);
  }

  /**
   * For non-negative sizes and single-digit colours, a successful render is
   * 2y+1 lines of 2x characters; character j of line k shows the colour last
   * painted at grid row 2y-k, column j (blank for black, '#' for white), or a
   * blank if no panel went there.
   */
  lemma RenderLayout(panels: seq<(Loc, int)>, x: nat, y: nat)
    requires forall k :: 0 <= k < |panels| ==> 0 <= panels[k].1 <= 9
    requires RenderPanels(panels, x, y).Success?
    ensures |TextLines(RenderPanels(panels, x, y).value)| == 2 * y + 1
    ensures forall k :: 0 <= k <= 2 * y ==> |TextLines(RenderPanels(panels, x, y).value)[k]| == 2 * x
    ensures forall k, j :: 0 <= k <= 2 * y && 0 <= j < 2 * x ==>
      && 0 <= FinalColor(panels, x, y, 2 * y - k, j) <= 9
      && TextLines(RenderPanels(panels, x, y).value)[k][j] == Glyph(DigitChar(FinalColor(panels, x, y, 2 * y - k, j)))
  {
    var painted := PaintedGrid(panels, x, y);
    var out := RenderPanels(panels, x, y).value;
    GridLine(painted, x, y, 0);
    forall k | 0 <= k <= 2 * y
      ensures |TextLines(out)[k]| == 2 * x
    {
      GridLine(painted, x, y, k);
    }
    forall k, j | 0 <= k <= 2 * y && 0 <= j < 2 * x
      ensures 0 <= FinalColor(panels, x, y, 2 * y - k, j) <= 9
      ensures TextLines(out)[k][j] == Glyph(DigitChar(FinalColor(panels, x, y, 2 * y - k, j)))
    {
      GridLine(painted, x, y, k);
    }
  }

  /** Every panel lands in the grid when its offsets from the centre are within the sizes. */
  lemma PanelsInRange(panels: seq<(Loc, int)>, x: int, y: int)
    requires x >= 0 && y >= 0
    requires forall k :: 0 <= k < |panels| ==> Abs(panels[k].0.x) <= x && Abs(panels[k].0.y) <= y
    ensures RenderPanels(panels, x, y).Success?
  {
    PaintLastWins(Blank(x, y), 2 * x + 1, panels, x, y);
  }
}
