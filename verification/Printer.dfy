/** The terminal picture of a field, and a reader that gets the field's shape back from it. */
module Printer {
  import opened Options
  import opened Kube
  import opened Fields

  datatype CharSet = CharSet(wall: string, floor: string, leftCorner: string, rightCorner: string,
                             stableIcon: string, unstableIcon: string, blank: string)

  const DEFAULT := CharSet("|", "-", "+", "+", "@", "o", " ")
  const WIDE := CharSet("|", "--", "+", "+", "\U{25CF}", "\U{25CB}", "  ")

  const OPEN := "\U{001B}[0;"
  const CLOSE := "\U{001B}[0m"

  /** The terminal code of a colour; every colour outside the palette shares code 0. */
  function ColorCode(color: string): string
  {
    if color == "red" then "31"
    else if color == "green" then "32"
    else if color == "yellow" then "33"
    else if color == "blue" then "34"
    else if color == "purple" then "35"
    else "0"
  }

  /** What the picture shows of a Pod. */
  datatype Mark = Mark(stable: bool, code: string)

  type Row = seq<Option<Mark>>

  /** Rows top first, each as wide as the field. */
  datatype Picture = Picture(width: nat, rows: seq<Row>)

  function MarkOf(c: Cell): Mark
  {
    Mark(c.pod.Stable(), ColorCode(c.color))
  }

  function Token(cs: CharSet, m: Mark): string
  {
    OPEN + m.code + "m" + (if m.stable then cs.stableIcon else cs.unstableIcon) + CLOSE
  }

  function Glyph(cs: CharSet, o: Option<Mark>): string
  {
    if o.None? then cs.blank else Token(cs, o.value)
  }

  function Repeat(s: string, n: nat): string
  {
    if n == 0 then "" else s + Repeat(s, n - 1)
  }

  /** The cells of a row, its right wall and the line break. */
  function RowText(cs: CharSet, row: Row): string
  {
    if row == [] then cs.wall + "\n" else Glyph(cs, row[0]) + RowText(cs, row[1..])
  }

  function FloorText(cs: CharSet, width: nat): string
  {
    Repeat(cs.floor, width) + cs.rightCorner + "\n"
  }

  function Text(cs: CharSet, width: nat, rows: seq<Row>): string
  {
    if rows == [] then cs.leftCorner + FloorText(cs, width)
    else cs.wall + RowText(cs, rows[0]) + Text(cs, width, rows[1..])
  }

  // ----- The picture of a field

  function RowAt(f: Field, y: int): Row
  {
    seq(|f.columns|, x requires 0 <= x < |f.columns| =>
      match f.At(x, y) case None => None case Some(c) => Some(MarkOf(c)))
  }

  /** The rows below y, top first. */
  function RowsBelow(f: Field, y: nat): (rows: seq<Row>)
    ensures |rows| == y
  {
    if y == 0 then [] else [RowAt(f, y - 1)] + RowsBelow(f, y - 1)
  }

  lemma {:induction false} RowsBelowAt(f: Field, y: nat, i: nat)
    requires i < y
    ensures RowsBelow(f, y)[y - 1 - i] == RowAt(f, i)
  {
    if i < y - 1 {
      RowsBelowAt(f, y - 1, i);
    }
  }

  function Tallest(columns: seq<Column>): nat
  {
    if columns == [] then 0
    else
      var rest := Tallest(columns[..|columns| - 1]);
      var h := |columns[|columns| - 1].pods|;
      if h > rest then h else rest
  }

  lemma {:induction false} TallestBounds(columns: seq<Column>)
    ensures forall x :: 0 <= x < |columns| ==> |columns[x].pods| <= Tallest(columns)
    ensures Tallest(columns) == 0 || exists x :: 0 <= x < |columns| && |columns[x].pods| == Tallest(columns)
  {
    if columns != [] {
      var init := columns[..|columns| - 1];
      TallestBounds(init);
      if Tallest(columns) == Tallest(init) != 0 {
        var x :| 0 <= x < |init| && |init[x].pods| == Tallest(init);
        assert |columns[x].pods| == Tallest(columns);
      } else {
        assert Tallest(columns) == 0 || |columns[|columns| - 1].pods| == Tallest(columns);
      }
    }
  }

  /** The rows of a field, top first. */
  function RowsOf(f: Field): seq<Row>
  {
    RowsBelow(f, Tallest(f.columns))
  }

  method RenderRow(cs: CharSet, f: Field, y: int) returns (b: string)
    ensures b == cs.wall + RowText(cs, RowAt(f, y))
  {
    ghost var row := RowAt(f, y);
    b := cs.wall;
    for x := 0 to |f.columns|
      invariant cs.wall + RowText(cs, row) == b + RowText(cs, row[x..])
    {
      var p := f.At(x, y);
      RowTextStep(cs, row, x, b);
      if p.Some? {
        b := b + Token(cs, MarkOf(p.value));
      } else {
        b := b + cs.blank;
      }
    }
    assert row[|f.columns|..] == [];
    b := b + cs.wall + "\n";
  }

  lemma {:induction false} RowTextStep(cs: CharSet, row: Row, x: nat, b: string)
    requires x < |row|
    ensures b + RowText(cs, row[x..]) == (b + Glyph(cs, row[x])) + RowText(cs, row[x + 1..])
  {
    assert row[x..][0] == row[x] && row[x..][1..] == row[x + 1..];
    Regroup(b, Glyph(cs, row[x]), RowText(cs, row[x + 1..]));
  }

  method RenderFloor(cs: CharSet, width: nat) returns (b: string)
    ensures b == cs.leftCorner + FloorText(cs, width)
  {
    b := cs.leftCorner;
    for x := 0 to width
      invariant cs.leftCorner + FloorText(cs, width) == b + FloorText(cs, width - x)
    {
      assert FloorText(cs, width - x) == cs.floor + FloorText(cs, width - x - 1);
      b := b + cs.floor;
    }
    b := b + cs.rightCorner + "\n";
  }

  lemma TextStep(cs: CharSet, f: Field, y: nat, b: string)
    requires y > 0
    ensures b + Text(cs, |f.columns|, RowsBelow(f, y))
      == (b + (cs.wall + RowText(cs, RowAt(f, y - 1)))) + Text(cs, |f.columns|, RowsBelow(f, y - 1))
  {
    assert RowsBelow(f, y)[1..] == RowsBelow(f, y - 1);
    Regroup(b, cs.wall + RowText(cs, RowAt(f, y - 1)), Text(cs, |f.columns|, RowsBelow(f, y - 1)));
  }

  /** Top row first, then the floor. */
  method Render(cs: CharSet, f: Field) returns (b: string)
    ensures b == Text(cs, |f.columns|, RowsOf(f))
  {
    var rows := f.MaxHeight();
    TallestBounds(f.columns);
    assert rows == Tallest(f.columns) by {
      assert forall x :: 0 <= x < |f.columns| ==> f.Height(x) == |f.columns[x].pods|;
    }
    b := "";
    var y := rows;
    while y > 0
      invariant Text(cs, |f.columns|, RowsOf(f)) == b + Text(cs, |f.columns|, RowsBelow(f, y))
    {
      var line := RenderRow(cs, f, y - 1);
      TextStep(cs, f, y, b);
      b := b + line;
      y := y - 1;
    }
    var line := RenderFloor(cs, |f.columns|);
    b := b + line;
  }

  // ----- Reading it back

  const CODES := ["0", "31", "32", "33", "34", "35"]

  const MARKS: seq<Mark> := [
    Mark(true, "0"), Mark(true, "31"), Mark(true, "32"), Mark(true, "33"), Mark(true, "34"), Mark(true, "35"),
    Mark(false, "0"), Mark(false, "31"), Mark(false, "32"), Mark(false, "33"), Mark(false, "34"), Mark(false, "35")]

  function FirstMark(cs: CharSet, s: string, marks: seq<Mark>): Option<Mark>
  {
    if marks == [] then None
    else if Token(cs, marks[0]) <= s then Some(marks[0])
    else FirstMark(cs, s, marks[1..])
  }

  function ReadRow(cs: CharSet, s: string): Option<(Row, string)>
    decreases |s|
  {
    if cs.wall + "\n" <= s then Some(([], s[|cs.wall| + 1..]))
    else if cs.blank != "" && cs.blank <= s then
      match ReadRow(cs, s[|cs.blank|..])
      case None => None
      case Some((row, rest)) => Some(([None] + row, rest))
    else
      match FirstMark(cs, s, MARKS)
      case None => None
      case Some(m) =>
        if !(Token(cs, m) <= s) then None
        else
          match ReadRow(cs, s[|Token(cs, m)|..])
          case None => None
          case Some((row, rest)) => Some(([Some(m)] + row, rest))
  }

  function ReadFloor(cs: CharSet, s: string): Option<nat>
    decreases |s|
  {
    if s == cs.rightCorner + "\n" then Some(0)
    else if cs.floor != "" && cs.floor <= s then
      match ReadFloor(cs, s[|cs.floor|..])
      case None => None
      case Some(n) => Some(n + 1)
    else None
  }

  function Read(cs: CharSet, s: string): Option<Picture>
    decreases |s|
  {
    if cs.wall != "" && cs.wall <= s then
      match ReadRow(cs, s[|cs.wall|..])
      case None => None
      case Some((row, rest)) =>
        if |rest| >= |s| then None
        else
          match Read(cs, rest)
          case None => None
          case Some(p) => Some(Picture(p.width, [row] + p.rows))
    else if cs.leftCorner <= s then
      match ReadFloor(cs, s[|cs.leftCorner|..])
      case None => None
      case Some(width) => Some(Picture(width, []))
    else None
  }

  /** Glyphs a reader can tell apart by their first character. */
  predicate Legible(cs: CharSet)
  {
    && cs.wall != "" && cs.blank != "" && cs.floor != "" && cs.leftCorner != "" && cs.rightCorner != ""
    && cs.wall[0] != cs.blank[0] && cs.wall[0] != OPEN[0] && cs.blank[0] != OPEN[0]
    && cs.wall[0] != cs.leftCorner[0] && cs.floor[0] != cs.rightCorner[0]
    && |cs.stableIcon| == 1 && |cs.unstableIcon| == 1 && cs.stableIcon != cs.unstableIcon
  }

  lemma BothSetsLegible()
    ensures Legible(DEFAULT) && Legible(WIDE)
  {
  }

  lemma CodeChars(code: string)
    requires code in CODES
    ensures |code| > 0 && (code[0] == '0' ==> code == "0") && (code[0] != '0' ==> |code| == 2 && code[0] == '3')
  {
  }

  /** The token's characters, by position. */
  lemma TokenChars(cs: CharSet, m: Mark, s: string)
    requires Legible(cs) && m.code in CODES && Token(cs, m) <= s
    ensures |s| > 4 + |m.code| + 1 && s[0] == OPEN[0]
    ensures forall i :: 0 <= i < |m.code| ==> s[4 + i] == m.code[i]
    ensures s[4 + |m.code| + 1] == if m.stable then cs.stableIcon[0] else cs.unstableIcon[0]
  {
    var t := Token(cs, m);
    assert |OPEN| == 4;
    assert forall i :: 0 <= i < |m.code| ==> t[4 + i] == m.code[i];
    assert t[4 + |m.code| + 1] == if m.stable then cs.stableIcon[0] else cs.unstableIcon[0];
  }

  /** No token begins another. */
  lemma TokensDiffer(cs: CharSet, m: Mark, n: Mark, s: string)
    requires Legible(cs) && m.code in CODES && n.code in CODES && Token(cs, m) <= s && Token(cs, n) <= s
    ensures m == n
  {
    TokenChars(cs, m, s);
    TokenChars(cs, n, s);
    CodeChars(m.code);
    CodeChars(n.code);
    assert m.code[0] == s[4] == n.code[0];
    if m.code[0] != '0' {
      assert m.code[1] == s[5] == n.code[1];
      assert m.code == [m.code[0], m.code[1]] && n.code == [n.code[0], n.code[1]];
    }
  }

  lemma {:induction false} FirstMarkFinds(cs: CharSet, s: string, marks: seq<Mark>, m: Mark)
    requires Legible(cs) && m in marks && Token(cs, m) <= s && forall n :: n in marks ==> n.code in CODES
    ensures FirstMark(cs, s, marks) == Some(m)
  {
    if Token(cs, marks[0]) <= s {
      TokensDiffer(cs, m, marks[0], s);
    } else {
      assert marks == [marks[0]] + marks[1..];
      FirstMarkFinds(cs, s, marks[1..], m);
    }
  }

  lemma AllMarks(m: Mark)
    requires m.code in CODES
    ensures m in MARKS && forall n :: n in MARKS ==> n.code in CODES
  {
    var i :| 0 <= i < |CODES| && CODES[i] == m.code;
    assert MARKS[if m.stable then i else i + 6] == m;
  }

  ghost predicate Readable(row: Row)
  {
    forall x :: 0 <= x < |row| && row[x].Some? ==> row[x].value.code in CODES
  }

  lemma {:induction false} BlankReads(cs: CharSet, s: string, tail: string, row: Row, rest: string)
    requires Legible(cs) && s == cs.blank + tail && ReadRow(cs, tail) == Some((row, rest))
    ensures ReadRow(cs, s) == Some(([None] + row, rest))
  {
    assert s[0] == cs.blank[0] && s[|cs.blank|..] == tail && cs.blank <= s;
  }

  lemma {:induction false} TokenReads(cs: CharSet, m: Mark, token: string, s: string, tail: string, row: Row,
                                      rest: string)
    requires Legible(cs) && m.code in CODES && token == Token(cs, m)
    requires s == token + tail && ReadRow(cs, tail) == Some((row, rest))
    ensures ReadRow(cs, s) == Some(([Some(m)] + row, rest))
  {
    assert token <= s && s[|token|..] == tail;
    TokenChars(cs, m, s);
    AllMarks(m);
    FirstMarkFinds(cs, s, MARKS, m);
    assert !(cs.wall + "\n" <= s) && !(cs.blank <= s);
  }

  /** A glyph at the front reads as its cell. */
  lemma {:induction false} GlyphReads(cs: CharSet, o: Option<Mark>, text: string, s: string, row: Row, rest: string)
    requires Legible(cs) && (o.Some? ==> o.value.code in CODES)
    requires s == (Glyph(cs, o) + text) + rest && ReadRow(cs, text + rest) == Some((row, rest))
    ensures ReadRow(cs, s) == Some(([o] + row, rest))
  {
    Regroup(Glyph(cs, o), text, rest);
    match o
    case None => BlankReads(cs, s, text + rest, row, rest);
    case Some(m) => TokenReads(cs, m, Token(cs, m), s, text + rest, row, rest);
  }

  lemma {:induction false} EndReads(cs: CharSet, rest: string)
    requires Legible(cs)
    ensures ReadRow(cs, cs.wall + "\n" + rest) == Some(([], rest))
  {
    var s := cs.wall + "\n" + rest;
    assert s[|cs.wall| + 1..] == rest;
  }

  lemma Regroup(a: string, b: string, c: string)
    ensures (a + b) + c == a + (b + c)
  {
  }

  /** A row's text reads as the row, whatever follows. */
  lemma {:induction false} RowReads(cs: CharSet, row: Row, rest: string) returns (text: string, got: Row)
    requires Legible(cs) && Readable(row)
    ensures text == RowText(cs, row) && got == row
    ensures ReadRow(cs, text + rest) == Some((got, rest))
  {
    if row == [] {
      text, got := cs.wall + "\n", [];
      EndReads(cs, rest);
    } else {
      var tail, got' := RowReads(cs, row[1..], rest);
      text, got := Glyph(cs, row[0]) + tail, [row[0]] + got';
      GlyphReads(cs, row[0], tail, text + rest, got', rest);
    }
  }

  lemma {:induction false} FloorReads(cs: CharSet, width: nat)
    requires Legible(cs)
    ensures ReadFloor(cs, FloorText(cs, width)) == Some(width)
  {
    if width > 0 {
      FloorReads(cs, width - 1);
      var s, tail := FloorText(cs, width), FloorText(cs, width - 1);
      assert s == cs.floor + tail;
      assert s[0] == cs.floor[0] && s[|cs.floor|..] == tail;
    }
  }

  lemma {:induction false} WallReads(cs: CharSet, s: string, text: string, row: Row, rest: string, p: Picture)
    requires Legible(cs) && s == cs.wall + text + rest
    requires ReadRow(cs, text + rest) == Some((row, rest)) && Read(cs, rest) == Some(p)
    ensures Read(cs, s) == Some(Picture(p.width, [row] + p.rows))
  {
    Regroup(cs.wall, text, rest);
    assert s[|cs.wall|..] == text + rest && cs.wall <= s;
  }

  lemma {:induction false} CornerReads(cs: CharSet, width: nat)
    requires Legible(cs)
    ensures Read(cs, cs.leftCorner + FloorText(cs, width)) == Some(Picture(width, []))
  {
    var s := cs.leftCorner + FloorText(cs, width);
    FloorReads(cs, width);
    assert s[|cs.leftCorner|..] == FloorText(cs, width) && s[0] == cs.leftCorner[0];
  }

  /** Any picture with known codes reads back as itself. */
  lemma {:induction false} PictureReads(cs: CharSet, width: nat, rows: seq<Row>) returns (s: string, p: Picture)
    requires Legible(cs) && forall i :: 0 <= i < |rows| ==> Readable(rows[i])
    ensures s == Text(cs, width, rows) && p == Picture(width, rows)
    ensures Read(cs, s) == Some(p)
  {
    if rows == [] {
      s, p := cs.leftCorner + FloorText(cs, width), Picture(width, []);
      CornerReads(cs, width);
    } else {
      var rest, p' := PictureReads(cs, width, rows[1..]);
      var text, row := RowReads(cs, rows[0], rest);
      s, p := cs.wall + text + rest, Picture(width, [row] + p'.rows);
      WallReads(cs, s, text, row, rest, p');
    }
  }

  // ----- What a reader learns of the field

  lemma RowReadable(f: Field, y: int)
    ensures Readable(RowAt(f, y))
  {
    forall c: string ensures ColorCode(c) in CODES {
      assert CODES[0] == "0" && CODES[1] == "31" && CODES[2] == "32" && CODES[3] == "33"
        && CODES[4] == "34" && CODES[5] == "35";
    }
  }

  lemma RowsReadable(f: Field)
    ensures forall i :: 0 <= i < |RowsOf(f)| ==> Readable(RowsOf(f)[i])
  {
    var top := Tallest(f.columns);
    forall i | 0 <= i < top ensures Readable(RowsBelow(f, top)[i]) {
      RowsBelowAt(f, top, top - 1 - i);
      RowReadable(f, top - 1 - i);
    }
  }

  /** The reader recovers the picture of every field. */
  lemma RenderingReads(cs: CharSet, f: Field) returns (s: string)
    requires Legible(cs)
    ensures s == Text(cs, |f.columns|, RowsOf(f))
    ensures Read(cs, s) == Some(Picture(|f.columns|, RowsOf(f)))
  {
    RowsReadable(f);
    var p;
    s, p := PictureReads(cs, |f.columns|, RowsOf(f));
  }

  /** Same columns, same heights, and cell by cell the same stability and colour code. */
  ghost predicate LooksLike(f: Field, g: Field)
  {
    && |f.columns| == |g.columns|
    && (forall x :: 0 <= x < |f.columns| ==> f.Height(x) == g.Height(x))
    && forall x, y :: f.At(x, y).Some? ==> g.At(x, y).Some? && MarkOf(f.At(x, y).value) == MarkOf(g.At(x, y).value)
  }

  /** A rendering shows just that of a field: two fields are rendered alike if and only if they look alike. */
  lemma {:induction false} RenderingDetermines(cs: CharSet, f: Field, g: Field)
    requires Legible(cs)
    ensures Text(cs, |f.columns|, RowsOf(f)) == Text(cs, |g.columns|, RowsOf(g)) <==> LooksLike(f, g)
  {
    var s := RenderingReads(cs, f);
    var s' := RenderingReads(cs, g);
    if s == s' {
      SameRowsLookAlike(f, g);
    }
    if LooksLike(f, g) {
      LookAlikeSameRows(f, g);
    }
  }

  lemma SameRowsLookAlike(f: Field, g: Field)
    requires |f.columns| == |g.columns| && RowsOf(f) == RowsOf(g)
    ensures LooksLike(f, g)
  {
    var top := Tallest(f.columns);
    assert |RowsOf(f)| == top && |RowsOf(g)| == Tallest(g.columns);
    TallestBounds(f.columns);
    TallestBounds(g.columns);
    forall x, y | 0 <= x < |f.columns| && 0 <= y
      ensures f.At(x, y).Some? <==> g.At(x, y).Some?
      ensures f.At(x, y).Some? ==> MarkOf(f.At(x, y).value) == MarkOf(g.At(x, y).value)
    {
      if y < top {
        RowsBelowAt(f, top, y);
        RowsBelowAt(g, top, y);
        assert RowAt(f, y)[x] == RowAt(g, y)[x];
      } else {
        assert |f.columns[x].pods| <= top && |g.columns[x].pods| <= top;
      }
    }
    forall x | 0 <= x < |f.columns| ensures f.Height(x) == g.Height(x) {
      assert f.At(x, f.Height(x)).None? && g.At(x, g.Height(x)).None?;
    }
  }

  lemma LookAlikeSameRows(f: Field, g: Field)
    requires LooksLike(f, g)
    ensures RowsOf(f) == RowsOf(g)
  {
    assert forall x :: 0 <= x < |f.columns| ==>
      f.Height(x) == |f.columns[x].pods| && g.Height(x) == |g.columns[x].pods|;
    SameTallest(f.columns, g.columns);
    forall y ensures RowAt(f, y) == RowAt(g, y) {
      forall x | 0 <= x < |f.columns| ensures RowAt(f, y)[x] == RowAt(g, y)[x] {
        assert f.Height(x) == g.Height(x);
      }
    }
    SameRowsBelow(f, g, Tallest(f.columns));
  }

  lemma {:induction false} SameTallest(a: seq<Column>, b: seq<Column>)
    requires |a| == |b| && forall x :: 0 <= x < |a| ==> |a[x].pods| == |b[x].pods|
    ensures Tallest(a) == Tallest(b)
  {
    if a != [] {
      SameTallest(a[..|a| - 1], b[..|b| - 1]);
    }
  }

  lemma {:induction false} SameRowsBelow(f: Field, g: Field, y: nat)
    requires forall i :: RowAt(f, i) == RowAt(g, i)
    ensures RowsBelow(f, y) == RowsBelow(g, y)
  {
    if y > 0 {
      SameRowsBelow(f, g, y - 1);
      assert RowAt(f, y - 1) == RowAt(g, y - 1);
    }
  }

  // ----- Lines

  function Lines(s: string): nat
  {
    if s == "" then 0 else (if s[0] == '\n' then 1 else 0) + Lines(s[1..])
  }

  lemma {:induction false} LinesAppend(a: string, b: string)
    ensures Lines(a + b) == Lines(a) + Lines(b)
  {
    if a == "" {
      assert a + b == b;
    } else {
      LinesAppend(a[1..], b);
      assert (a + b)[1..] == a[1..] + b;
    }
  }

  lemma {:induction false} NoBreaks(s: string)
    requires '\n' !in s
    ensures Lines(s) == 0
  {
    if s != "" {
      NoBreaks(s[1..]);
    }
  }

  /** No glyph holds a line break. */
  predicate Unbroken(cs: CharSet)
  {
    && '\n' !in cs.wall && '\n' !in cs.floor && '\n' !in cs.leftCorner && '\n' !in cs.rightCorner
    && '\n' !in cs.stableIcon && '\n' !in cs.unstableIcon && '\n' !in cs.blank
  }

  lemma {:induction false} RowLines(cs: CharSet, row: Row)
    requires Unbroken(cs) && Readable(row)
    ensures Lines(RowText(cs, row)) == 1
  {
    if row == [] {
      NoBreaks(cs.wall);
      LinesAppend(cs.wall, "\n");
      assert Lines("\n") == 1 + Lines("\n"[1..]);
    } else {
      GlyphLines(cs, row[0]);
      RowLines(cs, row[1..]);
      LinesAppend(Glyph(cs, row[0]), RowText(cs, row[1..]));
    }
  }

  lemma GlyphLines(cs: CharSet, o: Option<Mark>)
    requires Unbroken(cs) && (o.Some? ==> o.value.code in CODES)
    ensures Lines(Glyph(cs, o)) == 0
  {
    if o.Some? {
      CodeUnbroken(o.value.code);
    }
    assert '\n' !in Glyph(cs, o);
    NoBreaks(Glyph(cs, o));
  }

  lemma CodeUnbroken(code: string)
    requires code in CODES
    ensures '\n' !in code
  {
  }

  lemma {:induction false} FloorLines(cs: CharSet, width: nat)
    requires Unbroken(cs)
    ensures Lines(FloorText(cs, width)) == 1
  {
    if width == 0 {
      NoBreaks(cs.rightCorner);
      LinesAppend(cs.rightCorner, "\n");
      assert FloorText(cs, 0) == cs.rightCorner + "\n";
      assert Lines("\n") == 1 + Lines("\n"[1..]);
    } else {
      FloorLines(cs, width - 1);
      NoBreaks(cs.floor);
      LinesAppend(cs.floor, FloorText(cs, width - 1));
      assert FloorText(cs, width) == cs.floor + FloorText(cs, width - 1);
    }
  }

  /** One line a row and one for the floor: what the overwriter erases before the next frame. */
  lemma {:induction false} TextLines(cs: CharSet, width: nat, rows: seq<Row>)
    requires Unbroken(cs) && forall i :: 0 <= i < |rows| ==> Readable(rows[i])
    ensures Lines(Text(cs, width, rows)) == |rows| + 1
  {
    if rows == [] {
      NoBreaks(cs.leftCorner);
      FloorLines(cs, width);
      LinesAppend(cs.leftCorner, FloorText(cs, width));
    } else {
      NoBreaks(cs.wall);
      RowLines(cs, rows[0]);
      TextLines(cs, width, rows[1..]);
      LinesAppend(cs.wall, RowText(cs, rows[0]));
      LinesAppend(cs.wall + RowText(cs, rows[0]), Text(cs, width, rows[1..]));
    }
  }

  /** A rendering has one line more than the tallest column has Pods. */
  lemma {:induction false} RenderingLines(cs: CharSet, f: Field)
    requires Unbroken(cs)
    ensures Lines(Text(cs, |f.columns|, RowsOf(f))) == Tallest(f.columns) + 1
  {
    RowsReadable(f);
    TextLines(cs, |f.columns|, RowsOf(f));
  }

  /** The terminal's codes of the five colours, and 0 for any other. */
  lemma CodesOfColors(color: string)
    ensures ColorCode("red") == "31" && ColorCode("green") == "32" && ColorCode("yellow") == "33"
    ensures ColorCode("blue") == "34" && ColorCode("purple") == "35"
    ensures color !in {"red", "green", "yellow", "blue", "purple"} ==> ColorCode(color) == "0"
  {
    assert "red"[0] == 'r' && "green"[0] == 'g' && "yellow"[0] == 'y' && "blue"[0] == 'b' && "purple"[0] == 'p';
  }

  /** Row y from the floor, and column x, of a picture: the Pod there, drawn as settled exactly if it runs with all its
      containers ready and is not being deleted; or a blank. */
  lemma {:induction false} PictureAt(f: Field, x: int, y: int) returns (mark: Option<Mark>)
    requires 0 <= x < |f.columns| && 0 <= y < Tallest(f.columns)
    ensures |RowsOf(f)| == Tallest(f.columns) && |RowsOf(f)[Tallest(f.columns) - 1 - y]| == |f.columns|
    ensures mark == RowsOf(f)[Tallest(f.columns) - 1 - y][x]
    ensures mark.None? <==> y >= |f.columns[x].pods|
    ensures mark.Some? ==>
      var c := f.columns[x].pods[y];
      && mark.value.code == ColorCode(c.color)
      && (mark.value.stable <==>
          c.pod.phase == "Running" && !c.pod.deleting && forall i :: 0 <= i < |c.pod.ready| ==> c.pod.ready[i])
  {
    RowsBelowAt(f, Tallest(f.columns), y);
    mark := RowAt(f, y)[x];
  }

  /** Codes tell the palette's colours apart; every other colour looks the same. */
  lemma CodesSeparatePalette(a: string, b: string)
    ensures ColorCode(a) == ColorCode(b) <==> a == b || (a !in COLORS && b !in COLORS)
  {
    assert COLORS[0] == "red" && COLORS[1] == "green" && COLORS[2] == "yellow"
      && COLORS[3] == "blue" && COLORS[4] == "purple";
    assert "31"[1] != "32"[1] && "33"[1] != "34"[1];
  }
}
