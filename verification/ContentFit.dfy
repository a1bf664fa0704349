/** Whether a contact sheet's content fits its viewport, and which row is the
    first that does not (cmd/peasant-guided-screenshots/contentfit.go;
    render.go for how a sheet is composed). Divisions are exact. */
module ContentFit {
  import opened Wrappers
  import opened Strings

  const MEASUREMENT_MARGIN: int := 200
  const PADDING: int := 28
  const PADDING_TOLERANCE: int := 4
  const HEADER_LINES: int := 2

  type Color = int

  /** Pixel rows from `minY` down. */
  datatype Image = Image(minY: int, rows: seq<seq<Color>>)

  datatype SheetRow = SheetRow(name: string, lines: nat)

  datatype Sheet = Sheet(rows: seq<SheetRow>, ansi: string, height: int)

  // ----- measuring -----

  predicate HasContent(row: seq<Color>, background: Color) {
    exists x :: 0 <= x < |row| && row[x] != background
  }

  /** Pixel row `y` carries something. */
  predicate ContentAt(image: Image, background: Color, y: int) {
    image.minY <= y < image.minY + |image.rows| && HasContent(image.rows[y - image.minY], background)
  }

  method RowHasContent(row: seq<Color>, background: Color) returns (b: bool)
    ensures b == HasContent(row, background)
  {
    for x := 0 to |row|
      invariant forall i :: 0 <= i < x ==> row[i] == background
    {
      if row[x] != background {
        return true;
      }
    }
    return false;
  }

  ghost predicate Blank(image: Image, background: Color) {
    forall y :: !ContentAt(image, background, y)
  }

  /** Content starts on pixel row -1, the number the scan starts from. */
  ghost predicate StartsBeforeZero(image: Image, background: Color) {
    ContentAt(image, background, -1) && forall y :: y < -1 ==> !ContentAt(image, background, y)
  }

  /** The first and the last pixel row that carry anything. An image whose content
      starts on row -1 counts as blank; a decoded picture starts on row 0. */
  method ScanContentRows(image: Image, background: Color) returns (first: int, last: int, found: bool)
    ensures found <==> !Blank(image, background) && !StartsBeforeZero(image, background)
    ensures found ==> Extent(image, background, first, last) && first <= last
  {
    first, last := -1, 0;
    var y := image.minY;
    while y < image.minY + |image.rows|
      invariant image.minY <= y <= image.minY + |image.rows|
      invariant first == -1
      invariant forall z :: z < y ==> !ContentAt(image, background, z)
    {
      var content := RowHasContent(image.rows[y - image.minY], background);
      if content {
        assert ContentAt(image, background, y);
        first := y;
        break;
      }
      y := y + 1;
    }
    if first == -1 {
      return 0, 0, false;
    }
    y := image.minY + |image.rows| - 1;
    while y >= image.minY
      invariant first <= y < image.minY + |image.rows|
      invariant forall z :: z > y ==> !ContentAt(image, background, z)
      decreases y - first
    {
      var content := RowHasContent(image.rows[y - image.minY], background);
      if content {
        assert ContentAt(image, background, y);
        return first, y, true;
      }
      y := y - 1;
    }
    assert false;
  }

  // ----- lines of a sheet -----

  function Newlines(s: string): nat {
    if s == "" then 0 else (if s[0] == '\n' then 1 else 0) + Newlines(s[1..])
  }

  function LineCount(s: string): nat {
    Newlines(s) + 1
  }

  function ContactSheet(title: string, rows: seq<string>): string {
    title + "\n\n" + Join(rows, "\n\n")
  }

  function LinesOf(rows: seq<SheetRow>): nat {
    if rows == [] then 0 else LinesOf(rows[..|rows| - 1]) + rows[|rows| - 1].lines
  }

  /** The line a row starts on, counted from 0; a blank line stands between rows. */
  function StartOf(rows: seq<SheetRow>, i: nat): int
    requires i < |rows|
  {
    HEADER_LINES + LinesOf(rows[..i]) + i
  }

  function EndOf(rows: seq<SheetRow>, i: nat): int
    requires i < |rows|
  {
    StartOf(rows, i) + rows[i].lines
  }

  /** The sheet's rows describe its text: header, rows, a blank line between rows. */
  ghost predicate Described(sheet: Sheet) {
    sheet.rows != [] && LineCount(sheet.ansi) == HEADER_LINES + LinesOf(sheet.rows) + |sheet.rows| - 1
  }

  lemma {:induction false} NewlinesAppend(a: string, b: string)
    ensures Newlines(a + b) == Newlines(a) + Newlines(b)
  {
    if a == "" {
      assert a + b == b;
    } else {
      assert (a + b)[1..] == a[1..] + b;
      NewlinesAppend(a[1..], b);
    }
  }

  /** They are the newlines of the text, each once. */
  lemma {:induction false} NewlinesArePicked(s: string) returns (picked: string)
    ensures Picks(s, (c: char) => c == '\n', picked) && Newlines(s) == |picked|
  {
    var keep := (c: char) => c == '\n';
    hide Picks;
    if s == "" {
      picked := "";
      PicksNone(keep);
    } else {
      var init, last := s[..|s| - 1], s[|s| - 1];
      assert s == init + [last];
      var before := NewlinesArePicked(init);
      PicksSnoc(init, last, keep, before);
      NewlinesAppend(init, [last]);
      assert [last][1..] == "";
      picked := if last == '\n' then before + [last] else before;
    }
  }

  lemma TwoNewlines()
    ensures Newlines("\n\n") == 2
  {
    assert "\n\n"[1..] == "\n" && "\n"[1..] == "";
  }

  lemma {:induction false} JoinedLines(texts: seq<string>, rows: seq<SheetRow>)
    requires |texts| == |rows| > 0
    requires forall i :: 0 <= i < |rows| ==> rows[i].lines == LineCount(texts[i])
    ensures Newlines(Join(texts, "\n\n")) == LinesOf(rows) + |rows| - 2
  {
    var n := |texts| - 1;
    if n == 0 {
      assert rows[..0] == [];
    } else {
      JoinedLines(texts[..n], rows[..n]);
      NewlinesAppend(Join(texts[..n], "\n\n") + "\n\n", texts[n]);
      NewlinesAppend(Join(texts[..n], "\n\n"), "\n\n");
      TwoNewlines();
    }
  }

  /** A composed sheet is described by the rows it was composed from. */
  lemma ComposedIsDescribed(title: string, texts: seq<string>, sheet: Sheet)
    requires Newlines(title) == 0 && |texts| == |sheet.rows| > 0
    requires forall i :: 0 <= i < |texts| ==> sheet.rows[i].lines == LineCount(texts[i])
    requires sheet.ansi == ContactSheet(title, texts)
    ensures Described(sheet)
  {
    JoinedLines(texts, sheet.rows);
    NewlinesAppend(title + "\n\n", Join(texts, "\n\n"));
    NewlinesAppend(title, "\n\n");
    TwoNewlines();
  }

  // ----- naming the row -----

  /** Conversion to an integer drops the fraction. */
  function Truncate(r: real): int {
    if r >= 0.0 then r.Floor else -((-r).Floor)
  }

  /** The first line that does not fit, counted from 0. */
  function OverflowLine(first: int, last: int, height: int, total: nat): int
    requires total > 0 && last >= first
  {
    var pxPerLine := (last - first + 1) as real / total as real;
    var lines := Truncate((height - 2 * first) as real / pxPerLine);
    if lines < 0 then 0 else lines
  }

  lemma RealQuotient(a: int, s: int, t: int) returns (x: real)
    requires s > 0 && t > 0
    ensures (s as real / t as real) > 0.0
    ensures x == a as real / (s as real / t as real)
    ensures x * s as real == a as real * t as real
  {
    var p := s as real / t as real;
    assert p * t as real == s as real;
    x := a as real / p;
    assert x * p == a as real;
    assert x * s as real == x * (p * t as real) == (x * p) * t as real;
  }

  lemma FloorScaled(x: real, a: int, s: int, t: int)
    requires s > 0 && x >= 0.0 && x * s as real == a as real * t as real
    ensures Truncate(x) >= 0 && Truncate(x) * s <= a * t < (Truncate(x) + 1) * s
  {
    var n := Truncate(x);
    Sandwich(n, n + 1, x, a, s, t);
  }

  lemma Sandwich(low: int, high: int, x: real, a: int, s: int, t: int)
    requires s > 0 && x * s as real == a as real * t as real && low as real <= x < high as real
    ensures low * s <= a * t < high * s
  {
    ScaleBounds(low as real, x, high as real, s as real);
    ScaledInts(low, s);
    ScaledInts(high, s);
    ScaledInts(a, t);
    IntOrder(low * s, a * t, high * s);
  }

  lemma IntOrder(low: int, mid: int, high: int)
    requires low as real <= mid as real < high as real
    ensures low <= mid < high
  {
  }

  lemma FloorQuotient(a: int, s: int, t: int)
    requires s > 0 && t > 0 && a >= 0
    ensures (s as real / t as real) > 0.0
    ensures var n := Truncate(a as real / (s as real / t as real));
      n >= 0 && n * s <= a * t < (n + 1) * s
  {
    var x := RealQuotient(a, s, t);
    if x < 0.0 {
      NegativeProduct(x, s as real);
      PositiveOrZero(a, t);
    }
    FloorScaled(x, a, s, t);
  }

  lemma PositiveOrZero(a: int, t: int)
    requires a >= 0 && t > 0
    ensures a as real * t as real >= 0.0
  {
  }

  lemma ScaledInts(n: int, s: int)
    ensures (n * s) as real == n as real * s as real
  {
  }

  lemma NegativeProduct(x: real, s: real)
    requires x < 0.0 && s > 0.0
    ensures x * s < 0.0
  {
  }

  lemma ScaleBounds(low: real, x: real, high: real, s: real)
    requires low <= x < high && s > 0.0
    ensures low * s <= x * s < high * s
  {
  }

  /** Of the lines that fill the measured span, as many fit as the pixels allow. */
  lemma {:induction false} OverflowLineIs(first: int, last: int, height: int, total: nat)
    requires total > 0 && last >= first && height >= 2 * first
    ensures var n, span := OverflowLine(first, last, height, total), last - first + 1;
      n * span <= (height - 2 * first) * total < (n + 1) * span
  {
    FloorQuotient(height - 2 * first, last - first + 1, total);
  }

  /** Content that overflows overflows on one of its own lines. */
  lemma {:induction false} OverflowWithin(first: int, last: int, height: int, total: nat)
    requires total > 0 && last >= first && last + 1 + first > height
    ensures 0 <= OverflowLine(first, last, height, total) < total
  {
    var span, room := last - first + 1, height - 2 * first;
    if room >= 0 {
      OverflowLineIs(first, last, height, total);
      var n := OverflowLine(first, last, height, total);
      if n >= total {
        Product(n, total, span);
        Product(span, room + 1, total);
        assert false;
      }
    } else {
      var x := RealQuotient(room, span, total);
      assert x <= 0.0 by {
        if x > 0.0 {
          PositiveProduct(x, span as real);
          PositiveProduct(-(room as real), total as real);
        }
      }
    }
  }

  lemma PositiveProduct(x: real, s: real)
    requires x > 0.0 && s > 0.0
    ensures x * s > 0.0
  {
  }

  lemma Product(a: int, b: int, c: int)
    requires a >= b && c > 0
    ensures a * c >= b * c
  {
  }

  /** With no room inside the padding the first line is the one. */
  lemma NoRoom(first: int, last: int, height: int, total: nat)
    requires total > 0 && last >= first && height < 2 * first
    ensures OverflowLine(first, last, height, total) == 0
  {
    var room, span := height - 2 * first, last - first + 1;
    var x := RealQuotient(room, span, total);
    if x > 0.0 {
      PositiveProduct(x, span as real);
      PositiveProduct(-(room as real), total as real);
    }
  }

  /** Padding is trusted from 24 to 32 pixels. */
  lemma TrustedPadding(first: int)
    ensures PaddingTrusted(first) <==> 24 <= first <= 32
  {
  }

  datatype Attribution =
    | Unresolved(line: int)
    | FirstPast(index: nat, line: int)
    | FellThrough(line: int)

  /** The loop over the rows: the first one that ends past the line. */
  method FindRow(rows: seq<SheetRow>, overflowLine: int) returns (at: Attribution)
    ensures at.FirstPast? ==>
      && at.index < |rows|
      && overflowLine < EndOf(rows, at.index)
      && (forall j :: 0 <= j < at.index ==> EndOf(rows, j) <= overflowLine)
      && at.line == overflowLine - StartOf(rows, at.index) + 1
    ensures at.FellThrough? ==> rows != [] && forall j :: 0 <= j < |rows| ==> EndOf(rows, j) <= overflowLine
    ensures at.Unresolved? <==> rows == []
  {
    var cursor := HEADER_LINES;
    for i := 0 to |rows|
      invariant i < |rows| ==> cursor == StartOf(rows, i)
      invariant forall j :: 0 <= j < i ==> EndOf(rows, j) <= overflowLine
    {
      var row := rows[i];
      assert rows[..i + 1][..i] == rows[..i];
      if overflowLine < cursor + row.lines {
        return FirstPast(i, overflowLine - cursor + 1);
      }
      cursor := cursor + row.lines;
      if i != |rows| - 1 {
        cursor := cursor + 1;
      }
    }
    if |rows| > 0 {
      return FellThrough(rows[|rows| - 1].lines);
    }
    return Unresolved(overflowLine);
  }

  predicate PaddingTrusted(first: int) {
    -PADDING_TOLERANCE <= first - PADDING <= PADDING_TOLERANCE
  }

  /** The first row that ends past the line, and where in it the line is. */
  ghost predicate NamesOverflow(sheet: Sheet, line: int, at: Attribution) {
    && at.FirstPast? && at.index < |sheet.rows|
    && line < EndOf(sheet.rows, at.index)
    && (forall j :: 0 <= j < at.index ==> EndOf(sheet.rows, j) <= line)
    && at.line == line - StartOf(sheet.rows, at.index) + 1 <= sheet.rows[at.index].lines
  }

  method AttributeOverflow(sheet: Sheet, first: int, last: int, height: int) returns (at: Attribution, total: nat)
    ensures total == LineCount(sheet.ansi)
    ensures !PaddingTrusted(first) || last < first ==> at == Unresolved(0)
    ensures PaddingTrusted(first) && last >= first && Described(sheet) && last + 1 + first > height ==>
              NamesOverflow(sheet, OverflowLine(first, last, height, total), at)
  {
    total := LineCount(sheet.ansi);
    if !PaddingTrusted(first) {
      return Unresolved(0), total;
    }
    var span := last - first + 1;
    if total <= 0 || span <= 0 {
      return Unresolved(0), total;
    }
    var x := RealQuotient(height - 2 * first, span, total);
    var pxPerLine := span as real / total as real;
    if pxPerLine <= 0.0 {
      return Unresolved(0), total;
    }
    var lines := Truncate((height - 2 * first) as real / pxPerLine);
    if lines < 0 {
      lines := 0;
    }
    at := FindRow(sheet.rows, lines);
    if Described(sheet) && last + 1 + first > height {
      OverflowWithin(first, last, height, total);
      LastEnds(sheet.rows);
    }
  }

  /** The last row ends with the sheet. */
  lemma LastEnds(rows: seq<SheetRow>)
    requires rows != []
    ensures EndOf(rows, |rows| - 1) == HEADER_LINES + LinesOf(rows) + |rows| - 1
  {
  }

  datatype Fit =
    | Fits
    | NothingMeasured
    | CanvasTooSmall
    | Overflows(required: int, at: Attribution, total: nat)

  /** The decision: the sheet fits exactly when the measured rows with equal
      padding above and below are within the viewport. */
  method EvaluateContentFit(sheet: Sheet, measured: Image, background: Color, measurementHeight: int) returns (fit: Fit)
    ensures fit.NothingMeasured? <==> Blank(measured, background) || StartsBeforeZero(measured, background)
    ensures forall first, last :: Extent(measured, background, first, last) && first != -1 ==>
      && (fit.CanvasTooSmall? <==> measurementHeight - last <= 200)
      && (fit.Fits? <==> measurementHeight - last > 200 && last + 1 + first <= sheet.height)
      && (fit.Overflows? ==> fit.required == last + 1 + first > sheet.height)
      // The arm that names the last row for want of a better one is never reached.
      && (fit.Overflows? && Described(sheet) ==>
            if PaddingTrusted(first) then
              NamesOverflow(sheet, OverflowLine(first, last, sheet.height, LineCount(sheet.ansi)), fit.at)
            else fit.at == Unresolved(0))
      && (fit.Overflows? ==> fit.total == LineCount(sheet.ansi))
  {
    var first, last, found := ScanContentRows(measured, background);
    if !found {
      return NothingMeasured;
    }
    forall f, l | Extent(measured, background, f, l)
      ensures f == first && l == last
    {
    }
    if measurementHeight - last <= MEASUREMENT_MARGIN {
      return CanvasTooSmall;
    }
    var required := last + 1 + first;
    if required <= sheet.height {
      return Fits;
    }
    var at, total := AttributeOverflow(sheet, first, last, sheet.height);
    return Overflows(required, at, total);
  }

  /** The first and the last row with content. */
  ghost predicate Extent(image: Image, background: Color, first: int, last: int) {
    && ContentAt(image, background, first) && ContentAt(image, background, last)
    && forall y :: ContentAt(image, background, y) ==> first <= y <= last
  }
}
