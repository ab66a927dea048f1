/** Word wrap of a fault definition into LCD rows, and the pages the scroll commands reach. */
module ErrorLogScroll {

  const MAX_LINES := 7

  // ---------------------------------------------------------------- where lines start

  /** The last blank in text(pos..split], or pos. */
  function LastBlank(text: string, pos: nat, split: nat): (r: nat)
    requires pos <= split < |text|
    ensures pos <= r <= split && (r > pos ==> text[r] == ' ')
    ensures forall k :: r < k <= split ==> text[k] != ' '
  {
    if split > pos && text[split] != ' ' then LastBlank(text, pos, split - 1) else split
  }

  /** Where the line after the one at `pos` starts: past the last blank that fits, or mid-word. */
  function NextStart(text: string, width: nat, pos: nat): (next: nat)
    requires width > 0 && pos + width < |text|
    ensures pos < next <= pos + width + 1 && next <= |text|
  {
    var split := LastBlank(text, pos, pos + width);
    if split > pos then split + 1 else pos + width
  }

  /** The line starts from `pos` on, at most `budget` of them. */
  function Starts(text: string, width: nat, pos: nat, budget: nat): (s: seq<nat>)
    requires width > 0
    ensures |s| <= budget && forall i :: 0 <= i < |s| ==> pos <= s[i] < |text|
    ensures forall i, j :: 0 <= i < j < |s| ==> s[i] < s[j]
    decreases budget
  {
    if pos >= |text| || budget == 0 then []
    else if pos + width >= |text| then [pos]
    else [pos] + Starts(text, width, NextStart(text, width, pos), budget - 1)
  }

  /** The rest of the text from `pos` wraps into at most `lines` lines. */
  predicate WrapsInto(text: string, width: nat, pos: nat, lines: nat)
    requires width > 0
    decreases lines
  {
    pos >= |text| || (lines > 0 && (pos + width >= |text| || WrapsInto(text, width, NextStart(text, width, pos), lines - 1)))
  }

  /** Only trailing blanks are dropped, and all of them. */
  function TrimRight(s: string): (r: string)
    ensures r <= s && (forall k :: |r| <= k < |s| ==> s[k] == ' ')
    ensures |r| > 0 ==> r[|r| - 1] != ' '
  {
    if |s| > 0 && s[|s| - 1] == ' ' then TrimRight(s[..|s| - 1]) else s
  }

  function Clip(s: string, width: nat): (r: string)
    ensures |r| <= width
  {
    if |s| <= width then s else s[..width]
  }

  /** The text of line `i` given the starts: up to the next start, blanks trimmed, clipped. */
  function LineText(text: string, width: nat, starts: seq<nat>, i: nat): string
    requires i < |starts| && forall k :: 0 <= k < |starts| ==> starts[k] <= |text|
    requires forall k, l :: 0 <= k < l < |starts| ==> starts[k] < starts[l]
  {
    Clip(TrimRight(text[starts[i]..if i + 1 < |starts| then starts[i + 1] else |text|]), width)
  }

  function LinesPerPage(width: nat): nat { if width >= 20 then 2 else 1 }

  function MaxPage(width: nat): nat { if width >= 20 then 2 else 5 }

  /** The lines a text wraps into. */
  function Lines(text: string, width: nat): (lines: seq<string>)
    requires width > 0
    ensures var starts := Starts(text, width, 0, MAX_LINES);
            |lines| == |starts| <= MAX_LINES && forall i :: 0 <= i < |lines| ==> lines[i] == LineText(text, width, starts, i)
  {
    var starts := Starts(text, width, 0, MAX_LINES);
    seq(|starts|, i requires 0 <= i < |starts| => LineText(text, width, starts, i))
  }

  /** Rows past the text are empty. */
  function LineOrBlank(lines: seq<string>, i: nat): string {
    if i < |lines| then lines[i] else ""
  }

  /** Row `r` of page `page`. */
  function Row(lines: seq<string>, width: nat, page: nat, r: nat): string {
    LineOrBlank(lines, page * LinesPerPage(width) + r)
  }

  /** wrap_definition. */
  method WrapDefinition(text: string, width: nat, page: nat) returns (row2: string, row3: string)
    requires width > 0
    ensures var lines := Lines(text, width); row2 == Row(lines, width, page, 0) && row3 == Row(lines, width, page, 1)
  {
    var starts := FindStarts(text, width, MAX_LINES);
    var line := page * LinesPerPage(width);
    row2, row3 := "", "";
    if line < |starts| {
      row2 := RowText(text, width, starts[line], if line + 1 < |starts| then starts[line + 1] else |text|);
    }
    if line + 1 < |starts| {
      row3 := RowText(text, width, starts[line + 1], if line + 2 < |starts| then starts[line + 2] else |text|);
    }
  }

  /** The wrapping loop of wrap_definition. */
  method FindStarts(text: string, width: nat, maxLines: nat) returns (starts: seq<nat>)
    requires width > 0
    ensures starts == Starts(text, width, 0, maxLines)
  {
    starts := [];
    var pos: nat := 0;
    while pos < |text| && |starts| < maxLines
      invariant |starts| <= maxLines
      invariant Starts(text, width, 0, maxLines) == starts + Starts(text, width, pos, maxLines - |starts|)
      decreases maxLines - |starts|
    {
      ghost var before := starts;
      starts := starts + [pos];
      var end := pos + width;
      if end >= |text| {
        return;
      }
      var next := SplitLine(text, width, pos);
      StartsStep(text, width, pos, maxLines - |before|);
      ConcatAssociates(before, [pos], Starts(text, width, next, maxLines - |starts|));
      pos := next;
    }
  }

  /** The inner loop: back from the full width to a blank. */
  method SplitLine(text: string, width: nat, pos: nat) returns (next: nat)
    requires width > 0 && pos + width < |text|
    ensures next == NextStart(text, width, pos)
  {
    var end := pos + width;
    var split := end;
    while split > pos && text[split] != ' '
      invariant pos <= split <= end
      invariant LastBlank(text, pos, split) == LastBlank(text, pos, end)
    {
      split := split - 1;
    }
    next := if split > pos then split + 1 else end;
  }

  lemma ConcatAssociates(a: seq<nat>, b: seq<nat>, c: seq<nat>)
    ensures a + (b + c) == a + b + c
  {
  }

  lemma StartsStep(text: string, width: nat, pos: nat, budget: nat)
    requires width > 0 && budget > 0 && pos + width < |text|
    ensures Starts(text, width, pos, budget) == [pos] + Starts(text, width, NextStart(text, width, pos), budget - 1)
  {
  }

  /** One row: trailing blanks dropped, then at most `width` characters. */
  method RowText(text: string, width: nat, start: nat, lineEnd: nat) returns (row: string)
    requires start <= lineEnd <= |text|
    ensures row == Clip(TrimRight(text[start..lineEnd]), width)
  {
    var end := lineEnd;
    while end > start && text[end - 1] == ' '
      invariant start <= end <= lineEnd && TrimRight(text[start..end]) == TrimRight(text[start..lineEnd])
    {
      SliceOfSlice(text, start, end, end - start - 1);
      end := end - 1;
    }
    var n := if end - start > width then width else end - start;
    row := text[start..start + n];
    SliceOfSlice(text, start, end, n);
  }

  lemma SliceOfSlice(text: string, start: nat, end: nat, n: nat)
    requires start <= end <= |text| && n <= end - start
    ensures text[start..end][..n] == text[start..start + n]
    ensures n < end - start ==> text[start..end][n] == text[start + n]
  {
  }

  // ---------------------------------------------------------------- nothing is lost

  function NonBlank(s: string): string
    decreases |s|
  {
    if |s| == 0 then [] else NonBlank(s[..|s| - 1]) + (if s[|s| - 1] == ' ' then [] else [s[|s| - 1]])
  }

  lemma {:induction false} NonBlankConcat(a: string, b: string)
    ensures NonBlank(a + b) == NonBlank(a) + NonBlank(b)
    decreases |b|
  {
    if |b| == 0 {
      assert a + b == a;
    } else {
      assert (a + b)[..|a + b| - 1] == a + b[..|b| - 1];
      NonBlankConcat(a, b[..|b| - 1]);
    }
  }

  lemma {:induction false} TrimKeepsNonBlank(s: string)
    ensures NonBlank(TrimRight(s)) == NonBlank(s) && |TrimRight(s)| <= |s|
    decreases |s|
  {
    if |s| > 0 && s[|s| - 1] == ' ' {
      TrimKeepsNonBlank(s[..|s| - 1]);
    }
  }

  /** A line cut at a blank or at the full width fits its row once trimmed. */
  lemma LineFits(text: string, width: nat, pos: nat)
    requires width > 0 && pos + width < |text|
    ensures |TrimRight(text[pos..NextStart(text, width, pos)])| <= width
  {
    var next := NextStart(text, width, pos);
    var segment := text[pos..next];
    if next == pos + width + 1 {
      assert segment[|segment| - 1] == text[pos + width] == ' ';
      TrimKeepsNonBlank(segment[..|segment| - 1]);
    } else {
      TrimKeepsNonBlank(segment);
    }
  }

  /** The non-blank characters of the lines from index `i` on, in order. */
  function LinesNonBlank(text: string, width: nat, starts: seq<nat>, i: nat): string
    requires i <= |starts| && forall k :: 0 <= k < |starts| ==> starts[k] <= |text|
    requires forall k, l :: 0 <= k < l < |starts| ==> starts[k] < starts[l]
    decreases |starts| - i
  {
    if i == |starts| then [] else NonBlank(LineText(text, width, starts, i)) + LinesNonBlank(text, width, starts, i + 1)
  }

  /** The starts from index `i` on are those of the text from starts[i] on. */
  predicate Tail(text: string, width: nat, starts: seq<nat>, i: nat, pos: nat, budget: nat)
    requires width > 0
  {
    i <= |starts| && starts[i..] == Starts(text, width, pos, budget)
  }

  lemma LineKeepsSegment(text: string, width: nat, pos: nat)
    requires width > 0 && pos + width < |text|
    ensures var next := NextStart(text, width, pos);
            NonBlank(text[pos..]) == NonBlank(Clip(TrimRight(text[pos..next]), width)) + NonBlank(text[next..])
  {
    var next := NextStart(text, width, pos);
    LineFits(text, width, pos);
    TrimKeepsNonBlank(text[pos..next]);
    NonBlankConcat(text[pos..next], text[next..]);
    assert text[pos..] == text[pos..next] + text[next..];
  }

  lemma StartsHead(text: string, width: nat, pos: nat, budget: nat)
    requires width > 0 && pos <= |text| && WrapsInto(text, width, pos, budget)
    ensures var s := Starts(text, width, pos, budget); if pos == |text| then s == [] else |s| > 0 && s[0] == pos
  {
  }

  lemma {:induction false} LinesKeepText(text: string, width: nat, starts: seq<nat>, i: nat, pos: nat, budget: nat)
    requires width > 0 && pos <= |text| && Tail(text, width, starts, i, pos, budget) && WrapsInto(text, width, pos, budget)
    requires forall k :: 0 <= k < |starts| ==> starts[k] <= |text|
    requires forall k, l :: 0 <= k < l < |starts| ==> starts[k] < starts[l]
    ensures LinesNonBlank(text, width, starts, i) == NonBlank(text[pos..])
    decreases budget
  {
    StartsHead(text, width, pos, budget);
    assert |starts[i..]| > 0 ==> starts[i..][0] == starts[i];
    if pos == |text| {
    } else if pos + width >= |text| {
      assert starts[i..] == [pos] && |starts| == i + 1;
      assert text[pos..|text|] == text[pos..];
      TrimKeepsNonBlank(text[pos..]);
      assert LinesNonBlank(text, width, starts, i + 1) == [];
    } else {
      var next := NextStart(text, width, pos);
      StartsStep(text, width, pos, budget);
      StartsHead(text, width, next, budget - 1);
      assert starts[i + 1..] == starts[i..][1..] == Starts(text, width, next, budget - 1);
      assert |starts[i + 1..]| > 0 ==> starts[i + 1..][0] == starts[i + 1];
      LinesKeepText(text, width, starts, i + 1, next, budget - 1);
      LineKeepsSegment(text, width, pos);
    }
  }

  lemma {:induction false} BudgetIsAmple(text: string, width: nat, pos: nat, lines: nat, budget: nat)
    requires width > 0 && lines <= budget && WrapsInto(text, width, pos, lines)
    ensures WrapsInto(text, width, pos, budget) && |Starts(text, width, pos, budget)| <= lines
    decreases lines
  {
    if pos < |text| && pos + width < |text| {
      BudgetIsAmple(text, width, NextStart(text, width, pos), lines - 1, budget - 1);
    }
  }

  /** How many lines the pages show at this width. */
  function Capacity(width: nat): nat { if width >= 20 then 6 else MAX_LINES }

  /** For every text that wraps into as many lines as the pages show (six on either display):
      no row exceeds the width, and every non-blank character appears in order exactly once. */
  lemma WrapLosesNothing(text: string, width: nat)
    requires width > 0 && WrapsInto(text, width, 0, Capacity(width))
    ensures var starts := Starts(text, width, 0, MAX_LINES);
            && |starts| <= Capacity(width)
            && LinesNonBlank(text, width, starts, 0) == NonBlank(text)
            && forall i :: 0 <= i < |starts| ==> |LineText(text, width, starts, i)| <= width
  {
    BudgetIsAmple(text, width, 0, Capacity(width), MAX_LINES);
    var starts := Starts(text, width, 0, MAX_LINES);
    assert starts[0..] == starts;
    LinesKeepText(text, width, starts, 0, 0, MAX_LINES);
    assert text[0..] == text;
  }

  // ---------------------------------------------------------------- comparing wraps

  /** A line that starts later, on a display at least as wide, ends no earlier. */
  lemma NextStartMonotone(text: string, width: nat, wider: nat, p: nat, q: nat)
    requires 0 < width <= wider && p <= q && q + wider < |text|
    ensures NextStart(text, width, p) <= NextStart(text, wider, q)
  {
    var a, b := LastBlank(text, p, p + width), LastBlank(text, q, q + wider);
    assert a > p ==> text[a] == ' ';
    assert b > q ==> text[b] == ' ';
  }

  lemma {:induction false} WrapsMonotone(text: string, width: nat, wider: nat, p: nat, q: nat, lines: nat)
    requires 0 < width <= wider && p <= q && WrapsInto(text, width, p, lines)
    ensures WrapsInto(text, wider, q, lines)
    decreases lines
  {
    if q + wider < |text| {
      NextStartMonotone(text, width, wider, p, q);
      WrapsMonotone(text, width, wider, NextStart(text, width, p), NextStart(text, wider, q), lines - 1);
    }
  }

  function Join(pieces: seq<string>): string {
    if |pieces| == 0 then [] else pieces[0] + Join(pieces[1..])
  }

  /** Pieces that fit a row each, broken at blanks. */
  predicate PiecesFit(pieces: seq<string>, width: nat) {
    |pieces| > 0 ==> PieceFits(pieces[0], width, |pieces| == 1) && PiecesFit(pieces[1..], width)
  }

  predicate PieceFits(piece: string, width: nat, last: bool) {
    0 < |piece| && if last then |piece| <= width else |piece| <= width + 1 && piece[|piece| - 1] == ' '
  }

  /** Greedy wrapping needs no more lines than any other way to break the text at blanks. */
  lemma {:induction false} WrapsIntoPieces(text: string, width: nat, pos: nat, pieces: seq<string>)
    requires width > 0 && pos <= |text| && text[pos..] == Join(pieces) && PiecesFit(pieces, width)
    ensures WrapsInto(text, width, pos, |pieces|)
    decreases |pieces|
  {
    if |pieces| > 0 {
      var q := pos + |pieces[0]|;
      PieceAt(text, pos, pieces[0], Join(pieces[1..]));
      if |pieces| == 1 {
        assert Join(pieces[1..]) == [];
      } else if pos + width < |text| {
        WrapsIntoPieces(text, width, q, pieces[1..]);
        ReachesBlank(text, width, pos, q);
        WrapsMonotone(text, width, width, q, NextStart(text, width, pos), |pieces| - 1);
      }
    }
  }

  lemma PieceAt(text: string, pos: nat, piece: string, rest: string)
    requires pos <= |text| && text[pos..] == piece + rest && |piece| > 0
    ensures |text| == pos + |piece| + |rest| && text[pos + |piece| - 1] == piece[|piece| - 1]
    ensures text[pos + |piece|..] == rest
  {
    assert text[pos + |piece| - 1] == text[pos..][|piece| - 1] == (piece + rest)[|piece| - 1];
    assert text[pos + |piece|..] == text[pos..][|piece|..] == (piece + rest)[|piece|..];
  }

  lemma JoinedPiecesWrap(text: string, pieces: seq<string>, width: nat, wider: nat, lines: nat)
    requires 0 < width <= wider && text == Join(pieces) && PiecesFit(pieces, width) && |pieces| <= lines
    ensures WrapsInto(text, wider, 0, lines)
  {
    assert text[0..] == text;
    WrapsIntoPieces(text, width, 0, pieces);
    WrapsMonotone(text, width, wider, 0, 0, |pieces|);
    BudgetIsAmple(text, wider, 0, |pieces|, lines);
  }

  lemma ReachesBlank(text: string, width: nat, pos: nat, q: nat)
    requires width > 0 && pos < q <= pos + width + 1 && pos + width < |text| && text[q - 1] == ' '
    ensures q <= NextStart(text, width, pos)
  {
    assert LastBlank(text, pos, pos + width) >= q - 1;
  }

  // ---------------------------------------------------------------- pages

  class Reader {
    const width: nat
    var page: nat

    constructor (columns: nat)
      ensures width == columns && page == 0
    {
      width, page := columns, 0;
    }

    /** scroll_definition_page: forward when positive, otherwise back, both wrapping. */
    method Scroll(direction: int)
      requires page <= MaxPage(width)
      modifies this`page
      ensures page == PageAfter(width, old(page), direction) && page <= MaxPage(width)
    {
      var maxPage := MaxPage(width);
      if direction > 0 {
        page := (page + 1) % (maxPage + 1);
      } else {
        page := if page == 0 then maxPage else page - 1;
      }
    }
  }

  function PageAfter(width: nat, page: nat, direction: int): nat {
    if direction > 0 then (page + 1) % (MaxPage(width) + 1)
    else if page == 0 then MaxPage(width) else page - 1
  }

  function PageAfterAll(width: nat, page: nat, directions: seq<int>): nat
    decreases |directions|
  {
    if |directions| == 0 then page
    else PageAfter(width, PageAfterAll(width, page, directions[..|directions| - 1]), directions[|directions| - 1])
  }

  /** Scrolling back undoes scrolling forward and the other way round. */
  lemma ScrollsAreInverse(width: nat, page: nat)
    requires page <= MaxPage(width)
    ensures PageAfter(width, PageAfter(width, page, 1), -1) == page
    ensures PageAfter(width, PageAfter(width, page, -1), 1) == page
  {
  }

  /** Pages 0..MaxPage are exactly the ones any scrolling reaches from the first. */
  lemma {:induction false} OnlyThesePages(width: nat, directions: seq<int>)
    ensures PageAfterAll(width, 0, directions) <= MaxPage(width)
    decreases |directions|
  {
    if |directions| > 0 {
      OnlyThesePages(width, directions[..|directions| - 1]);
    }
  }

  lemma {:induction false} ForwardReaches(width: nat, page: nat)
    requires page <= MaxPage(width)
    ensures PageAfterAll(width, 0, seq(page, _ => 1)) == page
    decreases page
  {
    if page > 0 {
      ForwardReaches(width, page - 1);
      assert seq(page, _ => 1)[..page - 1] == seq(page - 1, _ => 1);
    }
  }

  /** Some scrolling brings this line onto a row of the display. */
  ghost predicate Reachable(lines: seq<string>, width: nat, line: nat)
    requires line < |lines|
  {
    exists directions: seq<int>, r: nat :: r < 2 && Row(lines, width, PageAfterAll(width, 0, directions), r) == lines[line]
  }

  /** The page and the row on which a line below the capacity is found. */
  function PageOf(width: nat, line: nat): (at: (nat, nat))
    requires line < Capacity(width)
    ensures at.0 <= MaxPage(width) && at.1 < 2 && at.0 * LinesPerPage(width) + at.1 == line
  {
    if width >= 20 then (line / 2, line % 2) else if line < MAX_LINES - 1 then (line, 0) else (MAX_LINES - 2, 1)
  }

  /** Each row of each page belongs to one line below the capacity. */
  lemma PagesStopAtCapacity(width: nat, page: nat, r: nat)
    requires page <= MaxPage(width) && r < 2
    ensures page * LinesPerPage(width) + r < Capacity(width)
    ensures page == MaxPage(width) ==> page * LinesPerPage(width) + 2 == Capacity(width)
  {
  }

  /** Line `j` is below the capacity and reads like `line`. */
  predicate SameText(lines: seq<string>, width: nat, line: nat, j: nat)
    requires line < |lines|
  {
    j < Capacity(width) && j < |lines| && lines[j] == lines[line]
  }

  lemma ScrollsTo(lines: seq<string>, width: nat, line: nat, j: nat)
    requires line < |lines| && SameText(lines, width, line, j)
    ensures Reachable(lines, width, line)
  {
    var at := PageOf(width, j);
    ForwardReaches(width, at.0);
    assert Row(lines, width, PageAfterAll(width, 0, seq(at.0, _ => 1)), at.1) == lines[line];
  }

  /** A line of the wrapped text can be scrolled into view exactly when its text is that of a line below the
      capacity; so on 20 columns a seventh line that repeats no other is never seen. */
  lemma LineIsReachableExactlyWhen(lines: seq<string>, width: nat, line: nat)
    requires line < |lines| <= MAX_LINES
    ensures Reachable(lines, width, line) <==> exists j: nat :: SameText(lines, width, line, j)
  {
    if j: nat :| SameText(lines, width, line, j) {
      ScrollsTo(lines, width, line, j);
    }
    if line < Capacity(width) {
      assert SameText(lines, width, line, line);
    } else if Reachable(lines, width, line) {
      var directions: seq<int>, r: nat :| r < 2 && Row(lines, width, PageAfterAll(width, 0, directions), r) == lines[line];
      var page := PageAfterAll(width, 0, directions);
      OnlyThesePages(width, directions);
      PagesStopAtCapacity(width, page, r);
      assert SameText(lines, width, line, page * LinesPerPage(width) + r);
    }
  }

  // ---------------------------------------------------------------- reading all pages

  /** The rows a reader takes from one page: both on a wide display; on a narrow one, where neighbouring pages
      overlap, the first, and the second of the last page as well. */
  function RowsOf(lines: seq<string>, width: nat, page: nat): seq<string> {
    if width >= 20 || page == MaxPage(width) then [Row(lines, width, page, 0), Row(lines, width, page, 1)]
    else [Row(lines, width, page, 0)]
  }

  /** The rows read from page `page` to the last. */
  function RowsFrom(lines: seq<string>, width: nat, page: nat): seq<string>
    requires page <= MaxPage(width)
    decreases MaxPage(width) - page
  {
    RowsOf(lines, width, page) + if page == MaxPage(width) then [] else RowsFrom(lines, width, page + 1)
  }

  /** The lines from `line` on, and empty rows up to the capacity. */
  function LinesFrom(lines: seq<string>, line: nat, capacity: nat): (rows: seq<string>)
    requires line <= capacity
    ensures |rows| == capacity - line && forall i :: 0 <= i < |rows| ==> rows[i] == LineOrBlank(lines, line + i)
  {
    seq(capacity - line, i requires 0 <= i < capacity - line => LineOrBlank(lines, line + i))
  }

  /** One page shows the next lines, and the page after it goes on where it stops. */
  lemma PageStep(lines: seq<string>, width: nat, page: nat)
    requires page <= MaxPage(width)
    ensures var line, rows := page * LinesPerPage(width), RowsOf(lines, width, page);
            && line + |rows| <= Capacity(width) && (forall i :: 0 <= i < |rows| ==> rows[i] == LineOrBlank(lines, line + i))
            && line + |rows| == if page == MaxPage(width) then Capacity(width) else (page + 1) * LinesPerPage(width)
  {
    PagesStopAtCapacity(width, page, 1);
    assert (page + 1) * LinesPerPage(width) == page * LinesPerPage(width) + LinesPerPage(width);
  }

  /** Read page by page, the display shows the lines in order, each once. */
  lemma {:induction false} PagesShowTheLines(lines: seq<string>, width: nat, page: nat)
    requires page <= MaxPage(width)
    ensures page * LinesPerPage(width) <= Capacity(width)
    ensures RowsFrom(lines, width, page) == LinesFrom(lines, page * LinesPerPage(width), Capacity(width))
    decreases MaxPage(width) - page
  {
    PageStep(lines, width, page);
    if page < MaxPage(width) {
      PagesShowTheLines(lines, width, page + 1);
    }
  }

  lemma {:induction false} LinesShowTheText(text: string, width: nat, starts: seq<nat>, lines: seq<string>, line: nat, capacity: nat)
    requires width > 0 && line <= capacity && |starts| == |lines| <= capacity
    requires (forall k :: 0 <= k < |starts| ==> starts[k] <= |text|) && forall k, l :: 0 <= k < l < |starts| ==> starts[k] < starts[l]
    requires forall i :: 0 <= i < |lines| ==> lines[i] == LineText(text, width, starts, i)
    ensures NonBlank(Join(LinesFrom(lines, line, capacity)))
            == if line <= |starts| then LinesNonBlank(text, width, starts, line) else []
    decreases capacity - line
  {
    if line < capacity {
      LinesShowTheText(text, width, starts, lines, line + 1, capacity);
      var rows := LinesFrom(lines, line, capacity);
      assert rows[1..] == LinesFrom(lines, line + 1, capacity);
      NonBlankConcat(rows[0], Join(rows[1..]));
    }
  }

  /** The rows of all pages together show every non-blank character of such a text, in order and once. */
  lemma PagesLoseNothing(text: string, width: nat)
    requires width > 0 && WrapsInto(text, width, 0, Capacity(width))
    ensures var rows := RowsFrom(Lines(text, width), width, 0);
            NonBlank(Join(rows)) == NonBlank(text) && forall i :: 0 <= i < |rows| ==> |rows[i]| <= width
  {
    var starts, lines := Starts(text, width, 0, MAX_LINES), Lines(text, width);
    WrapLosesNothing(text, width);
    PagesShowTheLines(lines, width, 0);
    LinesShowTheText(text, width, starts, lines, 0, Capacity(width));
  }

  // ---------------------------------------------------------------- where lines break

  /** The next line starts just past the last blank that leaves this one within the width; without such a
      blank the word is broken at the full width. */
  predicate BreaksBetweenWords(text: string, width: nat, from: nat, next: nat) {
    && from < next && from + width < |text|
    && if exists k :: from < k <= from + width && text[k] == ' '
       then from + 1 < next <= from + width + 1 && text[next - 1] == ' ' && forall k :: next <= k <= from + width ==> text[k] != ' '
       else next == from + width
  }

  lemma {:induction false} StartsBreakBetweenWords(text: string, width: nat, pos: nat, budget: nat, i: nat)
    requires width > 0 && i + 1 < |Starts(text, width, pos, budget)|
    ensures var s := Starts(text, width, pos, budget); BreaksBetweenWords(text, width, s[i], s[i + 1])
    decreases budget
  {
    var next := NextStart(text, width, pos);
    var rest := Starts(text, width, next, budget - 1);
    StartsStep(text, width, pos, budget);
    if i > 0 {
      StartsBreakBetweenWords(text, width, next, budget - 1, i - 1);
    } else {
      assert rest[0] == next;
    }
  }
}
