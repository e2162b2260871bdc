/**
 * Laying the contact sheet out on the PDF canvas with a vertical cursor y
 * (points from the bottom edge). The canvas is modelled as the list of
 * drawing commands it receives, in order.
 */
module Layout {
  import opened Wrappers
  import opened Strings
  import opened Columns
  import opened Contacts
  import opened Table

  /** The export date, read from the clock and printed with strftime("%d/%m/%Y"). */
  datatype Date = Date(day: nat, month: nat, year: nat)

  datatype DrawCmd =
    | Text(x: int, y: int, font: Font, s: string)
    | Line(x1: int, y1: int, x2: int, y2: int)
    | PageBreak

  /** Left edge of every text; the divider is inset by the same amount at both ends. */
  const MARGIN := 40
  /** Distance of the first line of a page from the top edge. */
  const TOP := 40
  const HEADER_STEP := 30
  const NAME_STEP := 15
  const BODY_STEP := 12
  const DIVIDER_STEP := 20
  /** A record that starts with the cursor below this line starts on a new page. */
  const BREAK_BELOW := 100

  function HeaderText(d: Date): string {
    "Export date: " + Format2(d.day) + "/" + Format2(d.month) + "/" + NatToString(d.year)
  }

  ghost predicate AllRenderable(rows: seq<Row>, cols: seq<string>) {
    forall i :: 0 <= i < |rows| ==> Renderable(rows[i], cols)
  }

  /** The body lines drawn from y downwards, one BODY_STEP apart. */
  function TextLines(lines: seq<Entry>, y: int): (r: seq<DrawCmd>)
    ensures |r| == |lines|
    ensures forall k :: 0 <= k < |r| ==> r[k].Text? && r[k].x == MARGIN
  {
    if lines == [] then []
    else
      var n := |lines| - 1;
      TextLines(lines[..n], y) + [Text(MARGIN, y - BODY_STEP * n, lines[n].font, lines[n].text)]
  }

  /** The k-th body line is drawn k steps below the first, with its own font and text. */
  lemma {:induction false} TextLinesAt(lines: seq<Entry>, y: int, k: int)
    requires 0 <= k < |lines|
    ensures TextLines(lines, y)[k] == Text(MARGIN, y - BODY_STEP * k, lines[k].font, lines[k].text)
  {
    var n := |lines| - 1;
    if k < n {
      TextLinesAt(lines[..n], y, k);
    }
  }

  /** How far a record block with these body lines moves the cursor down. */
  function Drop(lines: seq<Entry>): int {
    NAME_STEP + BODY_STEP * |lines| + DIVIDER_STEP
  }

  /** A record block whose name line is at y: the name, the body lines, the divider. */
  function Block(name: string, lines: seq<Entry>, y: int, width: int): seq<DrawCmd> {
    var bottom := y - NAME_STEP - BODY_STEP * |lines|;
    [Text(MARGIN, y, NAME_FONT, name)] + TextLines(lines, y - NAME_STEP) + [Line(MARGIN, bottom, width - MARGIN, bottom)]
  }

  /** Where a record's name is drawn when the cursor stands at y on entry. */
  function Top(y: int, height: int): int {
    if y < BREAK_BELOW then height - TOP else y
  }

  /** What one record puts on the sheet: its bold name line and its body lines. */
  datatype Card = Card(name: string, lines: seq<Entry>)

  function CardOf(row: Row, cols: seq<string>): Card
    requires Renderable(row, cols)
  {
    Card(NameLine(row), BodyLines(row, cols))
  }

  /** The cards of the records, in table order. */
  function Cards(rows: seq<Row>, cols: seq<string>): (r: seq<Card>)
    requires AllRenderable(rows, cols)
    ensures |r| == |rows|
  {
    if rows == [] then [] else [CardOf(rows[0], cols)] + Cards(rows[1..], cols)
  }

  /** The i-th card is the i-th record's name line and body lines. */
  lemma {:induction false} CardsAt(rows: seq<Row>, cols: seq<string>, i: int)
    requires AllRenderable(rows, cols) && 0 <= i < |rows|
    ensures Cards(rows, cols)[i] == CardOf(rows[i], cols)
  {
    if i > 0 {
      CardsAt(rows[1..], cols, i - 1);
    }
  }

  /** The i-th card carries the i-th record's name line. */
  lemma CardName(rows: seq<Row>, cols: seq<string>, i: int)
    requires AllRenderable(rows, cols) && 0 <= i < |rows|
    ensures Cards(rows, cols)[i].name == NameLine(rows[i])
  {
    CardsAt(rows, cols, i);
  }

  /** What one record adds: a page break when the cursor is below BREAK_BELOW on entry, then its block. */
  function Segment(card: Card, y: int, width: int, height: int): seq<DrawCmd> {
    (if y < BREAK_BELOW then [PageBreak] else []) + Block(card.name, card.lines, Top(y, height), width)
  }

  /** The cursor after a record entered at y. */
  function Next(card: Card, y: int, height: int): int {
    Top(y, height) - Drop(card.lines)
  }

  /** The commands of the records, the first entered with the cursor at y. */
  function Records(cards: seq<Card>, y: int, width: int, height: int): seq<DrawCmd> {
    if cards == [] then []
    else Segment(cards[0], y, width, height) + Records(cards[1..], Next(cards[0], y, height), width, height)
  }

  /** The whole contact sheet: the date header, then every record in table order. */
  function Document(cards: seq<Card>, date: Date, width: int, height: int): seq<DrawCmd> {
    [Text(MARGIN, height - TOP, HEADER_FONT, HeaderText(date))]
    + Records(cards, height - TOP - HEADER_STEP, width, height)
  }

  /** Unfolds the layout of the records from the i-th on by one record. */
  lemma RecordsAt(cards: seq<Card>, i: int, y: int, width: int, height: int)
    requires 0 <= i < |cards|
    ensures Records(cards[i..], y, width, height)
      == Segment(cards[i], y, width, height) + Records(cards[i + 1..], Next(cards[i], y, height), width, height)
  {
    assert cards[i..][0] == cards[i] && cards[i..][1..] == cards[i + 1..];
  }

  /** Draws the body lines of a block, the first at y, moving the cursor down one step per line. */
  method DrawBody(cmds: seq<DrawCmd>, lines: seq<Entry>, y: int) returns (cmds': seq<DrawCmd>, y': int)
    ensures cmds' == cmds + TextLines(lines, y)
    ensures y' == y - BODY_STEP * |lines|
  {
    cmds', y' := cmds, y;
    for k := 0 to |lines|
      invariant cmds' == cmds + TextLines(lines[..k], y)
      invariant y' == y - BODY_STEP * k
    {
      cmds' := cmds' + [Text(MARGIN, y', lines[k].font, lines[k].text)];
      y' := y' - BODY_STEP;
      assert lines[..k + 1][..k] == lines[..k];
    }
    assert lines[..|lines|] == lines;
  }

  /** Draws a record block with its name line at y; returns the cursor below the divider gap. */
  method DrawBlock(cmds: seq<DrawCmd>, name: string, lines: seq<Entry>, y: int, width: int)
    returns (cmds': seq<DrawCmd>, y': int)
    ensures cmds' == cmds + Block(name, lines, y, width)
    ensures y' == y - Drop(lines)
  {
    cmds' := cmds + [Text(MARGIN, y, NAME_FONT, name)];
    cmds', y' := DrawBody(cmds', lines, y - NAME_STEP);
    cmds' := cmds' + [Line(MARGIN, y', width - MARGIN, y')];
    y' := y' - DIVIDER_STEP;
  }

  /** Lines 54-125 of the script, for one record entered with the cursor at y. */
  method DrawRecord(cmds: seq<DrawCmd>, row: Row, cols: seq<string>, y: int, width: int, height: int)
    returns (cmds': seq<DrawCmd>, y': int)
    requires Renderable(row, cols)
    ensures cmds' == cmds + Segment(CardOf(row, cols), y, width, height)
    ensures y' == Next(CardOf(row, cols), y, height)
  {
    var opening: seq<DrawCmd> := [];
    y' := y;
    if y' < BREAK_BELOW {
      opening := [PageBreak];
      y' := height - TOP;
    }
    assert y' == Top(y, height);
    assert opening == if y < BREAK_BELOW then [PageBreak] else [];
    var card := CardOf(row, cols);
    cmds', y' := DrawBlock(cmds + opening, card.name, card.lines, y', width);
    AppendAssoc(cmds, opening, Block(card.name, card.lines, Top(y, height), width));
  }

  /** Lines 16-125 of the script: draw the header, then each record, moving the cursor as it goes. */
  method Render(t: Table, date: Date, width: int, height: int) returns (cmds: seq<DrawCmd>)
    requires AllRenderable(t.rows, t.columns)
    ensures cmds == Document(Cards(t.rows, t.columns), date, width, height)
  {
    ghost var cards := Cards(t.rows, t.columns);
    var y := height - TOP;
    cmds := [Text(MARGIN, y, HEADER_FONT, HeaderText(date))];
    y := y - HEADER_STEP;
    var i := 0;
    while i < |t.rows|
      invariant 0 <= i <= |t.rows|
      invariant cmds + Records(cards[i..], y, width, height) == Document(Cards(t.rows, t.columns), date, width, height)
    {
      RecordsAt(cards, i, y, width, height);
      CardsAt(t.rows, t.columns, i);
      AppendAssoc(cmds, Segment(cards[i], y, width, height),
        Records(cards[i + 1..], Next(cards[i], y, height), width, height));
      cmds, y := DrawRecord(cmds, t.rows[i], t.columns, y, width, height);
      i := i + 1;
    }
  }

  /** The whole script: prepare the table, then lay it out. */
  method ExportContacts(raw: RawTable, date: Date, width: int, height: int) returns (t: Table, cmds: seq<DrawCmd>)
    requires RawWellFormed(raw)
    requires FIRST_NAME in raw.columns && LAST_NAME in raw.columns
    requires raw.rows != [] ==> Covers(set c | c in raw.columns)
    ensures t.columns == AddFullName(FillNa(raw)).columns
    ensures multiset(t.rows) == multiset(AddFullName(FillNa(raw)).rows)
    ensures Keyed(t.rows) && SortedByKey(t.rows)
    ensures AllRenderable(t.rows, t.columns)
    ensures cmds == Document(Cards(t.rows, t.columns), date, width, height)
  {
    t := Prepare(raw);
    forall i | 0 <= i < |t.rows|
      ensures Renderable(t.rows[i], t.columns)
    {
      assert t.rows[i] in multiset(AddFullName(FillNa(raw)).rows);
      forall c | c in raw.columns
        ensures c in t.rows[i]
      {
        assert c in t.columns;
      }
      CoversMore((set c | c in raw.columns), t.rows[i].Keys);
    }
    cmds := Render(t, date, width, height);
  }

  /** The header reads "Export date: DD/MM/YYYY": day and month keep their values and are padded to two digits. */
  lemma HeaderDate(d: Date)
    ensures
      var dd, mm, yyyy := Format2(d.day), Format2(d.month), NatToString(d.year);
      && HeaderText(d) == "Export date: " + dd + "/" + mm + "/" + yyyy
      && ParseInt(dd) == Some(d.day) && ParseInt(mm) == Some(d.month) && ParseInt(yyyy) == Some(d.year)
      && (d.day < 100 ==> |dd| == 2) && (d.month < 100 ==> |mm| == 2)
      && (1000 <= d.year < 10000 ==> |yyyy| == 4)
  {
    Format2RoundTrip(d.day);
    Format2RoundTrip(d.month);
    NatToStringRoundTrip(d.year);
    NatToStringLength(d.year);
  }

  /**
   * The first command is the oblique date header at the top of the page; the
   * cursor then stands HEADER_STEP lower, where the first record starts unless
   * that is already below BREAK_BELOW.
   */
  lemma DocumentStart(cards: seq<Card>, date: Date, width: int, height: int)
    requires cards != []
    ensures
      var doc := Document(cards, date, width, height);
      && doc[0] == Text(MARGIN, height - TOP, HEADER_FONT, HeaderText(date))
      && (if height - TOP - HEADER_STEP < BREAK_BELOW
          then doc[1] == PageBreak && doc[2] == Text(MARGIN, height - TOP, NAME_FONT, cards[0].name)
          else doc[1] == Text(MARGIN, height - TOP - HEADER_STEP, NAME_FONT, cards[0].name))
  {
    RecordsStart(cards, height - TOP - HEADER_STEP, width, height);
  }

  /** The first record's commands open the layout of the records. */
  lemma RecordsStart(cards: seq<Card>, y: int, width: int, height: int)
    requires cards != []
    ensures
      var r := Records(cards, y, width, height);
      && |r| >= 2
      && (r[0] == PageBreak <==> y < BREAK_BELOW)
      && (y < BREAK_BELOW ==> r[1] == Text(MARGIN, height - TOP, NAME_FONT, cards[0].name))
      && (y >= BREAK_BELOW ==> r[0] == Text(MARGIN, y, NAME_FONT, cards[0].name))
  {
    SegmentShape(cards[0], y, width, height);
  }

  /**
   * A block is the bold name at y, then body line j at y - 15 - 12*j in its own
   * font, then the divider across the page 15 + 12*n below y; the cursor ends
   * DIVIDER_STEP below the divider, Drop(lines) = 15 + 12*n + 20 below y.
   */
  lemma BlockShape(name: string, lines: seq<Entry>, y: int, width: int)
    ensures
      var b := Block(name, lines, y, width);
      var bottom := y - NAME_STEP - BODY_STEP * |lines|;
      && |b| == |lines| + 2
      && b[0] == Text(MARGIN, y, NAME_FONT, name)
      && (forall j :: 0 <= j < |lines| ==>
            b[1 + j] == Text(MARGIN, y - NAME_STEP - BODY_STEP * j, lines[j].font, lines[j].text))
      && b[|b| - 1] == Line(MARGIN, bottom, width - MARGIN, bottom)
      && bottom - DIVIDER_STEP == y - Drop(lines)
  {
    var b := Block(name, lines, y, width);
    forall j | 0 <= j < |lines|
      ensures b[1 + j] == Text(MARGIN, y - NAME_STEP - BODY_STEP * j, lines[j].font, lines[j].text)
    {
      TextLinesAt(lines, y - NAME_STEP, j);
    }
  }

  /** The cursor after laying out the given records from y. */
  function After(cards: seq<Card>, y: int, height: int): int
  {
    if cards == [] then y else After(cards[1..], Next(cards[0], y, height), height)
  }

  /** Laying out a + b is laying out a, then b from where a left the cursor. */
  lemma {:induction false} RecordsSplit(a: seq<Card>, b: seq<Card>, y: int, width: int, height: int)
    ensures Records(a + b, y, width, height)
      == Records(a, y, width, height) + Records(b, After(a, y, height), width, height)
  {
    if a == [] {
      assert a + b == b;
    } else {
      var y' := Next(a[0], y, height);
      assert (a + b)[0] == a[0] && (a + b)[1..] == a[1..] + b;
      assert Records(a + b, y, width, height) == Segment(a[0], y, width, height) + Records(a[1..] + b, y', width, height);
      RecordsSplit(a[1..], b, y', width, height);
      AppendAssoc(Segment(a[0], y, width, height), Records(a[1..], y', width, height),
        Records(b, After(a[1..], y', height), width, height));
    }
  }

  /**
   * The i-th record is laid out whole and in table order: after the commands of
   * the records before it comes its segment, entered with the cursor they left.
   */
  lemma RecordInPlace(cards: seq<Card>, i: int, y: int, width: int, height: int)
    requires 0 <= i < |cards|
    ensures
      var before := After(cards[..i], y, height);
      Records(cards, y, width, height)
        == Records(cards[..i], y, width, height)
           + Segment(cards[i], before, width, height)
           + Records(cards[i + 1..], Next(cards[i], before, height), width, height)
  {
    var before := After(cards[..i], y, height);
    assert cards == cards[..i] + cards[i..];
    RecordsSplit(cards[..i], cards[i..], y, width, height);
    RecordsAt(cards, i, before, width, height);
    AppendAssoc(Records(cards[..i], y, width, height), Segment(cards[i], before, width, height),
      Records(cards[i + 1..], Next(cards[i], before, height), width, height));
  }

  /** A record starts with a page break exactly when the cursor is below BREAK_BELOW on entry, and its block follows at the top of the new page. */
  lemma SegmentShape(card: Card, y: int, width: int, height: int)
    ensures
      var s := Segment(card, y, width, height);
      && |s| >= 2
      && (s[0] == PageBreak <==> y < BREAK_BELOW)
      && (y < BREAK_BELOW ==> s[1] == Text(MARGIN, height - TOP, NAME_FONT, card.name))
      && (y >= BREAK_BELOW ==> s[0] == Text(MARGIN, y, NAME_FONT, card.name))
      && Breaks(s) == (if y < BREAK_BELOW then 1 else 0)
  {
    var b := Block(card.name, card.lines, Top(y, height), width);
    BlockShape(card.name, card.lines, Top(y, height), width);
    BlockHasNoBreak(card.name, card.lines, Top(y, height), width);
    BreaksAppend(if y < BREAK_BELOW then [PageBreak] else [], b);
  }

  /** The number of page breaks among the commands. */
  function Breaks(cmds: seq<DrawCmd>): nat
  {
    if cmds == [] then 0 else (if cmds[0].PageBreak? then 1 else 0) + Breaks(cmds[1..])
  }

  lemma {:induction false} BreaksAppend(a: seq<DrawCmd>, b: seq<DrawCmd>)
    ensures Breaks(a + b) == Breaks(a) + Breaks(b)
  {
    if a == [] {
      assert a + b == b;
    } else {
      assert (a + b)[1..] == a[1..] + b;
      BreaksAppend(a[1..], b);
    }
  }

  lemma {:induction false} NoBreaks(cmds: seq<DrawCmd>)
    requires forall k :: 0 <= k < |cmds| ==> !cmds[k].PageBreak?
    ensures Breaks(cmds) == 0
  {
    if cmds != [] {
      NoBreaks(cmds[1..]);
    }
  }

  /** A block never breaks the page: breaks happen only between records. */
  lemma BlockHasNoBreak(name: string, lines: seq<Entry>, y: int, width: int)
    ensures Breaks(Block(name, lines, y, width)) == 0
  {
    var b := Block(name, lines, y, width);
    var t := TextLines(lines, y - NAME_STEP);
    forall k | 0 <= k < |b|
      ensures !b[k].PageBreak?
    {
      if 0 < k < |b| - 1 {
        assert b[k] == t[k - 1];
      }
    }
    NoBreaks(b);
  }

  /** The number of records that are entered with the cursor below BREAK_BELOW. */
  function LowEntries(cards: seq<Card>, y: int, height: int): nat
  {
    if cards == [] then 0
    else (if y < BREAK_BELOW then 1 else 0) + LowEntries(cards[1..], Next(cards[0], y, height), height)
  }

  /** There are exactly as many page breaks as records entered below BREAK_BELOW. */
  lemma {:induction false} PageBreakCount(cards: seq<Card>, y: int, width: int, height: int)
    ensures Breaks(Records(cards, y, width, height)) == LowEntries(cards, y, height)
  {
    if cards != [] {
      var y' := Next(cards[0], y, height);
      SegmentShape(cards[0], y, width, height);
      BreaksAppend(Segment(cards[0], y, width, height), Records(cards[1..], y', width, height));
      PageBreakCount(cards[1..], y', width, height);
    }
  }

  /** Every text starts at the left margin and every rule is a divider across the page. */
  ghost predicate AtMargins(cmds: seq<DrawCmd>, width: int) {
    forall k :: 0 <= k < |cmds| ==>
      && (cmds[k].Text? ==> cmds[k].x == MARGIN)
      && (cmds[k].Line? ==> cmds[k].x1 == MARGIN && cmds[k].x2 == width - MARGIN && cmds[k].y1 == cmds[k].y2)
  }

  lemma AtMarginsAppend(a: seq<DrawCmd>, b: seq<DrawCmd>, width: int)
    requires AtMargins(a, width) && AtMargins(b, width)
    ensures AtMargins(a + b, width)
  {
    forall k | |a| <= k < |a + b|
      ensures (a + b)[k] == b[k - |a|]
    {
    }
  }

  lemma {:induction false} RecordsAtMargins(cards: seq<Card>, y: int, width: int, height: int)
    ensures AtMargins(Records(cards, y, width, height), width)
  {
    if cards != [] {
      var y' := Next(cards[0], y, height);
      var lines := cards[0].lines;
      var b := Block(cards[0].name, lines, Top(y, height), width);
      BlockShape(cards[0].name, lines, Top(y, height), width);
      forall k | 0 <= k < |b|
        ensures (b[k].Text? ==> b[k].x == MARGIN)
        ensures (b[k].Line? ==> b[k].x1 == MARGIN && b[k].x2 == width - MARGIN && b[k].y1 == b[k].y2)
      {
        if 0 < k < |b| - 1 {
          assert b[k] == b[1 + (k - 1)];
        }
      }
      var opening: seq<DrawCmd> := if y < BREAK_BELOW then [PageBreak] else [];
      AtMarginsAppend(opening, b, width);
      RecordsAtMargins(cards[1..], y', width, height);
      AtMarginsAppend(opening + b, Records(cards[1..], y', width, height), width);
    }
  }

  lemma DocumentAtMargins(cards: seq<Card>, date: Date, width: int, height: int)
    ensures AtMargins(Document(cards, date, width, height), width)
  {
    var head := [Text(MARGIN, height - TOP, HEADER_FONT, HeaderText(date))];
    RecordsAtMargins(cards, height - TOP - HEADER_STEP, width, height);
    AtMarginsAppend(head, Records(cards, height - TOP - HEADER_STEP, width, height), width);
  }
}
