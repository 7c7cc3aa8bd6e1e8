/**
 * The incremental flush engine of the ST7567 driver as a state transition:
 * the dirty rectangle [startCol, endCol) x [startRow, endRow) with its resume
 * cursor, one call of FlushSome as `Step` (new state and result) plus
 * `Emitted` (the bus transaction it performs), and `Drain`, the calls a
 * caller makes until FlushSome reports that nothing remains.
 */
module FlushEngine {
  import opened St7567

  /** Panel size given to the base class by the driver's constructor. */
  const NumCols: nat := 128
  const NumRows: nat := 64

  /** A tile is one column wide and one controller page (8 rows) high. */
  const TileWidth: nat := 1
  const TileHeight: nat := 8

  /** The pixel source: ReadPixel(x, y) of the frame buffer. */
  type Pixels = (nat, nat) -> bool

  /** The five fields FlushSome reads and writes. */
  datatype Window = Window(startRow: nat, endRow: nat, startCol: nat, endCol: nat, nextFlushRow: nat)

  /** "Nothing pending": what FlushSome leaves once the whole rectangle has been sent. */
  const Sentinel := Window(NumRows, 0, NumCols, 0, 0)

  /** The rectangle holds no pixel. */
  predicate IsEmpty(w: Window) {
    w.endCol <= w.startCol || w.endRow <= w.startRow
  }

  /**
   * What the base class keeps true of the fields: each fits the 8-bit pixel
   * coordinate type and the rectangle ends inside the panel.
   */
  predicate OnPanel(w: Window) {
    && w.startRow < 256 && w.startCol < 256 && w.nextFlushRow < 256
    && w.endRow <= NumRows && w.endCol <= NumCols
  }

  /**
   * The row this call sends: the cursor if it still lies in the rectangle's
   * rows, otherwise a fresh sweep from startRow.
   */
  function Resume(w: Window): (row: nat)
    ensures !IsEmpty(w) ==> w.startRow <= row < w.endRow
    ensures w.startRow <= w.nextFlushRow < w.endRow ==> row == w.nextFlushRow
    ensures !(w.startRow <= w.nextFlushRow < w.endRow) ==> row == w.startRow
  {
    if w.nextFlushRow < w.startRow || w.nextFlushRow >= w.endRow then w.startRow else w.nextFlushRow
  }

  /** `row & ~(TileHeight - 1)`: the first row of the controller page holding row. */
  function PageRow(row: nat): (top: nat)
    ensures top % TileHeight == 0 && top <= row < top + TileHeight
  {
    row - row % TileHeight
  }

  /** Result of one FlushSome call: the new fields and the returned flag. */
  datatype Outcome = Outcome(next: Window, more: bool)

  /** One call of FlushSome on the fields w. */
  function Step(w: Window): (o: Outcome) {
    if IsEmpty(w) then Outcome(w, false)
    else
      var cursor := Resume(w);
      var startRow := if cursor == w.startRow then w.startRow + TileHeight else w.startRow;
      if startRow != w.endRow
      then Outcome(w.(startRow := startRow, nextFlushRow := cursor + TileHeight), true)
      else Outcome(Sentinel, false)
  }

  /** The strip of eight pixels of column x starting at row top, top first. */
  function Strip(px: Pixels, x: nat, top: nat): (strip: seq<bool>)
    ensures |strip| == TileHeight
    ensures forall i :: 0 <= i < TileHeight ==> strip[i] == px(x, top + i)
  {
    seq(TileHeight, i requires 0 <= i < TileHeight => px(x, top + i))
  }

  /** The data byte for column x of the page starting at row top. */
  function TileAt(px: Pixels, x: nat, top: nat): (b: bv8)
    ensures forall i :: 0 <= i < TileHeight ==> Bit(b, i) == px(x, top + i)
  {
    PackTile(Strip(px, x, top))
  }

  /** Data bytes for columns lo, ..., hi - 1 of the page at row top, in that order. */
  function DataRun(px: Pixels, lo: nat, hi: nat, top: nat): (t: seq<BusEvent>)
    ensures |t| == if lo <= hi then hi - lo else 0
    decreases hi
  {
    if hi <= lo then []
    else DataRun(px, lo, hi - 1, top) + [Data(TileAt(px, hi - 1, top))]
  }

  /** The k-th data byte of a run is the tile of the k-th column. */
  lemma {:induction false} DataRunAt(px: Pixels, lo: nat, hi: nat, top: nat, k: nat)
    requires lo + k < hi
    ensures DataRun(px, lo, hi, top)[k] == Data(TileAt(px, lo + k, top))
    decreases hi
  {
    if lo + k < hi - 1 {
      DataRunAt(px, lo, hi - 1, top, k);
    }
  }

  /** The command events of an addressing sequence. */
  function Commands(cmds: seq<bv8>): (t: seq<BusEvent>)
    ensures |t| == |cmds|
    ensures forall i :: 0 <= i < |cmds| ==> t[i] == Cmd(cmds[i])
  {
    seq(|cmds|, i requires 0 <= i < |cmds| => Cmd(cmds[i]))
  }

  /** One addressed write of columns [lo, hi) of the page at row top. */
  function Transaction(px: Pixels, top: nat, lo: nat, hi: nat): (t: seq<BusEvent>) {
    [Select] + Commands(GraphicsAddress(top, lo)) + [A0High]
    + DataRun(px, lo, hi, top) + [A0Low, Deselect]
  }

  /** The row whose page a call on w sends, if it sends one. */
  function Sent(w: Window): (page: Option<nat>)
    ensures page.Some? <==> !IsEmpty(w)
  {
    if IsEmpty(w) then None else Some(PageRow(Resume(w)))
  }

  /** Everything one FlushSome call on w puts on the bus. */
  function Emitted(px: Pixels, w: Window): (t: seq<BusEvent>) {
    if IsEmpty(w) then [] else Transaction(px, PageRow(Resume(w)), w.startCol, w.endCol)
  }

  // ---------------------------------------------------------------------
  // Properties of one call
  // ---------------------------------------------------------------------

  /** An empty rectangle: false, no bus traffic, no field changed. */
  lemma EmptyIsNoOp(px: Pixels, w: Window)
    requires IsEmpty(w)
    ensures Step(w) == Outcome(w, false) && Emitted(px, w) == []
  {
  }

  /**
   * Cursor normalisation: the page sent contains the resumed row, which lies
   * inside the rectangle's rows; startRow moves down one page exactly when
   * the call starts a fresh sweep, and the columns are left alone while work
   * remains.
   */
  lemma CursorNormalisation(w: Window)
    requires !IsEmpty(w)
    ensures Sent(w) == Some(PageRow(Resume(w)))
    ensures w.startRow <= Resume(w) < w.endRow
    ensures Step(w).more ==>
      && Step(w).next.startRow == (if Resume(w) == w.startRow then w.startRow + TileHeight else w.startRow)
      && Step(w).next.startCol == w.startCol && Step(w).next.endCol == w.endCol
      && Step(w).next.endRow == w.endRow
  {
  }

  /**
   * Return rule: true exactly when the advanced startRow differs from endRow,
   * with the cursor one page further on; otherwise the fields collapse to the
   * sentinel. A call that returns false leaves nothing to do.
   */
  lemma ReturnRule(w: Window)
    requires !IsEmpty(w)
    ensures var advanced := if Resume(w) == w.startRow then w.startRow + TileHeight else w.startRow;
      && (Step(w).more <==> advanced != w.endRow)
      && (Step(w).more ==> Step(w).next.nextFlushRow == Resume(w) + TileHeight)
      && (!Step(w).more ==> Step(w).next == Sentinel)
    ensures !Step(w).more ==> IsEmpty(Step(w).next)
  {
  }

  /** After the sentinel, the next call is a no-op. */
  lemma SentinelIsIdle(px: Pixels)
    ensures IsEmpty(Sentinel) && OnPanel(Sentinel)
    ensures Step(Sentinel) == Outcome(Sentinel, false) && Emitted(px, Sentinel) == []
  {
  }

  /** A call keeps the fields within the panel and within 8 bits, so no addition wraps. */
  lemma StepStaysOnPanel(w: Window)
    requires OnPanel(w)
    ensures OnPanel(Step(w).next)
  {
  }

  /**
   * Layout of one addressed write: Select, the three address commands, A0
   * high, one data byte per column of [lo, hi) in increasing order, A0 low,
   * Deselect. Commands are sent only before A0 goes high and data only while
   * it is high.
   */
  lemma {:induction false} TransactionLayout(px: Pixels, top: nat, lo: nat, hi: nat)
    requires lo < hi
    ensures var t, n := Transaction(px, top, lo, hi), hi - lo;
      && |t| == n + 7
      && t[0] == Select && t[4] == A0High && t[n + 5] == A0Low && t[n + 6] == Deselect
      && [t[1], t[2], t[3]] == Commands(GraphicsAddress(top, lo))
      && (forall j :: 0 <= j < |t| ==> (t[j].Cmd? <==> 1 <= j < 4))
      && (forall j :: 0 <= j < |t| ==> (t[j].Data? <==> 5 <= j < n + 5))
      && (forall j :: 5 <= j < n + 5 ==> t[j] == Data(TileAt(px, lo + j - 5, top)))
  {
    var n := hi - lo;
    var head := [Select] + Commands(GraphicsAddress(top, lo)) + [A0High];
    var run := DataRun(px, lo, hi, top);
    var t := Transaction(px, top, lo, hi);
    assert t == head + run + [A0Low, Deselect];
    assert |head| == 5;
    forall j | 5 <= j < n + 5
      ensures t[j] == run[j - 5] == Data(TileAt(px, lo + j - 5, top))
    {
      DataRunAt(px, lo, hi, top, j - 5);
    }
  }

  /**
   * The bus transaction of a transmitting call: the address commands point
   * the controller at the page holding the resumed row and at startCol, and
   * the data byte for column startCol + k has bit i equal to the pixel i rows
   * below that page's top row.
   */
  lemma TransactionShape(px: Pixels, w: Window)
    requires !IsEmpty(w) && OnPanel(w)
    ensures var t, n, top := Emitted(px, w), w.endCol - w.startCol, PageRow(Resume(w));
      && |t| == n + 7 && top % TileHeight == 0
      && t[0] == Select && t[4] == A0High && t[n + 5] == A0Low && t[n + 6] == Deselect
      && t[1].Cmd? && t[2].Cmd? && t[3].Cmd?
      && DecodeAddress([t[1].b, t[2].b, t[3].b]) == Some(Address(top / TileHeight, w.startCol))
      && t[3].b & 0x0F == (top / TileHeight) as bv8
      && (forall j :: 0 <= j < |t| ==> (t[j].Cmd? <==> 1 <= j < 4))
      && (forall j :: 0 <= j < |t| ==> (t[j].Data? <==> 5 <= j < n + 5))
      && (forall j, i :: 5 <= j < n + 5 && 0 <= i < TileHeight ==>
            t[j].Data? && Bit(t[j].b, i) == px(w.startCol + j - 5, top + i))
  {
    var top := PageRow(Resume(w));
    var cmds := GraphicsAddress(top, w.startCol);
    TransactionLayout(px, top, w.startCol, w.endCol);
    var t := Emitted(px, w);
    assert [t[1].b, t[2].b, t[3].b] == cmds;
    AddressRoundTrip(top, w.startCol);
  }

  /** Every pixel a transmitting call reads lies on the panel. */
  lemma ReadsStayOnPanel(w: Window, x: nat, i: nat)
    requires !IsEmpty(w) && OnPanel(w)
    requires w.startCol <= x < w.endCol && i < TileHeight
    ensures x < NumCols && PageRow(Resume(w)) + i < NumRows
  {
  }

  // ---------------------------------------------------------------------
  // Repeated calls
  // ---------------------------------------------------------------------

  /** Rows not yet claimed by a sweep. */
  function Pending(w: Window): (n: nat) {
    if IsEmpty(w) then 0 else w.endRow - w.startRow
  }

  /** Rows left below a cursor that is partway through a sweep. */
  function Lag(w: Window): (n: nat) {
    if IsEmpty(w) || Resume(w) == w.startRow then 0 else w.endRow - Resume(w)
  }

  /** Every call that reports more work decreases (Pending, Lag) lexicographically. */
  lemma StepProgress(w: Window)
    requires Step(w).more
    ensures Pending(Step(w).next) < Pending(w)
         || (Pending(Step(w).next) == Pending(w) && Lag(Step(w).next) < Lag(w))
  {
  }

  /** What a caller sees of one call: the page row sent, the result, the fields afterwards. */
  datatype Call = Call(sent: Option<nat>, more: bool, after: Window)

  /**
   * The calls a caller makes, starting from w with no drawing in between,
   * until FlushSome returns false. The sequence is finite because each call
   * that returns true decreases (Pending, Lag).
   */
  function Drain(w: Window): (calls: seq<Call>)
    ensures |calls| >= 1
    ensures calls[0] == Call(Sent(w), Step(w).more, Step(w).next)
    decreases Pending(w), Lag(w)
  {
    var o := Step(w);
    var first := Call(Sent(w), o.more, o.next);
    if o.more then
      StepProgress(w);
      [first] + Drain(o.next)
    else [first]
  }

  /**
   * Repeated calls end: every call but the last returns true, the last
   * returns false, and after it nothing is left to do.
   */
  lemma {:induction false} DrainEnds(w: Window)
    ensures var calls := Drain(w);
      && !calls[|calls| - 1].more && IsEmpty(calls[|calls| - 1].after)
      && forall k :: 0 <= k < |calls| - 1 ==> calls[k].more
    decreases Pending(w), Lag(w)
  {
    var o := Step(w);
    if o.more {
      StepProgress(w);
      DrainEnds(o.next);
      var calls, rest := Drain(w), Drain(o.next);
      assert calls == [calls[0]] + rest;
      forall k | 1 <= k < |calls| - 1
        ensures calls[k].more
      {
        assert calls[k] == rest[k - 1];
      }
    }
  }

  /** A call that starts a fresh sweep hands on a state that starts the next one. */
  lemma FreshStep(w: Window)
    requires !IsEmpty(w) && Resume(w) == w.startRow && Step(w).more
    ensures Step(w).next == w.(startRow := w.startRow + TileHeight, nextFlushRow := w.startRow + TileHeight)
    ensures !IsEmpty(Step(w).next) ==> Resume(Step(w).next) == Step(w).next.startRow
    ensures Sent(w) == Some(PageRow(w.startRow))
  {
  }

  /** Moving down one page moves the page's top row down by one page. */
  lemma PageRowNext(row: nat)
    ensures PageRow(row + TileHeight) == PageRow(row) + TileHeight
  {
    assert (row + TileHeight) % TileHeight == row % TileHeight;
  }

  /**
   * A fresh sweep over a rectangle whose height is a multiple of eight sends
   * exactly height/8 successive pages; every call but the last returns true
   * and the last leaves the sentinel.
   */
  lemma {:induction false} DrainAligned(w: Window)
    requires !IsEmpty(w) && Resume(w) == w.startRow
    requires (w.endRow - w.startRow) % TileHeight == 0
    ensures var calls := Drain(w);
      && |calls| == (w.endRow - w.startRow) / TileHeight
      && (forall k :: 0 <= k < |calls| ==> calls[k].sent == Some(PageRow(w.startRow) + TileHeight * k))
      && calls[|calls| - 1].after == Sentinel
    decreases w.endRow - w.startRow
  {
    var calls := Drain(w);
    if w.endRow - w.startRow == TileHeight {
      assert !Step(w).more;
    } else {
      assert Step(w).more;
      FreshStep(w);
      var next := Step(w).next;
      var rest := Drain(next);
      DrainAligned(next);
      PageRowNext(w.startRow);
      assert calls == [calls[0]] + rest;
      forall k | 1 <= k < |calls|
        ensures calls[k].sent == Some(PageRow(w.startRow) + TileHeight * k)
      {
        assert calls[k] == rest[k - 1];
      }
    }
  }

  /**
   * A fresh sweep over a rectangle whose height is not a multiple of eight
   * sends ceil(height/8) successive pages, each call returning true because
   * startRow steps past endRow; one more call then returns false without
   * sending anything and without resetting to the sentinel.
   */
  lemma {:induction false} DrainUnaligned(w: Window)
    requires !IsEmpty(w) && Resume(w) == w.startRow
    requires (w.endRow - w.startRow) % TileHeight != 0
    ensures var calls, pages := Drain(w), (w.endRow - w.startRow) / TileHeight + 1;
      && |calls| == pages + 1
      && (forall k :: 0 <= k < pages ==>
            calls[k].sent == Some(PageRow(w.startRow) + TileHeight * k) && calls[k].more)
      && calls[pages].sent == None && !calls[pages].more
      && calls[pages].after == w.(startRow := w.startRow + TileHeight * pages,
                                  nextFlushRow := w.startRow + TileHeight * pages)
      && calls[pages].after.startRow > w.endRow && calls[pages].after != Sentinel
    decreases w.endRow - w.startRow
  {
    var calls := Drain(w);
    assert Step(w).more;
    FreshStep(w);
    var next := Step(w).next;
    var rest := Drain(next);
    assert calls == [calls[0]] + rest;
    if w.endRow - w.startRow > TileHeight {
      DrainUnaligned(next);
      PageRowNext(w.startRow);
      forall k | 1 <= k < |calls|
        ensures calls[k] == rest[k - 1]
      {
      }
    } else {
      assert IsEmpty(next);
    }
  }

  /**
   * A fresh sweep sends, before FlushSome reports false, the page starting
   * k pages below startRow's page for every k with startRow + 8k < endRow.
   */
  lemma DrainSendsEachPage(w: Window, k: nat)
    requires !IsEmpty(w) && Resume(w) == w.startRow
    requires w.startRow + TileHeight * k < w.endRow
    ensures k < |Drain(w)| && Drain(w)[k].sent == Some(PageRow(w.startRow) + TileHeight * k)
  {
    var h := w.endRow - w.startRow;
    PageCountBound(k, h);
    if h % TileHeight == 0 {
      DrainAligned(w);
    } else {
      DrainUnaligned(w);
    }
  }

  /** k whole pages fit below a height exactly when k is below its page count. */
  lemma PageCountBound(k: nat, h: nat)
    requires TileHeight * k < h
    ensures k < h / TileHeight + 1
    ensures h % TileHeight == 0 ==> k < h / TileHeight
  {
  }

  /**
   * A fresh sweep from a page-aligned startRow sends, before FlushSome
   * reports false, the page of every row of the rectangle.
   */
  lemma FreshSweepCovers(w: Window, y: nat)
    requires !IsEmpty(w) && Resume(w) == w.startRow && w.startRow % TileHeight == 0
    requires w.startRow <= y < w.endRow
    ensures exists k :: 0 <= k < |Drain(w)| && Drain(w)[k].sent == Some(PageRow(y))
  {
    var d := y - w.startRow;
    var k := d / TileHeight;
    PageOfAlignedOffset(w.startRow, d);
    DrainSendsEachPage(w, k);
    assert Drain(w)[k].sent == Some(PageRow(y));
  }

  /**
   * From any state whose startRow is page-aligned, including a cursor left
   * partway through the rectangle, the page of every row of the rectangle is
   * sent before FlushSome reports false: a mid-sweep cursor runs on to
   * endRow and the call after that starts a fresh sweep from startRow.
   */
  lemma {:induction false} DrainCoversAlignedSweep(w: Window, y: nat)
    requires !IsEmpty(w) && w.startRow % TileHeight == 0
    requires w.startRow <= y < w.endRow
    ensures exists k :: 0 <= k < |Drain(w)| && Drain(w)[k].sent == Some(PageRow(y))
    decreases Lag(w)
  {
    if Resume(w) == w.startRow {
      FreshSweepCovers(w, y);
    } else {
      var next := Step(w).next;
      assert Step(w).more && next.startRow == w.startRow && next.endRow == w.endRow;
      DrainCoversAlignedSweep(next, y);
      var k :| 0 <= k < |Drain(next)| && Drain(next)[k].sent == Some(PageRow(y));
      var calls := Drain(w);
      assert calls == [calls[0]] + Drain(next);
      assert calls[k + 1] == Drain(next)[k];
    }
  }

  /** Row top + d of an aligned top lies in the page (d / 8) pages below top. */
  lemma PageOfAlignedOffset(top: nat, d: nat)
    requires top % TileHeight == 0
    ensures PageRow(top + d) == top + TileHeight * (d / TileHeight)
    ensures PageRow(top) == top && TileHeight * (d / TileHeight) <= d
  {
    assert d == TileHeight * (d / TileHeight) + d % TileHeight;
    assert (top + d) % TileHeight == d % TileHeight;
  }

  /**
   * With an unaligned startRow the provisional advance of startRow runs past the page
   * actually sent: dirty rows [5, 10) get page 0 (rows 0-7) and then a
   * false, so rows 8 and 9 are never sent.
   */
  lemma UnalignedStartSkipsPage()
    ensures var w := Window(5, 10, 0, 1, 0);
      && |Drain(w)| == 2
      && Drain(w)[0].sent == Some(0) && Drain(w)[0].more
      && Drain(w)[1].sent == None && !Drain(w)[1].more
      && PageRow(9) == 8
  {
    DrainUnaligned(Window(5, 10, 0, 1, 0));
  }

  /**
   * A 16x16 rectangle at the origin: the first call sends page 0 and returns
   * true with the cursor at row 8; the second sends page 8 and returns false,
   * leaving the sentinel.
   */
  lemma TwoPageRectangle()
    ensures var calls := Drain(Window(0, 16, 0, 16, 0));
      && |calls| == 2
      && calls[0].sent == Some(0) && calls[0].more && calls[0].after.nextFlushRow == 8
      && calls[1].sent == Some(8) && !calls[1].more && calls[1].after == Sentinel
  {
    DrainAligned(Window(0, 16, 0, 16, 0));
  }

  /**
   * Columns [5, 10) of rows [3, 5): one call sends page 0 (because 3 rounds
   * down to 0) and returns true with startRow at 11; the next call finds the
   * rectangle empty and returns false without the sentinel reset.
   */
  lemma SubPageRectangle()
    ensures var calls := Drain(Window(3, 5, 5, 10, 0));
      && |calls| == 2
      && calls[0].sent == Some(0) && calls[0].more && calls[0].after.startRow == 11
      && calls[1].sent == None && !calls[1].more && calls[1].after == Window(11, 5, 5, 10, 11)
  {
    DrainUnaligned(Window(3, 5, 5, 10, 0));
  }
}
