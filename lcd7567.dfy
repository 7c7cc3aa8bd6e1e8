/**
 * The ST7567 128x64 LCD driver object: the dirty-rectangle fields it shares
 * with its base class, the resumable FlushSome that sends one controller page
 * of the rectangle per call, and the bus primitives it brackets that page
 * with. The bus is observed through a ghost trace of BusEvents.
 */
module Lcd7567Driver {
  import opened St7567
  import opened FlushEngine

  /**
   * Gather the bits for a vertical line of eight pixels of column x starting
   * at row top: bit i is set when pixel (x, top + i) is, so the top pixel is
   * the least significant bit.
   */
  method GatherTile(px: Pixels, x: nat, top: nat) returns (data: bv8)
    ensures data == TileAt(px, x, top)
    ensures forall i :: 0 <= i < TileHeight ==> Bit(data, i) == px(x, top + i)
  {
    data := 0;
    var i: nat := 0;
    while i < TileHeight
      invariant i <= TileHeight
      invariant forall j :: 0 <= j < TileHeight ==> Bit(data, j) == (j < i && px(x, top + j))
    {
      ghost var before := data;
      if px(x, top + i) {
        data := data | (1 << i);
        forall j | 0 <= j < TileHeight
          ensures Bit(data, j) == (Bit(before, j) || i == j)
        {
          BitOfSet(before, i, j);
        }
      }
      assert forall j :: 0 <= j < TileHeight ==> Bit(data, j) == (j <= i && px(x, top + j));
      i := i + 1;
    }
    BitsDetermine(data, TileAt(px, x, top));
  }

  class Lcd7567 {
    /** The dirty rectangle [startCol, endCol) x [startRow, endRow). */
    var startRow: nat
    var endRow: nat
    var startCol: nat
    var endCol: nat
    /** Row at which the next partial flush resumes. */
    var nextFlushRow: nat
    /** Everything sent to the controller so far. */
    ghost var trace: seq<BusEvent>

    /** The five fields as one value. */
    function Fields(): Window
      reads this
    {
      Window(startRow, endRow, startCol, endCol, nextFlushRow)
    }

    /** The base class keeps the rectangle on the 128x64 panel and in 8-bit coordinates. */
    ghost predicate Valid()
      reads this
    {
      OnPanel(Fields())
    }

    /** A 128-column, 64-row panel with nothing waiting to be flushed. */
    constructor ()
      ensures Valid() && Fields() == Sentinel && trace == []
    {
      startRow, startCol := NumRows, NumCols;
      endRow, endCol, nextFlushRow := 0, 0, 0;
      trace := [];
    }

    method SelectDevice()
      modifies this`trace
      ensures trace == old(trace) + [Select]
    {
      trace := trace + [Select];
    }

    method DeselectDevice()
      modifies this`trace
      ensures trace == old(trace) + [Deselect]
    {
      trace := trace + [Deselect];
    }

    method SendLcdCommand(byteToSend: bv8)
      modifies this`trace
      ensures trace == old(trace) + [Cmd(byteToSend)]
    {
      trace := trace + [Cmd(byteToSend)];
    }

    method SendLcdData(byteToSend: bv8)
      modifies this`trace
      ensures trace == old(trace) + [Data(byteToSend)]
    {
      trace := trace + [Data(byteToSend)];
    }

    method StartDataTransaction()
      modifies this`trace
      ensures trace == old(trace) + [A0High]
    {
      trace := trace + [A0High];
    }

    method EndDataTransaction()
      modifies this`trace
      ensures trace == old(trace) + [A0Low]
    {
      trace := trace + [A0Low];
    }

    /** Point the controller at the page holding row r and at column c. */
    method SetGraphicsAddress(r: nat, c: nat)
      modifies this`trace
      ensures trace == old(trace) + Commands(GraphicsAddress(r, c))
    {
      var cmds := GraphicsAddress(r, c);
      SendLcdCommand(cmds[0]);
      SendLcdCommand(cmds[1]);
      SendLcdCommand(cmds[2]);
      assert Commands(cmds) == [Cmd(cmds[0]), Cmd(cmds[1]), Cmd(cmds[2])];
    }

    /** Send tiles of 1x8 for the columns [startCol, endCol) of the page at row startCom. */
    method SendTiles(px: Pixels, startCom: nat)
      requires startCol <= endCol
      modifies this`trace
      ensures trace == old(trace) + DataRun(px, startCol, endCol, startCom)
    {
      var x := startCol;
      while x < endCol
        invariant startCol <= x <= endCol
        invariant trace == old(trace) + DataRun(px, startCol, x, startCom)
      {
        var data := GatherTile(px, x, startCom);
        SendLcdData(data);
        x := x + TileWidth;
      }
    }

    /** Open an addressed data write at the page of row startCom, column startCol. */
    method OpenPage(startCom: nat)
      modifies this`trace
      ensures trace == old(trace) + ([Select] + Commands(GraphicsAddress(startCom, startCol)) + [A0High])
    {
      SelectDevice();
      SetGraphicsAddress(startCom, startCol);
      StartDataTransaction();
    }

    /** Close the data write: A0 back to command, device released. */
    method ClosePage()
      modifies this`trace
      ensures trace == old(trace) + [A0Low, Deselect]
    {
      EndDataTransaction();
      DeselectDevice();
    }

    /**
     * Send the page starting at row startCom for columns [startCol, endCol)
     * in one addressed write: select, address, data phase, deselect.
     */
    method FlushRow(px: Pixels, startCom: nat)
      requires startCol <= endCol
      modifies this`trace
      ensures trace == old(trace) + Transaction(px, startCom, startCol, endCol)
    {
      ghost var head := [Select] + Commands(GraphicsAddress(startCom, startCol)) + [A0High];
      ghost var run := DataRun(px, startCol, endCol, startCom);
      OpenPage(startCom);
      SendTiles(px, startCom);
      ClosePage();
      assert trace == old(trace) + (head + run + [A0Low, Deselect]);
    }

    /**
     * Flush one page of the dirty rectangle, returning true if this needs to
     * be called again. The new fields and the result are those of one Step,
     * and the bus sees exactly that Step's transaction.
     */
    method FlushSome(px: Pixels) returns (more: bool)
      requires Valid()
      modifies this
      ensures Valid()
      ensures Outcome(Fields(), more) == Step(old(Fields()))
      ensures trace == old(trace) + Emitted(px, old(Fields()))
    {
      ghost var w := Fields();
      if endCol > startCol && endRow > startRow {
        // Decide which row to flush next
        if nextFlushRow < startRow || nextFlushRow >= endRow {
          nextFlushRow := startRow;
        }
        // A fresh sweep marks its first page as flushed before sending it
        if nextFlushRow == startRow {
          startRow := startRow + TileHeight;
        }
        var startCom := PageRow(nextFlushRow);
        assert nextFlushRow == Resume(w) && startCom == PageRow(Resume(w));

        FlushRow(px, startCom);

        if startRow != endRow {
          nextFlushRow := nextFlushRow + TileHeight;
          return true;
        }
        startRow := NumRows;
        startCol := NumCols;
        endCol, endRow, nextFlushRow := 0, 0, 0;
      }
      return false;
    }
  }
}
