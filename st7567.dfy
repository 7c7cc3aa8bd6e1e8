/**
 * The ST7567 controller's side of the wire: the bus events the driver emits,
 * the three-command column/page addressing sequence and the 1x8 tile byte
 * layout (bit i = pixel i rows below the top of the page, LSB = top pixel).
 * Everything here is pure; the driver appends these values to its bus trace.
 */
module St7567 {

  datatype Option<T> = None | Some(value: T)

  /** One observable action on the bus between the driver and the controller. */
  datatype BusEvent =
    | Select            // device select, opens a transaction
    | Cmd(b: bv8)       // one byte sent while A0 is low (command phase)
    | A0High            // A0 raised: following bytes are display data
    | Data(b: bv8)      // one byte sent while A0 is high (data phase)
    | A0Low             // A0 restored to its command default
    | Deselect          // device deselect, closes the transaction

  /** Bit i of a byte, counting from the least significant bit. */
  predicate Bit(b: bv8, i: nat)
    requires i < 8
  {
    (b >> i) & 1 == 1
  }

  /** A byte is determined by its eight bits. */
  lemma BitsDetermine(a: bv8, b: bv8)
    requires forall i :: 0 <= i < 8 ==> Bit(a, i) == Bit(b, i)
    ensures a == b
  {
    assert Bit(a, 0) == Bit(b, 0) && Bit(a, 1) == Bit(b, 1);
    assert Bit(a, 2) == Bit(b, 2) && Bit(a, 3) == Bit(b, 3);
    assert Bit(a, 4) == Bit(b, 4) && Bit(a, 5) == Bit(b, 5);
    assert Bit(a, 6) == Bit(b, 6) && Bit(a, 7) == Bit(b, 7);
  }

  /** Setting bit i with `|= 1 << i` changes bit i only. */
  lemma BitOfSet(d: bv8, i: nat, j: nat)
    requires i < 8 && j < 8
    ensures Bit(d | (1 << i), j) == (Bit(d, j) || i == j)
  {
    if i == j {
      assert ((1 as bv8) << i) >> j == 1;
    } else {
      assert (((1 as bv8) << i) >> j) & 1 == 0;
    }
  }

  /** Shifting up by one and placing a new LSB moves bit j-1 to bit j. */
  lemma BitOfShiftIn(rest: bv8, lsb: bool, j: nat)
    requires j < 8
    ensures Bit((rest << 1) | (if lsb then 1 else 0), j) == if j == 0 then lsb else Bit(rest, j - 1)
  {
  }

  // ---------------------------------------------------------------------
  // Tile packing: eight vertically adjacent pixels in one data byte
  // ---------------------------------------------------------------------

  /**
   * Reference definition of the tile byte for a strip of at most eight
   * pixels, top pixel first: the strip is read from the bottom up, each
   * pixel shifted in below the ones already placed, so the top pixel lands
   * in the least significant bit and unused high bits stay clear.
   */
  function PackTile(strip: seq<bool>): (b: bv8)
    requires |strip| <= 8
    ensures forall i :: 0 <= i < 8 ==> Bit(b, i) == (i < |strip| && strip[i])
  {
    if strip == [] then 0
    else
      var rest := PackTile(strip[1..]);
      var b := (rest << 1) | (if strip[0] then 1 else 0);
      assert forall j :: 0 <= j < 8 ==> Bit(b, j) == (j < |strip| && strip[j]) by {
        forall j | 0 <= j < 8
          ensures Bit(b, j) == (j < |strip| && strip[j])
        {
          BitOfShiftIn(rest, strip[0], j);
        }
      }
      b
  }

  /**
   * How the controller reads a data byte back into the page's eight rows,
   * top row first. Packing that reading gives back the byte, so every byte
   * is the packing of the strip it displays.
   */
  function UnpackTile(b: bv8): (strip: seq<bool>)
    ensures |strip| == 8
    ensures forall i :: 0 <= i < 8 ==> strip[i] == Bit(b, i)
    ensures PackTile(strip) == b
  {
    var strip := seq(8, i requires 0 <= i < 8 => Bit(b, i));
    BitsDetermine(PackTile(strip), b);
    strip
  }

  /** The controller recovers exactly the strip the driver packed. */
  lemma UnpackPackTile(strip: seq<bool>)
    requires |strip| == 8
    ensures UnpackTile(PackTile(strip)) == strip
  {
    var u := UnpackTile(PackTile(strip));
    assert forall i :: 0 <= i < 8 ==> u[i] == strip[i];
  }

  // ---------------------------------------------------------------------
  // Addressing: Set Column Address MSB, Set Column Address LSB, Set Page
  // ---------------------------------------------------------------------

  /**
   * The three command bytes that point the controller at row r (rounded to
   * its page) and column c. `(c >> 4) & 0xF`, `c & 0xF` and `(r >> 3) & 0xF`
   * on unsigned values are written as `/` and `%`.
   */
  function GraphicsAddress(r: nat, c: nat): (cmds: seq<bv8>)
    ensures |cmds| == 3
    ensures cmds[0] & 0xF0 == 0x10 && cmds[1] & 0xF0 == 0x00 && cmds[2] & 0xF0 == 0xB0
    ensures cmds[2] & 0x0F == ((r / 8) % 16) as bv8
  {
    [ 0x10 | ((c / 16) % 16) as bv8,
      0x00 | (c % 16) as bv8,
      0xB0 | ((r / 8) % 16) as bv8 ]
  }

  /** A page/column pair as the controller holds it after addressing. */
  datatype Address = Address(page: nat, column: nat)

  /**
   * The controller's reading of a three-command addressing sequence: the
   * column from the two nibble commands, MSB first, and the page index.
   */
  function DecodeAddress(cmds: seq<bv8>): (a: Option<Address>)
    ensures a.Some? ==> a.value.page < 16 && a.value.column < 256
  {
    if |cmds| == 3 && cmds[0] & 0xF0 == 0x10 && cmds[1] & 0xF0 == 0x00 && cmds[2] & 0xF0 == 0xB0
    then Some(Address(Nibble(cmds[2]), Nibble(cmds[0]) * 16 + Nibble(cmds[1])))
    else None
  }

  /** The low nibble of a command byte, its argument. */
  function Nibble(b: bv8): (n: nat)
    ensures n < 16
  {
    (b & 0x0F) as nat
  }

  /** A nibble tagged with a command code in the high nibble reads back unchanged. */
  lemma TaggedNibble(tag: bv8, n: nat)
    requires tag & 0x0F == 0 && n < 16
    ensures Nibble(tag | n as bv8) == n && (tag | n as bv8) & 0xF0 == tag
  {
    var b := n as bv8;
    assert b as nat == n && b < 16;
    assert (tag | b) & 0x0F == b;
  }

  /** For every column below 256 and row below 128 the encoding round-trips. */
  lemma AddressRoundTrip(r: nat, c: nat)
    requires r < 128 && c < 256
    ensures DecodeAddress(GraphicsAddress(r, c)) == Some(Address(r / 8, c))
  {
    TaggedNibble(0x10, (c / 16) % 16);
    TaggedNibble(0x00, c % 16);
    TaggedNibble(0xB0, (r / 8) % 16);
  }
}
