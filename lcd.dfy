/** The pin-level driver of the character display (internal/lcd/lcd.go and the
    state-changing half of internal/lcd/common.go). The display is wired in
    4-bit mode: a register-select pin, a clock pin and four data pins. The
    current levels of the data pins are kept in the array `dataPins`; every
    write to the clock pin appends to `trace` the levels the controller sees
    on the wires at that moment.

    The partner of the driver is an independent model of the controller at
    the other end of the wires (`Decode`): it latches the data pins on each
    falling clock edge, pairs the nibbles high-first, and tags each byte
    with the register-select level. The driver's writes are exactly what
    that controller receives (`WireRoundTrip`), and a `Screen` applying the
    received bytes shows the printed text in the addressed row
    (`PrintlnShows`, `TwoLinesShow`). */
module Lcd {
  import opened Wrappers
  import opened LcdText

  /** The levels on the wires when the clock pin is written: the new clock
      level, the register-select level and the four data pins D4 to D7. */
  datatype Edge = Edge(clock: bool, rs: bool, pins: seq<bool>)

  /** `command` is `gpio.Low`, `character` is `gpio.High`. */
  const Command := false
  const Character := true

  /** A byte sent to the controller with its register-select level. */
  datatype Write = Write(mode: bool, value: byte)

  // ---------------------------------------------------------------------------
  // What the driver puts on the wires
  // ---------------------------------------------------------------------------

  /** `mask << uint(i)` for the pin index `i`. */
  function PinMask(mask: byte, i: nat): byte
    requires i < 4
  {
    if i == 0 then mask else if i == 1 then mask << 1 else if i == 2 then mask << 2 else mask << 3
  }

  /** Whether data pin `i` is raised for `bits` under `mask`. */
  function Bit(bits: byte, mask: byte, i: nat): bool
    requires i < 4
  {
    bits & PinMask(mask, i) != 0
  }

  /** The data pins carrying the nibble of `bits` selected by `mask`. */
  function Pattern(bits: byte, mask: byte): (r: seq<bool>)
    ensures |r| == 4
  {
    seq(4, i requires 0 <= i < 4 => Bit(bits, mask, i))
  }

  /** One nibble: the clock raised and lowered with the pattern on the data
      pins. */
  function PulseEdges(rs: bool, bits: byte, mask: byte): seq<Edge>
  {
    [Edge(true, rs, Pattern(bits, mask)), Edge(false, rs, Pattern(bits, mask))]
  }

  /** One byte: the high nibble, then the low nibble. */
  function ByteEdges(w: Write): seq<Edge>
  {
    PulseEdges(w.mode, w.value, 0x10) + PulseEdges(w.mode, w.value, 0x01)
  }

  /** The wire activity of a sequence of writes, one after another. */
  function Wire(ws: seq<Write>): seq<Edge>
    decreases |ws|
  {
    if ws == [] then [] else Wire(ws[..|ws| - 1]) + ByteEdges(ws[|ws| - 1])
  }

  lemma WireSnoc(ws: seq<Write>, w: Write)
    ensures Wire(ws + [w]) == Wire(ws) + ByteEdges(w)
  {
    assert (ws + [w])[..|ws|] == ws;
  }

  lemma {:induction false} WireAppend(a: seq<Write>, b: seq<Write>)
    ensures Wire(a + b) == Wire(a) + Wire(b)
    decreases |b|
  {
    if b == [] {
      assert a + b == a;
    } else {
      var init := b[..|b| - 1];
      var last := b[|b| - 1];
      assert b == init + [last];
      assert a + b == (a + init) + [last];
      WireAppend(a, init);
      WireSnoc(a + init, last);
      WireSnoc(init, last);
    }
  }

  /** The writes of `Println(l, msg)`: the line's address as a command, then
      the 16 characters of the line. */
  function LineWrites(l: byte, msg: seq<byte>): (ws: seq<Write>)
    ensures |ws| == 1 + LineWidth
  {
    [Write(Command, l)] + Characters(LineText(msg))
  }

  function Characters(text: seq<byte>): (ws: seq<Write>)
    ensures |ws| == |text| && forall i :: 0 <= i < |text| ==> ws[i] == Write(Character, text[i])
  {
    seq(|text|, i requires 0 <= i < |text| => Write(Character, text[i]))
  }

  /** The start-up commands of `InitLCD`: the 4-bit wake-up sequence, two
      lines, display on with the cursor off, left-to-right entry, clear. */
  const InitWrites: seq<Write> := [
    Write(Command, 0x33), Write(Command, 0x32), Write(Command, 0x28),
    Write(Command, 0x0C), Write(Command, 0x06), Write(Command, 0x01)]

  /** The banner `Reset` prints on the first line: the ASCII bytes of
      "Awesome Deployer". */
  const Banner: seq<byte> := [
    0x41, 0x77, 0x65, 0x73, 0x6F, 0x6D, 0x65, 0x20,
    0x44, 0x65, 0x70, 0x6C, 0x6F, 0x79, 0x65, 0x72]

  // ---------------------------------------------------------------------------
  // The controller at the other end of the wires
  // ---------------------------------------------------------------------------

  /** The controller's view of the bus: the clock level, and the high nibble
      waiting for its low half. */
  datatype Bus = Bus(clock: bool, pending: Option<byte>)

  /** A controller between bytes. */
  predicate Idle(bus: Bus)
  {
    bus.pending == None
  }

  /** The nibble the data pins carry, pin `i` holding bit `i`. */
  function Nibble(pins: seq<bool>): byte
    requires |pins| == 4
  {
    (if pins[0] then 1 else 0) | (if pins[1] then 2 else 0) |
    (if pins[2] then 4 else 0) | (if pins[3] then 8 else 0)
  }

  /** A falling clock edge latches the data pins: the first nibble is held,
      the second completes a byte tagged with the register-select level. */
  function Receive(bus: Bus, e: Edge): (Bus, seq<Write>)
  {
    if bus.clock && !e.clock && |e.pins| == 4 then
      match bus.pending
      case None => (Bus(false, Some(Nibble(e.pins))), [])
      case Some(h) => (Bus(false, None), [Write(e.rs, (h << 4) | Nibble(e.pins))])
    else (bus.(clock := e.clock), [])
  }

  /** The controller's state after the edges `s`, and the bytes it took in. */
  function Decode(bus: Bus, s: seq<Edge>): (Bus, seq<Write>)
    decreases |s|
  {
    if s == [] then (bus, [])
    else
      var (b1, o1) := Receive(bus, s[0]);
      var (b2, o2) := Decode(b1, s[1..]);
      (b2, o1 + o2)
  }

  lemma {:induction false} DecodeSplit(bus: Bus, a: seq<Edge>, b: seq<Edge>)
    ensures Decode(bus, a + b) ==
      (Decode(Decode(bus, a).0, b).0, Decode(bus, a).1 + Decode(Decode(bus, a).0, b).1)
    decreases |a|
  {
    if a == [] {
      assert a + b == b;
      assert [] + Decode(bus, b).1 == Decode(bus, b).1;
    } else {
      assert (a + b)[0] == a[0];
      assert (a + b)[1..] == a[1..] + b;
      var first := Receive(bus, a[0]);
      DecodeSplit(first.0, a[1..], b);
      var rest := Decode(first.0, a[1..]);
      var tail := Decode(rest.0, b);
      assert Decode(bus, a) == (rest.0, first.1 + rest.1);
      assert Decode(bus, a + b) == (tail.0, first.1 + (rest.1 + tail.1));
      assert first.1 + (rest.1 + tail.1) == (first.1 + rest.1) + tail.1;
    }
  }

  /** The pins of the high nibble carry `bits >> 4`. */
  lemma HighNibble(bits: byte)
    ensures Nibble(Pattern(bits, 0x10)) == bits >> 4
  {
    var hi := Pattern(bits, 0x10);
    assert hi[0] == (bits & 0x10 != 0) && hi[1] == (bits & 0x20 != 0);
    assert hi[2] == (bits & 0x40 != 0) && hi[3] == (bits & 0x80 != 0);
  }

  /** The pins of the low nibble carry `bits & 0x0F`. */
  lemma LowNibble(bits: byte)
    ensures Nibble(Pattern(bits, 0x01)) == bits & 0x0F
  {
    var lo := Pattern(bits, 0x01);
    assert lo[0] == (bits & 0x01 != 0) && lo[1] == (bits & 0x02 != 0);
    assert lo[2] == (bits & 0x04 != 0) && lo[3] == (bits & 0x08 != 0);
  }

  /** A clock pulse latches the pattern it carries. */
  lemma PulseLatches(bus: Bus, rs: bool, bits: byte, mask: byte)
    ensures var p := Pattern(bits, mask);
      Decode(bus, PulseEdges(rs, bits, mask)) ==
        match bus.pending
        case None => (Bus(false, Some(Nibble(p))), [])
        case Some(h) => (Bus(false, None), [Write(rs, (h << 4) | Nibble(p))])
  {
    var p := Pattern(bits, mask);
    var up := Bus(true, bus.pending);
    assert Receive(bus, Edge(true, rs, p)) == (up, []);
    assert PulseEdges(rs, bits, mask)[1..] == [Edge(false, rs, p)];
    assert [Edge(false, rs, p)][1..] == [];
    var last := Receive(up, Edge(false, rs, p));
    assert Decode(up, [Edge(false, rs, p)]) == (last.0, last.1 + []);
    assert last.1 + [] == last.1 && [] + last.1 == last.1;
  }

  /** An idle controller takes in exactly the byte sent, and is idle again. */
  lemma ByteRoundTrip(bus: Bus, w: Write)
    requires Idle(bus)
    ensures Idle(Decode(bus, ByteEdges(w)).0)
    ensures Decode(bus, ByteEdges(w)).1 == [w]
  {
    var high := PulseEdges(w.mode, w.value, 0x10);
    var low := PulseEdges(w.mode, w.value, 0x01);
    DecodeSplit(bus, high, low);
    PulseLatches(bus, w.mode, w.value, 0x10);
    HighNibble(w.value);
    var held := Bus(false, Some(w.value >> 4));
    assert Decode(bus, high) == (held, []);
    PulseLatches(held, w.mode, w.value, 0x01);
    LowNibble(w.value);
    NibblesRejoin(w.value);
    assert Decode(held, low) == (Bus(false, None), [w]);
    assert [] + [w] == [w];
  }

  /** The high nibble shifted back up, joined with the low nibble, is the
      byte. */
  lemma NibblesRejoin(bits: byte)
    ensures ((bits >> 4) << 4) | (bits & 0x0F) == bits
  {
  }

  /** What the controller receives is exactly what the driver wrote, in
      order, and it is left between bytes. */
  lemma {:induction false} WireRoundTrip(bus: Bus, ws: seq<Write>)
    requires Idle(bus)
    ensures Idle(Decode(bus, Wire(ws)).0)
    ensures Decode(bus, Wire(ws)).1 == ws
    decreases |ws|
  {
    if ws != [] {
      var init := ws[..|ws| - 1];
      var last := ws[|ws| - 1];
      WireRoundTrip(bus, init);
      DecodeSplit(bus, Wire(init), ByteEdges(last));
      ByteRoundTrip(Decode(bus, Wire(init)).0, last);
      assert init + [last] == ws;
    }
  }

  // ---------------------------------------------------------------------------
  // What the display shows
  // ---------------------------------------------------------------------------

  /** The display memory: a cursor and the bytes written at each address. A
      set-address command (top bit set) moves the cursor, a character is
      stored at the cursor and advances it, clear-display (0x01) empties the
      memory and homes the cursor; other commands leave both alone. */
  datatype Screen = Screen(cursor: int, cells: map<int, byte>)

  function Apply(s: Screen, w: Write): Screen
  {
    if w.mode == Character then Screen(s.cursor + 1, s.cells[s.cursor := w.value])
    else if w.value & 0x80 != 0 then s.(cursor := (w.value & 0x7F) as int)
    else if w.value == 0x01 then Screen(0, map[])
    else s
  }

  function ApplyAll(s: Screen, ws: seq<Write>): Screen
    decreases |ws|
  {
    if ws == [] then s else Apply(ApplyAll(s, ws[..|ws| - 1]), ws[|ws| - 1])
  }

  /** The 16 cells of the row starting at `base`; an empty cell shows a space. */
  function Row(s: Screen, base: int): seq<byte>
  {
    seq(LineWidth, i => if base + i in s.cells then s.cells[base + i] else Space)
  }

  /** The address of each line. */
  function RowStart(l: byte): int { (l & 0x7F) as int }

  /** Each character advances the cursor by one. */
  lemma {:induction false} CharactersAdvance(s: Screen, text: seq<byte>)
    ensures ApplyAll(s, Characters(text)).cursor == s.cursor + |text|
    decreases |text|
  {
    if text != [] {
      var n := |text| - 1;
      assert Characters(text)[..n] == Characters(text[..n]);
      CharactersAdvance(s, text[..n]);
    } else {
      assert Characters(text) == [];
    }
  }

  /** Characters are stored from the cursor on, one cell each. */
  lemma {:induction false} CharactersFill(s: Screen, text: seq<byte>)
    ensures var t := ApplyAll(s, Characters(text));
      forall a :: s.cursor <= a < s.cursor + |text| ==> a in t.cells && t.cells[a] == text[a - s.cursor]
    decreases |text|
  {
    if text != [] {
      var n := |text| - 1;
      var init := text[..n];
      assert Characters(text)[..n] == Characters(init);
      CharactersFill(s, init);
      CharactersAdvance(s, init);
      var t0 := ApplyAll(s, Characters(init));
      var t := ApplyAll(s, Characters(text));
      assert t == Screen(t0.cursor + 1, t0.cells[t0.cursor := text[n]]);
      forall a | s.cursor <= a < s.cursor + |text|
        ensures a in t.cells && t.cells[a] == text[a - s.cursor]
      {
        if a < t0.cursor {
          assert init[a - s.cursor] == text[a - s.cursor];
          assert a in t0.cells && t0.cells[a] == init[a - s.cursor];
        }
      }
    }
  }

  /** Characters change no cell outside the ones they write, and add none. */
  lemma {:induction false} CharactersKeep(s: Screen, text: seq<byte>)
    ensures var t := ApplyAll(s, Characters(text));
      forall a :: !(s.cursor <= a < s.cursor + |text|) ==>
        (a in t.cells <==> a in s.cells) && (a in s.cells ==> t.cells[a] == s.cells[a])
    decreases |text|
  {
    if text != [] {
      var n := |text| - 1;
      var init := text[..n];
      assert Characters(text)[..n] == Characters(init);
      CharactersKeep(s, init);
      CharactersAdvance(s, init);
      var t0 := ApplyAll(s, Characters(init));
      var t := ApplyAll(s, Characters(text));
      assert t == Screen(t0.cursor + 1, t0.cells[t0.cursor := text[n]]);
      forall a | !(s.cursor <= a < s.cursor + |text|)
        ensures (a in t.cells <==> a in s.cells) && (a in s.cells ==> t.cells[a] == s.cells[a])
      {
        assert a != t0.cursor;
        assert (a in t0.cells <==> a in s.cells) && (a in s.cells ==> t0.cells[a] == s.cells[a]);
      }
    } else {
      assert Characters(text) == [];
    }
  }

  /** Sixteen characters written from the cursor make up the row there. */
  lemma CharactersRow(s: Screen, text: seq<byte>)
    requires |text| == LineWidth
    ensures Row(ApplyAll(s, Characters(text)), s.cursor) == text
  {
    var t := ApplyAll(s, Characters(text));
    CharactersFill(s, text);
    forall i | 0 <= i < LineWidth
      ensures Row(t, s.cursor)[i] == text[i]
    {
      var a := s.cursor + i;
      assert a in t.cells && t.cells[a] == text[a - s.cursor];
    }
  }

  /** Characters leave every row clear of the cells they write as it was. */
  lemma CharactersKeepRow(s: Screen, text: seq<byte>, base: int)
    requires base + LineWidth <= s.cursor || s.cursor + |text| <= base
    ensures Row(ApplyAll(s, Characters(text)), base) == Row(s, base)
  {
    var t := ApplyAll(s, Characters(text));
    CharactersKeep(s, text);
    forall i | 0 <= i < LineWidth
      ensures Row(t, base)[i] == Row(s, base)[i]
    {
      var a := base + i;
      assert !(s.cursor <= a < s.cursor + |text|);
    }
  }

  lemma {:induction false} ApplyAllAppend(s: Screen, a: seq<Write>, b: seq<Write>)
    ensures ApplyAll(s, a + b) == ApplyAll(ApplyAll(s, a), b)
    decreases |b|
  {
    if b == [] {
      assert a + b == a;
    } else {
      assert (a + b)[..|a + b| - 1] == a + b[..|b| - 1];
      ApplyAllAppend(s, a, b[..|b| - 1]);
    }
  }

  /** `Println` moves the cursor to the start of the line, then writes the
      16 characters of the line. */
  lemma PrintlnSteps(s: Screen, l: byte, msg: seq<byte>)
    requires l & 0x80 != 0
    ensures ApplyAll(s, LineWrites(l, msg)) == ApplyAll(s.(cursor := RowStart(l)), Characters(LineText(msg)))
  {
    assert ApplyAll(s, [Write(Command, l)]) == s.(cursor := RowStart(l)) by {
      assert [Write(Command, l)][..0] == [];
    }
    ApplyAllAppend(s, [Write(Command, l)], Characters(LineText(msg)));
  }

  /** After `Println(l, msg)` the row addressed by `l` shows the message cut
      or padded to 16 columns. */
  lemma PrintlnShows(s: Screen, l: byte, msg: seq<byte>)
    requires l & 0x80 != 0
    ensures Row(ApplyAll(s, LineWrites(l, msg)), RowStart(l)) == LineText(msg)
  {
    PrintlnSteps(s, l, msg);
    CharactersRow(s.(cursor := RowStart(l)), LineText(msg));
  }

  /** `Println(l, msg)` leaves every row that does not overlap the one
      addressed by `l` as it was. */
  lemma PrintlnKeepsOtherRows(s: Screen, l: byte, msg: seq<byte>)
    requires l & 0x80 != 0
    ensures forall base :: base + LineWidth <= RowStart(l) || RowStart(l) + LineWidth <= base ==>
      Row(ApplyAll(s, LineWrites(l, msg)), base) == Row(s, base)
  {
    var s1 := s.(cursor := RowStart(l));
    PrintlnSteps(s, l, msg);
    forall base | base + LineWidth <= RowStart(l) || RowStart(l) + LineWidth <= base
      ensures Row(ApplyAll(s, LineWrites(l, msg)), base) == Row(s, base)
    {
      CharactersKeepRow(s1, LineText(msg), base);
      assert Row(s1, base) == Row(s, base);
    }
  }

  /** Printing the first line and then the second leaves both showing:
      the two rows do not overlap. */
  lemma TwoLinesShow(s: Screen, first: seq<byte>, second: seq<byte>)
    ensures var t := ApplyAll(s, LineWrites(Line1, first) + LineWrites(Line2, second));
      Row(t, RowStart(Line1)) == LineText(first) && Row(t, RowStart(Line2)) == LineText(second)
  {
    assert RowStart(Line1) == 0 && RowStart(Line2) == 0x40;
    var t1 := ApplyAll(s, LineWrites(Line1, first));
    ApplyAllAppend(s, LineWrites(Line1, first), LineWrites(Line2, second));
    PrintlnShows(s, Line1, first);
    PrintlnShows(t1, Line2, second);
    PrintlnKeepsOtherRows(t1, Line2, second);
  }

  /** The banner fills the first line exactly, and a cleared line is 16
      spaces: after `Reset` the display reads "Awesome Deployer" over a
      blank line. */
  lemma ResetText()
    ensures LineText(Banner) == Banner
    ensures LineText([]) == Spaces(LineWidth)
  {
  }

  // ---------------------------------------------------------------------------
  // The driver
  // ---------------------------------------------------------------------------

  class Display {
    /** The current levels of the four data pins D4 to D7. */
    const dataPins: array<bool>
    var registerSelection: bool
    var clockEdge: bool
    /** The wires at every write to the clock pin, in order. */
    var trace: seq<Edge>
    /** The bytes sent so far. */
    ghost var sent: seq<Write>

    /** Between bytes, the wires have carried exactly the bytes sent. */
    ghost predicate Valid()
      reads this
    {
      dataPins.Length == 4 && trace == Wire(sent)
    }

    /** The pins as the driver finds them: all low, nothing written yet. */
    constructor ()
      ensures Valid() && fresh(dataPins)
      ensures sent == [] && !registerSelection && !clockEdge
      ensures dataPins[..] == [false, false, false, false]
    {
      dataPins := new bool[4](_ => false);
      registerSelection := false;
      clockEdge := false;
      trace := [];
      sent := [];
    }

    method SetClock(level: bool)
      modifies this
      ensures trace == old(trace) + [Edge(level, registerSelection, dataPins[..])]
      ensures clockEdge == level && registerSelection == old(registerSelection) && sent == old(sent)
    {
      clockEdge := level;
      trace := trace + [Edge(level, registerSelection, dataPins[..])];
    }

    /** `pulseByte`: each data pin pulled low, then raised when its bit of
        `bits` under `mask` is set; then one clock pulse. */
    method PulseByte(bits: byte, mask: byte)
      requires dataPins.Length == 4
      modifies this, dataPins
      ensures trace == old(trace) + PulseEdges(registerSelection, bits, mask)
      ensures dataPins[..] == Pattern(bits, mask)
      ensures !clockEdge && registerSelection == old(registerSelection) && sent == old(sent)
    {
      var i := 0;
      while i < 4
        modifies dataPins
        invariant 0 <= i <= 4
        invariant forall j :: 0 <= j < i ==> dataPins[j] == Bit(bits, mask, j)
      {
        dataPins[i] := false;
        if bits & PinMask(mask, i) != 0 {
          dataPins[i] := true;
        }
        i := i + 1;
      }
      assert dataPins[..] == Pattern(bits, mask);
      SetClock(true);
      SetClock(false);
    }

    /** `sendByte`: the register-select level, the high nibble, the low
        nibble. */
    method SendByte(bits: byte, mode: bool)
      requires Valid()
      modifies this, dataPins
      ensures Valid() && sent == old(sent) + [Write(mode, bits)]
      ensures trace == old(trace) + ByteEdges(Write(mode, bits))
      ensures registerSelection == mode && !clockEdge
    {
      registerSelection := mode;
      PulseByte(bits, 0x10);
      PulseByte(bits, 0x01);
      WireSnoc(sent, Write(mode, bits));
      sent := sent + [Write(mode, bits)];
    }

    /** `InitLCD`: the six start-up commands. */
    method InitLCD()
      requires Valid()
      modifies this, dataPins
      ensures Valid() && sent == old(sent) + InitWrites
    {
      SendByte(0x33, Command);
      SendByte(0x32, Command);
      SendByte(0x28, Command);
      SendByte(0x0C, Command);
      SendByte(0x06, Command);
      SendByte(0x01, Command);
    }

    /** `Println`: the line address as a command, then the message padded
        with spaces to 16 columns and sent one character at a time for
        exactly 16 columns (a longer message is cut). */
    method Println(l: byte, msg: seq<byte>)
      requires Valid()
      modifies this, dataPins
      ensures Valid() && sent == old(sent) + LineWrites(l, msg)
    {
      SendByte(l, Command);
      var m := PadRight(msg);
      ghost var line := [Write(Command, l)];
      var i := 0;
      while i < LineWidth
        invariant 0 <= i <= LineWidth
        invariant Valid() && sent == old(sent) + line
        invariant |line| == i + 1 && line[0] == Write(Command, l)
        invariant forall k :: 0 <= k < i ==> line[k + 1] == Write(Character, m[k])
      {
        SendByte(m[i], Character);
        line := line + [Write(Character, m[i])];
        i := i + 1;
      }
      assert line == LineWrites(l, msg);
    }

    /** `Clear`: an empty message, so 16 spaces. */
    method Clear(l: byte)
      requires Valid()
      modifies this, dataPins
      ensures Valid() && sent == old(sent) + LineWrites(l, [])
    {
      Println(l, []);
    }

    /** `Reset`: the banner on the first line, the second line cleared. */
    method Reset()
      requires Valid()
      modifies this, dataPins
      ensures Valid() && sent == old(sent) + LineWrites(Line1, Banner) + LineWrites(Line2, [])
    {
      Println(Line1, Banner);
      Clear(Line2);
    }

    /** `ClearAll`: both lines cleared. */
    method ClearAll()
      requires Valid()
      modifies this, dataPins
      ensures Valid() && sent == old(sent) + LineWrites(Line1, []) + LineWrites(Line2, [])
    {
      Clear(Line1);
      Clear(Line2);
    }
  }
}
