/** The text helpers of internal/lcd/common.go for the 16-column, two-line
    character display. Go strings are byte strings; here they are sequences
    of bytes. */
module LcdText {

  /** A Go `byte`. */
  type byte = bv8

  /** `lineWidth`: the display's columns. */
  const LineWidth := 16

  /** The address commands of the two lines. */
  const Line1: byte := 0x80
  const Line2: byte := 0xC0

  const Space: byte := 0x20

  function Spaces(n: nat): (r: seq<byte>)
    ensures |r| == n && forall i :: 0 <= i < n ==> r[i] == Space
  {
    seq(n, _ => Space)
  }

  /** `Line.String`. */
  function LineName(l: byte): (name: string)
    ensures l == Line1 <==> name == "L1"
    ensures l == Line2 <==> name == "L2"
    ensures l != Line1 && l != Line2 <==> name == "N/A"
  {
    if l == Line1 then "L1"
    else if l == Line2 then "L2"
    else "N/A"
  }

  /** `Center`: a message of 16 bytes or more is cut to its first 16; a
      shorter one is preceded by half the free columns (rounded down) of
      spaces and not padded after. */
  function Center(msg: seq<byte>): (r: seq<byte>)
    ensures |r| <= LineWidth
    ensures |msg| >= LineWidth ==> r == msg[..LineWidth]
    ensures |msg| < LineWidth ==>
      (exists pad :: 0 <= pad && r == Spaces(pad) + msg && 0 <= (LineWidth - |r|) - pad <= 1)
  {
    if |msg| >= LineWidth then msg[..LineWidth]
    else
      var pad := (LineWidth - |msg|) / 2;
      assert 0 <= (LineWidth - |Spaces(pad) + msg|) - pad <= 1;
      Spaces(pad) + msg
  }

  /** An empty message is centred as eight spaces. */
  lemma CenterEmpty()
    ensures Center([]) == Spaces(8)
  {
    assert Spaces(8) + [] == Spaces(8);
  }

  /** `fmt.Sprintf("%-16s", msg)`: left-justified in 16 columns; longer
      messages are kept whole. */
  function PadRight(msg: seq<byte>): (r: seq<byte>)
    ensures |r| == if |msg| >= LineWidth then |msg| else LineWidth
    ensures r[..|msg|] == msg
    ensures forall i :: |msg| <= i < |r| ==> r[i] == Space
  {
    if |msg| >= LineWidth then msg else msg + Spaces(LineWidth - |msg|)
  }

  /** What a line shows: the first 16 bytes of the padded message, that is
      the message cut or padded with spaces to exactly 16 columns. */
  function LineText(msg: seq<byte>): (r: seq<byte>)
    ensures |r| == LineWidth
    ensures forall i :: 0 <= i < LineWidth ==> r[i] == if i < |msg| then msg[i] else Space
  {
    PadRight(msg)[..LineWidth]
  }
}
