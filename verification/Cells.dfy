/** The value types of the packed frame: styles, cells, runs, rows, and what a
    screen cell looks like once it is drawn and once it is decoded. */
module Cells {

  newtype byte = x: int | 0 <= x < 256
  type Text = seq<byte>

  const SPACE: byte := 0x20
  const MAX_CELL_TEXT: nat := 128
  const TWO_32: nat := 0x1_0000_0000

  /** `static_cast<uint32_t>` and `static_cast<uint8_t>`. */
  function U32(n: nat): nat { n % TWO_32 }
  function U8(n: nat): nat { n % 256 }

  datatype Rgb = Rgb(r: byte, g: byte, b: byte)

  datatype Attr = Attr(
    foreground: Rgb, background: Rgb,
    bold: bool, italic: bool, underline: bool, blink: bool, dim: bool, inverse: bool)

  datatype PackedStyle = PackedStyle(foreground: Rgb, background: Rgb, attributes: nat)

  const DEFAULT_STYLE := PackedStyle(Rgb(0, 0, 0), Rgb(0, 0, 0), 0)

  function Blend(over: Rgb, under: Rgb): Rgb {
    Rgb(under.r / 2 + over.r / 2, under.g / 2 + over.g / 2, under.b / 2 + over.b / 2)
  }

  function PackedStyleFor(attr: Attr): PackedStyle {
    var fg := if attr.inverse then attr.background else attr.foreground;
    var bg := if attr.inverse then attr.foreground else attr.background;
    PackedStyle(
      if attr.dim then Blend(fg, bg) else fg, bg,
      (if attr.bold then 0x01 else 0) + (if attr.italic then 0x02 else 0) +
      (if attr.underline then 0x04 else 0) + (if attr.blink then 0x08 else 0) +
      (if attr.dim then 0x10 else 0))
  }

  /** One cell as the screen library draws it. */
  datatype DrawnCell = DrawnCell(codepoints: seq<nat>, width: nat, attr: Attr) {
    function Inverted(): DrawnCell { this.(attr := attr.(inverse := !attr.inverse)) }
  }

  /** One cell as a frame shows it to its reader. */
  datatype CellView = CellView(codepoint: nat, text: Text, width: nat, style: PackedStyle)

  type Picture = seq<seq<CellView>>

  ghost predicate Sized(picture: Picture, columns: nat, rows: nat) {
    |picture| == rows && forall r | 0 <= r < rows :: |picture[r]| == columns
  }

  /** An erased cell. */
  const BLANK := CellView(SPACE as nat, [SPACE], 1, DEFAULT_STYLE)

  type Encoder = nat -> Text

  function EncodeAll(encode: Encoder, codepoints: seq<nat>): Text {
    if codepoints == [] then []
    else EncodeAll(encode, codepoints[..|codepoints| - 1]) + encode(codepoints[|codepoints| - 1])
  }

  function CellText(encode: Encoder, cell: DrawnCell): Text {
    if cell.codepoints == [] && cell.width > 0 then [SPACE] else EncodeAll(encode, cell.codepoints)
  }

  function CellCodepoint(cell: DrawnCell): nat {
    if cell.codepoints != [] then cell.codepoints[0] else if cell.width == 0 then 0 else SPACE as nat
  }

  function ViewOf(encode: Encoder, cell: DrawnCell): CellView {
    CellView(CellCodepoint(cell), CellText(encode, cell), cell.width, PackedStyleFor(cell.attr))
  }

  // ---- What a view shows, field by field ----

  /** The encoded code points, one after the other. */
  ghost function Joined(encode: Encoder, codepoints: seq<nat>): Text {
    if codepoints == [] then [] else encode(codepoints[0]) + Joined(encode, codepoints[1..])
  }

  lemma {:induction false} EncodeAllJoins(encode: Encoder, codepoints: seq<nat>)
    ensures EncodeAll(encode, codepoints) == Joined(encode, codepoints)
    decreases |codepoints|
  {
    if codepoints != [] {
      var n := |codepoints| - 1;
      EncodeAllJoins(encode, codepoints[..n]);
      JoinedSnoc(encode, codepoints[..n], codepoints[n]);
      assert codepoints == codepoints[..n] + [codepoints[n]];
    }
  }

  lemma {:induction false} JoinedSnoc(encode: Encoder, codepoints: seq<nat>, last: nat)
    ensures Joined(encode, codepoints + [last]) == Joined(encode, codepoints) + encode(last)
  {
    if codepoints == [] {
      assert Joined(encode, [last]) == encode(last) + Joined(encode, []);
    } else {
      JoinedSnoc(encode, codepoints[1..], last);
      assert codepoints + [last] == [codepoints[0]] + (codepoints[1..] + [last]);
    }
  }

  /** Half of each colour. */
  ghost predicate HalfOfEach(shown: Rgb, a: Rgb, b: Rgb) {
    && shown.r as int == (a.r as int) / 2 + (b.r as int) / 2
    && shown.g as int == (a.g as int) / 2 + (b.g as int) / 2
    && shown.b as int == (a.b as int) / 2 + (b.b as int) / 2
  }

  /** Inverse exchanges the colours, dim halves the foreground towards the background, and each
      flag is one bit. */
  ghost predicate ShowsStyle(style: PackedStyle, attr: Attr, inverse: bool) {
    && style.background == (if inverse then attr.foreground else attr.background)
    && (!attr.dim ==> style.foreground == if inverse then attr.background else attr.foreground)
    && (attr.dim ==> HalfOfEach(style.foreground, attr.foreground, attr.background))
    && style.attributes == Bit(attr.bold, 1) + Bit(attr.italic, 2) + Bit(attr.underline, 4)
                           + Bit(attr.blink, 8) + Bit(attr.dim, 16)
  }

  /** The text is that of all code points in order, the code point is the first; a cell without any shows a
      space, or nothing if it has no width. */
  ghost predicate ShowsCell(encode: Encoder, view: CellView, cell: DrawnCell, inverse: bool) {
    && view.width == cell.width && ShowsStyle(view.style, cell.attr, inverse)
    && (cell.codepoints != [] ==>
          view.text == Joined(encode, cell.codepoints) && view.codepoint == cell.codepoints[0])
    && (cell.codepoints == [] && cell.width > 0 ==> view.text == [0x20] && view.codepoint == 0x20)
    && (cell.codepoints == [] && cell.width == 0 ==> view.text == [] && view.codepoint == 0)
  }

  ghost function Bit(flag: bool, value: nat): nat { if flag then value else 0 }

  lemma ShownStyleIsUnique(style: PackedStyle, attr: Attr)
    ensures ShowsStyle(style, attr, attr.inverse) <==> style == PackedStyleFor(attr)
  {
  }

  /** The view of a cell is the one that shows it. */
  lemma ViewShowsCell(encode: Encoder, view: CellView, cell: DrawnCell)
    ensures ShowsCell(encode, view, cell, cell.attr.inverse) <==> view == ViewOf(encode, cell)
  {
    hide ShowsStyle, PackedStyleFor;
    ShownStyleIsUnique(view.style, cell.attr);
    EncodeAllJoins(encode, cell.codepoints);
  }

  lemma {:induction false} EncodedPrefixFits(encode: Encoder, codepoints: seq<nat>, n: nat)
    requires n <= |codepoints|
    ensures |EncodeAll(encode, codepoints[..n])| <= |EncodeAll(encode, codepoints)|
  {
    if n == |codepoints| {
      assert codepoints[..n] == codepoints;
    } else {
      var init := codepoints[..|codepoints| - 1];
      assert init[..n] == codepoints[..n];
      EncodedPrefixFits(encode, init, n);
    }
  }

  /** The 128-byte staging buffer of one cell: a cell is encoded completely or not at all. */
  method EncodeCell(encode: Encoder, cell: DrawnCell) returns (fits: bool, text: Text)
    ensures fits <==> |CellText(encode, cell)| <= 128
    ensures fits ==> text == CellText(encode, cell)
  {
    text := [];
    for index := 0 to |cell.codepoints|
      invariant text == EncodeAll(encode, cell.codepoints[..index])
      invariant |text| <= MAX_CELL_TEXT
    {
      var utf8 := encode(cell.codepoints[index]);
      assert cell.codepoints[..index + 1][..index] == cell.codepoints[..index];
      if |text| + |utf8| > MAX_CELL_TEXT {
        EncodedPrefixFits(encode, cell.codepoints, index + 1);
        return false, [];
      }
      text := text + utf8;
    }
    assert cell.codepoints[..|cell.codepoints|] == cell.codepoints;
    if cell.codepoints == [] && cell.width > 0 {
      text := text + [SPACE];
    }
    fits := true;
  }
}
