/**
 * save_frame of the frame-dump program: a strided RGB24 buffer written as a
 * binary Netpbm image ("P6"), only the visible 3*width bytes of each row,
 * and a reader of that layout that gives back every image it writes.
 */
module Ppm {
  import opened Media

  /** The byte a character becomes when a std::string is written to a binary stream. */
  function ByteOf(c: char): byte {
    (c as int % 256) as byte
  }

  function Ascii(s: string): (bs: seq<byte>)
    ensures |bs| == |s| && forall i :: 0 <= i < |s| ==> bs[i] == ByteOf(s[i])
  {
    seq(|s|, i requires 0 <= i < |s| => ByteOf(s[i]))
  }

  /** "P6\n" width " " height "\n" "255\n": magic, size, and the largest sample value. */
  function Header(width: nat, height: nat): seq<byte> {
    Ascii("P6\n") + Ascii(NatToString(width)) + Ascii(" ") + Ascii(NatToString(height)) + Ascii("\n") + Ascii("255\n")
  }

  /** Where row n starts when each row is `step` bytes apart: n*step, counted row by row. */
  function Offset(n: nat, step: nat): nat {
    if n == 0 then 0 else Offset(n - 1, step) + step
  }

  lemma {:induction false} OffsetIsProduct(n: nat, step: nat)
    ensures Offset(n, step) == n * step
  {
    if n > 0 {
      OffsetIsProduct(n - 1, step);
    }
  }

  lemma {:induction false} OffsetMono(m: nat, n: nat, step: nat)
    requires m <= n
    ensures Offset(m, step) <= Offset(n, step)
  {
    if m < n {
      OffsetMono(m, n - 1, step);
    }
  }

  /** The buffer holds every row that is read: row i starts at i*linesize and is 3*width long. */
  predicate FitsRows(size: nat, linesize: nat, width: nat, height: nat) {
    height == 0 || Offset(height - 1, linesize) + 3 * width <= size
  }

  lemma FitsFewerRows(size: nat, linesize: nat, width: nat, height: nat, fewer: nat)
    requires FitsRows(size, linesize, width, height) && fewer <= height
    ensures FitsRows(size, linesize, width, fewer)
  {
    if fewer > 0 {
      OffsetMono(fewer - 1, height - 1, linesize);
    }
  }

  /** The first `height` visible rows of the buffer, one after another. */
  function Rows(data: seq<byte>, linesize: nat, width: nat, height: nat): seq<byte>
    requires FitsRows(|data|, linesize, width, height)
  {
    if height == 0 then []
    else
      FitsFewerRows(|data|, linesize, width, height, height - 1);
      var start := Offset(height - 1, linesize);
      Rows(data, linesize, width, height - 1) + data[start..start + 3 * width]
  }

  /** The complete file save_frame writes. */
  function PpmFile(data: seq<byte>, linesize: nat, width: nat, height: nat): seq<byte>
    requires FitsRows(|data|, linesize, width, height)
  {
    Header(width, height) + Rows(data, linesize, width, height)
  }

  /**
   * save_frame: open the file (`isOpen` is whether that succeeded), write the
   * header, then each row's first 3*width bytes. Returns -1 and writes
   * nothing when the file cannot be opened, 0 otherwise.
   */
  method SaveFrame(data: seq<byte>, linesize: nat, width: nat, height: nat, isOpen: bool)
    returns (status: int, file: seq<byte>)
    requires FitsRows(|data|, linesize, width, height)
    ensures !isOpen ==> status == -1 && file == []
    ensures isOpen ==> status == 0 && file == PpmFile(data, linesize, width, height)
  {
    if !isOpen {
      return -1, [];
    }
    var header := Header(width, height);
    file := header;
    var i: nat := 0;
    var start: nat := 0;
    while i < height
      invariant i <= height && start == Offset(i, linesize)
      invariant FitsRows(|data|, linesize, width, i)
      invariant file == header + Rows(data, linesize, width, i)
    {
      WriteRow(data, linesize, width, height, i, header, file);
      file := file + data[start..start + 3 * width];
      start := start + linesize;
      i := i + 1;
    }
    status := 0;
  }

  /** Writing row i after the header and the first i rows gives the header and the first i+1 rows. */
  lemma WriteRow(data: seq<byte>, linesize: nat, width: nat, height: nat, i: nat, header: seq<byte>, file: seq<byte>)
    requires FitsRows(|data|, linesize, width, height) && i < height
    requires FitsRows(|data|, linesize, width, i) && file == header + Rows(data, linesize, width, i)
    ensures Offset(i, linesize) + 3 * width <= |data|
    ensures FitsRows(|data|, linesize, width, i + 1)
    ensures file + data[Offset(i, linesize)..Offset(i, linesize) + 3 * width] == header + Rows(data, linesize, width, i + 1)
  {
    FitsFewerRows(|data|, linesize, width, height, i + 1);
    var row := data[Offset(i, linesize)..Offset(i, linesize) + 3 * width];
    assert Rows(data, linesize, width, i + 1) == Rows(data, linesize, width, i) + row;
  }

  // ---------------------------------------------------------------------
  // What the body holds
  // ---------------------------------------------------------------------

  lemma {:induction false} RowsSize(data: seq<byte>, linesize: nat, width: nat, height: nat)
    requires FitsRows(|data|, linesize, width, height)
    ensures |Rows(data, linesize, width, height)| == Offset(height, 3 * width)
  {
    if height > 0 {
      FitsFewerRows(|data|, linesize, width, height, height - 1);
      RowsSize(data, linesize, width, height - 1);
    }
  }

  /** The body is height rows of 3*width bytes: no stride padding is written. */
  lemma {:induction false} RowsLength(data: seq<byte>, linesize: nat, width: nat, height: nat)
    requires FitsRows(|data|, linesize, width, height)
    ensures |Rows(data, linesize, width, height)| == height * (3 * width)
  {
    RowsSize(data, linesize, width, height);
    OffsetIsProduct(height, 3 * width);
  }

  /** Byte x of row i of the body, counted in row offsets. */
  lemma {:induction false} RowsAtOffset(data: seq<byte>, linesize: nat, width: nat, height: nat, i: nat, x: nat)
    requires FitsRows(|data|, linesize, width, height)
    requires i < height && x < 3 * width
    ensures Offset(i, 3 * width) + x < |Rows(data, linesize, width, height)|
    ensures Offset(i, linesize) + x < |data|
    ensures Rows(data, linesize, width, height)[Offset(i, 3 * width) + x] == data[Offset(i, linesize) + x]
  {
    FitsFewerRows(|data|, linesize, width, height, height - 1);
    RowsSize(data, linesize, width, height - 1);
    RowsSize(data, linesize, width, height);
    OffsetMono(i, height - 1, linesize);
    var prev := Rows(data, linesize, width, height - 1);
    if i < height - 1 {
      OffsetMono(i + 1, height - 1, 3 * width);
      RowsAtOffset(data, linesize, width, height - 1, i, x);
    } else {
      assert Offset(i, 3 * width) == |prev|;
    }
  }

  /** Byte x of row i of the body is byte x of row i of the buffer. */
  lemma RowsAt(data: seq<byte>, linesize: nat, width: nat, height: nat, i: nat, x: nat)
    requires FitsRows(|data|, linesize, width, height)
    requires i < height && x < 3 * width
    ensures i * (3 * width) + x < |Rows(data, linesize, width, height)|
    ensures i * linesize + x < |data|
    ensures Rows(data, linesize, width, height)[i * (3 * width) + x] == data[i * linesize + x]
  {
    RowsAtOffset(data, linesize, width, height, i, x);
    OffsetIsProduct(i, 3 * width);
    OffsetIsProduct(i, linesize);
  }

  // ---------------------------------------------------------------------
  // Reading a written file back
  // ---------------------------------------------------------------------

  datatype Image = Image(width: nat, height: nat, pixels: seq<byte>)

  predicate IsDigitByte(b: byte) {
    '0' as int <= b as int <= '9' as int
  }

  function Text(bs: seq<byte>): (s: string)
    ensures |s| == |bs| && forall i :: 0 <= i < |bs| ==> s[i] as int == bs[i] as int
  {
    seq(|bs|, i requires 0 <= i < |bs| => bs[i] as int as char)
  }

  /** The end of the run of digit bytes that starts at i. */
  function SpanDigits(bs: seq<byte>, i: nat): (j: nat)
    requires i <= |bs|
    ensures i <= j <= |bs|
    ensures forall m :: i <= m < j ==> IsDigitByte(bs[m])
    ensures j < |bs| ==> !IsDigitByte(bs[j])
    decreases |bs| - i
  {
    if i < |bs| && IsDigitByte(bs[i]) then SpanDigits(bs, i + 1) else i
  }

  /** A numeral written as bytes, and its value. */
  function Numeral(bs: seq<byte>): nat
    requires forall m :: 0 <= m < |bs| ==> IsDigitByte(bs[m])
  {
    TextDigits(bs);
    DigitsValue(Text(bs))
  }

  lemma TextDigits(bs: seq<byte>)
    requires forall m :: 0 <= m < |bs| ==> IsDigitByte(bs[m])
    ensures AllDigits(Text(bs))
  {
    var s := Text(bs);
    forall i | 0 <= i < |s| ensures IsDigit(s[i]) {
      assert s[i] as int == bs[i] as int;
      assert IsDigitByte(bs[i]);
    }
  }

  /**
   * Reads a file of the layout save_frame writes: "P6\n", the decimal width,
   * a space, the decimal height, "\n255\n" and exactly height * 3 * width
   * bytes. Numerals with leading zeros are accepted; anything else is None.
   */
  function Parse(file: seq<byte>): Option<Image> {
    if |file| < 3 || file[..3] != Ascii("P6\n") then None
    else
      var j := SpanDigits(file, 3);
      if j == 3 || j == |file| || file[j] != ByteOf(' ') then None
      else ParseHeight(file, Numeral(file[3..j]), j + 1)
  }

  /** The rest of the header after "P6\n" width " ", which ends at i. */
  function ParseHeight(file: seq<byte>, width: nat, i: nat): Option<Image>
    requires i <= |file|
  {
    var k := SpanDigits(file, i);
    if k == i || k + 5 > |file| || file[k..k + 5] != Ascii("\n255\n") then None
    else
      var height := Numeral(file[i..k]);
      if |file| - (k + 5) != height * (3 * width) then None
      else Some(Image(width, height, file[k + 5..]))
  }

  lemma {:induction false} SpanOver(bs: seq<byte>, i: nat, n: nat)
    requires i + n <= |bs|
    requires forall m :: i <= m < i + n ==> IsDigitByte(bs[m])
    requires i + n < |bs| && !IsDigitByte(bs[i + n])
    ensures SpanDigits(bs, i) == i + n
    decreases n
  {
    if n > 0 {
      SpanOver(bs, i + 1, n - 1);
    }
  }

  lemma NumeralBytes(n: nat)
    ensures forall m :: 0 <= m < |Ascii(NatToString(n))| ==> IsDigitByte(Ascii(NatToString(n))[m])
    ensures Numeral(Ascii(NatToString(n))) == n
  {
    var s := NatToString(n);
    var bs := Ascii(s);
    forall m | 0 <= m < |bs| ensures IsDigitByte(bs[m]) && Text(bs)[m] == s[m] {
      assert IsDigit(s[m]);
      assert bs[m] == ByteOf(s[m]);
    }
    assert Text(bs) == s;
    NatToStringValue(n);
  }

  /** The height, the trailer and a body of the announced size, after a prefix, read back. */
  lemma ParseHeightWritten(prefix: seq<byte>, width: nat, height: nat, body: seq<byte>)
    requires |body| == height * (3 * width)
    ensures ParseHeight(prefix + Ascii(NatToString(height)) + Ascii("\n") + Ascii("255\n") + body, width, |prefix|)
         == Some(Image(width, height, body))
  {
    var h := Ascii(NatToString(height));
    var file := prefix + h + Ascii("\n") + Ascii("255\n") + body;
    NumeralBytes(height);
    var i := |prefix|;
    var k := i + |h|;
    assert file[i..k] == h;
    assert file[k..k + 5] == Ascii("\n255\n");
    assert file[k + 5..] == body;
    assert file[k] == ByteOf('\n') && !IsDigitByte(file[k]);
    SpanOver(file, i, |h|);
  }

  /** Any header followed by a body of the size it announces reads back as that image. */
  lemma ParseHeaderBody(width: nat, height: nat, body: seq<byte>)
    requires |body| == height * (3 * width)
    ensures Parse(Header(width, height) + body) == Some(Image(width, height, body))
  {
    var w := Ascii(NatToString(width));
    var prefix := Ascii("P6\n") + w + Ascii(" ");
    var file := Header(width, height) + body;
    assert file == prefix + Ascii(NatToString(height)) + Ascii("\n") + Ascii("255\n") + body;
    ParseHeightWritten(prefix, width, height, body);
    NumeralBytes(width);
    var j := 3 + |w|;
    assert file[..3] == Ascii("P6\n");
    assert file[3..j] == w;
    assert file[j] == ByteOf(' ') && !IsDigitByte(file[j]);
    SpanOver(file, 3, |w|);
  }

  /** Round trip: reading back a written file gives its size and exactly the visible bytes of every row. */
  lemma ParseWritten(data: seq<byte>, linesize: nat, width: nat, height: nat)
    requires FitsRows(|data|, linesize, width, height)
    ensures Parse(PpmFile(data, linesize, width, height)) == Some(Image(width, height, Rows(data, linesize, width, height)))
  {
    RowsLength(data, linesize, width, height);
    ParseHeaderBody(width, height, Rows(data, linesize, width, height));
  }
}
