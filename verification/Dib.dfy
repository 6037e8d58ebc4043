/** An RGBA picture as the packed bottom-up bitmap the clipboard takes. */
module Dib {
  type byte = x: int | 0 <= x < 256

  const HEADER_SIZE: nat := 40
  const USIZE_MAX: nat := 0xFFFF_FFFF_FFFF_FFFF
  const U32_MAX: nat := 0xFFFF_FFFF
  const I32_MAX: nat := 0x7FFF_FFFF

  datatype Outcome = Packed(dib: seq<byte>) | Refused | Panicked

  // ------------------------------------------------------------ specification

  function Le(n: nat, count: nat): (bytes: seq<byte>)
    ensures |bytes| == count
  {
    if count == 0 then [] else [n % 256] + Le(n / 256, count - 1)
  }

  function FromLe(bytes: seq<byte>): nat {
    if |bytes| == 0 then 0 else bytes[0] + 256 * FromLe(bytes[1..])
  }

  lemma {:induction false} LeRoundTrip(n: nat, count: nat)
    requires n < Power(count)
    ensures FromLe(Le(n, count)) == n
  {
    if count > 0 {
      LeRoundTrip(n / 256, count - 1);
      assert Le(n, count)[1..] == Le(n / 256, count - 1);
    }
  }

  function Power(count: nat): nat { if count == 0 then 1 else 256 * Power(count - 1) }

  function Header(width: nat, height: nat, imageSize: nat): (header: seq<byte>)
    ensures |header| == HEADER_SIZE
  {
    Le(HEADER_SIZE, 4) + Le(width, 4) + Le(height, 4) + Le(1, 2) + Le(32, 2) + Le(0, 4) + Le(imageSize, 4)
    + Le(0, 4) + Le(0, 4) + Le(0, 4) + Le(0, 4)
  }

  /** Red and blue trade places; green and alpha stay. */
  function Swap(channel: nat): nat { if channel == 0 then 2 else if channel == 2 then 0 else channel }

  function SwapRow(row: seq<byte>): seq<byte>
    requires |row| % 4 == 0
  {
    seq(|row|, i requires 0 <= i < |row| => row[i - i % 4 + Swap(i % 4)])
  }

  /** Multiplication under a name, so that proofs use only the laws below. */
  function Times(a: nat, b: nat): nat { a * b }

  lemma {:induction false} TimesNext(a: nat, b: nat)
    ensures Times(a + 1, b) == Times(a, b) + b && Times(0, b) == 0
  {
  }

  lemma {:induction false} TimesFits(a: nat, b: nat, n: nat)
    requires a < n
    ensures Times(a, b) + b <= Times(n, b)
    decreases n
  {
    hide Times;
    TimesNext(n - 1, b);
    if a < n - 1 {
      TimesFits(a, b, n - 1);
    }
  }

  lemma {:induction false} TimesFour(a: nat, b: nat)
    ensures Times(a, 4 * b) == 4 * Times(a, b)
    decreases a
  {
    hide Times;
    if a == 0 {
      TimesNext(0, b);
      TimesNext(0, 4 * b);
    } else {
      TimesNext(a - 1, b);
      TimesNext(a - 1, 4 * b);
      TimesFour(a - 1, b);
    }
  }

  /** Every size the checks let through; the widths of the machine's integers
      are the only limits. */
  predicate Accepted(width: nat, height: nat, length: nat) {
    && 4 * width <= USIZE_MAX
    && Times(height, 4 * width) <= USIZE_MAX
    && length == Times(height, 4 * width)
    && width <= I32_MAX && height <= I32_MAX
    && Times(height, 4 * width) <= U32_MAX
  }

  function SourceRow(rgba: seq<byte>, rowBytes: nat, y: nat): seq<byte>
    requires Times(y, rowBytes) + rowBytes <= |rgba|
  {
    rgba[Times(y, rowBytes)..Times(y, rowBytes) + rowBytes]
  }

  /** The last `k` rows of the picture, last one first. */
  function Rows(rgba: seq<byte>, width: nat, height: nat, k: nat): (rows: seq<byte>)
    requires k <= height && |rgba| == Times(height, 4 * width)
    ensures |rows| == Times(k, 4 * width)
  {
    if k == 0 then []
    else
      TimesFits(height - k, 4 * width, height);
      TimesNext(k - 1, 4 * width);
      Rows(rgba, width, height, k - 1) + SwapRow(SourceRow(rgba, 4 * width, height - k))
  }

  // ------------------------------------------------------------- the packing

  method SwapPixels(row: seq<byte>) returns (packed: seq<byte>)
    requires |row| % 4 == 0
    ensures packed == SwapRow(row)
  {
    packed := [];
    var i := 0;
    while i < |row|
      invariant 0 <= i <= |row| && i % 4 == 0
      invariant packed == SwapRow(row)[..i]
    {
      ghost var done := packed;
      packed := packed + [row[i + 2], row[i + 1], row[i], row[i + 3]];
      FourMore(row, i, done);
      i := i + 4;
    }
    assert SwapRow(row)[..|row|] == SwapRow(row);
  }

  lemma {:induction false} FourMore(row: seq<byte>, i: nat, done: seq<byte>)
    requires |row| % 4 == 0 && i % 4 == 0 && i + 4 <= |row| && done == SwapRow(row)[..i]
    ensures done + [row[i + 2], row[i + 1], row[i], row[i + 3]] == SwapRow(row)[..i + 4]
  {
    assert (i + 1) % 4 == 1 && (i + 2) % 4 == 2 && (i + 3) % 4 == 3;
  }

  method RgbaToCfDib(width: nat, height: nat, rgba: seq<byte>) returns (r: Outcome)
    requires width <= U32_MAX && height <= U32_MAX
    ensures r.Refused? <==> !Accepted(width, height, |rgba|)
    ensures r.Panicked? <==> Accepted(width, height, |rgba|) && width == 0
    ensures r.Packed? ==> r.dib == Header(width, height, |rgba|) + Rows(rgba, width, height, height)
  {
    hide Times, Header, SwapRow;
    var rowBytes := 4 * width;
    if rowBytes > USIZE_MAX || Times(height, rowBytes) > USIZE_MAX || |rgba| != Times(height, rowBytes)
       || width > I32_MAX || height > I32_MAX || Times(height, rowBytes) > U32_MAX {
      return Refused;
    }
    // Splitting into chunks of no bytes panics.
    if rowBytes == 0 {
      return Panicked;
    }
    var dib := Header(width, height, |rgba|);
    for k := 0 to height
      invariant dib == Header(width, height, |rgba|) + Rows(rgba, width, height, k)
    {
      TimesFits(height - k - 1, rowBytes, height);
      var packed := SwapPixels(SourceRow(rgba, rowBytes, height - k - 1));
      dib := dib + packed;
    }
    r := Packed(dib);
  }

  // ------------------------------------------------------------ what is inside

  /** Where pixel (x, y) of the picture lies in the packed bitmap. */
  function PixelAt(width: nat, height: nat, x: nat, y: nat): nat
    requires y < height
  {
    HEADER_SIZE + 4 * (Times(height - 1 - y, width) + x)
  }

  /** The whole bitmap a picture is packed into. */
  function Bitmap(width: nat, height: nat, rgba: seq<byte>): seq<byte>
    requires |rgba| == Times(height, 4 * width)
  {
    Header(width, height, |rgba|) + Rows(rgba, width, height, height)
  }

  lemma {:induction false} RowAt(rgba: seq<byte>, width: nat, height: nat, k: nat, r: nat)
    requires r < k <= height && |rgba| == Times(height, 4 * width)
    ensures Times(height - 1 - r, 4 * width) + 4 * width <= |rgba| && Times(r, 4 * width) + 4 * width <= Times(k, 4 * width)
    ensures Rows(rgba, width, height, k)[Times(r, 4 * width)..Times(r, 4 * width) + 4 * width]
         == SwapRow(SourceRow(rgba, 4 * width, height - 1 - r))
    decreases k
  {
    hide Times, SwapRow;
    var rowBytes := 4 * width;
    TimesFits(height - 1 - r, rowBytes, height);
    TimesFits(height - k, rowBytes, height);
    TimesFits(r, rowBytes, k);
    TimesNext(k - 1, rowBytes);
    var (rest, last) := (Rows(rgba, width, height, k - 1), SwapRow(SourceRow(rgba, rowBytes, height - k)));
    assert Rows(rgba, width, height, k) == rest + last;
    if r < k - 1 {
      RowAt(rgba, width, height, k - 1, r);
    }
    hide Rows;
    SliceOfConcat(rest, last, Times(r, rowBytes), rowBytes);
  }

  lemma {:induction false} SliceOfConcat(a: seq<byte>, b: seq<byte>, i: nat, n: nat)
    ensures i + n <= |a| ==> (a + b)[i..i + n] == a[i..i + n]
    ensures i == |a| && n == |b| ==> (a + b)[i..i + n] == b
  {
  }

  lemma {:induction false} SwappedByte(row: seq<byte>, x: nat, c: nat)
    requires |row| % 4 == 0 && c < 4 && 4 * x + c < |row|
    ensures 4 * x + Swap(c) < |row| && SwapRow(row)[4 * x + c] == row[4 * x + Swap(c)]
  {
    assert (4 * x + c) % 4 == c;
  }

  /** The bitmap is exactly 40 bytes and the pixels, and pixel (x, y) sits where
      a bottom-up bitmap has it, as blue, green, red, alpha. */
  lemma {:induction false} PixelsInPlace(width: nat, height: nat, rgba: seq<byte>, x: nat, y: nat, c: nat)
    requires Accepted(width, height, |rgba|) && x < width && y < height && c < 4
    ensures |Bitmap(width, height, rgba)| == HEADER_SIZE + 4 * Times(height, width)
    ensures PixelAt(width, height, x, y) + c < HEADER_SIZE + 4 * Times(height, width)
    ensures 4 * (Times(y, width) + x) + Swap(c) < |rgba|
    ensures Bitmap(width, height, rgba)[PixelAt(width, height, x, y) + c] == rgba[4 * (Times(y, width) + x) + Swap(c)]
  {
    hide Times, Rows, Header, SwapRow;
    var (rowBytes, r) := (4 * width, height - 1 - y);
    RowAt(rgba, width, height, height, r);
    TimesFour(height, width);
    TimesFour(r, width);
    TimesFour(y, width);
    var (header, rows) := (Header(width, height, |rgba|), Rows(rgba, width, height, height));
    var row := SourceRow(rgba, rowBytes, y);
    SwappedByte(row, x, c);
    var (at, from) := (Times(r, rowBytes), Times(y, rowBytes));
    assert (header + rows)[HEADER_SIZE + (at + (4 * x + c))] == rows[at + (4 * x + c)];
    assert rows[at..at + rowBytes][4 * x + c] == rows[at + (4 * x + c)];
    assert rgba[from..from + rowBytes][4 * x + Swap(c)] == rgba[from + (4 * x + Swap(c))];
  }

  /** Reading the bitmap bottom-up, by the size its own header gives, recovers
      every channel of every pixel. */
  lemma {:induction false} ReadsBack(width: nat, height: nat, rgba: seq<byte>, x: nat, y: nat, c: nat)
    requires Accepted(width, height, |rgba|) && x < width && y < height && c < 4
    ensures var dib := Bitmap(width, height, rgba);
            && |dib| >= HEADER_SIZE && FromLe(dib[4..8]) == width && FromLe(dib[8..12]) == height
            && FromLe(dib[20..24]) == |rgba|
            && PixelAt(width, height, x, y) + Swap(c) < |dib| && 4 * (Times(y, width) + x) + c < |rgba|
            && dib[PixelAt(width, height, x, y) + Swap(c)] == rgba[4 * (Times(y, width) + x) + c]
  {
    hide Times, Header, Rows;
    PixelsInPlace(width, height, rgba, x, y, Swap(c));
    HeaderFields(width, height, |rgba|);
    var (header, rows) := (Header(width, height, |rgba|), Rows(rgba, width, height, height));
    SliceOfConcat(header, rows, 4, 4);
    SliceOfConcat(header, rows, 8, 4);
    SliceOfConcat(header, rows, 20, 4);
  }

  lemma {:induction false} FourBytes()
    ensures Power(4) == 0x1_0000_0000
  {
    assert Power(1) == 256 && Power(2) == 65536 && Power(3) == 16777216;
  }

  lemma {:induction false} HeaderFields(width: nat, height: nat, size: nat)
    requires width <= U32_MAX && height <= U32_MAX && size <= U32_MAX
    ensures var header := Header(width, height, size);
            FromLe(header[4..8]) == width && FromLe(header[8..12]) == height && FromLe(header[20..24]) == size
  {
    hide Le, FromLe, Power;
    FourBytes();
    LeRoundTrip(width, 4);
    LeRoundTrip(height, 4);
    LeRoundTrip(size, 4);
    var header := Header(width, height, size);
    assert header[4..8] == Le(width, 4);
    assert header[8..12] == Le(height, 4);
    assert header[20..24] == Le(size, 4);
  }

  /** The last byte written is the top right pixel's, and no size on the way
      leaves its machine word. */
  lemma {:induction false} NoOverflow(width: nat, height: nat, length: nat)
    requires Accepted(width, height, length)
    ensures HEADER_SIZE + length <= USIZE_MAX
    ensures width > 0 && height > 0 ==> PixelAt(width, height, width - 1, 0) + 4 == HEADER_SIZE + length
  {
    hide Times;
    if height > 0 {
      TimesNext(height - 1, width);
      TimesFour(height, width);
    }
  }

  /** A picture of no width passes every check. */
  lemma {:induction false} NoWidthIsAccepted(height: nat)
    requires height <= I32_MAX
    ensures Accepted(0, height, 0)
  {
    hide Times;
    TimesFour(height, 0);
  }
}
