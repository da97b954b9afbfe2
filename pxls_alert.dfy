/** The pxls.space canvas mirror: parsing palette colours written in hex, keeping a
    byte per canvas cell up to date from pixel events, and padding the palette to the
    256 entries a paletted image needs. */
module PxlsAlert {
  import opened Common

  /** One palette entry, as `hex_to_rgb` returns it: red, green, blue, alpha. */
  datatype Rgba = Rgba(r: int, g: int, b: int, a: int)

  /** A value stored in the board's `bytearray`. */
  newtype byte = x: int | 0 <= x < 256

  // ---------------------------------------------------------------------------
  // Hex parsing
  // ---------------------------------------------------------------------------

  /** Python's `s.lstrip(c)` for a single character. */
  function LStrip(s: string, c: char): (r: string)
    ensures |r| <= |s|
    ensures r == [] || r[0] != c
  {
    if s != [] && s[0] == c then LStrip(s[1..], c) else s
  }

  /** The characters `int(x, 16)` skips around a number (those of code point at most U+00FF):
      the ASCII spaces of the C locale, and U+0085 and U+00A0, which it first maps to a space. */
  predicate IsSpace(c: char)
  {
    c in {' ', '\t', '\n', '\r', '\U{B}', '\U{C}', '\U{85}', '\U{A0}'}
  }

  predicate IsHexDigit(c: char)
  {
    '0' <= c <= '9' || 'a' <= c <= 'f' || 'A' <= c <= 'F'
  }

  function HexDigitValue(c: char): (v: int)
    requires IsHexDigit(c)
    ensures 0 <= v < 16
  {
    if '0' <= c <= '9' then c as int - '0' as int
    else if 'a' <= c <= 'f' then c as int - 'a' as int + 10
    else c as int - 'A' as int + 10
  }

  /** The value of a string of hex digits, most significant first. */
  function HexValue(ds: string): (v: int)
    requires forall i :: 0 <= i < |ds| ==> IsHexDigit(ds[i])
    ensures 0 <= v
  {
    if ds == [] then 0 else HexValue(ds[..|ds| - 1]) * 16 + HexDigitValue(ds[|ds| - 1])
  }

  function TrimSpace(s: string): (r: string)
    ensures |r| <= |s|
  {
    if s != [] && IsSpace(s[0]) then TrimSpace(s[1..])
    else if s != [] && IsSpace(s[|s| - 1]) then TrimSpace(s[..|s| - 1])
    else s
  }

  /** Python's `int(x, 16)`: optional surrounding spaces, an optional sign, an optional `0x`
      or `0X` prefix, then one or more hex digits; any other string made of the characters
      modelled here raises ValueError. */
  function ParseHex(x: string): (r: Result<int>)
    ensures r.Err? ==> r.error == ValueError
  {
    var t := TrimSpace(x);
    var ds := Digits(Unsigned(t));
    if AllHexDigits(ds) then Ok(if t[0] == '-' then -HexValue(ds) else HexValue(ds))
    else Err(ValueError)
  }

  /** What follows the `0x` or `0X` prefix that base 16 allows, if there is one. */
  function Digits(body: string): (r: string)
    ensures |r| <= |body|
  {
    if |body| >= 2 && body[0] == '0' && (body[1] == 'x' || body[1] == 'X') then body[2..] else body
  }

  /** A number's digits: what follows its sign, if it has one. */
  function Unsigned(t: string): (r: string)
    ensures |r| <= |t|
  {
    if t != [] && (t[0] == '+' || t[0] == '-') then t[1..] else t
  }

  predicate AllHexDigits(body: string)
  {
    body != [] && forall i :: 0 <= i < |body| ==> IsHexDigit(body[i])
  }

  /** Python's `s[i:j]` for `0 <= i <= j`. */
  function Slice(s: string, i: nat, j: nat): (r: string)
    requires i <= j
    ensures |r| == Min(j, |s|) - Min(i, |s|)
  {
    s[Min(i, |s|)..Min(j, |s|)]
  }

  /** `hex_to_rgb`: drop the leading '#' characters, then read the pairs at offsets 0, 2, 4, 6. */
  function HexToRgb(hexcode: string): (r: Result<Rgba>)
    ensures r.Err? ==> r.error == ValueError
  {
    var h := LStrip(hexcode, '#');
    var r := ParseHex(Slice(h, 0, 2));
    var g := ParseHex(Slice(h, 2, 4));
    var b := ParseHex(Slice(h, 4, 6));
    var a := ParseHex(Slice(h, 6, 8));
    if r.Ok? && g.Ok? && b.Ok? && a.Ok? then Ok(Rgba(r.value, g.value, b.value, a.value))
    else Err(ValueError)
  }

  lemma HexValueOne(ds: string)
    requires |ds| == 1 && IsHexDigit(ds[0])
    ensures HexValue(ds) == HexDigitValue(ds[0])
  {
    assert ds[..0] == [];
  }

  lemma HexValueTwo(ds: string)
    requires |ds| == 2 && IsHexDigit(ds[0]) && IsHexDigit(ds[1])
    ensures HexValue(ds) == HexDigitValue(ds[0]) * 16 + HexDigitValue(ds[1])
  {
    HexValueOne(ds[..1]);
  }

  /** One or two hex digits with nothing around them parse to their value. */
  lemma ParsePlain(p: string)
    requires 1 <= |p| <= 2 && forall i :: 0 <= i < |p| ==> IsHexDigit(p[i])
    ensures ParseHex(p) == Ok(HexValue(p))
  {
    assert !IsSpace(p[0]) && !IsSpace(p[|p| - 1]);
    assert TrimSpace(p) == p;
    assert Digits(p) == p by {
      assert |p| == 2 ==> IsHexDigit(p[1]);
    }
  }

  /** The `0x` prefix changes nothing: prefixed digits parse to the digits' value. */
  lemma ParsePrefixed(p: string)
    requires p != [] && forall i :: 0 <= i < |p| ==> IsHexDigit(p[i])
    ensures ParseHex("0x" + p) == Ok(HexValue(p))
    ensures ParseHex("0X" + p) == Ok(HexValue(p))
  {
    ParseWithPrefix('x', p);
    ParseWithPrefix('X', p);
  }

  lemma ParseWithPrefix(x: char, p: string)
    requires x == 'x' || x == 'X'
    requires p != [] && forall i :: 0 <= i < |p| ==> IsHexDigit(p[i])
    ensures ParseHex(['0', x] + p) == Ok(HexValue(p))
  {
    var s := ['0', x] + p;
    assert !IsSpace(s[0]);
    assert !IsSpace(s[|s| - 1]) by {
      assert s[|s| - 1] == p[|p| - 1];
    }
    assert TrimSpace(s) == s;
    assert Unsigned(s) == s;
    assert Digits(s) == p by {
      assert s[2..] == p;
    }
    assert AllHexDigits(p);
  }

  /** A pair of at most two characters parses to a value between -15 and 255. */
  lemma ParseHexPairRange(x: string)
    requires |x| <= 2
    ensures ParseHex(x).Ok? ==> -15 <= ParseHex(x).value <= 255
  {
    var t := TrimSpace(x);
    var body := Digits(Unsigned(t));
    if AllHexDigits(body) {
      if |body| == 2 {
        assert body == t && t[0] != '-';
        HexValueTwo(body);
      } else {
        HexValueOne(body);
      }
    }
  }

  /** Every component `hex_to_rgb` returns lies between -15 and 255; a sign or a space in a
      pair is what makes it negative or small. */
  lemma HexToRgbRange(hexcode: string)
    ensures var r := HexToRgb(hexcode);
      r.Ok? ==> -15 <= r.value.r <= 255 && -15 <= r.value.g <= 255 && -15 <= r.value.b <= 255 && -15 <= r.value.a <= 255
  {
    var h := LStrip(hexcode, '#');
    ParseHexPairRange(Slice(h, 0, 2));
    ParseHexPairRange(Slice(h, 2, 4));
    ParseHexPairRange(Slice(h, 4, 6));
    ParseHexPairRange(Slice(h, 6, 8));
  }

  /** With at most six characters left after the '#'s, the alpha slice is empty and
      `int('', 16)` raises ValueError. */
  lemma HexToRgbShortFails(hexcode: string)
    requires |LStrip(hexcode, '#')| <= 6
    ensures HexToRgb(hexcode) == Err(ValueError)
  {
    assert Slice(LStrip(hexcode, '#'), 6, 8) == [];
    assert TrimSpace([]) == [];
  }

  lemma {:induction false} LStripHashes(hashes: string, hexcode: string)
    requires forall i :: 0 <= i < |hashes| ==> hashes[i] == '#'
    ensures LStrip(hashes + hexcode, '#') == LStrip(hexcode, '#')
  {
    if hashes == [] {
      assert hashes + hexcode == hexcode;
    } else {
      assert (hashes + hexcode)[0] == '#';
      assert (hashes + hexcode)[1..] == hashes[1..] + hexcode;
      assert LStrip(hashes + hexcode, '#') == LStrip(hashes[1..] + hexcode, '#');
      LStripHashes(hashes[1..], hexcode);
    }
  }

  /** Leading '#' characters make no difference. */
  lemma HexToRgbIgnoresHashes(hashes: string, hexcode: string)
    requires forall i :: 0 <= i < |hashes| ==> hashes[i] == '#'
    ensures HexToRgb(hashes + hexcode) == HexToRgb(hexcode)
  {
    LStripHashes(hashes, hexcode);
  }

  /** Lower-case hex digit for 0..15. */
  function HexDigit(d: int): (c: char)
    requires 0 <= d < 16
    ensures IsHexDigit(c) && HexDigitValue(c) == d
  {
    if d < 10 then ('0' as int + d) as char else ('a' as int + d - 10) as char
  }

  /** Two lower-case hex digits for a value of 0..255. */
  function ByteHex(v: int): (s: string)
    requires 0 <= v < 256
    ensures |s| == 2 && IsHexDigit(s[0]) && IsHexDigit(s[1])
  {
    [HexDigit(v / 16), HexDigit(v % 16)]
  }

  lemma ParseByteHex(v: int)
    requires 0 <= v < 256
    ensures ParseHex(ByteHex(v)) == Ok(v)
  {
    ParsePlain(ByteHex(v));
    HexValueTwo(ByteHex(v));
  }

  /** Round trip: four bytes written as eight hex digits read back as themselves. */
  lemma HexToRgbRoundTrip(c: Rgba)
    requires 0 <= c.r < 256 && 0 <= c.g < 256 && 0 <= c.b < 256 && 0 <= c.a < 256
    ensures HexToRgb(ByteHex(c.r) + ByteHex(c.g) + ByteHex(c.b) + ByteHex(c.a)) == Ok(c)
  {
    var s := ByteHex(c.r) + ByteHex(c.g) + ByteHex(c.b) + ByteHex(c.a);
    assert LStrip(s, '#') == s;
    assert Slice(s, 0, 2) == ByteHex(c.r);
    assert Slice(s, 2, 4) == ByteHex(c.g);
    assert Slice(s, 4, 6) == ByteHex(c.b);
    assert Slice(s, 6, 8) == ByteHex(c.a);
    ParseByteHex(c.r);
    ParseByteHex(c.g);
    ParseByteHex(c.b);
    ParseByteHex(c.a);
  }

  /** A palette value of six hex digits, with 'FF' appended as the loader does, is an
      opaque colour whose channels are the three pairs. */
  lemma PaletteEntryOpaque(value: string)
    requires |value| == 6 && forall i :: 0 <= i < 6 ==> IsHexDigit(value[i])
    ensures HexToRgb(value + "FF") == Ok(Rgba(HexValue(value[0..2]), HexValue(value[2..4]), HexValue(value[4..6]), 255))
  {
    var s := value + "FF";
    assert s[0] != '#';
    assert LStrip(s, '#') == s;
    assert Slice(s, 0, 2) == value[0..2];
    assert Slice(s, 2, 4) == value[2..4];
    assert Slice(s, 4, 6) == value[4..6];
    assert Slice(s, 6, 8) == "FF";
    ParsePlain(value[0..2]);
    ParsePlain(value[2..4]);
    ParsePlain(value[4..6]);
    ParsePlain("FF");
    HexValueTwo("FF");
  }

  /** Seven digits still parse: the last pair is the single seventh digit. */
  lemma HexToRgbSevenDigits(h: string)
    requires |h| == 7 && forall i :: 0 <= i < 7 ==> IsHexDigit(h[i])
    ensures HexToRgb(h) == Ok(Rgba(HexValue(h[0..2]), HexValue(h[2..4]), HexValue(h[4..6]), HexDigitValue(h[6])))
  {
    assert h[0] != '#';
    assert LStrip(h, '#') == h;
    assert Slice(h, 6, 8) == h[6..7];
    ParsePlain(h[0..2]);
    ParsePlain(h[2..4]);
    ParsePlain(h[4..6]);
    ParsePlain(h[6..7]);
    HexValueOne(h[6..7]);
  }

  /** A list comprehension whose element expression may raise: the first exception
      ends it. */
  function TryMap<A, B>(xs: seq<A>, f: A -> Result<B>): (r: Result<seq<B>>)
    ensures r.Ok? ==> |r.value| == |xs| && forall i :: 0 <= i < |xs| ==> f(xs[i]) == Ok(r.value[i])
    ensures r.Err? ==> exists i :: 0 <= i < |xs| && f(xs[i]) == Err(r.error)
  {
    if xs == [] then Ok([])
    else
      var first := f(xs[0]);
      var rest := TryMap(xs[1..], f);
      if first.Err? then Err(first.error)
      else if rest.Err? then
        assert exists i :: 1 <= i < |xs| && f(xs[i]) == Err(rest.error) by {
          var j :| 0 <= j < |xs[1..]| && f(xs[1..][j]) == Err(rest.error);
          assert xs[1..][j] == xs[j + 1];
        }
        Err(rest.error)
      else
        var r := [first.value] + rest.value;
        assert forall i :: 1 <= i < |xs| ==> xs[i] == xs[1..][i - 1] && r[i] == rest.value[i - 1];
        Ok(r)
  }

  /** One palette entry as loaded: the value with 'FF' appended, as a colour. */
  function PaletteEntry(value: string): Result<Rgba>
  {
    HexToRgb(value + "FF")
  }

  /** The palette as loaded: every value's entry, or the ValueError of the first bad one. */
  function LoadPalette(values: seq<string>): (r: Result<seq<Rgba>>)
    ensures r.Ok? ==> |r.value| == |values| && forall i :: 0 <= i < |values| ==> PaletteEntry(values[i]) == Ok(r.value[i])
    ensures r.Err? ==> r.error == ValueError && exists i :: 0 <= i < |values| && PaletteEntry(values[i]).Err?
  {
    TryMap(values, PaletteEntry)
  }

  // ---------------------------------------------------------------------------
  // Palette padding
  // ---------------------------------------------------------------------------

  const Transparent := Rgba(0, 0, 0, 0)

  /** `palette + [(0, 0, 0, 0)] * (256 - len(palette))`; a negative count repeats nothing. */
  function PaddedPalette(palette: seq<Rgba>): (r: seq<Rgba>)
    ensures |r| >= 256 && palette <= r
  {
    palette + seq(Max(256 - |palette|, 0), _ => Transparent)
  }

  /** Padding keeps the colours in front, fills with transparent black, and yields 256
      entries whenever the palette has at most 256. */
  lemma PaddedPaletteShape(palette: seq<Rgba>)
    ensures |PaddedPalette(palette)| == Max(256, |palette|)
    ensures PaddedPalette(palette)[..|palette|] == palette
    ensures forall i :: |palette| <= i < |PaddedPalette(palette)| ==> PaddedPalette(palette)[i] == Transparent
    ensures |palette| <= 256 ==> |PaddedPalette(palette)| == 256
  {
  }

  /** `itertools.chain.from_iterable` over the padded palette: four ints per entry. */
  function Channels(palette: seq<Rgba>): (r: seq<int>)
    ensures |r| == 4 * |palette|
    ensures forall i :: 0 <= i < |palette| ==>
      r[4 * i] == palette[i].r && r[4 * i + 1] == palette[i].g && r[4 * i + 2] == palette[i].b && r[4 * i + 3] == palette[i].a
  {
    if palette == [] then []
    else
      var rest := Channels(palette[1..]);
      var c := palette[0];
      var r := [c.r, c.g, c.b, c.a] + rest;
      assert forall i :: 1 <= i < |palette| ==> palette[i] == palette[1..][i - 1] && 4 * i == 4 * (i - 1) + 4;
      r
  }

  // ---------------------------------------------------------------------------
  // Board writes
  // ---------------------------------------------------------------------------

  /** One element of a pixel event: a cell and its new colour index. */
  datatype Pixel = Pixel(x: int, y: int, color: int)

  /** `board[index] = color` on a bytearray: the value is checked first (ValueError), then
      a negative index counts from the end and one still out of range raises IndexError. */
  function Store(cells: seq<byte>, index: int, color: int): (r: Result<seq<byte>>)
    ensures r.Ok? ==> |r.value| == |cells|
  {
    if !(0 <= color < 256) then Err(ValueError)
    else
      var i := if index < 0 then index + |cells| else index;
      if 0 <= i < |cells| then Ok(cells[i := color as byte]) else Err(IndexError)
  }

  /** The board's cells after `pixels[..k]`, and the exception that stopped the loop. */
  datatype Applied = Applied(cells: seq<byte>, outcome: Outcome)

  function ApplyUpTo(cells: seq<byte>, width: int, pixels: seq<Pixel>, k: nat): (r: Applied)
    requires k <= |pixels|
    ensures |r.cells| == |cells|
  {
    if k == 0 then Applied(cells, Done)
    else
      var before := ApplyUpTo(cells, width, pixels, k - 1);
      var p := pixels[k - 1];
      if before.outcome.Raised? then before
      else match Store(before.cells, Index(p.x, p.y, width), p.color)
        case Ok(c) => Applied(c, Done)
        case Err(e) => Applied(before.cells, Raised(e))
  }

  lemma {:induction false} MulLe(a: int, b: int, w: int)
    requires a <= b && 0 <= w
    ensures a * w <= b * w
    decreases b - a
  {
    if a < b {
      MulLe(a, b - 1, w);
      assert (b - 1) * w + w == b * w;
    }
  }

  lemma RowMajorBound(x: int, y: int, width: int, height: int)
    requires 0 <= x < width && 0 <= y < height
    ensures 0 <= y * width + x < width * height
  {
    MulLe(0, y, width);
    MulLe(y, height - 1, width);
    assert (height - 1) * width + width == width * height;
  }

  /** Distinct cells of the grid have distinct row-major indices. */
  lemma RowMajorInjective(x1: int, y1: int, x2: int, y2: int, width: int)
    requires 0 <= x1 < width && 0 <= x2 < width && 0 <= y1 && 0 <= y2
    requires y1 * width + x1 == y2 * width + x2
    ensures x1 == x2 && y1 == y2
  {
    if y1 < y2 {
      MulLe(y1 + 1, y2, width);
    } else if y2 < y1 {
      MulLe(y2 + 1, y1, width);
    }
  }

  /** The row-major position of cell `(x, y)`. */
  function Index(x: int, y: int, width: int): int
  {
    y * width + x
  }

  /** A pixel inside the canvas with a byte-sized colour sets exactly its own cell. */
  lemma StoreInBounds(cells: seq<byte>, width: int, height: int, p: Pixel)
    requires |cells| == width * height
    requires 0 <= p.x < width && 0 <= p.y < height && 0 <= p.color < 256
    ensures 0 <= Index(p.x, p.y, width) < |cells|
    ensures Store(cells, Index(p.x, p.y, width), p.color) == Ok(cells[Index(p.x, p.y, width) := p.color as byte])
  {
    RowMajorBound(p.x, p.y, width, height);
  }

  /** Writing one cell of the grid leaves every other cell as it was. */
  lemma OtherCellUnchanged(cells: seq<byte>, width: int, height: int, p: Pixel, x: int, y: int)
    requires |cells| == width * height
    requires 0 <= p.x < width && 0 <= p.y < height && 0 <= p.color < 256
    requires 0 <= x < width && 0 <= y < height && (x != p.x || y != p.y)
    ensures 0 <= Index(x, y, width) < |cells| && Index(x, y, width) != Index(p.x, p.y, width)
  {
    RowMajorBound(x, y, width, height);
    if Index(x, y, width) == Index(p.x, p.y, width) {
      RowMajorInjective(x, y, p.x, p.y, width);
    }
  }

  /** A colour outside 0..255 is refused whatever the index, and nothing is written. */
  lemma StoreRejectsColor(cells: seq<byte>, index: int, color: int)
    requires color < 0 || color > 255
    ensures Store(cells, index, color) == Err(ValueError)
  {
  }

  /** The colour the last in-canvas pixel of `pixels[..k]` at cell `(x, y)` wrote, if any. */
  function LastWrite(pixels: seq<Pixel>, k: nat, x: int, y: int): Option<int>
    requires k <= |pixels|
  {
    if k == 0 then None
    else if pixels[k - 1].x == x && pixels[k - 1].y == y then Some(pixels[k - 1].color)
    else LastWrite(pixels, k - 1, x, y)
  }

  predicate InCanvas(p: Pixel, width: int, height: int)
  {
    0 <= p.x < width && 0 <= p.y < height && 0 <= p.color < 256
  }

  /** When every pixel of an event lies inside the canvas, the whole event applies and each
      cell ends with the colour of the last pixel written to it, or keeps its old value. */
  lemma {:induction false} ApplyLastWriteWins(cells: seq<byte>, width: int, height: int, pixels: seq<Pixel>, k: nat)
    requires |cells| == width * height && k <= |pixels|
    requires forall i :: 0 <= i < |pixels| ==> InCanvas(pixels[i], width, height)
    ensures ApplyUpTo(cells, width, pixels, k).outcome == Done
    ensures forall x, y :: 0 <= x < width && 0 <= y < height ==>
      0 <= Index(x, y, width) < |cells|
      && ApplyUpTo(cells, width, pixels, k).cells[Index(x, y, width)] as int ==
        match LastWrite(pixels, k, x, y) case Some(c) => c case None => cells[Index(x, y, width)] as int
  {
    if k == 0 {
      forall x, y | 0 <= x < width && 0 <= y < height
        ensures 0 <= Index(x, y, width) < |cells|
      {
        RowMajorBound(x, y, width, height);
      }
    } else {
      ApplyLastWriteWins(cells, width, height, pixels, k - 1);
      var before := ApplyUpTo(cells, width, pixels, k - 1);
      var p := pixels[k - 1];
      assert InCanvas(p, width, height);
      StoreInBounds(before.cells, width, height, p);
      var after := ApplyUpTo(cells, width, pixels, k);
      assert after.cells == before.cells[Index(p.x, p.y, width) := p.color as byte];
      forall x, y | 0 <= x < width && 0 <= y < height
        ensures after.cells[Index(x, y, width)] as int ==
          match LastWrite(pixels, k, x, y) case Some(c) => c case None => cells[Index(x, y, width)] as int
      {
        if x != p.x || y != p.y {
          OtherCellUnchanged(before.cells, width, height, p, x, y);
        }
      }
    }
  }

  /** Once a pixel has raised, the rest of the event is dropped. */
  lemma {:induction false} ApplyErrorSticks(cells: seq<byte>, width: int, pixels: seq<Pixel>, i: nat, k: nat)
    requires i <= k <= |pixels|
    requires ApplyUpTo(cells, width, pixels, i).outcome.Raised?
    ensures ApplyUpTo(cells, width, pixels, k) == ApplyUpTo(cells, width, pixels, i)
    decreases k - i
  {
    if k > i {
      ApplyErrorSticks(cells, width, pixels, i, k - 1);
    }
  }

  /** The canvas mirror: the palette and size from the info endpoint and one byte per cell. */
  class PxlsCog {
    var palette: seq<Rgba>
    var width: int
    var height: int
    var board: array<byte>

    constructor ()
      ensures palette == [] && width == 0 && height == 0 && board.Length == 0
    {
      palette, width, height := [], 0, 0;
      board := new byte[0];
    }

    /** The info request: the palette (each value with 'FF' appended) and the canvas size.
        A bad palette value raises before anything is assigned. */
    method LoadInfo(values: seq<string>, w: int, h: int) returns (outcome: Outcome)
      modifies this`palette, this`width, this`height
      ensures LoadPalette(values).Ok? ==> outcome == Done && palette == LoadPalette(values).value && width == w && height == h
      ensures LoadPalette(values).Err? ==> outcome == Raised(ValueError) && unchanged(this)
    {
      var loaded := LoadPalette(values);
      if loaded.Err? {
        return Raised(loaded.error);
      }
      palette, width, height := loaded.value, w, h;
      return Done;
    }

    /** The board request: a fresh buffer holding the bytes received. */
    method LoadBoard(data: seq<byte>)
      modifies this`board
      ensures fresh(board) && board[..] == data
    {
      board := new byte[|data|](i requires 0 <= i < |data| => data[i]);
    }

    /** One `board[y * width + x] = color` assignment. */
    method WritePixel(p: Pixel) returns (outcome: Outcome)
      modifies board
      ensures var r := Store(old(board[..]), Index(p.x, p.y, width), p.color);
        (r.Ok? ==> outcome == Done && board[..] == r.value)
        && (r.Err? ==> outcome == Raised(r.error) && board[..] == old(board[..]))
    {
      if !(0 <= p.color < 256) {
        return Raised(ValueError);
      }
      var i := Index(p.x, p.y, width);
      if i < 0 {
        i := i + board.Length;
      }
      if !(0 <= i < board.Length) {
        return Raised(IndexError);
      }
      board[i] := p.color as byte;
      return Done;
    }

    /** A 'pixel' message: each pixel in turn, the first exception ending the message. */
    method OnPixelMessage(pixels: seq<Pixel>) returns (outcome: Outcome)
      modifies board
      ensures board[..] == ApplyUpTo(old(board[..]), width, pixels, |pixels|).cells
      ensures outcome == ApplyUpTo(old(board[..]), width, pixels, |pixels|).outcome
    {
      var n := 0;
      while n < |pixels|
        invariant 0 <= n <= |pixels|
        invariant ApplyUpTo(old(board[..]), width, pixels, n) == Applied(board[..], Done)
      {
        outcome := WritePixel(pixels[n]);
        if outcome.Raised? {
          ApplyErrorSticks(old(board[..]), width, pixels, n + 1, |pixels|);
          return;
        }
        n := n + 1;
      }
      return Done;
    }
  }
}
