// The PNG loader: two passes over the chunks, inflate, un-filter, and the conversion to pixels.
module Png {
  import opened Bits
  import opened PngFilter
  import H = Huffman
  import D = Deflate
  import E = Encoding
  import R = RoundTrip
  import I = Inflater

  const MAX_DIM: nat := 4096
  const SIGNATURE: seq<byte> := [0x89, 0x50, 0x4E, 0x47, 0x0D, 0x0A, 0x1A, 0x0A]
  const IHDR: seq<byte> := [0x49, 0x48, 0x44, 0x52]
  const PLTE: seq<byte> := [0x50, 0x4C, 0x54, 0x45]
  const IDAT: seq<byte> := [0x49, 0x44, 0x41, 0x54]
  const IEND: seq<byte> := [0x49, 0x45, 0x4E, 0x44]

  // rd_u32be
  function U32(file: seq<byte>, p: nat): (r: nat)
    requires p + 4 <= |file|
    ensures r < 0x1_0000_0000
  {
    file[p] as int * 0x100_0000 + file[p + 1] as int * 0x1_0000 + file[p + 2] as int * 0x100 + file[p + 3] as int
  }

  function Be16(v: nat): (r: seq<byte>)
    requires v < 0x1_0000
    ensures |r| == 2 && r[0] as int * 0x100 + r[1] as int == v
  {
    [v / 0x100, v % 0x100]
  }

  function Be32(v: nat): (r: seq<byte>)
    requires v < 0x1_0000_0000
    ensures |r| == 4 && U32(r, 0) == v
  {
    Be16(v / 0x1_0000) + Be16(v % 0x1_0000)
  }

  // A whole chunk starts at p: length, type, data and CRC all lie inside the file.
  predicate WholeChunk(file: seq<byte>, p: nat) {
    p + 8 <= |file| && p + 8 + U32(file, p) + 4 <= |file|
  }

  function Type(file: seq<byte>, p: nat): seq<byte>
    requires WholeChunk(file, p)
  {
    file[p + 4..p + 8]
  }

  function Data(file: seq<byte>, p: nat): seq<byte>
    requires WholeChunk(file, p)
  {
    file[p + 8..p + 8 + U32(file, p)]
  }

  function Next(file: seq<byte>, p: nat): (q: nat)
    requires WholeChunk(file, p)
    ensures p + 12 <= q <= |file|
  {
    p + 8 + U32(file, p) + 4
  }

  // The concatenation of the IDAT chunks from p on, up to IEND or a chunk cut short.
  function IdatData(file: seq<byte>, p: nat): (r: seq<byte>)
    requires p <= |file|
    ensures |r| <= |file| - p
    decreases |file| - p
  {
    if !WholeChunk(file, p) || Type(file, p) == IEND then []
    else (if Type(file, p) == IDAT then Data(file, p) else []) + IdatData(file, Next(file, p))
  }

  datatype Ihdr = Ihdr(width: nat, height: nat, depth: nat, color: nat)

  datatype Scan = Scan(ihdr: Option<Ihdr>, palette: seq<byte>, idatTotal: nat)

  function NoScan(): Scan { Scan(None, [], 0) }

  // What one chunk contributes to the first pass; None when the loader gives up.
  function ScanChunk(t: seq<byte>, d: seq<byte>, s: Scan): Option<Scan> {
    if t == IHDR then
      if |d| < 13 then None
      else if d[10] != 0 || d[11] != 0 || d[12] != 0 then None
      else Some(s.(ihdr := Some(Ihdr(U32(d, 0), U32(d, 4), d[8], d[9]))))
    else if t == PLTE then Some(s.(palette := d[..3 * if |d| / 3 > 256 then 256 else |d| / 3]))
    else if t == IDAT then Some(s.(idatTotal := s.idatTotal + |d|))
    else Some(s)
  }

  function ScanFrom(file: seq<byte>, p: nat, s: Scan): Option<Scan>
    requires p <= |file|
    decreases |file| - p
  {
    if !WholeChunk(file, p) || Type(file, p) == IEND then Some(s)
    else
      match ScanChunk(Type(file, p), Data(file, p), s)
      case None => None
      case Some(s') => ScanFrom(file, Next(file, p), s')
  }

  // The two passes agree: the size counted by the first is the size collected by the second.
  lemma {:induction false} PassesAgree(file: seq<byte>, p: nat, s: Scan)
    requires p <= |file| && ScanFrom(file, p, s).Some?
    ensures ScanFrom(file, p, s).value.idatTotal == s.idatTotal + |IdatData(file, p)|
    decreases |file| - p
  {
    hide U32, Type, Data;
    if WholeChunk(file, p) && Type(file, p) != IEND {
      PassesAgree(file, Next(file, p), ScanChunk(Type(file, p), Data(file, p), s).value);
    }
  }

  // Bytes per pixel of a colour type.
  function Channels(color: nat): Option<nat> {
    match color
    case 0 => Some(1)
    case 2 => Some(3)
    case 3 => Some(1)
    case 4 => Some(2)
    case 6 => Some(4)
    case _ => None
  }

  // The image a scanned file promises: width, height and bytes per pixel.
  function Shape(s: Scan): Option<(nat, nat, nat)> {
    if s.ihdr.None? then None
    else
      var h := s.ihdr.value;
      if h.width == 0 || h.height == 0 || h.width > MAX_DIM || h.height > MAX_DIM || h.depth != 8 then None
      else if Channels(h.color).None? || (h.color == 3 && s.palette == []) || s.idatTotal < 2 then None
      else Some((h.width, h.height, Channels(h.color).value))
  }

  // The pixels as the surface holds them, by row.
  datatype Image = Image(width: nat, height: nat, pixels: seq<seq<nat>>)

  // The sizes the loader computes in 32 bits do not wrap around.
  lemma RawSizeBound(w: nat, h: nat, c: nat)
    requires w <= MAX_DIM && h <= MAX_DIM && c <= 4
    ensures h * (1 + w * c) < 0x8000_0000
  {
    assert w * c <= 4 * w;
    assert h * (1 + w * c) <= h * 16385;
  }

  lemma ShapeSize(s: Scan)
    requires Shape(s).Some?
    ensures Shape(s).value.1 * (1 + Shape(s).value.0 * Shape(s).value.2) < 0x8000_0000
  {
    RawSizeBound(Shape(s).value.0, Shape(s).value.1, Shape(s).value.2);
  }

  // The restored rows, each behind its filter byte, that a zlib stream holds; its two header bytes are
  // skipped.
  function Decode(idat: seq<byte>, width: nat, height: nat, channels: nat): (r: Option<seq<byte>>)
    requires |idat| >= 2 && channels > 0
    ensures r.Some? ==> |r.value| == height * (1 + width * channels)
  {
    hide D.Inflate, Unfilter;
    var size := height * (1 + width * channels);
    match D.Inflate(idat[2..], size)
    case Err(_) => None
    case Ok(raw, _) => if |raw| != size then None else Unfilter(raw, height, Zeros(width * channels), channels)
  }

  function Argb(a: byte, r: byte, g: byte, b: byte): nat { a * 0x100_0000 + r * 0x1_0000 + g * 0x100 + b }

  // The colour of the pixel whose bytes begin at position o.
  function Shade(color: nat, palette: seq<byte>, raw: seq<byte>, o: nat): nat
    requires Channels(color).Some? && o + Channels(color).value <= |raw|
  {
    match color
    case 0 => Argb(255, raw[o], raw[o], raw[o])
    case 2 => Argb(255, raw[o], raw[o + 1], raw[o + 2])
    case 3 =>
      var i := 3 * raw[o] as int;
      if raw[o] as int < |palette| / 3 then Argb(255, palette[i], palette[i + 1], palette[i + 2])
      else Argb(255, 0, 0, 0)
    case 4 => Argb(raw[o + 1], raw[o], raw[o], raw[o])
    case _ => Argb(raw[o + 3], raw[o], raw[o + 1], raw[o + 2])
  }

  // Where the bytes of a pixel begin.
  function RowAt(w: nat, y: nat): nat { y * (1 + w) + 1 }

  function PixelAt(width: nat, channels: nat, y: nat, x: nat): nat { RowAt(width * channels, y) + x * channels }

  lemma PixelFits(width: nat, height: nat, channels: nat, y: nat, x: nat)
    requires y < height && x < width
    ensures PixelAt(width, channels, y, x) + channels <= height * (1 + width * channels)
    ensures x * channels + channels <= width * channels
  {
    var row := 1 + width * channels;
    assert (x + 1) * channels <= width * channels;
    assert (y + 1) * row <= height * row;
  }

  function Pixels(color: nat, palette: seq<byte>, raw: seq<byte>, width: nat, height: nat): (r: seq<seq<nat>>)
    requires Channels(color).Some? && |raw| == height * (1 + width * Channels(color).value)
    ensures |r| == height && forall y :: 0 <= y < height ==> |r[y]| == width
  {
    var c := Channels(color).value;
    seq(height, y requires 0 <= y < height => seq(width, x requires 0 <= x < width =>
      PixelFits(width, height, c, y, x);
      Shade(color, palette, raw, PixelAt(width, c, y, x))))
  }

  // The loader as a function of the file.
  function Load(file: seq<byte>): Option<Image> {
    hide ScanFrom, IdatData;
    if |file| < 8 || file[..8] != SIGNATURE then None
    else
      match ScanFrom(file, 8, NoScan())
      case None => None
      case Some(s) =>
        if Shape(s).None? then None
        else
          PassesAgree(file, 8, NoScan());
          var (w, h, c) := Shape(s).value;
          match Decode(IdatData(file, 8), w, h, c)
          case None => None
          case Some(raw) => Some(Image(w, h, Pixels(s.ihdr.value.color, s.palette, raw, w, h)))
  }

  // ---------- The loader ----------

  method ScanChunks(file: seq<byte>) returns (r: Option<Scan>)
    requires |file| >= 8
    ensures r == ScanFrom(file, 8, NoScan())
  {
    hide U32, ScanFrom;
    var ihdr: Option<Ihdr>, palette: seq<byte>, total: nat := None, [], 0;
    var p := 8;
    while p + 8 <= |file|
      invariant p <= |file|
      invariant ScanFrom(file, 8, NoScan()) == ScanFrom(file, p, Scan(ihdr, palette, total))
    {
      var n, t, d := U32(file, p), file[p + 4..p + 8], p + 8;
      if d + n + 4 > |file| { break; }
      ghost var s := Scan(ihdr, palette, total);
      if t == IHDR {
        ScanHeaderChunk(file, p, s);
        if n < 13 { return None; }
        var h := Ihdr(U32(file, d), U32(file, d + 4), file[d + 8], file[d + 9]);
        var compression, filter, interlace := file[d + 10], file[d + 11], file[d + 12];
        if compression != 0 || filter != 0 { return None; }
        if interlace != 0 { return None; }
        ihdr := Some(h);
      } else if t == PLTE {
        ScanPaletteChunk(file, p, s);
        var count := n / 3;
        if count > 256 { count := 256; }
        palette := file[d..d + 3 * count];
      } else if t == IDAT {
        ScanOtherChunk(file, p, s);
        total := total + n;
      } else if t == IEND {
        break;
      } else {
        ScanOtherChunk(file, p, s);
      }
      p := d + n + 4;
    }
    ScanOver(file, p, Scan(ihdr, palette, total));
    return Some(Scan(ihdr, palette, total));
  }

  lemma ScanOver(file: seq<byte>, p: nat, s: Scan)
    requires p <= |file| && (!WholeChunk(file, p) || file[p + 4..p + 8] == IEND)
    ensures ScanFrom(file, p, s) == Some(s)
  {
  }

  lemma U32Part(file: seq<byte>, p: nat)
    requires WholeChunk(file, p)
    ensures var d := Data(file, p); |d| >= 8 ==> U32(d, 0) == U32(file, p + 8) && U32(d, 4) == U32(file, p + 12)
  {
  }

  lemma ScanRound(file: seq<byte>, p: nat, s: Scan)
    requires WholeChunk(file, p)
    ensures ScanFrom(file, p, s) ==
            if Type(file, p) == IEND then Some(s)
            else
              match ScanChunk(Type(file, p), Data(file, p), s)
              case None => None
              case Some(s') => ScanFrom(file, Next(file, p), s')
  {
  }

  // A round of the first pass, by the type of the chunk.
  lemma ScanHeaderChunk(file: seq<byte>, p: nat, s: Scan)
    requires WholeChunk(file, p) && file[p + 4..p + 8] == IHDR
    ensures var n, d := U32(file, p), p + 8;
            ScanFrom(file, p, s) ==
            if n < 13 || file[d + 10] != 0 || file[d + 11] != 0 || file[d + 12] != 0 then None
            else
              ScanFrom(file, d + n + 4,
                s.(ihdr := Some(Ihdr(U32(file, d), U32(file, d + 4), file[d + 8], file[d + 9]))))
  {
    U32Part(file, p);
    ScanRound(file, p, s);
    DataPart(file, p, 0);
    hide U32, ScanFrom, Data;
  }

  lemma ScanPaletteChunk(file: seq<byte>, p: nat, s: Scan)
    requires WholeChunk(file, p) && file[p + 4..p + 8] == PLTE
    ensures var n, d := U32(file, p), p + 8;
            ScanFrom(file, p, s) ==
            ScanFrom(file, d + n + 4, s.(palette := file[d..d + 3 * if n / 3 > 256 then 256 else n / 3]))
  {
    ScanRound(file, p, s);
    DataPart(file, p, 3 * if U32(file, p) / 3 > 256 then 256 else U32(file, p) / 3);
    hide U32, ScanFrom, Data;
  }

  lemma ScanOtherChunk(file: seq<byte>, p: nat, s: Scan)
    requires WholeChunk(file, p) && file[p + 4..p + 8] != IHDR && file[p + 4..p + 8] != PLTE
    requires file[p + 4..p + 8] != IEND
    ensures var n, t, d := U32(file, p), file[p + 4..p + 8], p + 8;
            ScanFrom(file, p, s) ==
            ScanFrom(file, d + n + 4, if t == IDAT then s.(idatTotal := s.idatTotal + n) else s)
  {
    ScanRound(file, p, s);
    DataPart(file, p, 0);
    hide U32, ScanFrom, Data;
  }

  lemma DataPart(file: seq<byte>, p: nat, m: nat)
    requires WholeChunk(file, p) && m <= U32(file, p)
    ensures var d := Data(file, p);
            && |d| == U32(file, p) && d[..m] == file[p + 8..p + 8 + m]
            && forall k :: 0 <= k < |d| ==> d[k] == file[p + 8 + k]
  {
    hide U32;
  }

  method CollectIdat(file: seq<byte>, total: nat) returns (idat: array<byte>)
    requires |file| >= 8 && total == |IdatData(file, 8)|
    ensures idat[..] == IdatData(file, 8)
  {
    hide U32, Type, Data;
    hide IdatData;
    idat := new byte[total];
    var at: nat, p: nat := 0, 8;
    assert idat[..0] == [];
    while p + 8 <= |file|
      invariant p <= |file| && at + |IdatData(file, p)| == total
      invariant idat[..at] + IdatData(file, p) == IdatData(file, 8)
    {
      if p + 8 + U32(file, p) + 4 > |file| { break; }
      IdatRound(file, p);
      if Type(file, p) == IDAT {
        ghost var was := idat[..at];
        DataIs(file, p);
        CopyInto(idat, at, file, p + 8, U32(file, p));
        assert was + (Data(file, p) + IdatData(file, Next(file, p))) ==
               was + Data(file, p) + IdatData(file, Next(file, p));
        at := at + U32(file, p);
      } else if Type(file, p) == IEND {
        break;
      }
      p := p + 8 + U32(file, p) + 4;
    }
    IdatOver(file, p);
    assert idat[..at] == idat[..];
  }

  lemma IdatOver(file: seq<byte>, p: nat)
    requires p <= |file| && (!WholeChunk(file, p) || Type(file, p) == IEND)
    ensures IdatData(file, p) == []
  {
  }

  method CopyInto(a: array<byte>, at: nat, file: seq<byte>, from: nat, n: nat)
    requires at + n <= a.Length && from + n <= |file|
    modifies a
    ensures a[..at + n] == old(a[..at]) + file[from..from + n]
  {
    for i := 0 to n
      invariant a[..at + i] == old(a[..at]) + file[from..from + i]
    {
      a[at + i] := file[from + i];
    }
  }

  lemma IdatRound(file: seq<byte>, p: nat)
    requires WholeChunk(file, p)
    ensures Type(file, p) == IEND ==> IdatData(file, p) == []
    ensures Type(file, p) == IDAT ==> IdatData(file, p) == Data(file, p) + IdatData(file, Next(file, p))
    ensures Type(file, p) != IEND && Type(file, p) != IDAT ==> IdatData(file, p) == IdatData(file, Next(file, p))
  {
    hide U32, Data;
    assert [] + IdatData(file, Next(file, p)) == IdatData(file, Next(file, p));
  }

  lemma DataIs(file: seq<byte>, p: nat)
    requires WholeChunk(file, p)
    ensures Data(file, p) == file[p + 8..p + 8 + U32(file, p)]
  {
  }

  // png_load
  method PngLoad(file: seq<byte>) returns (ok: bool, pixels: array2<nat>)
    ensures ok <==> Load(file).Some?
    ensures ok ==> Shows(pixels, Load(file).value)
  {
    hide U32, ScanFrom, IdatData, D.Inflate, Unfilter, Pixels, Shows;
    ok, pixels := false, new nat[0, 0];
    if |file| < 8 { return; }
    for i := 0 to 8
      invariant file[..i] == SIGNATURE[..i]
    {
      if file[i] != SIGNATURE[i] {
        assert file[..8][i] != SIGNATURE[i];
        return;
      }
    }
    assert SIGNATURE[..8] == SIGNATURE;
    var scan := ScanChunks(file);
    if scan.None? { return; }
    var shape := Shape(scan.value);
    if shape.None? { return; }
    PassesAgree(file, 8, NoScan());
    var idat := CollectIdat(file, scan.value.idatTotal);
    var w, h, bpp := shape.value.0 * shape.value.2, shape.value.1, shape.value.2;
    assert idat[2..] == IdatData(file, 8)[2..];
    assert h * (1 + w) < 0x8000_0000 by { ShapeSize(scan.value); }
    var raw := new byte[h * (1 + w)];
    var got := I.InflateRaw(idat[2..], raw);
    ghost var spec := D.Inflate(IdatData(file, 8)[2..], h * (1 + w));
    if got != h * (1 + w) {
      assert spec.Err? || |spec.value| != h * (1 + w);
      return;
    }
    assert spec.Ok? && raw[..] == spec.value;
    ok := UnfilterInPlace(raw, h, w, bpp);
    if !ok { return; }
    pixels := ToSurface(raw, shape.value.0, h, scan.value.ihdr.value.color, scan.value.palette);
  }

  // The surface has exactly these pixels.
  ghost predicate Shows(pixels: array2<nat>, img: Image)
    reads pixels
  {
    && pixels.Length0 == img.height == |img.pixels| && pixels.Length1 == img.width
    && forall y :: 0 <= y < img.height ==>
         |img.pixels[y]| == img.width && forall x :: 0 <= x < img.width ==> pixels[y, x] == img.pixels[y][x]
  }

  // The conversion of the restored bytes to the surface.
  method ToSurface(raw: array<byte>, width: nat, height: nat, color: nat, palette: seq<byte>)
    returns (pixels: array2<nat>)
    requires Channels(color).Some? && raw.Length == height * (1 + width * Channels(color).value)
    ensures Shows(pixels, Image(width, height, Pixels(color, palette, raw[..], width, height)))
  {
    hide Shade, PixelAt, Pixels;
    var channels := Channels(color).value;
    ghost var spec := Pixels(color, palette, raw[..], width, height);
    pixels := new nat[height, width];
    for y := 0 to height
      invariant forall v, u :: 0 <= v < y && 0 <= u < width ==> pixels[v, u] == spec[v][u]
    {
      var cur := y * (1 + width * channels) + 1;
      for x := 0 to width
        invariant forall v, u :: 0 <= v < y && 0 <= u < width ==> pixels[v, u] == spec[v][u]
        invariant forall u :: 0 <= u < x ==> pixels[y, u] == spec[y][u]
      {
        PixelIs(color, palette, raw[..], width, height, y, x);
        var px := cur + x * channels;
        pixels[y, x] := Convert(raw, px, color, palette);
      }
    }
  }

  lemma PixelIs(color: nat, palette: seq<byte>, raw: seq<byte>, width: nat, height: nat, y: nat, x: nat)
    requires Channels(color).Some? && |raw| == height * (1 + width * Channels(color).value) && y < height && x < width
    ensures var c := Channels(color).value;
            var o := y * (1 + width * c) + 1 + x * c;
            && o + c <= |raw| && o == PixelAt(width, c, y, x)
            && Pixels(color, palette, raw, width, height)[y][x] == Shade(color, palette, raw, o)
  {
    hide Shade;
    PixelFits(width, height, Channels(color).value, y, x);
  }

  // The colour of one pixel, whose bytes begin at px.
  method Convert(raw: array<byte>, px: nat, color: nat, palette: seq<byte>) returns (v: nat)
    requires Channels(color).Some? && px + Channels(color).value <= raw.Length
    ensures v == Shade(color, palette, raw[..], px)
  {
    var r: byte, g: byte, b: byte, a: byte := 0, 0, 0, 255;
    match color {
      case 0 => r, g, b := raw[px], raw[px], raw[px];
      case 2 => r, g, b := raw[px], raw[px + 1], raw[px + 2];
      case 3 =>
        var i := raw[px] as int;
        if i < |palette| / 3 { r, g, b := palette[i * 3], palette[i * 3 + 1], palette[i * 3 + 2]; }
      case 4 =>
        a := raw[px + 1];
        r, g, b := raw[px], raw[px], raw[px];
      case _ =>
        a := raw[px + 3];
        r, g, b := raw[px], raw[px + 1], raw[px + 2];
    }
    v := a * 0x100_0000 + r * 0x1_0000 + g * 0x100 + b; // the bytes do not overlap, so this is the bitwise or
  }

  // ---------- Writing a PNG file (sections 3 and 4 of RFC 2083) ----------

  // The bytes of a chunk type.
  function Name(s: string): (r: seq<byte>)
    requires |s| == 4 && forall i :: 0 <= i < 4 ==> 'A' <= s[i] <= 'Z'
    ensures |r| == 4
  {
    [s[0] as int, s[1] as int, s[2] as int, s[3] as int]
  }

  lemma Names()
    ensures Name("IHDR") == IHDR && Name("PLTE") == PLTE && Name("IDAT") == IDAT && Name("IEND") == IEND
    ensures SIGNATURE == [137, 80, 78, 71, 13, 10, 26, 10] && MAX_DIM == 4096
  {
  }

  datatype Chunk = Chunk(t: seq<byte>, data: seq<byte>, crc: seq<byte>)

  predicate ValidChunk(c: Chunk) { |c.t| == 4 && |c.crc| == 4 && |c.data| < 0x1_0000_0000 }

  function ChunkBytes(c: Chunk): (r: seq<byte>)
    requires ValidChunk(c)
    ensures |r| == 12 + |c.data|
  {
    Be32(|c.data|) + c.t + c.data + c.crc
  }

  predicate ValidChunks(cs: seq<Chunk>) { forall i :: 0 <= i < |cs| ==> ValidChunk(cs[i]) && cs[i].t != Name("IEND") }

  function ChunksBytes(cs: seq<Chunk>): seq<byte>
    requires ValidChunks(cs)
  {
    if cs == [] then [] else ChunkBytes(cs[0]) + ChunksBytes(cs[1..])
  }

  // The payload of a chunk list: what its IDAT chunks hold, however it was split.
  function IdatOf(cs: seq<Chunk>): seq<byte> {
    if cs == [] then [] else (if cs[0].t == Name("IDAT") then cs[0].data else []) + IdatOf(cs[1..])
  }

  // The palette in force after the chunks: that of the last palette chunk, d without one.
  function PaletteOf(cs: seq<Chunk>, d: seq<byte>): seq<byte> {
    if cs == [] then d else PaletteOf(cs[1..], if cs[0].t == Name("PLTE") then cs[0].data else d)
  }

  function ScanAll(cs: seq<Chunk>, s: Scan): Option<Scan> {
    if cs == [] then Some(s)
    else match ScanChunk(cs[0].t, cs[0].data, s) case None => None case Some(s') => ScanAll(cs[1..], s')
  }

  ghost predicate BytesAt(file: seq<byte>, p: nat, part: seq<byte>) {
    p + |part| <= |file| && file[p..p + |part|] == part
  }

  lemma BytesAtAppend(file: seq<byte>, p: nat, a: seq<byte>, b: seq<byte>)
    ensures BytesAt(file, p, a + b) <==> BytesAt(file, p, a) && BytesAt(file, p + |a|, b)
  {
    if p + |a| + |b| <= |file| {
      var x, y := file[p..p + |a|], file[p + |a|..p + |a| + |b|];
      assert file[p..p + |a + b|] == x + y;
      assert x + y == a + b ==> x == (x + y)[..|a|] == a && y == (x + y)[|a|..] == b;
    }
  }

  lemma U32At(file: seq<byte>, p: nat, v: nat)
    requires v < 0x1_0000_0000 && BytesAt(file, p, Be32(v))
    ensures U32(file, p) == v
  {
    hide Be32;
    var b := Be32(v);
    assert file[p..p + 4] == b;
    assert U32(file[p..p + 4], 0) == v;
  }

  lemma ChunkAt(file: seq<byte>, p: nat, c: Chunk)
    requires ValidChunk(c) && BytesAt(file, p, ChunkBytes(c))
    ensures WholeChunk(file, p) && Type(file, p) == c.t && Data(file, p) == c.data
    ensures Next(file, p) == p + |ChunkBytes(c)|
  {
    hide Be32, U32;
    var len := Be32(|c.data|);
    BytesAtAppend(file, p, len + c.t + c.data, c.crc);
    BytesAtAppend(file, p, len + c.t, c.data);
    BytesAtAppend(file, p, len, c.t);
    U32At(file, p, |c.data|);
  }

  // Both passes over a written file see the chunk list and stop at IEND.
  lemma {:induction false} PassesRead(file: seq<byte>, p: nat, cs: seq<Chunk>, end: Chunk, s: Scan)
    requires ValidChunks(cs) && ValidChunk(end) && end.t == Name("IEND")
    requires BytesAt(file, p, ChunksBytes(cs) + ChunkBytes(end))
    ensures IdatData(file, p) == IdatOf(cs) && ScanFrom(file, p, s) == ScanAll(cs, s)
    decreases |cs|
  {
    hide ChunkBytes, BytesAt, Type, Data, U32, ScanChunk, Name;
    Names();
    BytesAtAppend(file, p, ChunksBytes(cs), ChunkBytes(end));
    if cs == [] {
      ChunkAt(file, p, end);
    } else {
      var rest := ChunksBytes(cs[1..]) + ChunkBytes(end);
      assert ChunksBytes(cs) + ChunkBytes(end) == ChunkBytes(cs[0]) + rest;
      BytesAtAppend(file, p, ChunkBytes(cs[0]), rest);
      ChunkAt(file, p, cs[0]);
      var s' := ScanChunk(cs[0].t, cs[0].data, s);
      PassesRead(file, p + |ChunkBytes(cs[0])|, cs[1..], end, if s'.Some? then s'.value else s);
    }
  }

  // After the header, chunks of any other type may follow in any order.
  predicate BodyChunks(cs: seq<Chunk>) { forall i :: 0 <= i < |cs| ==> cs[i].t != Name("IHDR") }

  // The scan keeps at most 256 whole entries.
  ghost predicate Holds(palette: seq<byte>, d: seq<byte>) {
    palette == d[..3 * if |d| / 3 > 256 then 256 else |d| / 3]
  }

  lemma {:induction false} ScanBody(cs: seq<Chunk>, s: Scan, d: seq<byte>)
    requires BodyChunks(cs) && Holds(s.palette, d)
    ensures var r := ScanAll(cs, s);
            && r.Some? && r.value.ihdr == s.ihdr && r.value.idatTotal == s.idatTotal + |IdatOf(cs)|
            && Holds(r.value.palette, PaletteOf(cs, d))
    decreases |cs|
  {
    hide Name;
    Names();
    if cs != [] {
      var s' := ScanChunk(cs[0].t, cs[0].data, s).value;
      ScanBody(cs[1..], s', if cs[0].t == Name("PLTE") then cs[0].data else d);
    }
  }

  function HeaderChunk(w: nat, h: nat, color: byte, crc: seq<byte>): (c: Chunk)
    requires w < 0x1_0000_0000 && h < 0x1_0000_0000
    ensures c.t != Name("IEND") && (|crc| == 4 ==> ValidChunk(c))
  {
    Chunk(Name("IHDR"), Be32(w) + Be32(h) + [8, color, 0, 0, 0], crc)
  }

  lemma ScanHeader(w: nat, h: nat, color: byte, crc: seq<byte>)
    requires w < 0x1_0000_0000 && h < 0x1_0000_0000
    ensures var c := HeaderChunk(w, h, color, crc);
            ScanChunk(c.t, c.data, NoScan()) == Some(Scan(Some(Ihdr(w, h, 8, color)), [], 0))
  {
    hide Be32, U32, Name;
    Names();
    var d := HeaderChunk(w, h, color, crc).data;
    assert BytesAt(d, 0, Be32(w)) && BytesAt(d, 4, Be32(h));
    U32At(d, 0, w);
    U32At(d, 4, h);
  }

  // An image file: signature, header, body chunks, IEND and whatever follows.
  function PngFile(header: Chunk, cs: seq<Chunk>, end: Chunk, tail: seq<byte>): seq<byte>
    requires ValidChunk(header) && header.t != Name("IEND") && ValidChunks(cs) && ValidChunk(end)
  {
    [137, 80, 78, 71, 13, 10, 26, 10] + (ChunksBytes([header] + cs) + ChunkBytes(end)) + tail
  }

  // ---------- Pixels (section 2.1 and 4.1 of RFC 2083) ----------

  datatype Pixel =
    | Grey(v: byte)
    | Rgb(r: byte, g: byte, b: byte)
    | Index(i: byte)
    | GreyAlpha(v: byte, alpha: byte)
    | Rgba(r: byte, g: byte, b: byte, alpha: byte)

  function ColorType(p: Pixel): byte {
    match p
    case Grey(_) => 0
    case Rgb(_, _, _) => 2
    case Index(_) => 3
    case GreyAlpha(_, _) => 4
    case Rgba(_, _, _, _) => 6
  }

  // The samples in the order in which they are stored.
  function Samples(p: Pixel): (s: seq<byte>)
    ensures 1 <= |s| <= 4
  {
    match p
    case Grey(v) => [v]
    case Rgb(r, g, b) => [r, g, b]
    case Index(i) => [i]
    case GreyAlpha(v, alpha) => [v, alpha]
    case Rgba(r, g, b, alpha) => [r, g, b, alpha]
  }

  // Opacity, red, green and blue of a pixel; d is the data of the palette chunk.
  datatype Colour = Colour(alpha: nat, red: nat, green: nat, blue: nat)

  function ColourOf(p: Pixel, d: seq<byte>): Colour {
    match p
    case Grey(v) => Colour(255, v, v, v)
    case Rgb(r, g, b) => Colour(255, r, g, b)
    case Index(i) =>
      var k := 3 * i as int;
      if k + 3 <= |d| then Colour(255, d[k], d[k + 1], d[k + 2]) else Colour(255, 0, 0, 0)
    case GreyAlpha(v, alpha) => Colour(alpha, v, v, v)
    case Rgba(r, g, b, alpha) => Colour(alpha, r, g, b)
  }

  // What a 32-bit pixel of a surface stands for.
  function Split(v: nat): Colour { Colour(v / 0x100_0000, v / 0x1_0000 % 0x100, v / 0x100 % 0x100, v % 0x100) }

  // A picture of this width whose pixels are all of one colour type.
  ghost predicate Picture(rows: seq<seq<Pixel>>, width: nat, color: byte) {
    && rows != [] && width > 0 && (forall y :: 0 <= y < |rows| ==> |rows[y]| == width)
    && forall y, x :: 0 <= y < |rows| && 0 <= x < width ==> ColorType(rows[y][x]) == color
  }

  function RowBytes(row: seq<Pixel>): seq<byte> { if row == [] then [] else Samples(row[0]) + RowBytes(row[1..]) }

  function PictureBytes(rows: seq<seq<Pixel>>): (r: seq<seq<byte>>)
    ensures |r| == |rows|
  {
    seq(|rows|, y requires 0 <= y < |rows| => RowBytes(rows[y]))
  }

  lemma TypeSamples(p: Pixel)
    ensures Channels(ColorType(p)) == Some(|Samples(p)|)
  {
  }

  lemma {:induction false} RowBytesAt(row: seq<Pixel>, n: nat, x: nat)
    requires forall k :: 0 <= k < |row| ==> |Samples(row[k])| == n
    ensures |RowBytes(row)| == |row| * n && (x < |row| ==> BytesAt(RowBytes(row), x * n, Samples(row[x])))
  {
    hide Samples, BytesAt;
    if row != [] {
      var first, rest := Samples(row[0]), RowBytes(row[1..]);
      assert RowBytes(row) == first + rest;
      hide RowBytes;
      MulNext(|row| - 1, n);
      if x == 0 {
        RowBytesAt(row[1..], n, 0);
        InFront(first, rest);
      } else {
        RowBytesAt(row[1..], n, x - 1);
        MulNext(x - 1, n);
        if x < |row| { Behind(first, rest, (x - 1) * n, Samples(row[x])); }
      }
    }
  }

  lemma MulNext(k: nat, n: nat)
    ensures (k + 1) * n == k * n + n
  {
  }

  lemma InFront(a: seq<byte>, b: seq<byte>)
    ensures BytesAt(a + b, 0, a)
  {
  }

  lemma Behind(a: seq<byte>, b: seq<byte>, o: nat, part: seq<byte>)
    requires BytesAt(b, o, part)
    ensures BytesAt(a + b, |a| + o, part)
  {
  }

  lemma Within(s: seq<byte>, o: nat, part: seq<byte>, i: nat, small: seq<byte>)
    requires BytesAt(s, o, part) && BytesAt(part, i, small)
    ensures BytesAt(s, o + i, small)
  {
    var a, b := s[o + i..o + i + |small|], part[i..i + |small|];
    assert forall k :: 0 <= k < |small| ==> a[k] == s[o..o + |part|][i + k] == b[k];
  }

  lemma PictureSize(rows: seq<seq<Pixel>>, width: nat, color: byte)
    requires Picture(rows, width, color)
    ensures Channels(color) == Some(|Samples(rows[0][0])|)
    ensures Rows(PictureBytes(rows), width * |Samples(rows[0][0])|)
    ensures forall y, x :: 0 <= y < |rows| && 0 <= x < |rows[y]| ==> |Samples(rows[y][x])| == |Samples(rows[0][0])|
  {
    hide Samples, Channels, ColorType;
    TypeSamples(rows[0][0]);
    forall y, x | 0 <= y < |rows| && 0 <= x < width ensures |Samples(rows[y][x])| == |Samples(rows[0][0])| {
      TypeSamples(rows[y][x]);
    }
    forall y | 0 <= y < |rows| ensures |PictureBytes(rows)[y]| == width * |Samples(rows[0][0])| {
      RowBytesAt(rows[y], |Samples(rows[0][0])|, 0);
    }
  }

  // The filtered bytes of a picture; the filters look back by whole pixels.
  ghost function Filtered(rows: seq<seq<Pixel>>, width: nat, color: byte, filters: seq<nat>): seq<byte>
    requires Picture(rows, width, color) && Filters(filters) && |filters| == |rows|
  {
    PictureSize(rows, width, color);
    var n := |Samples(rows[0][0])|;
    FilterImage(PictureBytes(rows), filters, Zeros(width * n), n)
  }

  // From pixels to a file and back: for every picture of a supported shape and colour type, every
  // choice of row filters, every DEFLATE encoding of the filtered bytes, every zlib header and trailer
  // and every way of splitting the stream into IDAT chunks among other chunks, the loader gives every
  // pixel its colour.
  lemma PngRoundTrip(
    width: nat, rows: seq<seq<Pixel>>, color: byte, filters: seq<nat>,
    blocks: seq<E.Block>, zlib: seq<byte>, stream: seq<byte>,
    crc: seq<byte>, cs: seq<Chunk>, end: Chunk, tail: seq<byte>)
    requires Picture(rows, width, color) && width <= 4096 && |rows| <= 4096 && |crc| == 4
    requires Filters(filters) && |filters| == |rows| && E.ValidStream(blocks, 0, [])
    requires E.StreamBytes(blocks, 0, []) == Filtered(rows, width, color, filters)
    requires |zlib| == 2 && E.StreamBits(blocks, 0, []) <= ToBits(stream)
    requires ValidChunks(cs) && BodyChunks(cs) && IdatOf(cs) == zlib + stream
    requires ValidChunk(end) && end.t == Name("IEND") && (color == 3 ==> |PaletteOf(cs, [])| >= 3)
    ensures var r := Load(PngFile(HeaderChunk(width, |rows|, color, crc), cs, end, tail));
            && r.Some? && r.value.width == width && r.value.height == |r.value.pixels| == |rows|
            && forall y, x :: 0 <= y < |rows| && 0 <= x < width ==>
                 |r.value.pixels[y]| == width && Split(r.value.pixels[y][x]) == ColourOf(rows[y][x], PaletteOf(cs, []))
  {
    hide *;
    Names();
    var header := HeaderChunk(width, |rows|, color, crc);
    var file, d := PngFile(header, cs, end, tail), PaletteOf(cs, []);
    PictureSize(rows, width, color);
    PictureWide(rows, width, color);
    var n := |Samples(rows[0][0])|;
    PictureIs(rows, width, color, filters);
    FileScans(width, |rows|, color, crc, cs, end, tail);
    var s := ScanFrom(file, 8, NoScan()).value;
    HoldsSome(s.palette, d);
    ImageDecodes(width, PictureBytes(rows), n, filters, blocks, zlib, stream);
    var raw := PlainImage(PictureBytes(rows), filters, width * n);
    LoadDecodes(file, s, Ihdr(width, |rows|, 8, color), raw);
    var r := Load(file).value;
    forall y, x | 0 <= y < |rows| && 0 <= x < width
      ensures |r.pixels[y]| == width && Split(r.pixels[y][x]) == ColourOf(rows[y][x], d)
    {
      PixelsOfRow(s.ihdr.value.color, s.palette, raw, width, |rows|, y);
      PixelBack(rows, width, color, filters, n, s.palette, d, y, x);
    }
  }

  lemma PictureWide(rows: seq<seq<Pixel>>, width: nat, color: byte)
    requires Picture(rows, width, color)
    ensures width > 0 && |rows| > 0 && forall y :: 0 <= y < |rows| ==> |rows[y]| == width
  {
  }

  lemma HoldsSome(palette: seq<byte>, d: seq<byte>)
    requires Holds(palette, d)
    ensures |d| >= 3 ==> palette != []
  {
  }

  lemma PictureIs(rows: seq<seq<Pixel>>, width: nat, color: byte, filters: seq<nat>)
    requires Picture(rows, width, color) && Filters(filters) && |filters| == |rows|
    requires Rows(PictureBytes(rows), width * |Samples(rows[0][0])|)
    ensures width > 0 && |rows| > 0
    ensures var n := |Samples(rows[0][0])|;
            Filtered(rows, width, color, filters) == FilterImage(PictureBytes(rows), filters, Zeros(width * n), n)
  {
    hide FilterImage, PictureBytes, Samples;
  }

  // The scan of a file gives its header, palette and payload.
  lemma FileScans(
    width: nat, height: nat, color: byte, crc: seq<byte>, cs: seq<Chunk>, end: Chunk, tail: seq<byte>)
    requires width < 0x1_0000_0000 && height < 0x1_0000_0000 && |crc| == 4
    requires ValidChunks(cs) && BodyChunks(cs) && ValidChunk(end) && end.t == Name("IEND")
    ensures var file := PngFile(HeaderChunk(width, height, color, crc), cs, end, tail);
            var r := ScanFrom(file, 8, NoScan());
            && |file| >= 8 && file[..8] == SIGNATURE && IdatData(file, 8) == IdatOf(cs)
            && r.Some? && r.value.ihdr == Some(Ihdr(width, height, 8, color))
            && r.value.idatTotal == |IdatOf(cs)| && Holds(r.value.palette, PaletteOf(cs, []))
  {
    hide ChunkBytes, ChunksBytes, IdatData, ScanFrom, BytesAt, ScanChunk, PngFile, Be32, BodyChunks, Name;
    Names();
    var header, s0 := HeaderChunk(width, height, color, crc), NoScan();
    var all, file := [header] + cs, PngFile(header, cs, end, tail);
    FileStarts(header, cs, end, tail);
    PassesRead(file, 8, all, end, s0);
    ScanHeader(width, height, color, crc);
    assert all[1..] == cs;
    ScanBody(cs, Scan(Some(Ihdr(width, height, 8, color)), [], 0), []);
    assert IdatOf(all) == [] + IdatOf(cs);
  }

  lemma ImageDecodes(
    width: nat, rows: seq<seq<byte>>, c: nat, filters: seq<nat>,
    blocks: seq<E.Block>, zlib: seq<byte>, stream: seq<byte>)
    requires 0 < width && c > 0 && Rows(rows, width * c) && Filters(filters) && |filters| == |rows|
    requires E.ValidStream(blocks, 0, [])
    requires E.StreamBytes(blocks, 0, []) == FilterImage(rows, filters, Zeros(width * c), c)
    requires |zlib| == 2 && E.StreamBits(blocks, 0, []) <= ToBits(stream)
    ensures Decode(zlib + stream, width, |rows|, c) == Some(PlainImage(rows, filters, width * c))
  {
    hide E.ValidStream, E.StreamBytes, E.StreamBits, ToBits, FilterImage, PlainImage, Zeros, Unfilter, D.Inflate;
    assert (zlib + stream)[2..] == stream;
    R.InflateInvertsEncoding(stream, blocks, |rows| * (1 + width * c));
    UnfilterInvertsFilter(rows, filters, Zeros(width * c), c);
  }

  lemma LoadDecodes(file: seq<byte>, s: Scan, h: Ihdr, raw: seq<byte>)
    requires |file| >= 8 && file[..8] == SIGNATURE && ScanFrom(file, 8, NoScan()) == Some(s)
    requires s.ihdr == Some(h) && s.idatTotal == |IdatData(file, 8)| >= 2 && (h.color == 3 ==> s.palette != [])
    requires 0 < h.width <= MAX_DIM && 0 < h.height <= MAX_DIM && h.depth == 8 && Channels(h.color).Some?
    requires Decode(IdatData(file, 8), h.width, h.height, Channels(h.color).value) == Some(raw)
    ensures |raw| == h.height * (1 + h.width * Channels(h.color).value)
    ensures Load(file) == Some(Image(h.width, h.height, Pixels(h.color, s.palette, raw, h.width, h.height)))
  {
    hide ScanFrom, IdatData, Decode, Pixels;
  }

  lemma FileStarts(header: Chunk, cs: seq<Chunk>, end: Chunk, tail: seq<byte>)
    requires ValidChunk(header) && header.t != Name("IEND") && ValidChunks(cs) && ValidChunk(end)
    ensures var file := PngFile(header, cs, end, tail);
            && |file| >= 8 && file[..8] == SIGNATURE
            && BytesAt(file, 8, ChunksBytes([header] + cs) + ChunkBytes(end))
  {
    hide ChunkBytes, ChunksBytes, Name;
  }

  // Where a row stands among the restored bytes.
  lemma {:induction false} PlainAt(rows: seq<seq<byte>>, filters: seq<nat>, w: nat, y: nat)
    requires Rows(rows, w) && Filters(filters) && |filters| == |rows| && y < |rows|
    ensures BytesAt(PlainImage(rows, filters, w), RowAt(w, y), rows[y])
  {
    hide PlainImage, BytesAt, RowAt;
    PlainFirst(rows, filters, w);
    var first, rest := [filters[0]] + rows[0], PlainImage(rows[1..], filters[1..], w);
    RowNext(w, y);
    if y == 0 {
      InFront(rows[0], rest);
      Behind([filters[0]], rows[0] + rest, 0, rows[0]);
      assert [filters[0]] + (rows[0] + rest) == first + rest;
    } else {
      PlainAt(rows[1..], filters[1..], w, y - 1);
      Behind(first, rest, RowAt(w, y - 1), rows[y]);
    }
  }

  lemma RowNext(w: nat, y: nat)
    ensures if y == 0 then RowAt(w, y) == 1 else RowAt(w, y) == 1 + w + RowAt(w, y - 1)
  {
  }

  lemma PlainFirst(rows: seq<seq<byte>>, filters: seq<nat>, w: nat)
    requires Rows(rows, w) && Filters(filters) && |filters| == |rows| && rows != []
    ensures |rows[0]| == w && Rows(rows[1..], w) && Filters(filters[1..])
    ensures PlainImage(rows, filters, w) == [filters[0]] + rows[0] + PlainImage(rows[1..], filters[1..], w)
  {
  }

  lemma SplitArgb(a: byte, r: byte, g: byte, b: byte)
    ensures Split(Argb(a, r, g, b)) == Colour(a, r, g, b)
  {
    DivModUnique(Argb(a, r, g, b), 0x100_0000, a, r * 0x1_0000 + g * 0x100 + b);
    DivModUnique(Argb(a, r, g, b), 0x1_0000, a * 0x100 + r, g * 0x100 + b);
    DivModUnique(Argb(a, r, g, b), 0x100, a * 0x1_0000 + r * 0x100 + g, b);
    DivModUnique(a * 0x100 + r, 0x100, a, r);
    DivModUnique(a * 0x1_0000 + r * 0x100 + g, 0x100, a * 0x100 + r, g);
  }

  // A pixel's samples give its colour.
  lemma ShadeIs(p: Pixel, palette: seq<byte>, d: seq<byte>, raw: seq<byte>, o: nat)
    requires BytesAt(raw, o, Samples(p)) && Holds(palette, d)
    ensures Channels(ColorType(p)) == Some(|Samples(p)|) && o + |Samples(p)| <= |raw|
    ensures Split(Shade(ColorType(p), palette, raw, o)) == ColourOf(p, d)
  {
    hide Split, Argb;
    var s := Samples(p);
    forall k | 0 <= k < |s| ensures s[k] == raw[o + k] {}
    match p
    case Grey(v) => SplitArgb(255, v, v, v);
    case Rgb(r, g, b) => SplitArgb(255, r, g, b);
    case Index(i) =>
      var k := 3 * i as int;
      if k + 3 <= |d| { SplitArgb(255, d[k], d[k + 1], d[k + 2]); } else { SplitArgb(255, 0, 0, 0); }
    case GreyAlpha(v, alpha) => SplitArgb(alpha, v, v, v);
    case Rgba(r, g, b, alpha) => SplitArgb(alpha, r, g, b);
  }

  lemma PixelsOfRow(color: nat, palette: seq<byte>, raw: seq<byte>, width: nat, height: nat, y: nat)
    requires Channels(color).Some? && |raw| == height * (1 + width * Channels(color).value) && y < height
    ensures var r := Pixels(color, palette, raw, width, height); |r| == height && |r[y]| == width
  {
    hide Shade;
  }

  lemma PixelBack(rows: seq<seq<Pixel>>, width: nat, color: byte, filters: seq<nat>, n: nat,
                  palette: seq<byte>, d: seq<byte>, y: nat, x: nat)
    requires Picture(rows, width, color) && Filters(filters) && |filters| == |rows| && y < |rows| && x < width
    requires n == |Samples(rows[0][0])| && Channels(color) == Some(n) && Rows(PictureBytes(rows), width * n)
    requires forall y, x :: 0 <= y < |rows| && 0 <= x < |rows[y]| ==> |Samples(rows[y][x])| == n
    requires Holds(palette, d)
    ensures var raw := PlainImage(PictureBytes(rows), filters, width * n);
            && |raw| == |rows| * (1 + width * n) && |rows[y]| == width
            && Split(Pixels(color, palette, raw, width, |rows|)[y][x]) == ColourOf(rows[y][x], d)
  {
    hide *;
    PictureShape(rows, width, color, y, x);
    var raw, p := PlainImage(PictureBytes(rows), filters, width * n), rows[y][x];
    PixelIs(color, palette, raw, width, |rows|, y, x);
    PixelBytes(rows, width, filters, n, y, x);
    ShadeIs(p, palette, d, raw, PixelAt(width, n, y, x));
  }

  lemma PixelBytes(rows: seq<seq<Pixel>>, width: nat, filters: seq<nat>, n: nat, y: nat, x: nat)
    requires Filters(filters) && |filters| == |rows| && y < |rows| && x < |rows[y]| == width
    requires Rows(PictureBytes(rows), width * n) && PictureBytes(rows)[y] == RowBytes(rows[y])
    requires forall y, x :: 0 <= y < |rows| && 0 <= x < |rows[y]| ==> |Samples(rows[y][x])| == n
    ensures BytesAt(PlainImage(PictureBytes(rows), filters, width * n), PixelAt(width, n, y, x), Samples(rows[y][x]))
  {
    hide PlainImage, BytesAt, RowAt, RowBytes, Samples;
    var raw := PlainImage(PictureBytes(rows), filters, width * n);
    PlainAt(PictureBytes(rows), filters, width * n, y);
    RowBytesAt(rows[y], n, x);
    Within(raw, RowAt(width * n, y), RowBytes(rows[y]), x * n, Samples(rows[y][x]));
  }

  lemma PictureShape(rows: seq<seq<Pixel>>, width: nat, color: byte, y: nat, x: nat)
    requires Picture(rows, width, color) && y < |rows| && x < width
    ensures |rows[y]| == width && ColorType(rows[y][x]) == color && PictureBytes(rows)[y] == RowBytes(rows[y])
  {
  }

  // ---------- What is accepted ----------

  // The loader comes from the chunk at p to the one at q.
  ghost predicate Reaches(file: seq<byte>, p: nat, q: nat)
    decreases |file| - p
  {
    WholeChunk(file, p) && (p == q || (Type(file, p) != Name("IEND") && Reaches(file, Next(file, p), q)))
  }

  // The chunk at q is the header of an image of this size: 8 bits to a sample, not interlaced, and of
  // one of the five colour types of section 4.1.1.
  ghost predicate HeaderOf(file: seq<byte>, q: nat, width: nat, height: nat) {
    && WholeChunk(file, q) && Type(file, q) == Name("IHDR")
    && var d := Data(file, q);
       && |d| >= 13
       && width == ((d[0] as int * 256 + d[1] as int) * 256 + d[2] as int) * 256 + d[3] as int
       && height == ((d[4] as int * 256 + d[5] as int) * 256 + d[6] as int) * 256 + d[7] as int
       && d[8] == 8 && d[9] in {0, 2, 3, 4, 6} && d[10] == d[11] == d[12] == 0
  }

  ghost predicate SomeHeader(file: seq<byte>, p: nat, h: Ihdr) {
    exists q: nat :: Reaches(file, p, q) && IhdrAt(file, q, h)
  }

  ghost predicate IhdrAt(file: seq<byte>, q: nat, h: Ihdr) {
    && WholeChunk(file, q) && Type(file, q) == IHDR
    && var d := Data(file, q);
       |d| >= 13 && d[10] == d[11] == d[12] == 0 && h == Ihdr(U32(d, 0), U32(d, 4), d[8], d[9])
  }

  lemma {:induction false} HeaderScanned(file: seq<byte>, p: nat, s: Scan)
    requires p <= |file| && ScanFrom(file, p, s).Some?
    ensures var h := ScanFrom(file, p, s).value.ihdr; h == s.ihdr || (h.Some? && SomeHeader(file, p, h.value))
    decreases |file| - p
  {
    hide U32, Data, Name, IhdrAt, ScanChunk;
    Names();
    if WholeChunk(file, p) && Type(file, p) != IEND {
      var t := ScanChunk(Type(file, p), Data(file, p), s).value;
      HeaderScanned(file, Next(file, p), t);
      var h := ScanFrom(file, p, s).value.ihdr;
      HeaderChunkScanned(file, p, s);
      if h != t.ihdr {
        var q :| Reaches(file, Next(file, p), q) && IhdrAt(file, q, h.value);
        assert Reaches(file, p, q);
      } else if h != s.ihdr {
        assert Reaches(file, p, p);
      }
    }
  }

  lemma HeaderChunkScanned(file: seq<byte>, p: nat, s: Scan)
    requires WholeChunk(file, p) && ScanChunk(Type(file, p), Data(file, p), s).Some?
    ensures var h := ScanChunk(Type(file, p), Data(file, p), s).value.ihdr;
            h == s.ihdr || (h.Some? && IhdrAt(file, p, h.value))
  {
    hide U32;
  }

  lemma HeaderFits(file: seq<byte>, q: nat, h: Ihdr)
    requires IhdrAt(file, q, h) && h.depth == 8 && Channels(h.color).Some?
    ensures HeaderOf(file, q, h.width, h.height)
  {
    hide Name, Data, WholeChunk, Type;
    Names();
  }

  lemma LoadParts(file: seq<byte>)
    requires Load(file).Some?
    ensures |file| >= 8 && file[..8] == SIGNATURE && ScanFrom(file, 8, NoScan()).Some?
    ensures var s, r := ScanFrom(file, 8, NoScan()).value, Load(file).value;
            && s.ihdr.Some? && s.ihdr.value.depth == 8 && Channels(s.ihdr.value.color).Some?
            && s.ihdr.value.width == r.width && s.ihdr.value.height == r.height
            && 1 <= r.width <= MAX_DIM && 1 <= r.height <= MAX_DIM
  {
    hide ScanFrom, Decode, Pixels, IdatData;
  }

  // Whatever file is loaded has the signature and such a header, whose size is that of the picture.
  lemma LoadsOnly(file: seq<byte>)
    requires Load(file).Some?
    ensures |file| >= 8 && file[..8] == [137, 80, 78, 71, 13, 10, 26, 10]
    ensures var r := Load(file).value;
            && 1 <= r.width <= 4096 && 1 <= r.height <= 4096
            && exists q :: Reaches(file, 8, q) && HeaderOf(file, q, r.width, r.height)
  {
    hide *;
    Names();
    LoadParts(file);
    HeaderScanned(file, 8, NoScan());
    NoHeaderYet();
    var h := ScanFrom(file, 8, NoScan()).value.ihdr.value;
    var q := HeaderFound(file, 8, h);
    HeaderFits(file, q, h);
  }

  lemma NoHeaderYet()
    ensures NoScan().ihdr == None
  {
  }

  lemma HeaderFound(file: seq<byte>, p: nat, h: Ihdr) returns (q: nat)
    requires SomeHeader(file, p, h)
    ensures Reaches(file, p, q) && IhdrAt(file, q, h)
  {
    var k: nat :| Reaches(file, p, k) && IhdrAt(file, k, h);
    q := k;
  }
}
