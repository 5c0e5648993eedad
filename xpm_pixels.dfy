/**
 * The pixel buffer and `parsePixels` (xpm/xpm.go:156-181): one pixel row of
 * `width` keys of `cpp` characters, each looked up in the colour table and
 * written as four bytes into the image's row.
 */
module XpmPixels {
  import opened Wrappers
  import opened XpmTypes

  /**
   * Go's `image.NRGBA` with origin (0, 0): `pix` holds `height` rows of
   * `stride` bytes, four bytes (red, green, blue, alpha) per pixel.
   */
  class Nrgba {
    const width: nat
    const height: nat
    const stride: nat
    const pix: array<byte>

    ghost predicate Valid() {
      stride == 4 * width && pix.Length == stride * height
    }

    /** `image.NewNRGBA`: a zeroed (fully transparent) `w` by `h` image. */
    constructor (w: nat, h: nat)
      ensures Valid() && width == w && height == h && fresh(pix)
      ensures pix[..] == Zeros(4 * w * h)
    {
      width, height, stride := w, h, 4 * w;
      pix := new byte[4 * w * h](_ => 0);
      new;
      assert pix[..] == Zeros(4 * w * h);
    }
  }

  function Zeros(n: nat): (z: seq<byte>)
    ensures |z| == n && forall k :: 0 <= k < n ==> z[k] == 0
  {
    seq(n, _ => 0)
  }

  /** The bytes an opaque or fully transparent colour is stored as. */
  function ColorBytes(c: Color): (b: seq<byte>)
    ensures |b| == 4
  {
    [c.r, c.g, c.b, c.a]
  }

  /** The key of pixel `i` of a row: characters `i*cs` up to `(i+1)*cs`. */
  function PixelKey(row: string, cs: nat, i: nat): (key: string)
    requires (i + 1) * cs <= |row|
    ensures |key| == cs
  {
    row[i * cs..(i + 1) * cs]
  }

  /** The colour of pixel `i`: its key's colour, or transparent when the key is not in the table. */
  function PixelColor(row: string, cs: nat, i: nat, colors: map<string, Color>): Color
    requires (i + 1) * cs <= |row|
  {
    var key := PixelKey(row, cs, i);
    if key in colors then colors[key] else Transparent
  }

  lemma MulMono(a: nat, b: nat, c: nat)
    requires a <= b
    ensures a * c <= b * c
  {
  }

  lemma MulSucc(n: nat, c: nat)
    ensures (n + 1) * c == n * c + c
  {
  }

  /** The bytes of the first `n` pixels of a row. */
  function RowBytes(row: string, cs: nat, n: nat, colors: map<string, Color>): (b: seq<byte>)
    requires n * cs <= |row|
    ensures |b| == 4 * n
  {
    if n == 0 then []
    else
      MulMono(n - 1, n, cs);
      RowBytes(row, cs, n - 1, colors) + ColorBytes(PixelColor(row, cs, n - 1, colors))
  }

  /** Pixel `i` of a row occupies bytes `4i` to `4i+4`, and they are its key's colour. */
  lemma {:induction false} RowBytesAt(row: string, cs: nat, n: nat, colors: map<string, Color>, i: nat)
    requires n * cs <= |row|
    requires i < n
    ensures (i + 1) * cs <= |row|
    ensures RowBytes(row, cs, n, colors)[4 * i..4 * i + 4] == ColorBytes(PixelColor(row, cs, i, colors))
  {
    MulMono(i + 1, n, cs);
    MulMono(n - 1, n, cs);
    var prev := RowBytes(row, cs, n - 1, colors);
    var last := ColorBytes(PixelColor(row, cs, n - 1, colors));
    assert RowBytes(row, cs, n, colors) == prev + last;
    if i < n - 1 {
      RowBytesAt(row, cs, n - 1, colors, i);
      assert (prev + last)[4 * i..4 * i + 4] == prev[4 * i..4 * i + 4];
    } else {
      assert (prev + last)[4 * i..4 * i + 4] == last;
    }
  }

  /** Characters past the `n` keys do not matter. */
  lemma {:induction false} RowBytesIgnoresTail(row: string, extra: string, cs: nat, n: nat, colors: map<string, Color>)
    requires n * cs <= |row|
    ensures RowBytes(row + extra, cs, n, colors) == RowBytes(row, cs, n, colors)
  {
    if n > 0 {
      MulMono(n - 1, n, cs);
      RowBytesIgnoresTail(row, extra, cs, n - 1, colors);
      assert (row + extra)[(n - 1) * cs..n * cs] == row[(n - 1) * cs..n * cs];
    }
  }

  /**
   * Whether `parsePixels` fails on a row, by the meaning of its two checks:
   * the row is shorter than `width` keys, or (for an image with columns) it
   * would be row `pixRow` of an image with only `height` rows.
   */
  function RowError(row: string, cs: nat, pixRow: nat, width: nat, height: nat): (r: Option<Error>)
    // In the source's own terms: the row has fewer than `cs * width` characters, or its bytes end past the buffer.
    ensures r == Some(MissingPixelData) <==> |row| < cs * width
    ensures r == Some(TooMuchPixelData) <==> cs * width <= |row| && height * (4 * width) < pixRow * (4 * width) + 4 * width
    ensures r == None <==> cs * width <= |row| && pixRow * (4 * width) + 4 * width <= height * (4 * width)
  {
    RowFits(width, height, pixRow);
    if |row| < cs * width then Some(MissingPixelData)
    else if width > 0 && pixRow >= height then Some(TooMuchPixelData)
    else None
  }

  lemma RowFits(w: nat, h: nat, p: nat)
    ensures w > 0 ==> (4 * w * h < p * (4 * w) + 4 * w <==> p >= h)
  {
    if w > 0 {
      assert p * (4 * w) + 4 * w == (p + 1) * (4 * w);
      assert 4 * w * h == h * (4 * w);
      if p >= h {
        MulMono(h, p, 4 * w);
      } else {
        MulMono(p + 1, h, 4 * w);
      }
    }
  }

  /** Stores one pixel's four colour bytes at `pos`; nothing else changes. */
  method SetPixel(pix: array<byte>, pos: nat, c: Color)
    requires pos + 4 <= pix.Length
    modifies pix
    ensures pix[..] == old(pix[..])[..pos] + ColorBytes(c) + old(pix[..])[pos + 4..]
  {
    pix[pos] := c.r;
    pix[pos + 1] := c.g;
    pix[pos + 2] := c.b;
    pix[pos + 3] := c.a;
    assert pix[..] == old(pix[..])[..pos] + ColorBytes(c) + old(pix[..])[pos + 4..];
  }

  /**
   * The loop of xpm/xpm.go:164-179: pixel `i`'s colour bytes go to offset
   * `off + 4i`, for each of the `w` columns; nothing outside the row changes.
   */
  method WriteRow(pix: array<byte>, off: nat, row: string, cs: nat, w: nat, colors: map<string, Color>)
    requires off + 4 * w <= pix.Length
    requires w * cs <= |row|
    modifies pix
    ensures pix[..] == old(pix[..])[..off] + RowBytes(row, cs, w, colors) + old(pix[..])[off + 4 * w..]
  {
    ghost var was := pix[..];
    var chPos, pos := 0, off;
    for i := 0 to w
      invariant chPos == i * cs && pos == off + 4 * i
      invariant pix[..] == was[..off] + RowBytes(row, cs, i, colors) + was[pos..]
    {
      MulSucc(i, cs);
      MulMono(i + 1, w, cs);
      var id := row[chPos..chPos + cs];
      var c := if id in colors then colors[id] else Transparent;
      ghost var now := pix[..];
      SetPixel(pix, pos, c);
      WriteStep(was, off, row, cs, i, colors, c, now, pix[..]);
      chPos, pos := chPos + cs, pos + 4;
    }
  }

  /** One turn of the loop of `WriteRow`: pixel `i`'s bytes follow the first `i` pixels'. */
  lemma WriteStep(was: seq<byte>, off: nat, row: string, cs: nat, i: nat, colors: map<string, Color>,
                  c: Color, now: seq<byte>, after: seq<byte>)
    requires (i + 1) * cs <= |row| && off + 4 * i + 4 <= |was|
    requires c == (var id := row[i * cs..i * cs + cs]; if id in colors then colors[id] else Transparent)
    requires now == was[..off] + RowBytes(row, cs, i, colors) + was[off + 4 * i..]
    requires after == now[..off + 4 * i] + ColorBytes(c) + now[off + 4 * i + 4..]
    ensures after == was[..off] + RowBytes(row, cs, i + 1, colors) + was[off + 4 * i + 4..]
  {
    var done := RowBytes(row, cs, i, colors);
    assert c == PixelColor(row, cs, i, colors);
    assert RowBytes(row, cs, i + 1, colors) == done + ColorBytes(c);
    var pre := was[..off] + done;
    var post := was[off + 4 * i..];
    assert now == pre + post;
    assert now[..off + 4 * i] == pre;
    assert now[off + 4 * i + 4..] == post[4..] == was[off + 4 * i + 4..];
  }

  /**
   * `parsePixels`: checks the row against the image, then writes the row's
   * pixels into image row `pixRow`; no other byte changes.
   */
  method ParsePixels(row: string, cs: nat, pixRow: nat, colors: map<string, Color>, img: Nrgba)
    returns (err: Option<Error>)
    requires img.Valid()
    modifies img.pix
    ensures err == RowError(row, cs, pixRow, img.width, img.height)
    ensures err.Some? ==> img.pix[..] == old(img.pix[..])
    ensures err.None? ==>
              var off := pixRow * img.stride;
              off + img.stride <= img.pix.Length && cs * img.width <= |row| &&
              img.pix[..] == old(img.pix[..])[..off] + RowBytes(row, cs, img.width, colors)
                             + old(img.pix[..])[off + img.stride..]
  {
    var w := img.stride / 4;
    if |row| < cs * w {
      return Some(MissingPixelData);
    }
    var off := pixRow * img.stride;
    if img.pix.Length < off + img.stride {
      RowFits(w, img.height, pixRow);
      return Some(TooMuchPixelData);
    }
    if w > 0 {
      RowFits(w, img.height, pixRow);
    }
    WriteRow(img.pix, off, row, cs, w, colors);
    return None;
  }
}
