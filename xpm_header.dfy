/**
 * `parseDimensions` (xpm/xpm.go:112-154): the first quoted line of an XPM
 * file, "width height ncolors cpp", read as four integers and checked.
 */
module XpmHeader {
  import opened Wrappers
  import opened GoStrings
  import opened GoInts
  import opened XpmTypes

  /** The pixel ceiling `maxPixels` (xpm/xpm.go:18): width times height must stay below it. */
  const MaxPixels: int := 1024 * 1024 * 1024

  datatype Dimensions = Dimensions(width: int, height: int, colors: int, cpp: int)

  /** What the decoder gets from a header that is empty or not four fields: all zeros, and no error. */
  const NoDimensions := Dimensions(0, 0, 0, 0)

  /** A header every check accepts: positive fields and fewer than `MaxPixels` pixels. */
  predicate Admissible(d: Dimensions) {
    0 < d.width && 0 < d.height && d.width * d.height < MaxPixels && 0 < d.colors && 0 < d.cpp
  }

  /**
   * The size check exactly as xpm/xpm.go:129-136 writes it: on the Go `int`
   * product, which wraps around, and without looking at the signs of the
   * factors.
   */
  function SizeCheckAsWritten(w: int, h: int): (r: Option<Error>)
    ensures r.Some? ==> r.value == EmptyOrNegativeSize || r.value == TooManyPixels
    ensures InInt64(w * h) ==> (r == None <==> 0 < w * h < MaxPixels)
    ensures InInt64(w * h) ==> (r == Some(EmptyOrNegativeSize) <==> w * h <= 0)
  {
    var p := WrapInt64(w * h);
    if p <= 0 then Some(EmptyOrNegativeSize)
    else if p >= MaxPixels then Some(TooManyPixels)
    else None
  }

  /**
   * The size check as intended: the check as written where it already
   * rejects, and otherwise each side positive and the true product below
   * the ceiling. It differs from the written check only on headers that
   * the written check passes and Go cannot allocate.
   */
  function SizeCheck(w: int, h: int): (r: Option<Error>)
    ensures r == None <==> 0 < w && 0 < h && w * h < MaxPixels
    ensures SizeCheckAsWritten(w, h).Some? ==> r == SizeCheckAsWritten(w, h)
  {
    PositiveProduct(w, h);
    match SizeCheckAsWritten(w, h)
    case Some(e) => Some(e)
    case None =>
      if w <= 0 || h <= 0 then Some(EmptyOrNegativeSize)
      else if w * h >= MaxPixels then Some(TooManyPixels)
      else None
  }

  lemma PositiveProduct(w: int, h: int)
    ensures 0 < w && 0 < h ==> 0 < w * h
  {
    if 0 < w && 0 < h {
      MulPos(w, h);
    }
  }

  lemma MulPos(w: int, h: int)
    requires 0 < w && 0 < h
    ensures 0 < w * h
  {
  }

  /**
   * Whether Go's `image.NewNRGBA` panics for a `w` by `h` rectangle: it
   * refuses negative sides and a buffer of more than `MaxInt64` bytes.
   */
  predicate NewNrgbaPanics(w: int, h: int)
    // Where it does not panic, the buffer's byte count `4 * w * h` is a Go `int` and not negative.
    ensures !NewNrgbaPanics(w, h) ==> 0 <= w && 0 <= h && 0 <= 4 * w * h <= MaxInt64
  {
    w < 0 || h < 0 || 4 * w * h > MaxInt64
  }

  /**
   * The header parser, with the size check as a parameter so that the code
   * as written and the corrected code share every other step.
   */
  function ParseDimensionsWith(data: string, sizeCheck: (int, int) -> Option<Error>): (r: Result<Dimensions, Error>)
    ensures |data| == 0 || |Split(data, ' ')| != 4 ==> r == Ok(NoDimensions)
    ensures r.Ok? && r.value != NoDimensions ==> |data| != 0 && |Split(data, ' ')| == 4
    // A header of four fields succeeds exactly when every field is an integer and every check passes, and then gives those integers.
    ensures |data| != 0 && |Split(data, ' ')| == 4 ==>
              var f := Split(data, ' ');
              (r.Ok? <==> Atoi(f[0]).Ok? && Atoi(f[1]).Ok? && sizeCheck(Atoi(f[0]).value, Atoi(f[1]).value) == None
                          && Atoi(f[2]).Ok? && 0 < Atoi(f[2]).value && Atoi(f[3]).Ok? && 0 < Atoi(f[3]).value)
              && (r.Ok? ==> Atoi(f[0]) == Ok(r.value.width) && Atoi(f[1]) == Ok(r.value.height)
                            && Atoi(f[2]) == Ok(r.value.colors) && Atoi(f[3]) == Ok(r.value.cpp))
    // Otherwise it fails with the first failing step's error, in the order width and height, size, colours, characters per pixel.
    ensures |data| != 0 && |Split(data, ' ')| == 4 ==>
              var f := Split(data, ' ');
              (Atoi(f[0]).Err? || Atoi(f[1]).Err? ==> r == Err(NotAnInteger))
              && (Atoi(f[0]).Ok? && Atoi(f[1]).Ok? ==>
                    var size := sizeCheck(Atoi(f[0]).value, Atoi(f[1]).value);
                    (size.Some? ==> r == Err(size.value))
                    && (size.None? && Atoi(f[2]).Err? ==> r == Err(NotAnInteger))
                    && (size.None? && Atoi(f[2]).Ok? && Atoi(f[2]).value <= 0 ==> r == Err(NoPalette))
                    && (size.None? && Atoi(f[2]).Ok? && 0 < Atoi(f[2]).value ==>
                          (Atoi(f[3]).Err? ==> r == Err(NotAnInteger))
                          && (Atoi(f[3]).Ok? && Atoi(f[3]).value <= 0 ==> r == Err(BadCharsPerPixel))))
  {
    if |data| == 0 then Ok(NoDimensions)
    else
      var f := Split(data, ' ');
      if |f| != 4 then Ok(NoDimensions)
      else match (Atoi(f[0]), Atoi(f[1]))
        case (Err(_), _) => Err(NotAnInteger)
        case (_, Err(_)) => Err(NotAnInteger)
        case (Ok(w), Ok(h)) =>
          match sizeCheck(w, h)
          case Some(e) => Err(e)
          case None =>
            match Atoi(f[2])
            case Err(_) => Err(NotAnInteger)
            case Ok(ncolors) =>
              if ncolors <= 0 then Err(NoPalette)
              else match Atoi(f[3])
                case Err(_) => Err(NotAnInteger)
                case Ok(cpp) =>
                  if cpp <= 0 then Err(BadCharsPerPixel)
                  else Ok(Dimensions(w, h, ncolors, cpp))
  }

  /**
   * `parseDimensions` as xpm/xpm.go writes it: a header it accepts is all
   * zeros, or has positive colour and character counts and sides whose
   * wrapped 64-bit product is positive and below `MaxPixels`.
   */
  function ParseDimensionsAsWritten(data: string): (r: Result<Dimensions, Error>)
    ensures r.Ok? ==>
              r.value == NoDimensions ||
              (0 < r.value.colors && 0 < r.value.cpp && InInt64(r.value.width) && InInt64(r.value.height) &&
               0 < WrapInt64(r.value.width * r.value.height) < MaxPixels)
  {
    ParseDimensionsWith(data, SizeCheckAsWritten)
  }

  /**
   * `parseDimensions` as intended; the rest of the model uses this one. It
   * is the parser as written, except that a non-zero header whose sides
   * the corrected size check rejects fails with that check's error. That
   * happens only where Go goes on to call `image.NewNRGBA` and it panics.
   */
  function ParseDimensions(data: string): (r: Result<Dimensions, Error>)
    ensures r.Ok? ==> r.value == NoDimensions || Admissible(r.value)
    ensures |data| != 0 && |Split(data, ' ')| == 4 ==>
              var f := Split(data, ' ');
              (r.Ok? <==> Atoi(f[0]).Ok? && Atoi(f[1]).Ok? && Atoi(f[2]).Ok? && Atoi(f[3]).Ok?
                          && Admissible(Dimensions(Atoi(f[0]).value, Atoi(f[1]).value, Atoi(f[2]).value, Atoi(f[3]).value)))
              && (r.Ok? ==> Admissible(r.value))
    ensures r.Ok? ==> 0 <= r.value.width && 0 <= r.value.height && 0 <= r.value.colors && 0 <= r.value.cpp
    // Where the parser as written fails, this one fails alike; where they differ, Go panics allocating the image.
    ensures ParseDimensionsAsWritten(data).Err? ==> r == ParseDimensionsAsWritten(data)
    ensures r.Ok? ==> r == ParseDimensionsAsWritten(data)
    ensures r != ParseDimensionsAsWritten(data) ==>
              var d := ParseDimensionsAsWritten(data).value;
              ParseDimensionsAsWritten(data).Ok? && NewNrgbaPanics(d.width, d.height) &&
              r == Err(SizeCheck(d.width, d.height).value)
  {
    CorrectedFields(data);
    match ParseDimensionsAsWritten(data)
    case Err(e) => Err(e)
    case Ok(d) =>
      if d != NoDimensions && SizeCheck(d.width, d.height).Some? then
        SizeCheckDisagrees(d.width, d.height);
        Err(SizeCheck(d.width, d.height).value)
      else
        WrittenAccepts(data, d);
        Ok(d)
  }

  /** A four-field header passes the written parser and the corrected size check exactly when its fields are integers forming admissible dimensions. */
  lemma CorrectedFields(data: string)
    ensures |data| != 0 && |Split(data, ' ')| == 4 ==>
              var f, written := Split(data, ' '), ParseDimensionsAsWritten(data);
              (written.Ok? ==> written.value != NoDimensions)
              && (written.Ok? && SizeCheck(written.value.width, written.value.height).None?
                  <==> Atoi(f[0]).Ok? && Atoi(f[1]).Ok? && Atoi(f[2]).Ok? && Atoi(f[3]).Ok?
                       && Admissible(Dimensions(Atoi(f[0]).value, Atoi(f[1]).value, Atoi(f[2]).value, Atoi(f[3]).value)))
  {
    if |data| != 0 && |Split(data, ' ')| == 4 {
      var f := Split(data, ' ');
      assert SizeCheckAsWritten(0, 0) == Some(EmptyOrNegativeSize);
      if Atoi(f[0]).Ok? && Atoi(f[1]).Ok? {
        var w, h := Atoi(f[0]).value, Atoi(f[1]).value;
        if SizeCheck(w, h).None? {
          SizeCheckAllocatable(w, h);
        }
      }
    }
  }

  /** Where the written check passes and the corrected one rejects, Go cannot allocate the image. */
  lemma SizeCheckDisagrees(w: int, h: int)
    requires InInt64(w) && InInt64(h)
    requires SizeCheckAsWritten(w, h) == None && SizeCheck(w, h).Some?
    ensures NewNrgbaPanics(w, h)
  {
    if !NewNrgbaPanics(w, h) {
      SizeChecksAgreeWhereAllocatable(w, h);
    }
  }

  /** A header the written parser accepts, whose sides the corrected check passes, is admissible or all zeros. */
  lemma WrittenAccepts(data: string, d: Dimensions)
    requires ParseDimensionsAsWritten(data) == Ok(d)
    requires d == NoDimensions || SizeCheck(d.width, d.height).None?
    ensures d == NoDimensions || Admissible(d)
    ensures |data| != 0 && |Split(data, ' ')| == 4 ==> Admissible(d)
  {
    if |data| != 0 && |Split(data, ' ')| == 4 {
      assert SizeCheckAsWritten(0, 0) == Some(EmptyOrNegativeSize);
    }
  }

  /** The text of a header: the four numbers separated by single spaces. */
  function HeaderText(d: Dimensions): string {
    Join([Itoa(d.width), Itoa(d.height), Itoa(d.colors), Itoa(d.cpp)], " ")
  }

  /** A header made of the decimal texts of four integers splits back into those texts. */
  lemma HeaderFields(d: Dimensions)
    requires InInt64(d.width) && InInt64(d.height) && InInt64(d.colors) && InInt64(d.cpp)
    ensures HeaderText(d) != []
    ensures Split(HeaderText(d), ' ') == [Itoa(d.width), Itoa(d.height), Itoa(d.colors), Itoa(d.cpp)]
    ensures Atoi(Itoa(d.width)) == Ok(d.width) && Atoi(Itoa(d.height)) == Ok(d.height)
    ensures Atoi(Itoa(d.colors)) == Ok(d.colors) && Atoi(Itoa(d.cpp)) == Ok(d.cpp)
  {
    var parts := [Itoa(d.width), Itoa(d.height), Itoa(d.colors), Itoa(d.cpp)];
    forall j | 0 <= j < 4 ensures ' ' !in parts[j] {
      assert forall k :: 0 <= k < |parts[j]| ==> parts[j][k] != ' ';
    }
    assert [' '] == " ";
    JoinSplit(parts, ' ');
    JoinCons(parts[0], parts[1..], " ");
    AtoiItoa(d.width);
    AtoiItoa(d.height);
    AtoiItoa(d.colors);
    AtoiItoa(d.cpp);
  }

  /** Four integer fields that pass every check give exactly those dimensions. */
  lemma ParseChecked(data: string, d: Dimensions, sizeCheck: (int, int) -> Option<Error>)
    requires data != []
    requires Split(data, ' ') == [Itoa(d.width), Itoa(d.height), Itoa(d.colors), Itoa(d.cpp)]
    requires Atoi(Itoa(d.width)) == Ok(d.width) && Atoi(Itoa(d.height)) == Ok(d.height)
    requires Atoi(Itoa(d.colors)) == Ok(d.colors) && Atoi(Itoa(d.cpp)) == Ok(d.cpp)
    requires sizeCheck(d.width, d.height) == None && 0 < d.colors && 0 < d.cpp
    ensures ParseDimensionsWith(data, sizeCheck) == Ok(d)
  {
  }

  /** An admissible header written out reads back as itself. */
  lemma HeaderRoundTrip(d: Dimensions)
    requires Admissible(d)
    requires d.colors <= MaxInt64 && d.cpp <= MaxInt64
    ensures ParseDimensions(HeaderText(d)) == Ok(d)
  {
    SideBelowProduct(d.width, d.height);
    SideBelowProduct(d.height, d.width);
    assert InInt64(d.width) && InInt64(d.height);
    var text := HeaderText(d);
    HeaderFields(d);
    assert SizeCheck(d.width, d.height) == None;
    SizeCheckAllocatable(d.width, d.height);
    ParseChecked(text, d, SizeCheckAsWritten);
  }

  lemma SideBelowProduct(a: int, b: int)
    requires 0 < a && 0 < b
    ensures a <= a * b && a * b == b * a
  {
  }

  /** The example of xpm/xpm_test.go:52-58. */
  lemma ParseDimensionsExample()
    ensures ParseDimensions("5 10 2 1") == Ok(Dimensions(5, 10, 2, 1))
  {
    var d := Dimensions(5, 10, 2, 1);
    assert Itoa(5) == "5" && Itoa(10) == "10" && Itoa(2) == "2" && Itoa(1) == "1";
    assert Join(["2", "1"], " ") == "2 1";
    assert Join(["10", "2", "1"], " ") == "10 2 1";
    assert HeaderText(d) == "5 10 2 1";
    HeaderRoundTrip(d);
  }

  /** Wherever Go can allocate the image, the corrected check decides as the written one does. */
  lemma SizeChecksAgreeWhereAllocatable(w: int, h: int)
    requires InInt64(w) && InInt64(h)
    requires !NewNrgbaPanics(w, h)
    ensures SizeCheck(w, h) == SizeCheckAsWritten(w, h)
  {
    assert 0 <= w * h by {
      assert 0 <= w && 0 <= h;
    }
    assert w * h <= MaxInt64;
    assert WrapInt64(w * h) == w * h;
    if w == 0 || h == 0 {
      assert w * h == 0;
    } else {
      assert 0 < w * h by {
        assert 1 <= w && 1 <= h;
      }
    }
  }

  /** The corrected check never lets through a header Go cannot allocate. */
  lemma SizeCheckAllocatable(w: int, h: int)
    requires SizeCheck(w, h) == None
    ensures !NewNrgbaPanics(w, h)
    ensures SizeCheckAsWritten(w, h) == None
  {
    assert 4 * w * h < 4 * MaxPixels;
  }

  /** Two negative sides have a positive product and pass the check as written; Go then panics allocating. */
  lemma NegativeSidesPassAsWritten()
    ensures ParseDimensionsAsWritten("-2 -3 1 1") == Ok(Dimensions(-2, -3, 1, 1))
    ensures NewNrgbaPanics(-2, -3)
    ensures ParseDimensions("-2 -3 1 1") == Err(EmptyOrNegativeSize)
  {
    NegativeSidesText();
    var d := Dimensions(-2, -3, 1, 1);
    HeaderFields(d);
    assert WrapInt64(-2 * -3) == 6;
    ParseChecked(HeaderText(d), d, SizeCheckAsWritten);
  }

  lemma NegativeSidesText()
    ensures HeaderText(Dimensions(-2, -3, 1, 1)) == "-2 -3 1 1"
  {
    assert Itoa(-2) == "-2" && Itoa(-3) == "-3" && Itoa(1) == "1";
    assert Join(["1", "1"], " ") == "1 1";
    assert Join(["-3", "1", "1"], " ") == "-3 1 1";
  }

  /**
   * Negative sides with no colours: the check as written passes the sides
   * and Go reports the missing palette without allocating; the corrected
   * parser reports the same.
   */
  lemma NegativeSidesNoPaletteExample()
    ensures ParseDimensionsAsWritten("-2 -3 0 1") == Err(NoPalette)
    ensures ParseDimensions("-2 -3 0 1") == Err(NoPalette)
  {
    var d := Dimensions(-2, -3, 0, 1);
    assert Itoa(-2) == "-2" && Itoa(-3) == "-3" && Itoa(0) == "0" && Itoa(1) == "1";
    assert Join(["0", "1"], " ") == "0 1";
    assert Join(["-3", "0", "1"], " ") == "-3 0 1";
    assert HeaderText(d) == "-2 -3 0 1";
    HeaderFields(d);
    assert WrapInt64(-2 * -3) == 6;
  }

  /**
   * A product that wraps around in 64 bits passes the check as written:
   * 3 * 6148914691236517206 is 2^64 + 2, which a Go `int` holds as 2.
   */
  lemma WrappedProductPassesAsWritten()
    ensures SizeCheckAsWritten(3, 6148914691236517206) == None
    ensures NewNrgbaPanics(3, 6148914691236517206)
    ensures SizeCheck(3, 6148914691236517206) == Some(TooManyPixels)
  {
    assert 3 * 6148914691236517206 == 0x1_0000_0000_0000_0000 + 2;
    assert WrapInt64(3 * 6148914691236517206) == 2;
  }

  /**
   * A product that wraps around to zero: the check as written reports an
   * empty image without any allocation, and so does the corrected check.
   */
  lemma WrappedToZeroRejectedAlike()
    ensures SizeCheckAsWritten(0x1_0000_0000, 0x1_0000_0000) == Some(EmptyOrNegativeSize)
    ensures SizeCheck(0x1_0000_0000, 0x1_0000_0000) == Some(EmptyOrNegativeSize)
  {
    assert 0x1_0000_0000 * 0x1_0000_0000 == 0x1_0000_0000_0000_0000;
    assert WrapInt64(0x1_0000_0000_0000_0000) == 0;
  }
}
