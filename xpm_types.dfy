/** The values the XPM decoder hands around: bytes, colours and its error kinds. */
module XpmTypes {

  type byte = x: int | 0 <= x < 256

  /** A colour as the four bytes the decoder stores per pixel: red, green, blue, alpha. */
  datatype Color = Color(r: byte, g: byte, b: byte, a: byte)

  /** Go's `color.Transparent`: every channel zero. */
  const Transparent := Color(0, 0, 0, 0)

  /**
   * Why a decode failed. The decoder reports each of these with its own
   * message; the model keeps the kind (and the offending key for an
   * unknown visual).
   */
  datatype Error =
    | MissingColorSpec          // a colour line without a usable `c` definition
    | UnknownVisual(key: string) // a colour line whose entry key is not c, m, s, g4 or g
    | InvalidHexColor           // a `#` colour that is neither 4 nor 7 characters long
    | HexScan                   // a `#` colour of the right length with a non-hex digit
    | InvalidColorName          // a colour name missing from the X11 table
    | EmptyOrNegativeSize       // the header's width times height is not positive
    | TooManyPixels             // the header's width times height reaches the pixel ceiling
    | NoPalette                 // the header's colour count is not positive
    | BadCharsPerPixel          // the header's characters-per-pixel is not positive
    | NotAnInteger              // a header field that strconv.Atoi rejects
    | MissingPixelData          // a pixel row shorter than width keys
    | TooMuchPixelData          // a pixel row beyond the image's last row
}
