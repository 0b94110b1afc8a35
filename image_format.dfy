/** The three output formats the capture service accepts (`'png' | 'jpg' | 'webp'`). */
module ImageFormat {

  datatype Format = Png | Jpg | Webp

  /** The literal the format is written as in a request and in the settings form. */
  function FormatName(f: Format): (s: string)
    ensures s == "png" || s == "jpg" || s == "webp"
    ensures s == "png" <==> f == Png
    ensures s == "webp" <==> f == Webp
  {
    match f
    case Png => "png"
    case Jpg => "jpg"
    case Webp => "webp"
  }
}
