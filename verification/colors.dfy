/** Colour values: OpenCV pixels (blue, green, red order), RGB triples and named palette colours. */
module Colors {

  /** One 8-bit channel, as stored in an OpenCV image. */
  type Byte = x: int | 0 <= x < 256

  /** A pixel or centroid as OpenCV lays it out: index 0 is blue, 1 green, 2 red. */
  datatype Bgr = Bgr(b: Byte, g: Byte, r: Byte)

  /** An (R, G, B) triple as the program returns it; channels are plain integers. */
  datatype Rgb = Rgb(r: int, g: int, b: int)

  datatype Channel = Red | Green | Blue

  /** Every channel lies in 0..255, as for the mean of bytes or a `uint8` centroid. */
  predicate InByteRange(c: Rgb)
  {
    0 <= c.r <= 255 && 0 <= c.g <= 255 && 0 <= c.b <= 255
  }

  /** A palette entry: `rgb` is the list of channel values parsed from its line. */
  datatype Color = Color(rgb: seq<int>, name: string)

  function Pick(p: Bgr, ch: Channel): Byte
  {
    match ch
    case Red => p.r
    case Green => p.g
    case Blue => p.b
  }

  function Component(c: Rgb, ch: Channel): int
  {
    match ch
    case Red => c.r
    case Green => c.g
    case Blue => c.b
  }

  /** Reads BGR indices 2, 1, 0 into an (R, G, B) triple: the same colour, reordered. */
  function ToRgb(p: Bgr): (c: Rgb)
    ensures forall ch :: Component(c, ch) == Pick(p, ch)
  {
    Rgb(p.r, p.g, p.b)
  }

  predicate IsTriple(c: Color)
  {
    |c.rgb| == 3
  }

  function RgbOf(c: Color): Rgb
    requires IsTriple(c)
  {
    Rgb(c.rgb[0], c.rgb[1], c.rgb[2])
  }

  function Square(d: int): nat
  {
    if d < 0 then (-d) * (-d) else d * d
  }

  /** Squared Euclidean distance in raw channel space. */
  function SqDist(x: Rgb, y: Rgb): nat
  {
    Square(x.r - y.r) + Square(x.g - y.g) + Square(x.b - y.b)
  }

  lemma SquareZero(d: int)
    ensures Square(d) == 0 <==> d == 0
  {
    if d < 0 {
      assert (-d) * (-d) >= -d;
    } else if d > 0 {
      assert d * d >= d;
    }
  }

  /** Distance zero exactly when the two triples coincide. */
  lemma SqDistZero(x: Rgb, y: Rgb)
    ensures SqDist(x, y) == 0 <==> x == y
  {
    SquareZero(x.r - y.r);
    SquareZero(x.g - y.g);
    SquareZero(x.b - y.b);
  }
}
