/**
 * The per-pixel record of the image being rendered and the camera the
 * antialiasing pass casts from. The grid of records is an `array2` indexed
 * [x, y], as scene.Pixels is indexed [x][y]; its two lengths are the
 * scene's width and height.
 */
module Pixels {
  import opened Vectors
  import opened Matrices
  import opened Triangles

  /**
   * The fields of a pixel record the final core reads and writes: its
   * coordinates, depth, colour and the hit of the primary ray.
   */
  datatype PixelStorage = PixelStorage(
    X: int,
    Y: int,
    Depth: real,
    Color: Vector,
    WorldLocation: Intersection)

  /** A fresh record as renderPixel starts it: Go's zero value. */
  const Blank: PixelStorage := PixelStorage(0, 0, 0.0, Zero, NoIntersection)

  /** What getPixel reads of the first observer: its position, projection and view matrices. */
  datatype Camera = Camera(Position: Vector, Projection: Matrix, View: Matrix)
}
