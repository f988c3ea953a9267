/** Optional values and results with an error, used in place of Python's None and exceptions. */
module Wrappers {
  datatype Option<+T> = None | Some(value: T)

  datatype Result<+T, +E> = Success(value: T) | Failure(error: E)
}

/** Bounding boxes and the corner pairs that leaflet maps take. */
module Geometry {
  /** A bounding box in the (minx, miny, maxx, maxy) order of total_bounds and rio.bounds(). */
  datatype Bounds = Bounds(minx: real, miny: real, maxx: real, maxy: real)

  /** A point as leaflet wants it: first coordinate, second coordinate, written [a, b]. */
  datatype Corner = Corner(first: real, second: real)

  /** The [[south-west], [north-east]] pair passed to fit_bounds and ImageOverlay. */
  datatype CornerPair = CornerPair(southWest: Corner, northEast: Corner)
}
