/** Geographic points in the latitude-first order every consumer of the decoder uses. */
module Geo {

  /** A `[latitude, longitude]` pair in decimal degrees. Numbers are modelled as reals. */
  datatype Point = Point(lat: real, lng: real)
}
