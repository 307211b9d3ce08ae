/**
 * The Foundation and UIKit values the core passes around without looking
 * inside: URLs, raw bytes and decoded images.
 */
module Media {

  /** A `URL`, represented by its text (what string interpolation of it gives). */
  datatype Url = Url(text: string)

  /** A `UIImage`; its pixels are never inspected. */
  type Image(==)

  /** `Data`: raw bytes read from the network or a file. */
  type Bytes = seq<bv8>
}
