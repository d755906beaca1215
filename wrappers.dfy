/** The optional values of the Swift source (`T?`) and the opaque `Any` payloads
    it passes along without looking at them. */
module Wrappers {
  datatype Option<+T> = None | Some(value: T)

  /** A value of Swift's `Any`: the model only tells payloads apart. */
  datatype Payload = Payload(token: nat)
}
