/**
 Images as the relay sees them: an identity and a (height, width) shape.
 Pixels, colour channels, the drawn border and the "Stream Offline" label are
 not modelled; only which picture an image shows and the shape numpy gives it.
 */
module Images {
  import opened Common

  /** What an image shows. */
  datatype Content =
    | OfflineNotice              // the "Stream Offline" placeholder of an ingestor
    | Black                      // `zeros(...)`: the blank cell of a composite
    | Decoded(payload: seq<byte>) // the frame `pickle.loads` produced from these bytes

  /** A numpy image of `height` rows and `width` columns. */
  datatype Image = Image(content: Content, height: nat, width: nat)
}
