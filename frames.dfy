/** What both renderers share: the frame the external frame provider returns, the
    options the renderers pass through to it, and the string-or-object argument. */
module Frames {

  datatype Option<T> = None | Some(value: T) {
    /** The carried value, or `default` when the key is absent. */
    function GetOr(default: T): T {
      match this
      case Some(v) => v
      case None => default
    }
  }

  /** Options of the frame provider (error-correction level, margin, ...) that the
      renderers hand over without reading them: key to value. */
  type ProviderOptions = map<string, string>

  /** A square bitmap of side `size`, row-major: row `r`, column `c` is `buffer[r * size + c]`. */
  datatype Frame = Frame(size: nat, buffer: seq<int>)

  /** What the frame provider guarantees of every frame it returns. */
  predicate IsFrame(frame: Frame) {
    frame.size > 0 && |frame.buffer| == frame.size * frame.size
  }

  /** A renderer's argument: either the bare value to encode, or an options object. */
  datatype Input<O> = Text(value: string) | Options(options: O)
}
