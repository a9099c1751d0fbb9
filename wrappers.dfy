/** The optional result that the decoders and buffer peeks return (std::optional). */
module Wrappers {

  datatype Option<+T> = None | Some(value: T)

}
