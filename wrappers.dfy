/** The nullable results of the C# code (`Team?`, `Agent?`, `ChatSession?`, `Guid?`). */
module Wrappers {

  datatype Option<+T> = None | Some(value: T)

}
