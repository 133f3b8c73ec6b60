/** The nullable results of the packer: a C# `string?` becomes an `Option<string>`. */
module Wrappers {

  /** `None` stands for a C# `null`; `Some(v)` for a present value `v`. */
  datatype Option<+T> = None | Some(value: T)
}
