/** An optional value. For the indexing operators of the vector and matrix
    types, `None` stands for the panic on an index out of range. */
module Wrappers {

  datatype Option<+T> = None | Some(value: T)

}
