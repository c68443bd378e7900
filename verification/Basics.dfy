/** Types used by more than one component. */
module Basics {

  /** Identifiers of servers, nodes, groups and chains are 64-bit integers. */
  type int64 = i: int | -0x8000_0000_0000_0000 <= i < 0x8000_0000_0000_0000 witness 0

  datatype Option<+T> = None | Some(value: T)
}
