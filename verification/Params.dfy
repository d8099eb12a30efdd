// Kernel constants shared by several components (param.h, fs.h).
module Params {
  const MAXOPBLOCKS: nat := 10
  const LOGSIZE: nat := 30
  const NBUF: nat := 30
  const ROOTDEV: nat := 1

  datatype Option<+T> = None | Some(value: T)

  // A call either comes back with a value or ends in panic(why).
  datatype Result<+T> = Ok(value: T) | Panic(why: string)
}
