/** Blocks of eight by eight values. */
module Blocks {
  type Block = s: seq<int> | |s| == 64 witness seq(64, _ => 0)

  const ZERO: Block := seq(64, _ => 0)
}
