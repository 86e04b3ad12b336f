/** The values exchanged by the voter: proposals, and the messages that carry them. */
module Proposals {

  datatype Option<T> = None | Some(value: T)

  /** Go's `int` on a 64-bit platform, the type of a proposal id. */
  newtype int64 = x: int | -0x8000_0000_0000_0000 <= x < 0x8000_0000_0000_0000

  const MaxInt64: int64 := 0x7FFF_FFFF_FFFF_FFFF
  const MinInt64: int64 := -0x8000_0000_0000_0000

  predicate InInt64(x: int) {
    -0x8000_0000_0000_0000 <= x < 0x8000_0000_0000_0000
  }

  /** Go's `x + 1` on `int`: 64-bit two's-complement addition, which wraps at the top. */
  function Succ(x: int64): (r: int64)
    ensures r as int == (x as int + 1 + 0x8000_0000_0000_0000) % 0x1_0000_0000_0000_0000 - 0x8000_0000_0000_0000
  {
    if x == MaxInt64 then MinInt64 else x + 1
  }

  /** The `proposal` struct; equality is field-wise, as for a Go struct used as a map key. */
  datatype Proposal = Proposal(id: int64, value: char, serverId: string)

  /** Go's zero value of `proposal`. */
  const Zero: Proposal := Proposal(0, '\0', "")

  /** One call of `sendValue(peer, p)`: the proposal `p` addressed to `peer`. */
  datatype Message = Send(to: string, proposal: Proposal)
}
