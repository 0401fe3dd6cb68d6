/** The balance arithmetic (internal/domain/engine/engine.go), with the source's integer widths.

    Every narrowing conversion is written out. The contracts state what the operations compute on
    unbounded integers, so no conversion here loses anything. */
module Engine {
  import opened Encoding

  type int8 = x: int | -0x80 <= x < 0x80

  // Go conversions: a value outside the target's range keeps only its low bits.

  function ToUint8(x: int): uint8 { if 0 <= x < 0x100 then x else x % 0x100 }

  function ToInt8(x: int): int8 { if -0x80 <= x < 0x80 then x else (x + 0x80) % 0x100 - 0x80 }

  function ToInt16(x: int): int { if -0x8000 <= x < 0x8000 then x else (x + 0x8000) % 0x1_0000 - 0x8000 }

  function ToInt32(x: int): int {
    if -0x8000_0000 <= x < 0x8000_0000 then x else (x + 0x8000_0000) % 0x1_0000_0000 - 0x8000_0000
  }

  function ToUint32(x: int): uint32 { if 0 <= x < 0x1_0000_0000 then x else x % 0x1_0000_0000 }

  /** Restriction to the range of a colour channel, on unbounded integers. */
  function Clamp(x: int): uint8 {
    if x < 0 then 0 else if x > 255 then 255 else x
  }

  datatype PlayerState = PlayerState(r: uint8, g: uint8, b: uint8, nonce: uint64)

  datatype Reward = Reward(r: int8, g: int8, b: int8)

  function Calculation(color: uint8, val: int8): (r: uint8)
    ensures r == Clamp(color + val)
  {
    var result := ToInt16(ToInt16(color) + ToInt16(val));
    if result < 0 then 0
    else if result > 255 then 255
    else ToUint8(result)
  }

  function ClampUint8(v: int): (r: uint8)
    ensures r == Clamp(v)
  {
    if v < 0 then 0
    else if v > 255 then 255
    else ToUint8(v)
  }

  /** `from` carries the amounts to move, `to` the receiver's balance. */
  function PlayerTransactions(from: PlayerState, to: PlayerState): (res: (PlayerState, PlayerState))
    ensures res.0 == PlayerState(0, 0, 0, NextNonce(from.nonce))
    ensures res.1 == PlayerState(Clamp(to.r + from.r), Clamp(to.g + from.g), Clamp(to.b + from.b), NextNonce(to.nonce))
  {
    var newToR := ClampUint8(ToInt32(ToInt32(to.r) + ToInt32(from.r)));
    var newToG := ClampUint8(ToInt32(ToInt32(to.g) + ToInt32(from.g)));
    var newToB := ClampUint8(ToInt32(ToInt32(to.b) + ToInt32(from.b)));
    (PlayerState(0, 0, 0, NextNonce(from.nonce)), PlayerState(newToR, newToG, newToB, NextNonce(to.nonce)))
  }

  function PlayerCompleteMission(play: PlayerState, reward: Reward): (s: PlayerState)
    ensures s == PlayerState(Clamp(play.r + reward.r), Clamp(play.g + reward.g), Clamp(play.b + reward.b),
                             NextNonce(play.nonce))
  {
    PlayerState(Calculation(play.r, reward.r), Calculation(play.g, reward.g), Calculation(play.b, reward.b),
                NextNonce(play.nonce))
  }
}
