/** UUIDs as text. */
module Identifiers {

  predicate IsHex(c: char) { '0' <= c <= '9' || 'a' <= c <= 'f' }

  predicate IdChar(c: char) { IsHex(c) || c == '-' }

  const ID_LENGTH := 36
  const HEX_LENGTH := 32

  const ZERO_ID := seq(ID_LENGTH, _ => '0')
  const ZERO_HEX := seq(HEX_LENGTH, _ => '0')

  /** `str(uuid)`. */
  type Id = s: string | |s| == ID_LENGTH && forall i :: 0 <= i < |s| ==> IdChar(s[i]) witness ZERO_ID

  /** `uuid.hex`. */
  type HexId = s: string | |s| == HEX_LENGTH && forall i :: 0 <= i < |s| ==> IsHex(s[i]) witness ZERO_HEX
}
