/** Text as the program's own strings and buffers hold it: bytes. */
module Bytes {
  newtype Byte = x: int | 0 <= x < 256

  type Text = seq<Byte>

  /** `v` occurs in `s` at offset `o`. */
  predicate OccursAt(s: Text, v: Text, o: nat) {
    o + |v| <= |s| && forall i | 0 <= i < |v| :: s[o + i] == v[i]
  }

  predicate Contains(s: Text, v: Text) {
    exists o: nat | o + |v| <= |s| :: OccursAt(s, v, o)
  }
}
