/** Occurrences of a text inside another, and hexadecimal digits. */
module Text {
  /** The text `w` stands in `t` at position `pos`. */
  predicate Here(t: string, pos: nat, w: string) {
    pos + |w| <= |t| && t[pos..pos + |w|] == w
  }

  predicate IsHex(c: char) { '0' <= c <= '9' || 'a' <= c <= 'f' || 'A' <= c <= 'F' }
}
