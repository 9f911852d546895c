/** Syntactic validity of identifiers: the textual UUID format of RFC 4122 section 3
    (five groups of 8, 4, 4, 4 and 12 hexadecimal digits separated by hyphens, digits
    accepted in either case). This stands in for `validate` of the uuid package. */
module Uuid {

  predicate IsHexDigit(c: char) {
    '0' <= c <= '9' || 'a' <= c <= 'f' || 'A' <= c <= 'F'
  }

  /** The offsets of the four hyphens in a 36-character UUID string. */
  predicate IsHyphenOffset(k: int) {
    k == 8 || k == 13 || k == 18 || k == 23
  }

  predicate IsUuid(s: string) {
    |s| == 36 &&
    forall k :: 0 <= k < |s| ==> if IsHyphenOffset(k) then s[k] == '-' else IsHexDigit(s[k])
  }
}
