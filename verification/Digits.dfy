/** The characters that stand for digits. */
module Digits {
  predicate IsDigit(c: char) {
    '0' <= c <= '9'
  }
}
