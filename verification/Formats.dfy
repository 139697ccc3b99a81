/** Text formats that several programs check: digits, taxpayer numbers, hexadecimal digests and release ids. */
module Formats {
  predicate IsDigit(c: char) {
    '0' <= c <= '9'
  }

  predicate IsAlphanumeric(c: char) {
    IsDigit(c) || 'a' <= c <= 'z' || 'A' <= c <= 'Z'
  }

  /** Ten digits. */
  predicate IsInn(s: string) {
    |s| == 10 && forall c :: c in s ==> IsDigit(c)
  }

  const WEIGHTS: seq<int> := [2, 4, 10, 3, 5, 9, 4, 6, 8]

  function Weighted(s: string, weights: seq<int>): int
    requires |weights| <= |s| && forall c :: c in s ==> IsDigit(c)
  {
    if weights == [] then 0 else (s[0] as int - '0' as int) * weights[0] + Weighted(s[1..], weights[1..])
  }

  /** A ten-digit taxpayer number of a legal entity whose check digit is right. */
  predicate IsLegalInn(s: string) {
    IsInn(s) && Weighted(s, WEIGHTS) % 11 % 10 == s[9] as int - '0' as int
  }

  predicate IsHex(s: string) {
    forall c :: c in s ==> IsDigit(c) || 'a' <= c <= 'f'
  }

  /** A SHA-256 digest as it is written. */
  predicate IsDigest(s: string) {
    |s| == 64 && IsHex(s)
  }

  predicate IsSafeChar(c: char) {
    IsAlphanumeric(c) || c == '.' || c == '_' || c == '-'
  }

  predicate IsSafeRelease(s: string) {
    8 <= |s| <= 120 && forall c :: c in s ==> IsSafeChar(c)
  }
}
