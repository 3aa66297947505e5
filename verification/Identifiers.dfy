/** The identifier patterns of the wire protocol. */
module Identifiers {
  const MAX_UINT53 := 9007199254740991

  predicate IsHexDigit(c: char) {
    '0' <= c <= '9' || 'a' <= c <= 'f' || 'A' <= c <= 'F'
  }

  /** A UUID of version 1 to 5 in either case. */
  predicate IsUUID(s: string) {
    && |s| == 36
    && s[8] == '-' && s[13] == '-' && s[18] == '-' && s[23] == '-'
    && '1' <= s[14] <= '5' && s[19] in "89abAB"
    && forall i :: 0 <= i < |s| && i != 8 && i != 13 && i != 18 && i != 23 ==> IsHexDigit(s[i])
  }

  /** Sixty-four lower-case hexadecimal digits. */
  predicate IsDigest(s: string) {
    |s| == 64 && forall i :: 0 <= i < |s| ==> '0' <= s[i] <= '9' || 'a' <= s[i] <= 'f'
  }

  predicate IsUint53(n: int) {
    0 <= n <= 0x1F_FFFF_FFFF_FFFF
  }

  lemma UUIDHasNoSlash(s: string)
    requires IsUUID(s)
    ensures '/' !in s
  {
    forall i | 0 <= i < |s| ensures s[i] != '/' {
    }
  }
}
