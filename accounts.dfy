/**
 * Provider account numbers: `"ACC-"` followed by the first eight hex digits, upper-cased,
 * of the SHA-1 digest of the normalised email. The digest is a parameter of the model:
 * any function from the normalised text to its lower-case hex digest.
 */
module Accounts {
  import opened Wrappers
  import opened Text

  /** `(email or "").strip().lower()`. */
  function Normalize(email: Option<string>): (r: string)
    ensures r == [] || (!IsSpace(r[0]) && !IsSpace(r[|r| - 1]))
    ensures forall i :: 0 <= i < |r| ==> !('A' <= r[i] <= 'Z')
  {
    var s := match email case None => "" case Some(e) => e;
    Lower(Strip(s))
  }

  /** `s[:n]`: a prefix of at most `n` characters. */
  function Take(s: string, n: nat): (r: string)
    ensures |r| == if |s| < n then |s| else n
    ensures r == s[..|r|]
  {
    if |s| < n then s else s[..n]
  }

  /** `generate_account_number_for_email`, with `sha1Hex` standing for `hashlib.sha1(...).hexdigest()`. */
  function AccountNumber(email: Option<string>, sha1Hex: string -> string): string {
    FromDigest(sha1Hex(Normalize(email)))
  }

  predicate IsLowerHex(c: char) {
    ('0' <= c <= '9') || ('a' <= c <= 'f')
  }

  predicate IsUpperHex(c: char) {
    ('0' <= c <= '9') || ('A' <= c <= 'F')
  }

  /** The account number made from a digest: `ACC-` and the digest's first eight characters, upper-cased. */
  function FromDigest(digest: string): string {
    "ACC-" + Upper(Take(digest, 8))
  }

  /**
   * For a digest of lower-case hex digits of at least eight characters, as SHA-1's forty
   * always is, the account number is `ACC-` and eight upper-case hex digits, the digest's
   * first eight.
   */
  lemma FromDigestShape(d: string)
    requires |d| >= 8 && forall i :: 0 <= i < |d| ==> IsLowerHex(d[i])
    ensures |FromDigest(d)| == 12 && FromDigest(d)[..4] == "ACC-"
    ensures forall i :: 4 <= i < 12 ==> FromDigest(d)[i] == UpperChar(d[i - 4]) && IsUpperHex(FromDigest(d)[i])
  {
    var t := Take(d, 8);
    var u := Upper(t);
    var r := "ACC-" + u;
    forall i | 4 <= i < 12 ensures r[i] == UpperChar(d[i - 4]) && IsUpperHex(r[i]) {
      assert r[i] == u[i - 4];
      assert t[i - 4] == d[i - 4];
      UpperHex(d[i - 4]);
    }
  }

  lemma UpperHex(c: char)
    requires IsLowerHex(c)
    ensures IsUpperHex(UpperChar(c))
  {
  }

  /** Normalising twice is normalising once. */
  lemma NormalizeIdempotent(email: Option<string>)
    ensures Normalize(Some(Normalize(email))) == Normalize(email)
  {
    var n := Normalize(email);
    StripTrimmed(n);
    LowerIdempotent(Strip(match email case None => "" case Some(e) => e));
  }

  /**
   * The account number depends only on the normalised email: an address differing in
   * surrounding whitespace or in letter case, or a missing email and an empty one, give
   * the same number.
   */
  lemma AccountNumberOfNormalized(email: Option<string>, sha1Hex: string -> string)
    ensures AccountNumber(email, sha1Hex) == AccountNumber(Some(Normalize(email)), sha1Hex)
    ensures AccountNumber(None, sha1Hex) == AccountNumber(Some(""), sha1Hex)
  {
    NormalizeIdempotent(email);
  }

  /**
   * An address padded with whitespace, in any letter case, has the account number of
   * the same address trimmed and in lower case.
   */
  lemma PaddingAndCaseIgnored(before: string, email: string, after: string, sha1Hex: string -> string)
    requires forall i :: 0 <= i < |before| ==> IsSpace(before[i])
    requires forall i :: 0 <= i < |after| ==> IsSpace(after[i])
    requires email != [] && !IsSpace(email[0]) && !IsSpace(email[|email| - 1])
    ensures AccountNumber(Some(before + email + after), sha1Hex) == AccountNumber(Some(Lower(email)), sha1Hex)
  {
    StripPadded(before, email, after);
    StripTrimmed(Lower(email));
    LowerIdempotent(email);
  }
}
