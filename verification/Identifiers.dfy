/** The two identifier alphabets that the agent host accepts. */
module Identifiers {

  predicate IsAlphanumeric(c: char) {
    'A' <= c <= 'Z' || 'a' <= c <= 'z' || '0' <= c <= '9'
  }

  /** `[A-Za-z0-9_-]{1,128}` */
  predicate ValidResourceId(s: string) {
    1 <= |s| <= 128 && forall i | 0 <= i < |s| :: IsAlphanumeric(s[i]) || s[i] == '_' || s[i] == '-'
  }

  /** `[A-Za-z0-9._-]{1,128}` */
  predicate ValidConsentVersion(s: string) {
    1 <= |s| <= 128
    && forall i | 0 <= i < |s| :: IsAlphanumeric(s[i]) || s[i] == '.' || s[i] == '_' || s[i] == '-'
  }
}
