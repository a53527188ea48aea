/** What several modules share. */
module Basics {
  /** A value that may be missing: Go's nil error, a zero time, metadata that has not arrived. */
  datatype Option<+T> = None | Some(value: T)

  /** A 160-bit info-hash as a number. Its lower-case hex form is unique, so hex strings and numbers correspond. */
  type InfoHash = nat

  lemma TwiceInSeq<T>(s: seq<T>, i: nat, j: nat)
    requires i < j < |s| && s[i] == s[j]
    ensures multiset(s)[s[i]] >= 2
  {
    assert s == s[..i] + [s[i]] + s[i + 1..j] + [s[j]] + s[j + 1..];
  }
}
