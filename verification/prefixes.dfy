/** Facts about prefixes of a sequence that loops over it rely on. */
module Prefixes {

  /** Taking one element more and then dropping it again gives the shorter prefix back. */
  lemma PrefixStep<T>(s: seq<T>, k: nat)
    requires k < |s|
    ensures s[..k + 1][..k] == s[..k]
  {
  }

  /** The prefix as long as the sequence is the sequence. */
  lemma WholePrefix<T>(s: seq<T>)
    ensures s[..|s|] == s
  {
  }
}
