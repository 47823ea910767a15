/** Facts about slicing sequences, stated once for every element type so
    that the proofs that use them do not redo them among their own
    definitions. */
module Seqs {

  lemma SplitLast<T>(s: seq<T>)
    requires s != []
    ensures s == s[..|s| - 1] + [s[|s| - 1]]
  {
  }

  lemma PrefixOfPrefix<T>(s: seq<T>, n: nat, k: nat)
    requires k <= n <= |s|
    ensures s[..n][..k] == s[..k]
  {
  }

  /** The suffix from `k` without its last element is the suffix of the
      prefix without it. */
  lemma SuffixInit<T>(s: seq<T>, k: nat)
    requires k < |s|
    ensures s[k..][..|s| - k - 1] == s[..|s| - 1][k..]
    ensures s[k..][|s| - k - 1] == s[|s| - 1]
  {
  }
}
