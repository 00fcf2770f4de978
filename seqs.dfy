/** Facts about taking and dropping prefixes of a sequence, used by the loops over lists. */
module Seqs {

  /** The first k + 1 elements are the first k followed by element k. */
  lemma TakeOneMore<T>(s: seq<T>, k: nat)
    requires k < |s|
    ensures s[..k + 1] == s[..k] + [s[k]]
  {
  }

  /** Splitting a sequence after k elements and joining the halves gives it back. */
  lemma TakeDrop<T>(s: seq<T>, k: nat)
    requires k <= |s|
    ensures s[..k] + s[k..] == s
  {
  }

  /** A prefix of a longer prefix is the shorter prefix. */
  lemma TakeTake<T>(s: seq<T>, j: nat, k: nat)
    requires j <= k <= |s|
    ensures s[..k][..j] == s[..j]
  {
  }

  lemma TakeAll<T>(s: seq<T>)
    ensures s[..|s|] == s
  {
  }
}
