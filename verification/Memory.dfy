/**
 Memory as a sequence of words, addressed by number.
 */
module Memory {
  /** The null pointer. */
  const NULL := -1
  /** Bytes of a word. */
  const WORD := 8

  /** Memories `m` and `m'` differ at most at the words of `except`. */
  ghost predicate SameBut(m: seq<int>, m': seq<int>, except: set<int>) {
    |m| == |m'| && forall i :: 0 <= i < |m| && i !in except ==> m'[i] == m[i]
  }

  /** Rounds a request in bytes up to `ALIGN` = 16 bytes, and gives the result in 8-byte words. */
  function Words(bytes: nat): (n: nat)
    ensures n % 2 == 0 && bytes <= 8 * n < bytes + 16
  {
    (if bytes % 16 == 0 then bytes else bytes + (16 - bytes % 16)) / 8
  }
}
