/**
 * What the password stores take from outside: SHA-256 and a block-cipher
 * encryption, as deterministic functions the caller supplies.  Nothing is
 * assumed of them beyond the digest length; salts, keys and the random
 * coefficients are passed in as values.  Also Python's and Ruby's slicing
 * rules for the suffixes the stores cut off hashes.
 */
module Crypto {
  import opened Outcomes

  type Bytes = seq<bv8>

  /** A SHA-256 digest: 32 bytes. */
  type Digest = s: Bytes | |s| == 32 witness seq(32, i => 0)

  /** The two primitives: the hash, and encryption under a key. */
  datatype Primitives = Primitives(sha256: Bytes -> Digest, encrypt: (Bytes, Bytes) -> Bytes)

  /** The hash applied n times to x. */
  function Rehash(h: Bytes -> Digest, n: nat, x: Bytes): (r: Bytes)
    ensures n > 0 ==> |r| == 32
  {
    if n == 0 then x else h(Rehash(h, n - 1, x))
  }

  /** Rehashing splits: n then m applications are n + m applications. */
  lemma {:induction false} RehashAdd(h: Bytes -> Digest, n: nat, m: nat, x: Bytes)
    ensures Rehash(h, m, Rehash(h, n, x)) == Rehash(h, n + m, x)
    decreases m
  {
    if m > 0 {
      RehashAdd(h, n, m - 1, x);
    }
  }

  /** The loop `for i in range(1, n): d = sha256(d).digest()`, n - 1 rounds. */
  method RehashLoop(h: Bytes -> Digest, n: int, x: Bytes) returns (d: Bytes)
    ensures n >= 1 ==> d == Rehash(h, n - 1, x)
    ensures n < 1 ==> d == x
  {
    d := x;
    var i := 1;
    while i < n
      invariant n >= 1 ==> 1 <= i <= n
      invariant n >= 1 ==> d == Rehash(h, i - 1, x)
      invariant n < 1 ==> d == x
    {
      d := h(d);
      i := i + 1;
    }
  }

  /** Python's s[start:]: a negative start counts from the end. */
  function PyDrop(s: Bytes, start: int): (r: Bytes)
    ensures 0 <= start <= |s| ==> r == s[start..]
    ensures start < 0 && |s| + start >= 0 ==> r == s[|s| + start..]
    ensures |r| <= |s|
  {
    if start >= 0 then (if start <= |s| then s[start..] else [])
    else if |s| + start >= 0 then s[|s| + start..]
    else s
  }

  /** Python's s[:stop]: a negative stop counts from the end. */
  function PyTake(s: Bytes, stop: int): (r: Bytes)
    ensures 0 <= stop <= |s| ==> r == s[..stop]
    ensures stop < 0 && |s| + stop >= 0 ==> r == s[..|s| + stop]
    ensures |r| <= |s|
  {
    if stop >= 0 then (if stop <= |s| then s[..stop] else s)
    else if |s| + stop >= 0 then s[..|s| + stop]
    else []
  }

  /** The last k bytes, for 0 <= k <= |s|, by either slice. */
  lemma SuffixLength(s: Bytes, k: int)
    requires 0 <= k <= |s|
    ensures PyDrop(s, |s| - k) == s[|s| - k..] && |PyDrop(s, |s| - k)| == k
    ensures PyTake(s, |s| - k) + PyDrop(s, |s| - k) == s
  {
  }

  /** Masking with one byte and unmasking with another changes the data byte. */
  lemma ByteXorCancel(x: bv8, y: bv8, z: bv8)
    requires y != x
    ensures y ^ (x ^ z) != z
  {
  }

  /**
   * Ruby's s[a..b] with both ends inclusive: a negative index counts from
   * the end, an end past the string is cut to it, and a start outside the
   * string gives nil (None).
   */
  function RubyRange(s: Bytes, a: int, b: int): (r: Option<Bytes>)
    ensures 0 <= a <= b + 1 <= |s| && b >= 0 ==> r == Some(s[a..b + 1])
    ensures 0 <= a <= |s| && b == -1 ==> r == Some(s[a..])
    ensures a > |s| ==> r == None
    ensures a == 0 ==> r.Some?
  {
    var lo := if a < 0 then |s| + a else a;
    var hi := if b < 0 then |s| + b else b;
    if lo < 0 || lo > |s| then None
    else if hi < lo then assert lo == |s| ==> s[lo..lo] == s[lo..]; Some(s[lo..lo])
    else if hi >= |s| - 1 then assert s[lo..] == s[lo..|s|]; Some(s[lo..])
    else Some(s[lo..hi + 1])
  }
}
