/**
 * Shared vocabulary of the model: optional values, octet strings and the
 * two byte-string operations the HTTP code relies on (searching for an
 * element and ISO-8859-1 decoding).
 */
module Common {

  datatype Option<T> = None | Some(value: T)

  /** An octet, as held by Python's `bytes`. */
  newtype byte = x: int | 0 <= x < 256

  type Bytes = seq<byte>

  const NL: byte := 10
  const CR: byte := 13
  const CRLF: Bytes := [CR, NL]

  function Min(a: int, b: int): int
  {
    if a <= b then a else b
  }

  /**
   * Python's `s.find(x, start)`: the first index at or after `start`
   * holding `x`, or -1 when there is none.
   */
  function Find<T(==)>(s: seq<T>, x: T, start: nat): (r: int)
    requires start <= |s|
    ensures r == -1 <==> forall i :: start <= i < |s| ==> s[i] != x
    ensures r != -1 ==> start <= r < |s| && s[r] == x
    ensures r != -1 ==> forall i :: start <= i < r ==> s[i] != x
    decreases |s| - start
  {
    if start == |s| then -1
    else if s[start] == x then start
    else Find(s, x, start + 1)
  }

  /** What `Find` finds is the first occurrence: none comes before it. */
  lemma FirstIndex<T>(s: seq<T>, x: T, i: nat)
    requires i < |s| && i == Find(s, x, 0)
    ensures s[i] == x && x !in s[..i]
  {
    assert forall k :: 0 <= k < i ==> s[..i][k] == s[k];
  }

  /** The first occurrence is found again when more data is appended. */
  lemma FindAppend<T>(a: seq<T>, b: seq<T>, x: T, start: nat)
    requires start <= |a|
    ensures Find(a, x, start) != -1 ==> Find(a + b, x, start) == Find(a, x, start)
    ensures Find(a, x, start) == -1 ==> Find(a + b, x, start) == -1 || Find(a + b, x, start) >= |a|
  {
    var r := Find(a + b, x, start);
    assert forall i :: start <= i < |a| ==> (a + b)[i] == a[i];
  }

  /** Searching from `start` is searching the suffix that begins there. */
  lemma {:induction false} FindFrom<T>(s: seq<T>, x: T, start: nat)
    requires start <= |s|
    ensures Find(s, x, start) == (if Find(s[start..], x, 0) == -1 then -1 else start + Find(s[start..], x, 0))
  {
    var r := Find(s[start..], x, 0);
    assert forall i :: 0 <= i < |s| - start ==> s[start..][i] == s[start + i];
    if r == -1 {
      assert forall i :: start <= i < |s| ==> s[i] == s[start..][i - start];
    } else {
      assert forall i :: start <= i < start + r ==> s[i] == s[start..][i - start];
    }
  }

  /** ISO-8859-1 decoding: every octet is the code point of the same value. */
  function Latin1(s: Bytes): (r: string)
    ensures |r| == |s|
    ensures forall i :: 0 <= i < |s| ==> r[i] as int == s[i] as int
  {
    seq(|s|, i requires 0 <= i < |s| => s[i] as int as char)
  }

  /** ISO-8859-1 encoding of text whose code points are all below 256. */
  function Latin1Encode(s: string): (b: Bytes)
    requires forall i :: 0 <= i < |s| ==> s[i] as int < 256
    ensures Latin1(b) == s
  {
    seq(|s|, i requires 0 <= i < |s| => s[i] as int as byte)
  }

  lemma Latin1Append(a: Bytes, b: Bytes)
    ensures Latin1(a + b) == Latin1(a) + Latin1(b)
  {
  }

  /** Concatenation of a list of octet strings (Python's `b"".join`). */
  function Join(parts: seq<Bytes>): Bytes
  {
    if parts == [] then [] else parts[0] + Join(parts[1..])
  }

  lemma JoinAppend(p: seq<Bytes>, q: seq<Bytes>)
    ensures Join(p + q) == Join(p) + Join(q)
  {
    if p != [] {
      assert (p + q)[0] == p[0];
      assert (p + q)[1..] == p[1..] + q;
      JoinAppend(p[1..], q);
    } else {
      assert p + q == q;
    }
  }
}
