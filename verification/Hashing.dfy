/** Bytes, 32-byte digests and explicit collisions.

    SHA-256 is never assumed to be injective. Every operation takes the hash
    function as a parameter `h`, and every binding result is stated as "the two
    inputs agree, or here are two different byte strings with one digest". The
    pair is computed by an ordinary function from the data at hand, so it is a
    collision that somebody would really have found.
 */
module Hashing {

  newtype byte = b: int | 0 <= b < 256

  type Bytes = seq<byte>

  type Digest = d: Bytes | |d| == 32 witness seq(32, i => 0)

  type HashFunction = Bytes -> Digest

  datatype Clash = Clash(first: Bytes, second: Bytes)

  predicate IsClash(h: HashFunction, c: Clash) {
    c.first != c.second && h(c.first) == h(c.second)
  }

  /** The result of a binding argument: nothing to report, or a collision. */
  datatype Finding = NoClash | Found(clash: Clash)

  /** A finding never reports anything but a genuine collision. */
  predicate Genuine(h: HashFunction, f: Finding) {
    f.Found? ==> IsClash(h, f.clash)
  }

  /** Compare two preimages whose digests are already known to be equal. */
  function Compare(h: HashFunction, x: Bytes, y: Bytes): (f: Finding)
    requires h(x) == h(y)
    ensures Genuine(h, f)
    ensures f.NoClash? <==> x == y
  {
    if x == y then NoClash else Found(Clash(x, y))
  }

  /** The first finding of two, in order. */
  function Either(f: Finding, g: Finding): Finding {
    if f.Found? then f else g
  }

  /** ASCII text as bytes; characters outside the byte range become zero. */
  function Ascii(s: string): (r: Bytes)
    ensures |r| == |s|
  {
    seq(|s|, i requires 0 <= i < |s| =>
      if s[i] as int < 256 then s[i] as int as byte else 0)
  }

  /** A payload under a domain and a one-byte tag. */
  function Framed(domain: Bytes, tag: byte, payload: Bytes): Bytes {
    domain + [tag] + payload
  }

  lemma FramedInjective(domain: Bytes, t: byte, x: Bytes, u: byte, y: Bytes)
    requires Framed(domain, t, x) == Framed(domain, u, y)
    ensures t == u && x == y
  {
    var n := |domain|;
    assert Framed(domain, t, x)[n] == t && Framed(domain, u, y)[n] == u;
    assert Framed(domain, t, x)[n + 1..] == x && Framed(domain, u, y)[n + 1..] == y;
  }
}
