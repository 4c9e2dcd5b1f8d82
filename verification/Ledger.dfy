/** Versioned hash chains of evidence receipts (ledger.py).

    A chain is verified link by link. The main result is that a head pins the
    whole history: two verified chains with one head are equal entry for entry,
    whatever their lengths and versions, or `HeadClash` computes a collision.
 */
module Ledger {
  import opened Wrappers
  import opened Hashing
  import TreeShape

  datatype Modality = Vision | Audio | Text | Sensor

  datatype Signal = Support | Contradict

  function ModalityText(m: Modality): string {
    match m
    case Vision => "vision"
    case Audio => "audio"
    case Text => "text"
    case Sensor => "sensor"
  }

  /** A finite floating-point number, `mantissa` times two to the `exponent`. */
  datatype Double = Double(mantissa: int, exponent: int)

  datatype Json =
    | JNull
    | JBool(flag: bool)
    | JInteger(integer: int)
    | JFloat(number: Double)
    | JText(text: string)
    | JArray(items: seq<Json>)
    | JObject(members: map<string, Json>)

  /** One observation about one claim; times are integer microseconds. */
  datatype Event = Event(
    eventId: string,
    claim: string,
    modality: Modality,
    source: string,
    signal: Signal,
    confidence: Double,
    observedAt: int,
    ingestedAt: int,
    correlationGroup: Option<string>,
    attributes: map<string, Json>)

  datatype Version = V1 | V2

  datatype Entry = Entry(
    sequence: nat,
    eventId: string,
    event: Event,
    previous: Digest,
    digest: Digest)

  datatype EvidenceLedger = EvidenceLedger(entries: seq<Entry>, genesis: Digest, version: Version)

  /** Canonical JSON, as the two byte strings the chain hashes. */
  datatype ChainCodec = ChainCodec(
    event: Event -> Bytes,
    linkV2: (nat, Digest, Event) -> Bytes)

  /** What the chain relies on: canonical encodings lose nothing, and an encoded
      JSON object starts with an opening brace. */
  ghost predicate Canonical(c: ChainCodec) {
    && (forall x, y :: c.event(x) == c.event(y) ==> x == y)
    && (forall i, p, e, j, q, f :: c.linkV2(i, p, e) == c.linkV2(j, q, f) ==> i == j && p == q && e == f)
    && (forall i, p, e :: |c.linkV2(i, p, e)| > 0 && c.linkV2(i, p, e)[0] == 123)
  }

  function GenesisSeed(version: Version): Bytes {
    match version
    case V1 => Ascii("evidence-braid-ledger:v1")
    case V2 => Ascii("evidence-braid-ledger:v2")
  }

  function Genesis(h: HashFunction, version: Version): Digest {
    h(GenesisSeed(version))
  }

  /** One half-byte as a lowercase hexadecimal digit. */
  function HexDigit(n: int): byte
    requires 0 <= n < 16
  {
    if n < 10 then (48 + n) as byte else (87 + n) as byte
  }

  function Hex(d: Bytes): (r: Bytes)
    ensures |r| == 2 * |d|
  {
    if d == [] then []
    else [HexDigit(d[0] as int / 16), HexDigit(d[0] as int % 16)] + Hex(d[1..])
  }

  lemma {:induction false} HexInjective(x: Bytes, y: Bytes)
    requires Hex(x) == Hex(y)
    ensures x == y
  {
    if x != [] && y != [] {
      assert Hex(x)[0] == Hex(y)[0] && Hex(x)[1] == Hex(y)[1];
      assert x[0] == y[0];
      assert Hex(x)[2..] == Hex(x[1..]) && Hex(y)[2..] == Hex(y[1..]);
      HexInjective(x[1..], y[1..]);
      assert x == [x[0]] + x[1..] && y == [y[0]] + y[1..];
    }
  }

  /** The bytes a link digest covers. Version 1 leaves the sequence number out. */
  function LinkPayload(c: ChainCodec, version: Version, previous: Digest, event: Event, sequence: nat): Bytes {
    match version
    case V1 => Hex(previous) + [10] + c.event(event)
    case V2 => c.linkV2(sequence, previous, event)
  }

  function Head(entries: seq<Entry>, genesis: Digest): Digest {
    if entries == [] then genesis else entries[|entries| - 1].digest
  }

  /** Entry `i` is the canonical link after the entries before it. */
  predicate LinkAt(h: HashFunction, c: ChainCodec, ledger: EvidenceLedger, i: nat)
    requires i < |ledger.entries|
  {
    var e := ledger.entries[i];
    && e.sequence == i
    && e.eventId == e.event.eventId
    && e.previous == Head(ledger.entries[..i], ledger.genesis)
    && e.digest == h(LinkPayload(c, ledger.version, e.previous, e.event, i))
  }

  predicate Verified(h: HashFunction, c: ChainCodec, ledger: EvidenceLedger) {
    && ledger.genesis == Genesis(h, ledger.version)
    && |ledger.entries| <= TreeShape.MAX_LEDGER_ENTRIES
    && (forall i | 0 <= i < |ledger.entries| :: LinkAt(h, c, ledger, i))
    && (forall i, j | 0 <= i < j < |ledger.entries| :: ledger.entries[i].eventId != ledger.entries[j].eventId)
  }

  /** The verification loop, with its running predecessor and identifier set. */
  method Verify(h: HashFunction, c: ChainCodec, ledger: EvidenceLedger, expectedHead: Option<Digest>)
    returns (ok: bool)
    ensures ok <==>
      && Verified(h, c, ledger)
      && (expectedHead.Some? ==> Head(ledger.entries, ledger.genesis) == expectedHead.value)
  {
    hide Hex, Ascii, LinkPayload, Genesis;
    if ledger.genesis != Genesis(h, ledger.version) || |ledger.entries| > TreeShape.MAX_LEDGER_ENTRIES {
      return false;
    }
    var previous := ledger.genesis;
    var identifiers: set<string> := {};
    for i := 0 to |ledger.entries|
      invariant previous == Head(ledger.entries[..i], ledger.genesis)
      invariant forall k | 0 <= k < i :: LinkAt(h, c, ledger, k)
      invariant forall id :: id in identifiers <==> exists k | 0 <= k < i :: ledger.entries[k].eventId == id
      invariant forall k, j | 0 <= k < j < i :: ledger.entries[k].eventId != ledger.entries[j].eventId
    {
      var e := ledger.entries[i];
      if e.sequence != i || e.eventId != e.event.eventId || e.eventId in identifiers {
        assert LinkAt(h, c, ledger, i) ==> e.eventId in identifiers;
        return false;
      }
      if e.previous != previous
        || e.digest != h(LinkPayload(c, ledger.version, previous, e.event, i)) {
        assert !LinkAt(h, c, ledger, i);
        return false;
      }
      identifiers := identifiers + {e.eventId};
      previous := e.digest;
      assert ledger.entries[..i + 1][|ledger.entries[..i + 1]| - 1] == e;
    }
    assert ledger.entries[..|ledger.entries|] == ledger.entries;
    ok := expectedHead.None? || previous == expectedHead.value;
  }

  function Prefix(ledger: EvidenceLedger, n: nat): EvidenceLedger
    requires n <= |ledger.entries|
  {
    ledger.(entries := ledger.entries[..n])
  }

  /** Every prefix of a verified chain is verified. */
  lemma PrefixVerified(h: HashFunction, c: ChainCodec, ledger: EvidenceLedger, n: nat)
    requires Verified(h, c, ledger) && n <= |ledger.entries|
    ensures Verified(h, c, Prefix(ledger, n))
  {
    forall i | 0 <= i < n
      ensures LinkAt(h, c, Prefix(ledger, n), i)
    {
      assert LinkAt(h, c, ledger, i);
      assert ledger.entries[..n][..i] == ledger.entries[..i];
    }
  }

  /** A payload that chains an entry is never the seed of an empty chain. */
  lemma PayloadIsNoSeed(c: ChainCodec, version: Version, previous: Digest, event: Event, sequence: nat)
    requires Canonical(c)
    ensures LinkPayload(c, version, previous, event, sequence) != GenesisSeed(version)
  {
    match version {
      case V1 => assert |LinkPayload(c, V1, previous, event, sequence)| >= 65;
      case V2 => assert GenesisSeed(V2)[0] == 101;
    }
  }

  /** Equal payloads carry equal predecessors and events. */
  lemma PayloadInjective(c: ChainCodec, version: Version, p: Digest, e: Event, i: nat, q: Digest, f: Event, j: nat)
    requires Canonical(c)
    requires LinkPayload(c, version, p, e, i) == LinkPayload(c, version, q, f, j)
    ensures p == q && e == f
    ensures version.V2? ==> i == j
  {
    if version.V1? {
      var x, y := LinkPayload(c, V1, p, e, i), LinkPayload(c, V1, q, f, j);
      assert x[..64] == Hex(p) && y[..64] == Hex(q);
      HexInjective(p, q);
      assert x[65..] == c.event(e) && y[65..] == c.event(f);
    }
  }

  /** Walk both chains back from their common head and report the first place
      where two different payloads share a digest. */
  function HeadClash(h: HashFunction, c: ChainCodec, a: EvidenceLedger, b: EvidenceLedger): (f: Finding)
    decreases |a.entries|
  {
    var m, n := |a.entries|, |b.entries|;
    var x, y := HeadPayload(c, a), HeadPayload(c, b);
    if x != y then Found(Clash(x, y))
    else if m == 0 || n == 0 then NoClash
    else HeadClash(h, c, Prefix(a, m - 1), Prefix(b, n - 1))
  }

  function LastPayload(c: ChainCodec, ledger: EvidenceLedger): Bytes
    requires ledger.entries != []
  {
    var i := |ledger.entries| - 1;
    LinkPayload(c, ledger.version, ledger.entries[i].previous, ledger.entries[i].event, i)
  }

  /** What the head of a chain is the digest of. */
  function HeadPayload(c: ChainCodec, ledger: EvidenceLedger): Bytes {
    if ledger.entries == [] then GenesisSeed(ledger.version) else LastPayload(c, ledger)
  }

  lemma HeadIsDigest(h: HashFunction, c: ChainCodec, ledger: EvidenceLedger)
    requires Verified(h, c, ledger)
    ensures Head(ledger.entries, ledger.genesis) == h(HeadPayload(c, ledger))
  {
    hide LinkPayload;
    if ledger.entries != [] {
      assert LinkAt(h, c, ledger, |ledger.entries| - 1);
    }
  }

  /** The head payloads of chains of two versions differ: a version 1 link starts with a
      hexadecimal digit, a version 2 link with a brace, and a seed with neither. */
  lemma VersionsSeparate(c: ChainCodec, a: EvidenceLedger, b: EvidenceLedger)
    requires Canonical(c) && a.version != b.version
    ensures HeadPayload(c, a) != HeadPayload(c, b)
  {
    hide Hex;
    HeadShape(c, a);
    HeadShape(c, b);
    assert GenesisSeed(V1)[|GenesisSeed(V1)| - 1] != GenesisSeed(V2)[|GenesisSeed(V2)| - 1];
  }

  /** The first byte and the length tell seeds and links of both versions apart. */
  lemma HeadShape(c: ChainCodec, ledger: EvidenceLedger)
    requires Canonical(c)
    ensures var x := HeadPayload(c, ledger);
            if ledger.entries == [] then |x| == 24 && x[0] == 101
            else if ledger.version.V1? then |x| >= 65 && x[0] != 123
            else |x| > 0 && x[0] == 123
  {
    if ledger.entries != [] && ledger.version.V1? {
      var previous := ledger.entries[|ledger.entries| - 1].previous;
      assert HeadPayload(c, ledger)[0] == Hex(previous)[0] == HexDigit(previous[0] as int / 16);
    }
  }

  /** Heads determine histories, with no assumption on lengths or versions. */
  lemma {:induction false} HeadsDetermineHistories(h: HashFunction, c: ChainCodec, a: EvidenceLedger, b: EvidenceLedger)
    requires Canonical(c) && Verified(h, c, a) && Verified(h, c, b)
    requires Head(a.entries, a.genesis) == Head(b.entries, b.genesis)
    ensures Genuine(h, HeadClash(h, c, a, b))
    ensures HeadClash(h, c, a, b).NoClash? <==> a == b
    decreases |a.entries|
  {
    hide Hex, Ascii, LinkPayload, GenesisSeed;
    var m, n := |a.entries|, |b.entries|;
    HeadIsDigest(h, c, a);
    HeadIsDigest(h, c, b);
    if a.version != b.version {
      VersionsSeparate(c, a, b);
    } else if m == 0 && n == 0 {
      assert a.entries == [] && b.entries == [];
    } else if m == 0 {
      PayloadIsNoSeed(c, b.version, b.entries[n - 1].previous, b.entries[n - 1].event, n - 1);
    } else if n == 0 {
      PayloadIsNoSeed(c, a.version, a.entries[m - 1].previous, a.entries[m - 1].event, m - 1);
    } else if LastPayload(c, a) == LastPayload(c, b) {
      assert LinkAt(h, c, a, m - 1) && LinkAt(h, c, b, n - 1);
      PayloadInjective(c, a.version, a.entries[m - 1].previous, a.entries[m - 1].event, m - 1,
                       b.entries[n - 1].previous, b.entries[n - 1].event, n - 1);
      PrefixVerified(h, c, a, m - 1);
      PrefixVerified(h, c, b, n - 1);
      HeadsDetermineHistories(h, c, Prefix(a, m - 1), Prefix(b, n - 1));
      SameInitAndLast(a.entries, b.entries);
    }
  }

  lemma SameInitAndLast<T>(a: seq<T>, b: seq<T>)
    requires a != [] && b != []
    ensures a == b <==> a[..|a| - 1] == b[..|b| - 1] && a[|a| - 1] == b[|b| - 1]
  {
    assert a == a[..|a| - 1] + [a[|a| - 1]];
    assert b == b[..|b| - 1] + [b[|b| - 1]];
  }
}
