/** The closed ZIP32 profile of artifact bundles (artifacts.py): a preflight over raw
    bytes, and the frozen view handed to the archive reader.

    The main result is exact: the preflight accepts an archive with some members if and
    only if the archive is, byte for byte, the canonical rendering of those members.
    Record layouts are those of sections 4.3.7, 4.3.12 and 4.3.16 of PKWARE APPNOTE.TXT.
 */
module Archive {
  import opened Wrappers
  import opened Hashing
  import Ordering

  // ----- Little-endian records -----

  function Power(w: nat): (p: nat)
    ensures p >= 1
  {
    if w == 0 then 1 else 256 * Power(w - 1)
  }

  /** `n` in `w` little-endian bytes. */
  function Little(n: nat, w: nat): (b: Bytes)
    ensures |b| == w
  {
    if w == 0 then [] else [(n % 256) as byte] + Little(n / 256, w - 1)
  }

  function Number(b: Bytes): (n: nat)
    ensures n < Power(|b|)
  {
    if b == [] then 0 else b[0] as nat + 256 * Number(b[1..])
  }

  lemma {:induction false} LittleOfNumber(b: Bytes)
    ensures Little(Number(b), |b|) == b
  {
    if b != [] {
      LittleOfNumber(b[1..]);
      assert Number(b) % 256 == b[0] as nat && Number(b) / 256 == Number(b[1..]);
    }
  }

  lemma {:induction false} NumberOfLittle(n: nat, w: nat)
    requires n < Power(w)
    ensures Number(Little(n, w)) == n
  {
    if w > 0 {
      NumberOfLittle(n / 256, w - 1);
      assert Little(n, w)[1..] == Little(n / 256, w - 1);
    }
  }

  function Width(widths: seq<nat>): nat {
    if widths == [] then 0 else widths[0] + Width(widths[1..])
  }

  /** `struct.unpack` of little-endian fields. */
  function Fields(b: Bytes, widths: seq<nat>): (v: seq<nat>)
    requires |b| == Width(widths)
    ensures |v| == |widths|
  {
    if widths == [] then [] else [Number(b[..widths[0]])] + Fields(b[widths[0]..], widths[1..])
  }

  /** `struct.pack` of little-endian fields. */
  function Pack(v: seq<nat>, widths: seq<nat>): (b: Bytes)
    requires |v| == |widths|
    ensures |b| == Width(widths)
  {
    if widths == [] then [] else Little(v[0], widths[0]) + Pack(v[1..], widths[1..])
  }

  ghost predicate Fits(v: seq<nat>, widths: seq<nat>) {
    |v| == |widths| && forall i | 0 <= i < |v| :: v[i] < Power(widths[i])
  }

  lemma {:induction false} PackOfFields(b: Bytes, widths: seq<nat>)
    requires |b| == Width(widths)
    ensures Pack(Fields(b, widths), widths) == b
  {
    if widths != [] {
      hide Number, Little;
      var w := widths[0];
      var head, rest := b[..w], b[w..];
      LittleOfNumber(head);
      PackOfFields(rest, widths[1..]);
      var v := Fields(b, widths);
      assert v[0] == Number(head) && v[1..] == Fields(rest, widths[1..]);
      assert b == head + rest;
    }
  }

  lemma {:induction false} FieldsOfPack(v: seq<nat>, widths: seq<nat>)
    requires Fits(v, widths)
    ensures Fields(Pack(v, widths), widths) == v
  {
    if widths != [] {
      NumberOfLittle(v[0], widths[0]);
      FieldsOfPack(v[1..], widths[1..]);
      var b := Pack(v, widths);
      assert b[..widths[0]] == Little(v[0], widths[0]) && b[widths[0]..] == Pack(v[1..], widths[1..]);
      assert v == [v[0]] + v[1..];
    }
  }

  lemma {:induction false} FieldsFit(b: Bytes, widths: seq<nat>)
    requires |b| == Width(widths)
    ensures Fits(Fields(b, widths), widths)
  {
    if widths != [] {
      FieldsFit(b[widths[0]..], widths[1..]);
    }
  }

  // ----- The three records -----

  /** `n` fields of `w` bytes, as a count and a letter in a struct format. */
  function Run(w: nat, n: nat): (r: seq<nat>)
    ensures |r| == n && forall i | 0 <= i < n :: r[i] == w
    ensures Width(r) == w * n
  {
    if n == 0 then [] else
      var rest := Run(w, n - 1);
      assert ([w] + rest)[1..] == rest;
      [w] + rest
  }

  lemma {:induction false} WidthAppend(a: seq<nat>, b: seq<nat>)
    ensures Width(a + b) == Width(a) + Width(b)
  {
    if a == [] {
      assert a + b == b;
    } else {
      WidthAppend(a[1..], b);
      assert (a + b)[1..] == a[1..] + b;
    }
  }

  /** "<4s6H3I5H2I" */
  function CentralWidths(): (r: seq<nat>)
    ensures |r| == 17 && Width(r) == CENTRAL_SIZE
  {
    WidthAppend(Run(4, 1), Run(2, 6));
    WidthAppend(Run(4, 1) + Run(2, 6), Run(4, 3));
    WidthAppend(Run(4, 1) + Run(2, 6) + Run(4, 3), Run(2, 5));
    WidthAppend(Run(4, 1) + Run(2, 6) + Run(4, 3) + Run(2, 5), Run(4, 2));
    Run(4, 1) + Run(2, 6) + Run(4, 3) + Run(2, 5) + Run(4, 2)
  }

  /** "<4s5H3I2H" */
  function LocalWidths(): (r: seq<nat>)
    ensures |r| == 11 && Width(r) == LOCAL_SIZE
  {
    WidthAppend(Run(4, 1), Run(2, 5));
    WidthAppend(Run(4, 1) + Run(2, 5), Run(4, 3));
    WidthAppend(Run(4, 1) + Run(2, 5) + Run(4, 3), Run(2, 2));
    Run(4, 1) + Run(2, 5) + Run(4, 3) + Run(2, 2)
  }

  /** "<4s4H2IH" */
  function EndWidths(): (r: seq<nat>)
    ensures |r| == 8 && Width(r) == END_SIZE
  {
    WidthAppend(Run(4, 1), Run(2, 4));
    WidthAppend(Run(4, 1) + Run(2, 4), Run(4, 2));
    WidthAppend(Run(4, 1) + Run(2, 4) + Run(4, 2), Run(2, 1));
    Run(4, 1) + Run(2, 4) + Run(4, 2) + Run(2, 1)
  }

  const CENTRAL_SIZE := 46
  const LOCAL_SIZE := 30
  const END_SIZE := 22

  const CENTRAL_MAGIC := 0x02014B50
  const LOCAL_MAGIC := 0x04034B50
  const END_MAGIC := 0x06054B50

  const MADE_BY := 788
  const NEEDED := 20
  const DATE := 33

  /** A regular file, owner read and write, in the upper half word. */
  const MODE := 0x8180_0000

  function CentralValues(crc: nat, size: nat, nameLength: nat, offset: nat): seq<nat> {
    [CENTRAL_MAGIC, MADE_BY, NEEDED, 0, 0, 0, DATE, crc, size, size, nameLength, 0, 0, 0, 0, MODE, offset]
  }

  function LocalValues(crc: nat, size: nat, nameLength: nat): seq<nat> {
    [LOCAL_MAGIC, NEEDED, 0, 0, 0, DATE, crc, size, size, nameLength, 0]
  }

  function EndValues(count: nat, centralSize: nat, centralOffset: nat): seq<nat> {
    [END_MAGIC, 0, 0, count, count, centralSize, centralOffset, 0]
  }

  lemma Powers()
    ensures Power(2) == 0x1_0000 && Power(4) == 0x1_0000_0000
  {
    assert Power(1) == 256 && Power(3) == 256 * Power(2);
  }

  lemma CentralFits(crc: nat, size: nat, nameLength: nat, offset: nat)
    requires crc < Power(4) && size < Power(4) && nameLength < Power(2) && offset < Power(4)
    ensures Fits(CentralValues(crc, size, nameLength, offset), CentralWidths())
  {
    hide Power, Width;
    Powers();
  }

  lemma LocalFits(crc: nat, size: nat, nameLength: nat)
    requires crc < Power(4) && size < Power(4) && nameLength < Power(2)
    ensures Fits(LocalValues(crc, size, nameLength), LocalWidths())
  {
    hide Power, Width;
    Powers();
  }

  lemma EndFits(count: nat, centralSize: nat, centralOffset: nat)
    requires count < Power(2) && centralSize < Power(4) && centralOffset < Power(4)
    ensures Fits(EndValues(count, centralSize, centralOffset), EndWidths())
  {
    hide Power, Width;
    Powers();
  }

  // ----- Members and limits -----

  datatype Member = Member(name: Bytes, crc: nat, payload: Bytes)

  datatype Limits = Limits(
    maxArtifacts: nat,
    maxArtifactBytes: nat,
    maxTotalObjectBytes: nat,
    maxManifestBytes: nat,
    maxWorkflowBytes: nat,
    maxStateBytes: nat,
    maxCentralBytes: nat,
    maxArchiveBytes: nat)

  const MEBIBYTE := 1024 * 1024

  predicate ValidLimits(l: Limits) {
    && 1 <= l.maxArtifacts <= 1024
    && 1 <= l.maxArtifactBytes <= 64 * MEBIBYTE
    && 1 <= l.maxTotalObjectBytes <= 512 * MEBIBYTE
    && 1 <= l.maxManifestBytes <= 4 * MEBIBYTE
    && 1 <= l.maxWorkflowBytes <= 64 * MEBIBYTE
    && 1 <= l.maxStateBytes <= 64 * MEBIBYTE
    && 1 <= l.maxCentralBytes <= 256 * 1024
    && 1 <= l.maxArchiveBytes <= 1024 * MEBIBYTE
  }

  function FixedNames(): (r: seq<Bytes>)
    ensures |r| == 3
  {
    [Ascii("manifest.json"), Ascii("workflow.json"), Ascii("state.json")]
  }

  predicate InObjects(name: Bytes) {
    |name| >= 8 && name[..8] == Ascii("objects/")
  }

  predicate HexByte(b: byte) {
    48 <= b <= 57 || 97 <= b <= 102
  }

  predicate Known(name: Bytes) {
    name in FixedNames()
    || (|name| == 72 && InObjects(name) && forall i | 8 <= i < 72 :: HexByte(name[i]))
  }

  function EntryLimit(l: Limits, name: Bytes): nat {
    if name == FixedNames()[0] then l.maxManifestBytes
    else if name == FixedNames()[1] then l.maxWorkflowBytes
    else if name == FixedNames()[2] then l.maxStateBytes
    else l.maxArtifactBytes
  }

  function Names(ms: seq<Member>): (r: seq<Bytes>)
    ensures |r| == |ms| && forall i | 0 <= i < |ms| :: r[i] == ms[i].name
  {
    seq(|ms|, i requires 0 <= i < |ms| => ms[i].name)
  }

  function ObjectBytes(ms: seq<Member>): nat {
    if ms == [] then 0
    else
      var m := ms[|ms| - 1];
      ObjectBytes(ms[..|ms| - 1]) + (if InObjects(m.name) then |m.payload| else 0)
  }

  /** A name as text. */
  function AsText(name: Bytes): (r: string)
    ensures |r| == |name| && forall i | 0 <= i < |name| :: r[i] == name[i] as int as char
  {
    seq(|name|, i requires 0 <= i < |name| => name[i] as int as char)
  }

  predicate NameLess(a: Bytes, b: Bytes) {
    Ordering.TextLess(AsText(a), AsText(b))
  }

  /** The fixed names, then the objects in order. */
  predicate CanonicalOrder(names: seq<Bytes>) {
    |names| >= 3 && names[..3] == FixedNames() && Ordering.Sort(names[3..], NameLess) == names[3..]
  }

  // ----- Rendering -----

  function LocalHeader(m: Member): (b: Bytes)
    ensures |b| == LOCAL_SIZE
  {
    Pack(LocalValues(m.crc, |m.payload|, |m.name|), LocalWidths())
  }

  function CentralHeader(m: Member, offset: nat): (b: Bytes)
    ensures |b| == CENTRAL_SIZE
  {
    Pack(CentralValues(m.crc, |m.payload|, |m.name|, offset), CentralWidths())
  }

  function Locals(ms: seq<Member>): Bytes {
    if ms == [] then []
    else
      var m := ms[|ms| - 1];
      Locals(ms[..|ms| - 1]) + (LocalHeader(m) + m.name + m.payload)
  }

  function Centrals(ms: seq<Member>): Bytes {
    if ms == [] then []
    else
      var m := ms[|ms| - 1];
      Centrals(ms[..|ms| - 1]) + (CentralHeader(m, |Locals(ms[..|ms| - 1])|) + m.name)
  }

  function EndRecord(ms: seq<Member>): (b: Bytes)
    ensures |b| == END_SIZE
  {
    Pack(EndValues(|ms|, |Centrals(ms)|, |Locals(ms)|), EndWidths())
  }

  /** The one archive with these members: members back to back, the directory, the end. */
  function Render(ms: seq<Member>): Bytes {
    Locals(ms) + Centrals(ms) + EndRecord(ms)
  }

  /** Members the profile allows under the limits. */
  predicate Canonical(ms: seq<Member>, l: Limits) {
    && 3 <= |ms| <= l.maxArtifacts + 3
    && CanonicalOrder(Names(ms))
    && (forall i | 0 <= i < |ms| :: AllowedMember(ms[i], l))
    && DistinctNames(ms)
    && ObjectBytes(ms) <= l.maxTotalObjectBytes
    && |Centrals(ms)| <= l.maxCentralBytes
    && |Render(ms)| <= l.maxArchiveBytes
  }

  predicate AllowedMember(m: Member, l: Limits) {
    Known(m.name) && m.crc < 0x1_0000_0000 && |m.payload| <= EntryLimit(l, m.name)
  }

  lemma RenderStep(ms: seq<Member>, m: Member)
    ensures Locals(ms + [m]) == Locals(ms) + (LocalHeader(m) + m.name + m.payload)
    ensures Centrals(ms + [m]) == Centrals(ms) + (CentralHeader(m, |Locals(ms)|) + m.name)
    ensures ObjectBytes(ms + [m]) == ObjectBytes(ms) + (if InObjects(m.name) then |m.payload| else 0)
  {
    hide LocalHeader, CentralHeader;
    assert (ms + [m])[..|ms|] == ms;
  }

  // ----- The preflight, as a function of the bytes -----

  /** Read exactly `n` bytes at a position, or report truncation. */
  function Exact(b: Bytes, at: nat, n: nat): Option<Bytes> {
    if at + n <= |b| then Some(b[at..at + n]) else None
  }

  /** The varying part of a directory entry. */
  datatype Listed = Listed(name: Bytes, crc: nat, size: nat)

  /** The directory entry at `pos`, when it is canonical for a member starting at `next`. */
  function ReadCentral(central: Bytes, pos: nat, next: nat): Option<Listed> {
    match Exact(central, pos, CENTRAL_SIZE)
    case None => None
    case Some(raw) =>
      var v := Fields(raw, CentralWidths());
      if v != CentralValues(v[7], v[9], v[10], next) || !(1 <= v[10] <= 72) then None
      else
        match Exact(central, pos + CENTRAL_SIZE, v[10])
        case None => None
        case Some(name) => Some(Listed(name, v[7], v[9]))
  }

  /** The local header at `next` repeats the directory entry. */
  predicate LocalAgrees(archive: Bytes, next: nat, e: Listed)
    requires next + LOCAL_SIZE + |e.name| <= |archive|
  {
    && Fields(archive[next..next + LOCAL_SIZE], LocalWidths()) == LocalValues(e.crc, e.size, |e.name|)
    && archive[next + LOCAL_SIZE..next + LOCAL_SIZE + |e.name|] == e.name
  }

  /** One round of the directory loop, after `ms`: the next member, or refusal. */
  function NextMember(archive: Bytes, central: Bytes, directory: nat, l: Limits, ms: seq<Member>): Option<Member>
    requires directory <= |archive|
  {
    var next := |Locals(ms)|;
    match ReadCentral(central, |Centrals(ms)|, next)
    case None => None
    case Some(e) =>
      var body := next + LOCAL_SIZE + |e.name|;
      if !Known(e.name) || e.name in Names(ms) || e.size > EntryLimit(l, e.name) then None
      else if InObjects(e.name) && ObjectBytes(ms) + e.size > l.maxTotalObjectBytes then None
      else if body + e.size > directory then None
      else if !LocalAgrees(archive, next, e) then None
      else Some(Member(e.name, e.crc, archive[body..body + e.size]))
  }

  function ScanMembers(archive: Bytes, central: Bytes, directory: nat, l: Limits, count: nat): Option<seq<Member>>
    requires directory <= |archive|
  {
    if count == 0 then Some([])
    else
      match ScanMembers(archive, central, directory, l, count - 1)
      case None => None
      case Some(ms) =>
        match NextMember(archive, central, directory, l, ms)
        case None => None
        case Some(m) => Some(ms + [m])
  }

  predicate EndAccepted(archive: Bytes, l: Limits) {
    && END_SIZE <= |archive| <= l.maxArchiveBytes
    && var e := Fields(archive[|archive| - END_SIZE..], EndWidths());
       && e == EndValues(e[3], e[5], e[6])
       && 3 <= e[3] <= l.maxArtifacts + 3
       && 0 < e[5] <= l.maxCentralBytes
       && e[6] + e[5] == |archive| - END_SIZE
  }

  /** The members of an accepted archive; nothing when it is refused. */
  function Contents(archive: Bytes, l: Limits): Option<seq<Member>> {
    if !EndAccepted(archive, l) then None
    else
      var e := Fields(archive[|archive| - END_SIZE..], EndWidths());
      var count, size, directory := e[3], e[5], e[6];
      match ScanMembers(archive, archive[directory..directory + size], directory, l, count)
      case None => None
      case Some(ms) =>
        if CanonicalOrder(Names(ms)) && |Locals(ms)| == directory && |Centrals(ms)| == size then Some(ms) else None
  }

  // ----- Acceptance is exactly canonical rendering -----

  /** What a scan has established: the bytes so far are the rendering of the members. */
  predicate Scanned(archive: Bytes, central: Bytes, directory: nat, l: Limits, ms: seq<Member>) {
    && |Locals(ms)| <= directory <= |archive| && archive[..|Locals(ms)|] == Locals(ms)
    && |Centrals(ms)| <= |central| && central[..|Centrals(ms)|] == Centrals(ms)
    && (forall i | 0 <= i < |ms| :: AllowedMember(ms[i], l))
    && DistinctNames(ms)
    && ObjectBytes(ms) <= l.maxTotalObjectBytes
  }

  lemma JoinSlices(s: Bytes, a: nat, b: nat)
    requires a <= b <= |s|
    ensures s[..b] == s[..a] + s[a..b]
  {
  }

  lemma ReadCentralBytes(central: Bytes, pos: nat, next: nat)
    requires ReadCentral(central, pos, next).Some?
    ensures var e := ReadCentral(central, pos, next).value;
            && e.crc < 0x1_0000_0000 && pos + CENTRAL_SIZE + |e.name| <= |central|
            && central[pos..pos + CENTRAL_SIZE + |e.name|]
                 == Pack(CentralValues(e.crc, e.size, |e.name|, next), CentralWidths()) + e.name
  {
    hide Pack, Fields, CentralValues, Width, Power;
    var raw := Exact(central, pos, CENTRAL_SIZE).value;
    PackOfFields(raw, CentralWidths());
    CrcFits(raw);
    var e := ReadCentral(central, pos, next).value;
    ThreeSlices(central, pos, CENTRAL_SIZE, |e.name|, 0);
  }

  lemma LocalBytes(archive: Bytes, next: nat, e: Listed)
    requires next + LOCAL_SIZE + |e.name| + e.size <= |archive| && LocalAgrees(archive, next, e)
    ensures archive[next..next + LOCAL_SIZE + |e.name| + e.size]
         == Pack(LocalValues(e.crc, e.size, |e.name|), LocalWidths()) + e.name
            + archive[next + LOCAL_SIZE + |e.name|..next + LOCAL_SIZE + |e.name| + e.size]
  {
    hide Pack, Fields;
    PackOfFields(archive[next..next + LOCAL_SIZE], LocalWidths());
    ThreeSlices(archive, next, LOCAL_SIZE, |e.name|, e.size);
  }

  lemma NextMemberBytes(archive: Bytes, central: Bytes, directory: nat, l: Limits, ms: seq<Member>)
    requires directory <= |archive| && NextMember(archive, central, directory, l, ms).Some?
    ensures var m := NextMember(archive, central, directory, l, ms).value;
            var pos, next := |Centrals(ms)|, |Locals(ms)|;
            && next + LOCAL_SIZE + |m.name| + |m.payload| <= directory
            && archive[next..next + LOCAL_SIZE + |m.name| + |m.payload|] == LocalHeader(m) + m.name + m.payload
            && pos + CENTRAL_SIZE + |m.name| <= |central|
            && central[pos..pos + CENTRAL_SIZE + |m.name|] == CentralHeader(m, next) + m.name
            && AllowedMember(m, l) && m.name !in Names(ms)
            && ObjectBytes(ms) + (if InObjects(m.name) then |m.payload| else 0)
                 <= Max(ObjectBytes(ms), l.maxTotalObjectBytes)
  {
    hide ReadCentral, LocalAgrees, Pack, Known, EntryLimit, ObjectBytes, Locals, Centrals, InObjects, CentralValues,
      LocalValues, Width, Power;
    var next := |Locals(ms)|;
    ReadCentralBytes(central, |Centrals(ms)|, next);
    LocalBytes(archive, next, ReadCentral(central, |Centrals(ms)|, next).value);
  }

  lemma ThreeSlices(s: Bytes, at: nat, a: nat, b: nat, c: nat)
    requires at + a + b + c <= |s|
    ensures s[at..at + a + b + c] == s[at..at + a] + s[at + a..at + a + b] + s[at + a + b..at + a + b + c]
  {
  }

  function Max(x: nat, y: nat): nat {
    if x < y then y else x
  }

  lemma CrcFits(c: Bytes)
    requires |c| == CENTRAL_SIZE
    ensures Fields(c, CentralWidths())[7] < 0x1_0000_0000
  {
    hide Fields, Power, Width;
    FieldsFit(c, CentralWidths());
    Powers();
    assert CentralWidths()[7] == 4;
  }

  lemma {:induction false} ScanSound(archive: Bytes, central: Bytes, directory: nat, l: Limits, count: nat)
    requires directory <= |archive| && ScanMembers(archive, central, directory, l, count).Some?
    ensures var ms := ScanMembers(archive, central, directory, l, count).value;
            |ms| == count && Scanned(archive, central, directory, l, ms)
  {
    hide NextMember, AllowedMember, Locals, Centrals, ObjectBytes;
    if count == 0 {
      NothingScanned(archive, central, directory, l);
    } else {
      ScanSound(archive, central, directory, l, count - 1);
      var ms := ScanMembers(archive, central, directory, l, count - 1).value;
      NextMemberScanned(archive, central, directory, l, ms);
    }
  }

  lemma NothingScanned(archive: Bytes, central: Bytes, directory: nat, l: Limits)
    requires directory <= |archive|
    ensures Scanned(archive, central, directory, l, [])
  {
  }

  lemma NextMemberScanned(archive: Bytes, central: Bytes, directory: nat, l: Limits, ms: seq<Member>)
    requires directory <= |archive| && Scanned(archive, central, directory, l, ms)
    requires NextMember(archive, central, directory, l, ms).Some?
    ensures Scanned(archive, central, directory, l, ms + [NextMember(archive, central, directory, l, ms).value])
  {
    hide NextMember, AllowedMember, Locals, Centrals, ObjectBytes, LocalHeader, CentralHeader, InObjects;
    var m := NextMember(archive, central, directory, l, ms).value;
    NextMemberBytes(archive, central, directory, l, ms);
    RenderStep(ms, m);
    JoinSlices(archive, |Locals(ms)|, |Locals(ms + [m])|);
    JoinSlices(central, |Centrals(ms)|, |Centrals(ms + [m])|);
    forall i | 0 <= i < |ms|
      ensures ms[i].name != m.name
    {
      assert Names(ms)[i] == ms[i].name;
    }
  }

  /** Accepted archives are canonical renderings of their contents. */
  lemma AcceptedIsRendered(archive: Bytes, l: Limits)
    requires Contents(archive, l).Some?
    ensures var ms := Contents(archive, l).value; Canonical(ms, l) && archive == Render(ms)
  {
    hide Pack, Fields, ScanMembers, AllowedMember, Locals, Centrals, ObjectBytes, CanonicalOrder;
    var raw := archive[|archive| - END_SIZE..];
    var e := Fields(raw, EndWidths());
    var directory, size := e[6], e[5];
    var central := archive[directory..directory + size];
    ScanSound(archive, central, directory, l, e[3]);
    PackOfFields(raw, EndWidths());
    var ms := Contents(archive, l).value;
    assert central[..size] == central;
    JoinSlices(archive, directory, directory + size);
    assert archive == archive[..directory + size] + raw;
  }

  lemma {:induction false} RenderPrefix(ms: seq<Member>, k: nat)
    requires k <= |ms|
    ensures Locals(ms[..k]) <= Locals(ms) && Centrals(ms[..k]) <= Centrals(ms)
        && ObjectBytes(ms[..k]) <= ObjectBytes(ms)
    decreases |ms|
  {
    hide LocalHeader, CentralHeader;
    if k < |ms| {
      RenderPrefix(ms[..|ms| - 1], k);
      assert ms[..|ms| - 1][..k] == ms[..k];
    } else {
      assert ms[..k] == ms;
    }
  }

  lemma SliceOfPrefix(s: Bytes, a: Bytes, b: Bytes, c: Bytes)
    requires a + (b + c) <= s
    ensures s[|a|..|a| + |b|] == b && s[|a| + |b|..|a| + |b| + |c|] == c
  {
    assert s[..|a| + |b| + |c|] == a + (b + c);
  }

  lemma CentralReads(central: Bytes, before: Bytes, m: Member, next: nat)
    requires before + (CentralHeader(m, next) + m.name) <= central
    requires m.crc < 0x1_0000_0000 && |m.payload| < 0x1_0000_0000 && 1 <= |m.name| <= 72 && next < 0x1_0000_0000
    ensures ReadCentral(central, |before|, next) == Some(Listed(m.name, m.crc, |m.payload|))
  {
    hide Pack, Fields, Power, Fits, Width;
    Powers();
    SliceOfPrefix(central, before, CentralHeader(m, next), m.name);
    CentralFits(m.crc, |m.payload|, |m.name|, next);
    FieldsOfPack(CentralValues(m.crc, |m.payload|, |m.name|, next), CentralWidths());
  }

  lemma LocalReads(archive: Bytes, before: Bytes, m: Member)
    requires before + (LocalHeader(m) + m.name + m.payload) <= archive
    requires m.crc < 0x1_0000_0000 && |m.payload| < 0x1_0000_0000 && |m.name| <= 72
    ensures LocalAgrees(archive, |before|, Listed(m.name, m.crc, |m.payload|))
    ensures var body := |before| + LOCAL_SIZE + |m.name|; archive[body..body + |m.payload|] == m.payload
  {
    hide Pack, Fields, Power, Fits, Width;
    Powers();
    var header := LocalHeader(m);
    assert before + (header + m.name + m.payload) == before + (header + (m.name + m.payload));
    SliceOfPrefix(archive, before, header, m.name + m.payload);
    assert before + (header + m.name + m.payload) == (before + header) + (m.name + m.payload);
    SliceOfPrefix(archive, before + header, m.name, m.payload);
    LocalFits(m.crc, |m.payload|, |m.name|);
    FieldsOfPack(LocalValues(m.crc, |m.payload|, |m.name|), LocalWidths());
  }

  /** A rendered member is read back, whatever follows it. */
  lemma NextMemberReads(archive: Bytes, central: Bytes, directory: nat, l: Limits, ms: seq<Member>, m: Member)
    requires directory <= |archive| && AllowedMember(m, l) && m.name !in Names(ms) && ValidLimits(l)
    requires Locals(ms + [m]) <= archive && Centrals(ms + [m]) <= central && |Locals(ms + [m])| <= directory
    requires |Locals(ms + [m])| < 0x1_0000_0000
    requires ObjectBytes(ms + [m]) <= l.maxTotalObjectBytes
    ensures NextMember(archive, central, directory, l, ms) == Some(m)
  {
    hide ReadCentral, LocalAgrees, LocalHeader, CentralHeader, Locals, Centrals, ObjectBytes, InObjects, Known,
      EntryLimit;
    RenderStep(ms, m);
    KnownLength(m.name);
    CentralReads(central, Centrals(ms), m, |Locals(ms)|);
    LocalReads(archive, Locals(ms), m);
  }

  lemma KnownLength(name: Bytes)
    requires Known(name)
    ensures 1 <= |name| <= 72
  {
    var f := FixedNames();
    assert name in f ==> name == f[0] || name == f[1] || name == f[2];
  }

  lemma {:induction false} ScanReads(l: Limits, all: seq<Member>, k: nat)
    requires ValidLimits(l) && Canonical(all, l) && k <= |all|
    ensures ScanMembers(Render(all), Centrals(all), |Locals(all)|, l, k) == Some(all[..k])
  {
    hide NextMember, AllowedMember, Locals, Centrals, ObjectBytes, CanonicalOrder, EndRecord;
    if k > 0 {
      ScanReads(l, all, k - 1);
      var ms, m := all[..k - 1], all[k - 1];
      assert ms + [m] == all[..k];
      RenderPrefix(all, k);
      assert Locals(all[..k]) <= Render(all);
      assert m.name !in Names(ms);
      NextMemberReads(Render(all), Centrals(all), |Locals(all)|, l, ms, m);
    }
  }

  /** Every canonical rendering is accepted, with exactly its members. */
  lemma RenderedIsAccepted(ms: seq<Member>, l: Limits)
    requires ValidLimits(l) && Canonical(ms, l)
    ensures Contents(Render(ms), l) == Some(ms)
  {
    hide Pack, Fields, ScanMembers, AllowedMember, Locals, Centrals, ObjectBytes, CanonicalOrder, Power, Fits, Width;
    var archive := Render(ms);
    var values := EndValues(|ms|, |Centrals(ms)|, |Locals(ms)|);
    Powers();
    EndFits(|ms|, |Centrals(ms)|, |Locals(ms)|);
    FieldsOfPack(values, EndWidths());
    assert archive[|archive| - END_SIZE..] == EndRecord(ms);
    assert archive[|Locals(ms)|..|Locals(ms)| + |Centrals(ms)|] == Centrals(ms);
    ScanReads(l, ms, |ms|);
    assert ms[..|ms|] == ms;
    CentralsNotEmpty(ms);
  }

  lemma CentralsNotEmpty(ms: seq<Member>)
    requires ms != []
    ensures |Centrals(ms)| > 0
  {
  }

  /** The preflight is exact: it accepts an archive with given members if and only if
      the archive is their canonical rendering. */
  lemma PreflightExact(archive: Bytes, l: Limits, ms: seq<Member>)
    requires ValidLimits(l)
    ensures Contents(archive, l) == Some(ms) <==> Canonical(ms, l) && archive == Render(ms)
  {
    hide Contents, Canonical, Render;
    if Contents(archive, l) == Some(ms) {
      AcceptedIsRendered(archive, l);
    }
    if Canonical(ms, l) && archive == Render(ms) {
      RenderedIsAccepted(ms, l);
    }
  }

  lemma NamesStrict()
    ensures Ordering.Strict(NameLess) && Ordering.Strict(MemberLess)
  {
    hide Ordering.TextLess, AsText;
    Ordering.TextStrict();
  }

  lemma NamesTotal(a: Bytes, b: Bytes)
    ensures a == b || NameLess(a, b) || NameLess(b, a)
  {
    hide Ordering.TextLess;
    Ordering.TextTotal(AsText(a), AsText(b));
    if AsText(a) == AsText(b) {
      assert forall i | 0 <= i < |a| :: AsText(a)[i] == AsText(b)[i] && a[i] == b[i];
    }
  }

  predicate MemberLess(x: Member, y: Member) {
    NameLess(x.name, y.name)
  }

  /** Canonical order with distinct names puts the objects in strictly ascending order. */
  lemma ObjectsAscend(ms: seq<Member>, l: Limits)
    requires Canonical(ms, l)
    ensures Ordering.Ascends(ms[3..], MemberLess)
  {
    hide AllowedMember, Render, Centrals, ObjectBytes, NameLess, Ordering.Sort;
    var names := Names(ms)[3..];
    forall i, j | 0 <= i < j < |names|
      ensures NameLess(names[i], names[j]) || NameLess(names[j], names[i])
    {
      NamesTotal(names[i], names[j]);
    }
    NamesStrict();
    Ordering.SortAscends(names, NameLess);
    forall i, j | 0 <= i < j < |ms[3..]|
      ensures MemberLess(ms[3..][i], ms[3..][j])
    {
      assert NameLess(names[i], names[j]);
    }
  }

  predicate DistinctNames(ms: seq<Member>) {
    forall i, j | 0 <= i < j < |ms| :: ms[i].name != ms[j].name
  }

  lemma SameName(ms: seq<Member>, x: Member, i: nat)
    requires DistinctNames(ms) && i < |ms| && x in ms && x.name == ms[i].name
    ensures x == ms[i]
  {
    var j :| 0 <= j < |ms| && ms[j] == x;
  }

  /** The three fixed members are the same, and the rest have the same members. */
  lemma SameParts(ms: seq<Member>, ks: seq<Member>)
    requires |ms| >= 3 && |ks| >= 3 && DistinctNames(ms) && DistinctNames(ks) && Ordering.SameMembers(ms, ks)
    requires Names(ms)[..3] == Names(ks)[..3]
    ensures ms[..3] == ks[..3]
    ensures Ordering.SameMembers(ms[3..], ks[3..])
  {
    forall i | 0 <= i < 3
      ensures ms[i] == ks[i]
    {
      assert ms[i] in ms && Names(ms)[..3][i] == Names(ks)[..3][i];
      SameName(ks, ms[i], i);
    }
    forall x
      ensures x in ms[3..] <==> x in ks[3..]
    {
      TailMember(ms, x);
      TailMember(ks, x);
    }
  }

  lemma TailMember(ms: seq<Member>, x: Member)
    requires |ms| >= 3 && DistinctNames(ms)
    ensures x in ms[3..] <==> x in ms && x !in ms[..3]
  {
    assert ms == ms[..3] + ms[3..];
    var front, tail := ms[..3], ms[3..];
    assert forall i, j | 0 <= i < |front| && 0 <= j < |tail| :: front[i].name != tail[j].name;
  }

  /** Two accepted archives with the same members, name, payload and CRC field each, in
      whatever order they are compared and under whatever limits they were accepted, are
      the same bytes: the profile leaves no freedom of order. */
  lemma SameMembersSameBytes(a: Bytes, b: Bytes, l: Limits, k: Limits)
    requires Contents(a, l).Some? && Contents(b, k).Some?
    requires Ordering.SameMembers(Contents(a, l).value, Contents(b, k).value)
    ensures a == b
  {
    hide Contents, Render, AllowedMember, Centrals, ObjectBytes, NameLess, Ordering.Sort, Ordering.Ascends,
      Ordering.SameMembers;
    AcceptedIsRendered(a, l);
    AcceptedIsRendered(b, k);
    var ms, ks := Contents(a, l).value, Contents(b, k).value;
    SameParts(ms, ks);
    ObjectsAscend(ms, l);
    ObjectsAscend(ks, k);
    NamesStrict();
    Ordering.AscendsUnique(ms[3..], ks[3..], MemberLess);
    assert ms == ms[..3] + ms[3..] && ks == ks[..3] + ks[3..];
  }

  // ----- Tiling and size -----

  /** Names with sizes, in directory order. */
  function Inventory(ms: seq<Member>): (r: seq<(Bytes, nat)>)
    ensures |r| == |ms|
  {
    seq<(Bytes, nat)>(|ms|, i requires 0 <= i < |ms| => (ms[i].name, |ms[i].payload|))
  }

  function Footprint(sizes: seq<(Bytes, nat)>): nat {
    if sizes == [] then 0
    else
      var last := sizes[|sizes| - 1];
      Footprint(sizes[..|sizes| - 1]) + CENTRAL_SIZE + LOCAL_SIZE + 2 * |last.0| + last.1
  }

  /** The size an archive with this inventory has. */
  function ArchiveSize(sizes: seq<(Bytes, nat)>): nat {
    END_SIZE + Footprint(sizes)
  }

  lemma {:induction false} FootprintExact(ms: seq<Member>)
    ensures |Locals(ms)| + |Centrals(ms)| == Footprint(Inventory(ms))
  {
    hide LocalHeader, CentralHeader;
    if ms != [] {
      var n := |ms| - 1;
      FootprintExact(ms[..n]);
      assert Inventory(ms)[..n] == Inventory(ms[..n]);
    }
  }

  /** Where member `i` starts. */
  function Start(ms: seq<Member>, i: nat): nat
    requires i <= |ms|
  {
    |Locals(ms[..i])|
  }

  lemma RenderTiles(ms: seq<Member>, i: nat)
    requires i < |ms|
    ensures Start(ms, i + 1) == Start(ms, i) + LOCAL_SIZE + |ms[i].name| + |ms[i].payload| <= |Locals(ms)|
    ensures Render(ms)[Start(ms, i)..Start(ms, i + 1)] == LocalHeader(ms[i]) + ms[i].name + ms[i].payload
  {
    hide Locals, LocalHeader, CentralHeader, Centrals, EndRecord;
    assert ms[..i + 1] == ms[..i] + [ms[i]];
    RenderStep(ms[..i], ms[i]);
    RenderPrefix(ms, i + 1);
    RecordSlice(Render(ms), Locals(ms[..i]), LocalHeader(ms[i]) + ms[i].name + ms[i].payload);
  }

  /** Members tile the archive up to the directory: each starts where the previous one
      ended, the first at zero, the last ends at the directory, and each range holds
      exactly its header, name and payload. */
  lemma AcceptedTiles(archive: Bytes, l: Limits, i: nat)
    requires Contents(archive, l).Some? && i < |Contents(archive, l).value|
    ensures var ms := Contents(archive, l).value;
            && Start(ms, 0) == 0
            && Start(ms, i + 1) == Start(ms, i) + LOCAL_SIZE + |ms[i].name| + |ms[i].payload|
            && Start(ms, i + 1) <= Start(ms, |ms|) <= |archive|
            && archive[Start(ms, i)..Start(ms, i + 1)] == LocalHeader(ms[i]) + ms[i].name + ms[i].payload
            && archive[Start(ms, |ms|)..] == Centrals(ms) + EndRecord(ms)
            && |archive| == ArchiveSize(Inventory(ms))
  {
    hide Contents, Canonical, LocalHeader, CentralHeader, Centrals, EndRecord;
    AcceptedIsRendered(archive, l);
    var ms := Contents(archive, l).value;
    FootprintExact(ms);
    RenderTiles(ms, i);
    assert ms[..|ms|] == ms && ms[..0] == [];
    assert archive == Locals(ms) + (Centrals(ms) + EndRecord(ms));
  }

  lemma RecordSlice(s: Bytes, a: Bytes, b: Bytes)
    requires a + b <= s
    ensures s[|a|..|a| + |b|] == b
  {
    assert b + [] == b;
    SliceOfPrefix(s, a, b, []);
  }

  // ----- The preflight loop -----

  /** What the preflight returns: the directory offset, the frozen footer, the sizes. */
  datatype Admitted = Admitted(offset: nat, footer: Bytes, entries: seq<(Bytes, nat)>)

  method Preflight(archive: Bytes, l: Limits) returns (r: Option<Admitted>)
    ensures r.Some? <==> Contents(archive, l).Some?
    ensures r.Some? ==>
              var ms := Contents(archive, l).value;
              && r.value.offset == |Locals(ms)| <= |archive|
              && r.value.footer == archive[r.value.offset..]
              && r.value.entries == Inventory(ms)
  {
    hide Fields, ScanMembers, CanonicalOrder, Locals, Centrals;
    if !(END_SIZE <= |archive| <= l.maxArchiveBytes) {
      return None;
    }
    var endRaw := archive[|archive| - END_SIZE..];
    var e := Fields(endRaw, EndWidths());
    var count, size, directory := e[3], e[5], e[6];
    if e != EndValues(count, size, directory) || !(3 <= count <= l.maxArtifacts + 3) || !(0 < size <= l.maxCentralBytes)
       || directory + size != |archive| - END_SIZE {
      return None;
    }
    var central := archive[directory..directory + size];
    var scanned := ScanDirectory(archive, central, directory, l, count);
    if scanned.None? {
      return None;
    }
    var (entries, next, pos) := scanned.value;
    ghost var ms := ScanMembers(archive, central, directory, l, count).value;
    var names := EntryNames(entries);
    NamesOfInventory(ms);
    if !CanonicalOrder(names) || next != directory || pos != size {
      return None;
    }
    FooterIsTail(archive, directory, size);
    r := Some(Admitted(directory, central + endRaw, entries));
  }

  lemma FooterIsTail(archive: Bytes, directory: nat, size: nat)
    requires directory + size + END_SIZE == |archive|
    ensures archive[directory..directory + size] + archive[|archive| - END_SIZE..] == archive[directory..]
  {
  }

  function EntryNames(entries: seq<(Bytes, nat)>): (r: seq<Bytes>)
    ensures |r| == |entries| && forall i | 0 <= i < |entries| :: r[i] == entries[i].0
  {
    seq(|entries|, i requires 0 <= i < |entries| => entries[i].0)
  }

  lemma NamesOfInventory(ms: seq<Member>)
    ensures EntryNames(Inventory(ms)) == Names(ms)
  {
  }

  /** The directory loop, with its entries, next local offset and object byte total. */
  method ScanDirectory(archive: Bytes, central: Bytes, directory: nat, l: Limits, count: nat)
    returns (r: Option<(seq<(Bytes, nat)>, nat, nat)>)
    requires directory <= |archive|
    ensures r.Some? <==> ScanMembers(archive, central, directory, l, count).Some?
    ensures r.Some? ==> var ms := ScanMembers(archive, central, directory, l, count).value;
                        r.value == (Inventory(ms), |Locals(ms)|, |Centrals(ms)|)
  {
    hide Known, Locals, Centrals, ObjectBytes, InObjects, NextMember, Inventory, LocalHeader, CentralHeader;
    var entries: seq<(Bytes, nat)> := [];
    var next, pos, objectBytes := 0, 0, 0;
    ghost var ms: seq<Member> := [];
    NothingListed();
    for i := 0 to count
      invariant ScanMembers(archive, central, directory, l, i) == Some(ms)
      invariant entries == Inventory(ms) && next == |Locals(ms)| && pos == |Centrals(ms)|
          && objectBytes == ObjectBytes(ms)
    {
      var entry := ReadEntry(archive, central, directory, l, entries, next, pos, objectBytes, ms);
      if entry.None? {
        RefusalStays(archive, central, directory, l, i + 1, count);
        return None;
      }
      var (name, size) := entry.value;
      ghost var m := NextMember(archive, central, directory, l, ms).value;
      RenderStep(ms, m);
      ListedStep(ms, m);
      ms := ms + [m];
      entries := entries + [(name, size)];
      if InObjects(name) {
        objectBytes := objectBytes + size;
      }
      next := next + LOCAL_SIZE + |name| + size;
      pos := pos + CENTRAL_SIZE + |name|;
    }
    r := Some((entries, next, pos));
  }

  lemma NothingListed()
    ensures Inventory([]) == [] && Locals([]) == [] && Centrals([]) == [] && ObjectBytes([]) == 0
  {
  }

  lemma ListedStep(ms: seq<Member>, m: Member)
    ensures Inventory(ms + [m]) == Inventory(ms) + [(m.name, |m.payload|)]
  {
  }

  lemma {:induction false} RefusalStays(archive: Bytes, central: Bytes, directory: nat, l: Limits, k: nat, count: nat)
    requires directory <= |archive| && k <= count && ScanMembers(archive, central, directory, l, k).None?
    ensures ScanMembers(archive, central, directory, l, count).None?
  {
    hide NextMember;
    if k < count {
      RefusalStays(archive, central, directory, l, k, count - 1);
    }
  }

  /** One round of the loop, reading through bounds-checked cursors. */
  method ReadEntry(archive: Bytes, central: Bytes, directory: nat, l: Limits, entries: seq<(Bytes, nat)>, next: nat,
                   pos: nat, objectBytes: nat, ghost ms: seq<Member>)
    returns (r: Option<(Bytes, nat)>)
    requires directory <= |archive|
    requires entries == Inventory(ms) && next == |Locals(ms)| && pos == |Centrals(ms)| && objectBytes == ObjectBytes(ms)
    ensures r.Some? <==> NextMember(archive, central, directory, l, ms).Some?
    ensures r.Some? ==> var m := NextMember(archive, central, directory, l, ms).value; r.value == (m.name, |m.payload|)
  {
    hide ReadCentral, LocalAgrees, Known, Locals, Centrals, ObjectBytes, InObjects, EntryLimit, Inventory;
    var listed := ReadCentral(central, pos, next);
    if listed.None? {
      return None;
    }
    var e := listed.value;
    NamesOfInventory(ms);
    if !Known(e.name) || e.name in EntryNames(entries) || e.size > EntryLimit(l, e.name) {
      return None;
    }
    if InObjects(e.name) && objectBytes + e.size > l.maxTotalObjectBytes {
      return None;
    }
    if next + LOCAL_SIZE + |e.name| + e.size > directory || !LocalAgrees(archive, next, e) {
      return None;
    }
    r := Some((e.name, e.size));
  }

  // ----- The frozen view -----

  /** A file opened for reading; its bytes do not change. */
  class Handle {
    const content: Bytes
    var position: nat

    constructor (content: Bytes)
      ensures this.content == content && position == 0
    {
      this.content := content;
      position := 0;
    }

    method Seek(to: nat)
      modifies this
      ensures position == to
    {
      position := to;
    }

    /** At most `n` bytes from the position, fewer only at the end of the file. */
    method Read(n: nat) returns (data: Bytes)
      modifies this
      ensures data == Window(content, old(position), n)
      ensures position == old(position) + |data|
    {
      var end := if position + n < |content| then position + n else |content|;
      data := if position < end then content[position..end] else [];
      position := position + |data|;
    }
  }

  /** The bytes a reader at `position` gets when it asks for `n`. */
  function Window(image: Bytes, position: nat, n: nat): Bytes {
    if position >= |image| then []
    else if position + n <= |image| then image[position..position + n]
    else image[position..]
  }

  /** What a plain in-memory file over `image` returns for a read request. */
  function ReadFrom(image: Bytes, position: nat, size: int): Bytes {
    if size < 0 then Window(image, position, |image|) else Window(image, position, size)
  }

  datatype Whence = FromStart | FromHere | FromEnd

  function SeekTarget(image: Bytes, position: nat, offset: int, whence: Whence): int {
    match whence
    case FromStart => offset
    case FromHere => position + offset
    case FromEnd => |image| + offset
  }

  /** A slice with Python's clamping. */
  function Clamped(s: Bytes, start: nat, stop: nat): Bytes {
    var end := if stop < |s| then stop else |s|;
    if start < end then s[start..end] else []
  }

  class ArchiveView {
    const handle: Handle
    const offset: nat
    const footer: Bytes
    var position: nat

    constructor (handle: Handle, offset: nat, footer: Bytes)
      ensures this.handle == handle && this.offset == offset && this.footer == footer && position == 0
    {
      this.handle := handle;
      this.offset := offset;
      this.footer := footer;
      position := 0;
    }

    /** The file this view pretends to be: the body, then the frozen footer. */
    function Image(): Bytes
      requires offset <= |handle.content|
    {
      handle.content[..offset] + footer
    }

    method Seek(to: int, whence: Whence) returns (ok: bool)
      requires offset <= |handle.content|
      modifies this
      ensures ok <==> SeekTarget(Image(), old(position), to, whence) >= 0
      ensures position == if ok then SeekTarget(Image(), old(position), to, whence) else old(position)
    {
      var target := match whence
                    case FromStart => to
                    case FromHere => position + to
                    case FromEnd => offset + |footer| + to;
      ok := target >= 0;
      if ok {
        position := target;
      }
    }

    /** Serve a read across the body and the footer. */
    method Read(size: int) returns (data: Bytes)
      requires offset <= |handle.content|
      modifies this, handle
      ensures data == ReadFrom(Image(), old(position), size)
      ensures position == old(position) + |data|
    {
      hide Window, Clamped, ReadFrom, Wanted;
      var wanted := Wanted(offset + |footer|, position, size);
      PartsExact(handle.content, offset, footer, position, size);
      data := [];
      if position < offset {
        handle.Seek(position);
        data := handle.Read(if wanted < offset - position then wanted else offset - position);
      }
      data := data + FooterPart(footer, offset, position + |data|, wanted - |data|);
      position := position + |data|;
    }
  }

  /** The footer bytes that complete a read which has reached `at`. */
  function FooterPart(footer: Bytes, offset: nat, at: nat, remaining: int): Bytes
    requires remaining < 0 ==> at + remaining == offset + |footer|
  {
    var start := if at > offset then at - offset else 0;
    if remaining == 0 then [] else Clamped(footer, start, start + remaining)
  }

  /** How many bytes a request may still get; negative past the end of the file. */
  function Wanted(total: nat, position: nat, size: int): (n: int)
    ensures position >= total ==> n == 0 || n == total - position
    ensures position < total ==> 0 <= n <= total - position
  {
    var asked := if size < 0 then total - position else size;
    var room := if total - position > 0 then total - position else 0;
    if asked < room then asked else room
  }

  lemma ReadMeaning(image: Bytes, position: nat, size: int)
    ensures ReadFrom(image, position, size)
         == if position >= |image| then [] else image[position..position + Wanted(|image|, position, size)]
  {
  }

  /** The body part of a read and its footer part make up the read of the whole. */
  lemma PartsExact(content: Bytes, offset: nat, footer: Bytes, position: nat, size: int)
    requires offset <= |content|
    ensures var n := Wanted(offset + |footer|, position, size);
            var k := if n < offset - position then n else offset - position;
            var body := if position < offset then Window(content, position, k) else [];
            && (n - |body| < 0 ==> position + |body| + (n - |body|) == offset + |footer|)
            && body + FooterPart(footer, offset, position + |body|, n - |body|)
                 == ReadFrom(content[..offset] + footer, position, size)
  {
    hide ReadFrom, Wanted, Window, FooterPart;
    var image := content[..offset] + footer;
    var n := Wanted(|image|, position, size);
    ReadMeaning(image, position, size);
    if position < offset {
      var k := if n < offset - position then n else offset - position;
      BodyPart(content, offset, position, k);
      TailPart(footer, offset, position + k, n - k);
      SliceOfJoin(content, offset, footer, position, n);
    } else if position < |image| {
      TailPart(footer, offset, position, n);
      FooterSlice(content, offset, footer, position, n);
    } else {
      PastEnd(footer, offset, position, n);
    }
  }

  lemma BodyPart(content: Bytes, offset: nat, position: nat, k: nat)
    requires position < offset <= |content| && position + k <= offset
    ensures Window(content, position, k) == content[position..position + k]
  {
  }

  /** The footer part of a read that has reached `at`, at or before the footer's end. */
  lemma TailPart(footer: Bytes, offset: nat, at: nat, remaining: nat)
    requires remaining > 0 ==> offset <= at && at + remaining <= offset + |footer|
    ensures FooterPart(footer, offset, at, remaining)
         == if remaining == 0 then [] else footer[at - offset..at - offset + remaining]
  {
  }

  lemma PastEnd(footer: Bytes, offset: nat, at: nat, remaining: int)
    requires at >= offset + |footer| && (remaining == 0 || at + remaining == offset + |footer|)
    ensures FooterPart(footer, offset, at, remaining) == []
  {
  }

  lemma SliceOfJoin(content: Bytes, offset: nat, footer: Bytes, position: nat, n: nat)
    requires position < offset <= |content| && position + n <= offset + |footer|
    ensures var k := if n < offset - position then n else offset - position;
            (content[..offset] + footer)[position..position + n]
              == content[position..position + k]
                  + (if n - k == 0 then [] else footer[position + k - offset..position + n - offset])
  {
  }

  lemma FooterSlice(content: Bytes, offset: nat, footer: Bytes, position: nat, n: nat)
    requires offset <= |content| && offset <= position && position + n <= offset + |footer|
    ensures (content[..offset] + footer)[position..position + n] == footer[position - offset..position - offset + n]
  {
  }

  // ----- Whole sequences of requests -----

  datatype Operation = SeekTo(offset: int, whence: Whence) | ReadBytes(size: int)

  datatype Response = Moved(position: nat) | Refused | Data(bytes: Bytes)

  /** An in-memory file over `image`, one request. */
  function Respond(image: Bytes, position: nat, op: Operation): (Response, nat) {
    match op
    case SeekTo(offset, whence) =>
      var target := SeekTarget(image, position, offset, whence);
      if target >= 0 then (Moved(target), target) else (Refused, position)
    case ReadBytes(size) =>
      var data := ReadFrom(image, position, size);
      (Data(data), position + |data|)
  }

  function RespondAll(image: Bytes, ops: seq<Operation>): (seq<Response>, nat) {
    if ops == [] then ([], 0)
    else
      var (before, position) := RespondAll(image, ops[..|ops| - 1]);
      var (response, after) := Respond(image, position, ops[|ops| - 1]);
      (before + [response], after)
  }

  /** Every sequence of seeks and reads on a fresh view gets, request by request, what an
      in-memory file over body and footer would give. */
  method Serve(view: ArchiveView, ops: seq<Operation>) returns (responses: seq<Response>)
    requires view.offset <= |view.handle.content| && view.position == 0
    modifies view, view.handle
    ensures responses == RespondAll(view.Image(), ops).0
  {
    hide ReadFrom, SeekTarget;
    responses := [];
    for i := 0 to |ops|
      invariant RespondAll(view.Image(), ops[..i]) == (responses, view.position)
    {
      assert ops[..i + 1][..i] == ops[..i];
      match ops[i] {
        case SeekTo(offset, whence) =>
          var ok := view.Seek(offset, whence);
          responses := responses + [if ok then Moved(view.position) else Refused];
        case ReadBytes(size) =>
          var data := view.Read(size);
          responses := responses + [Data(data)];
      }
    }
    assert ops[..|ops|] == ops;
  }

  /** From the raw bytes to the archive reader: after a successful preflight, every
      sequence of seeks and reads on the view gets what a plain file over the archive
      would give. */
  method ServeArchive(archive: Bytes, l: Limits, ops: seq<Operation>) returns (r: Option<seq<Response>>)
    ensures r.Some? <==> Contents(archive, l).Some?
    ensures r.Some? ==> r.value == RespondAll(archive, ops).0
  {
    hide Contents, RespondAll, Locals;
    var admitted := Preflight(archive, l);
    if admitted.None? {
      return None;
    }
    var offset := admitted.value.offset;
    var handle := new Handle(archive);
    var view := new ArchiveView(handle, offset, admitted.value.footer);
    assert archive[..offset] + archive[offset..] == archive;
    var responses := Serve(view, ops);
    r := Some(responses);
  }
}
