/** `worktree.rs`: reading git's index file, versions 2 to 4.

    The reader walks untrusted bytes by offsets: a header, a counted list of
    entries whose length depends on the version (padding to eight bytes, or paths
    compressed against the entry before), then extensions up to the trailing
    checksum. It is proved to invert the writer of each version, and its number
    encoding exactly where it does not refuse. */
module GitIndex {
  import opened NumberTheory
  import opened Bytes

  // ------------------------------------------------- variable-length integers

  /** Above this a continuation is refused: no path is that long. */
  const VARINT_LIMIT: nat := 0x200_0000

  /** Reading on after a byte with its high bit set, with v so far. */
  function MoreVar(b: seq<Byte>, off: nat, v: nat): (r: Option<(nat, nat)>)
    ensures r.Some? ==> off < r.value.1 <= |b|
    decreases |b| - off
  {
    if v >= VARINT_LIMIT || off >= |b| then None
    else
      var v' := (v + 1) * 128 + b[off] as int % 128;
      if b[off] < 128 then Some((v', off + 1)) else MoreVar(b, off + 1, v')
  }

  /** The number at an offset, and where reading stopped. */
  function ReadVar(b: seq<Byte>, off: nat): (r: Option<(nat, nat)>)
    ensures r.Some? ==> off < r.value.1 <= |b|
  {
    if off >= |b| then None
    else if b[off] < 128 then Some((b[off] as int, off + 1))
    else MoreVar(b, off + 1, b[off] as int % 128)
  }

  /** `read_varint`. */
  method ReadVarint(b: seq<Byte>, start: nat) returns (r: Option<(nat, nat)>)
    ensures r == ReadVar(b, start)
  {
    var off := start;
    if off >= |b| {
      return None;
    }
    var c: Byte := b[off];
    off := off + 1;
    var v: nat := c as int % 128;
    while c >= 128
      invariant off <= |b|
      invariant ReadVar(b, start) == if c >= 128 then MoreVar(b, off, v) else Some((v, off))
      decreases |b| - off, c
    {
      if v >= VARINT_LIMIT {
        return None;
      }
      if off >= |b| {
        return None;
      }
      c := b[off];
      off := off + 1;
      v := (v + 1) * 128 + c as int % 128;
    }
    return Some((v, off));
  }

  /** All bytes but the last: each continuation stands for one more than it shows. */
  function EncHigh(u: nat): (b: seq<Byte>)
    ensures |b| > 0
  {
    if u < 128 then [128 + u] else EncHigh(u / 128 - 1) + [128 + u % 128]
  }

  /** Git's offset encoding. */
  function EncVar(v: nat): (b: seq<Byte>)
    ensures |b| > 0
  {
    if v < 128 then [v] else EncHigh(v / 128 - 1) + [v % 128]
  }

  /** The bytes e stand at an offset of b. */
  predicate At(b: seq<Byte>, off: nat, e: seq<Byte>)
    decreases |e|
  {
    if e == [] then off <= |b| else off < |b| && b[off] == e[0] && At(b, off + 1, e[1..])
  }

  lemma {:induction false} AtJoin(b: seq<Byte>, off: nat, x: seq<Byte>, y: seq<Byte>)
    requires At(b, off, x + y)
    ensures At(b, off, x) && At(b, off + |x|, y)
    decreases |x|
  {
    if x == [] {
      assert x + y == y;
      AtFits(b, off, y);
    } else {
      assert (x + y)[1..] == x[1..] + y;
      AtJoin(b, off + 1, x[1..], y);
    }
  }

  lemma {:induction false} AtFits(b: seq<Byte>, off: nat, e: seq<Byte>)
    requires At(b, off, e)
    ensures off + |e| <= |b|
    decreases |e|
  {
    if e != [] {
      AtFits(b, off + 1, e[1..]);
    }
  }

  lemma {:induction false} AtSlice(b: seq<Byte>, off: nat, e: seq<Byte>)
    requires At(b, off, e)
    ensures off + |e| <= |b| && b[off..off + |e|] == e
    decreases |e|
  {
    if e != [] {
      AtSlice(b, off + 1, e[1..]);
      assert b[off..off + |e|] == [b[off]] + b[off + 1..off + |e|];
      assert e == [e[0]] + e[1..];
    }
  }

  lemma {:induction false} AtWhole(b: seq<Byte>, off: nat)
    requires off <= |b|
    ensures At(b, off, b[off..])
    decreases |b| - off
  {
    if off < |b| {
      AtWhole(b, off + 1);
      assert b[off..][1..] == b[off + 1..];
    }
  }

  lemma AtSplit(b: seq<Byte>, off: nat, e: seq<Byte>, last: Byte)
    requires At(b, off, e + [last])
    ensures At(b, off, e) && off + |e| < |b| && b[off + |e|] == last
  {
    AtJoin(b, off, e, [last]);
  }

  /** The continuation bytes of u leave the reader holding u, unless an earlier value already hit the limit. */
  lemma {:induction false} HighReads(b: seq<Byte>, off: nat, u: nat)
    requires At(b, off, EncHigh(u))
    ensures ReadVar(b, off) == if u < 128 || u / 128 - 1 < VARINT_LIMIT then MoreVar(b, off + |EncHigh(u)|, u) else None
  {
    if u < 128 {
      assert b[off] == 128 + u;
    } else {
      var h := u / 128 - 1;
      AtSplit(b, off, EncHigh(h), 128 + u % 128);
      HighReads(b, off, h);
      var next := off + |EncHigh(h)|;
      assert (h + 1) * 128 + u % 128 == u;
      assert b[next] as int % 128 == u % 128;
    }
  }

  /** The reader inverts the offset encoding for every number below 2^32 + 128, and refuses every other. */
  lemma VarintRoundTrip(b: seq<Byte>, off: nat, v: nat)
    requires At(b, off, EncVar(v))
    ensures ReadVar(b, off) == if v < 0x1_0000_0080 then Some((v, off + |EncVar(v)|)) else None
  {
    if v < 128 {
      assert b[off] == v;
    } else {
      var h := v / 128 - 1;
      AtSplit(b, off, EncHigh(h), v % 128);
      HighReads(b, off, h);
      assert (h + 1) * 128 + v % 128 == v;
      assert v < 0x1_0000_0080 <==> h < VARINT_LIMIT;
    }
  }

  // ------------------------------------------------- entries

  datatype Entry = Entry(path: seq<Byte>, oid: seq<Byte>, mode: nat, stage: nat, intentToAdd: bool)
  datatype Index = Index(entries: seq<Entry>, stale: bool)

  /** `u16::from_be_bytes` and `u32::from_be_bytes` at an offset. */
  function U16(b: seq<Byte>, off: nat): nat
    requires off + 2 <= |b|
  {
    b[off] as int * 256 + b[off + 1] as int
  }

  function U32(b: seq<Byte>, off: nat): nat
    requires off + 4 <= |b|
  {
    ((b[off] as int * 256 + b[off + 1] as int) * 256 + b[off + 2] as int) * 256 + b[off + 3] as int
  }

  const NUL: Byte := 0

  /** Position of the first byte c at or after an offset. */
  function Find(b: seq<Byte>, off: nat, c: Byte): (n: Option<nat>)
    ensures n.Some? ==> off <= n.value < |b| && b[n.value] == c
    decreases |b| - off
  {
    if off >= |b| then None else if b[off] == c then Some(off) else Find(b, off + 1, c)
  }

  /** The entry's length once padded with NULs to a multiple of eight. */
  function Padded(n: nat): (p: nat)
    ensures n < p <= n + 8
  {
    (n + 8) / 8 * 8
  }

  /** The path found at an offset of the entry that starts earlier, and where the entry ends. */
  function ParsePath(version: nat, b: seq<Byte>, start: nat, at: nat, prev: seq<Byte>): (r: Option<(seq<Byte>, nat)>)
    requires start <= at
    ensures r.Some? ==> at < r.value.1 <= |b|
  {
    if version == 4 then
      match ReadVar(b, at)
      case None => None
      case Some(sv) =>
        (match Find(b, sv.1, NUL)
         case None => None
         case Some(n) => if sv.0 > |prev| then None else Some((prev[..|prev| - sv.0] + b[sv.1..n], n + 1)))
    else
      match Find(b, at, NUL)
      case None => None
      case Some(n) =>
        var next := start + Padded(n - start);
        if next > |b| then None else Some((b[at..n], next))
  }

  /** The entry at an offset, and where it ends. */
  function ParseEntry(version: nat, oidLen: nat, b: seq<Byte>, off: nat, prev: seq<Byte>): (r: Option<(Entry, nat)>)
    ensures r.Some? ==> off < r.value.1 <= |b|
  {
    var h := off + 42 + oidLen;
    if h > |b| then None
    else
      var flags := U16(b, off + 40 + oidLen);
      var extended := flags / 0x4000 % 2 == 1;
      if extended && (version < 3 || h + 2 > |b|) then None
      else
        var ita := extended && U16(b, h) / 0x2000 % 2 == 1;
        match ParsePath(version, b, off, if extended then h + 2 else h, prev)
        case None => None
        case Some(p) =>
          Some((Entry(p.0, b[off + 40..off + 40 + oidLen], U32(b, off + 24), flags / 0x1000 % 4, ita), p.1))
  }

  /** One buffer with its entry reader and the test of what stands where, named so that lists of entries can be
      reasoned about without their bodies. */
  datatype Reader = Reader(version: nat, oidLen: nat, b: seq<Byte>, entry: (nat, seq<Byte>) -> Option<(Entry, nat)>,
                           at: (nat, seq<Byte>) -> bool) {

    predicate EntryAt(off: nat, prev: seq<Byte>) {
      entry(off, prev) == ParseEntry(version, oidLen, b, off, prev)
    }

    predicate AtIs(off: nat, e: seq<Byte>) {
      at(off, e) == At(b, off, e)
    }

    ghost predicate Valid() {
      (forall off, prev :: EntryAt(off, prev)) && (forall off, e :: AtIs(off, e))
    }
  }

  function ReaderOf(version: nat, oidLen: nat, b: seq<Byte>): (r: Reader)
    ensures r.version == version && r.oidLen == oidLen && r.b == b && r.Valid()
  {
    var r := Reader(version, oidLen, b, (off, prev) => ParseEntry(version, oidLen, b, off, prev),
                    (off: nat, e: seq<Byte>) => At(b, off, e));
    assert forall off, prev :: r.EntryAt(off, prev);
    assert forall off, e :: r.AtIs(off, e);
    r
  }

  function ParseEntries(r: Reader, count: nat, off: nat, prev: seq<Byte>): Option<(seq<Entry>, nat)>
    decreases count
  {
    if count == 0 then Some(([], off))
    else
      match r.entry(off, prev)
      case None => None
      case Some(e) => Before([e.0], ParseEntries(r, count - 1, e.1, e.0.path))
  }

  function Before(entries: seq<Entry>, more: Option<(seq<Entry>, nat)>): Option<(seq<Entry>, nat)> {
    match more case None => None case Some(m) => Some((entries + m.0, m.1))
  }

  const TREE: seq<Byte> := [84, 82, 69, 69]
  const DIRC: seq<Byte> := [68, 73, 82, 67]

  /** The extensions: a capital first letter may be ignored, any other may not; the cache tree tells whether
      something is staged. Reading the cache tree itself is a parameter. */
  function ParseExtensions(tree: seq<Byte> -> Option<bool>, b: seq<Byte>, off: nat, stale: bool): Option<bool>
    decreases |b| - off
  {
    if off >= |b| then Some(stale)
    else if off + 8 > |b| then None
    else
      var size := U32(b, off + 4);
      var next := off + 8 + size;
      if next > |b| then None
      else if b[off..off + 4] == TREE then
        match tree(b[off + 8..next]) case None => None case Some(s) => ParseExtensions(tree, b, next, s)
      else if 65 <= b[off] <= 90 then ParseExtensions(tree, b, next, stale)
      else None
  }

  /** The whole file; the trailing checksum is not checked. */
  function Parse(tree: seq<Byte> -> Option<bool>, file: seq<Byte>, oidLen: nat): Option<Index> {
    if |file| < 12 + oidLen || file[..4] != DIRC then None
    else
      var version := U32(file, 4);
      if !(2 <= version <= 4) then None
      else
        var b := file[..|file| - oidLen];
        match ParseEntries(ReaderOf(version, oidLen, b), U32(file, 8), 12, [])
        case None => None
        case Some(p) =>
          match ParseExtensions(tree, b, p.1, false)
          case None => None
          case Some(stale) => Some(Index(p.0, stale))
  }

  // ------------------------------------------------- the reader as the source runs it

  /** One entry at an offset; no index is ever out of bounds. */
  method ReadEntry(b: seq<Byte>, start: nat, version: nat, oidLen: nat, prev: seq<Byte>)
    returns (r: Option<(Entry, nat)>)
    ensures r == ParseEntry(version, oidLen, b, start, prev)
  {
    var off := start;
    var fixed := 40 + oidLen + 2;
    if off + fixed > |b| {
      return None;
    }
    var mode := U32(b, off + 24);
    var oid := b[off + 40..off + 40 + oidLen];
    var flags := U16(b, off + 40 + oidLen);
    off := off + fixed;
    var stage := flags / 0x1000 % 4;
    var intentToAdd := false;
    if flags / 0x4000 % 2 == 1 {
      if version < 3 {
        return None;
      }
      if off + 2 > |b| {
        return None;
      }
      intentToAdd := U16(b, off) / 0x2000 % 2 == 1;
      off := off + 2;
    }
    var path := ReadPath(b, start, off, version, prev);
    if path.None? {
      return None;
    }
    return Some((Entry(path.value.0, oid, mode, stage, intentToAdd), path.value.1));
  }

  method ReadPath(b: seq<Byte>, start: nat, at: nat, version: nat, prev: seq<Byte>) returns (r: Option<(seq<Byte>, nat)>)
    requires start <= at
    ensures r == ParsePath(version, b, start, at, prev)
  {
    if version == 4 {
      // Version 4 writes only where the path departs from the one before it.
      var sv := ReadVarint(b, at);
      if sv.None? {
        return None;
      }
      var nul := Find(b, sv.value.1, NUL);
      if nul.None? || sv.value.0 > |prev| {
        return None;
      }
      return Some((prev[..|prev| - sv.value.0] + b[sv.value.1..nul.value], nul.value + 1));
    }
    var nul := Find(b, at, NUL);
    if nul.None? {
      return None;
    }
    var off := start + (nul.value - start + 8) / 8 * 8;
    if off > |b| {
      return None;
    }
    return Some((b[at..nul.value], off));
  }

  method ReadEntries(r: Reader, count: nat) returns (es: Option<(seq<Entry>, nat)>)
    requires r.Valid()
    ensures es == ParseEntries(r, count, 12, [])
  {
    var entries: seq<Entry> := [];
    var prev: seq<Byte> := [];
    var off := 12;
    BeforeNothing(ParseEntries(r, count, 12, []));
    for i := 0 to count
      invariant ParseEntries(r, count, 12, []) == Before(entries, ParseEntries(r, count - i, off, prev))
    {
      assert r.EntryAt(off, prev);
      var e := ReadEntry(r.b, off, r.version, r.oidLen, prev);
      if e.None? {
        return None;
      }
      BeforeStep(entries, e.value.0, ParseEntries(r, count - i - 1, e.value.1, e.value.0.path));
      entries := entries + [e.value.0];
      prev := e.value.0.path;
      off := e.value.1;
    }
    assert entries + [] == entries;
    return Some((entries, off));
  }

  lemma BeforeNothing(m: Option<(seq<Entry>, nat)>)
    ensures Before([], m) == m
  {
    if m.Some? {
      assert [] + m.value.0 == m.value.0;
    }
  }

  lemma BeforeStep(entries: seq<Entry>, e: Entry, m: Option<(seq<Entry>, nat)>)
    ensures Before(entries, Before([e], m)) == Before(entries + [e], m)
  {
    if m.Some? {
      Assoc(entries, [e], m.value.0);
    }
  }

  method ReadExtensions(tree: seq<Byte> -> Option<bool>, b: seq<Byte>, start: nat) returns (stale: Option<bool>)
    ensures stale == ParseExtensions(tree, b, start, false)
  {
    var off := start;
    var seen := false;
    while off < |b|
      invariant ParseExtensions(tree, b, start, false) == ParseExtensions(tree, b, off, seen)
      decreases |b| - off
    {
      if off + 8 > |b| {
        return None;
      }
      var name, first, size := b[off..off + 4], b[off], U32(b, off + 4);
      var next := off + 8 + size;
      if next > |b| {
        return None;
      }
      if name == TREE {
        var s := tree(b[off + 8..next]);
        if s.None? {
          return None;
        }
        seen := s.value;
      } else if !(65 <= first <= 90) {
        return None;
      }
      off := next;
    }
    return Some(seen);
  }

  /** `parse_index`. */
  method ParseIndex(tree: seq<Byte> -> Option<bool>, file: seq<Byte>, oidLen: nat) returns (r: Option<Index>)
    ensures r == Parse(tree, file, oidLen)
  {
    if |file| < 12 + oidLen || file[..4] != DIRC {
      return None;
    }
    var version := U32(file, 4);
    if !(2 <= version <= 4) {
      return None;
    }
    var b := file[..|file| - oidLen];
    var es := ReadEntries(ReaderOf(version, oidLen, b), U32(file, 8));
    if es.None? {
      return None;
    }
    var stale := ReadExtensions(tree, b, es.value.1);
    if stale.None? {
      return None;
    }
    return Some(Index(es.value.0, stale.value));
  }

  // ------------------------------------------------- the format, as git writes it

  /** An entry with everything git stores of it: keep is how much of the previous path a version 4 writer reuses, pad
      what versions 2 and 3 put after the path, a NUL and then filling nobody looks at. */
  datatype Raw = Raw(meta: seq<Byte>, mode: nat, more: seq<Byte>, oid: seq<Byte>, nameLen: nat, stage: nat, assumeValid: bool,
                     ext: Option<nat>, path: seq<Byte>, keep: nat, pad: seq<Byte>)

  predicate RawOk(version: nat, oidLen: nat, e: Raw, prev: seq<Byte>) {
    && |e.meta| == 24 && e.mode < 0x1_0000_0000 && |e.more| == 12 && |e.oid| == oidLen
    && e.nameLen < 0x1000 && e.stage < 4 && 0 !in e.path
    && (e.ext.Some? ==> version >= 3 && e.ext.value < 0x1_0000)
    && (version == 4 ==> e.keep <= |prev| && e.keep <= |e.path| && prev[..e.keep] == e.path[..e.keep]
                         && |prev| - e.keep < 0x1_0000_0080)
    && (version != 4 ==> PadOk(oidLen, e))
  }

  /** The padding of versions 2 and 3: at least one NUL, up to a multiple of eight bytes. */
  predicate PadOk(oidLen: nat, e: Raw) {
    var n := 42 + oidLen + (if e.ext.Some? then 2 else 0) + |e.path|;
    e.pad != [] && e.pad[0] == 0 && n + |e.pad| == Padded(n)
  }

  function Flags(e: Raw): nat {
    e.nameLen + 0x1000 * e.stage + (if e.ext.Some? then 0x4000 else 0) + (if e.assumeValid then 0x8000 else 0)
  }

  const TWO: nat := 2
  const FOUR: nat := 4

  function FixedBytes(e: Raw): seq<Byte> {
    e.meta + (ToBytes(e.mode, FOUR) + (e.more + (e.oid + ToBytes(Flags(e), TWO))))
  }

  function ExtBytes(e: Raw): (b: seq<Byte>)
    ensures |b| == if e.ext.Some? then 2 else 0
  {
    match e.ext case None => [] case Some(x) => ToBytes(x, TWO)
  }

  function PathBytes(version: nat, oidLen: nat, e: Raw, prev: seq<Byte>): seq<Byte>
    requires RawOk(version, oidLen, e, prev)
  {
    if version == 4 then EncVar(|prev| - e.keep) + (e.path[e.keep..] + [0]) else e.path + e.pad
  }

  function RawBytes(version: nat, oidLen: nat, e: Raw, prev: seq<Byte>): seq<Byte>
    requires RawOk(version, oidLen, e, prev)
  {
    var path := PathBytes(version, oidLen, e, prev);
    if e.ext.None? then FixedBytes(e) + path else FixedBytes(e) + (ExtBytes(e) + path)
  }

  function Meaning(e: Raw): Entry {
    Entry(e.path, e.oid, e.mode, e.stage, e.ext.Some? && e.ext.value / 0x2000 % 2 == 1)
  }

  // ------------------------------------------------- round trip

  lemma SmallWidths()
    ensures Pow(256, TWO) == 0x1_0000 && Pow(256, FOUR) == 0x1_0000_0000
  {
    assert Pow(256, 0) == 1 && Pow(256, 1) == 256 * Pow(256, 0) && Pow(256, 2) == 256 * Pow(256, 1);
    PowAdd(256, 2, 2);
  }

  /** A number written big-endian at an offset. */
  lemma NumberAt16(b: seq<Byte>, off: nat, n: nat)
    requires At(b, off, ToBytes(n, TWO)) && n < 0x1_0000
    ensures off + 2 <= |b| && U16(b, off) == n
  {
    SmallWidths();
    AtSlice(b, off, ToBytes(n, TWO));
    ToBytesReads(n, TWO);
    var s := b[off..off + 2];
    assert s[..1][..0] == [] && s[..1][0] == b[off] && s[1] == b[off + 1];
    assert BigEndian(s) == BigEndian(s[..1]) * 256 + s[1] as int && BigEndian(s[..1]) == s[..1][0] as int;
  }

  lemma NumberAt32(b: seq<Byte>, off: nat, n: nat)
    requires At(b, off, ToBytes(n, FOUR)) && n < 0x1_0000_0000
    ensures off + 4 <= |b| && U32(b, off) == n
  {
    SmallWidths();
    AtSlice(b, off, ToBytes(n, FOUR));
    ToBytesReads(n, FOUR);
    FourBytes(b[off..off + 4]);
  }

  lemma FourBytes(s: seq<Byte>)
    requires |s| == 4
    ensures BigEndian(s) == ((s[0] as int * 256 + s[1] as int) * 256 + s[2] as int) * 256 + s[3] as int
  {
    var s3 := s[..3];
    var s2 := s3[..2];
    var s1 := s2[..1];
    assert s1[..0] == [] && BigEndian(s1) == s1[0] as int;
    assert BigEndian(s2) == BigEndian(s1) * 256 + s2[1] as int;
    assert BigEndian(s3) == BigEndian(s2) * 256 + s3[2] as int;
    assert BigEndian(s) == BigEndian(s3) * 256 + s[3] as int;
  }

  lemma {:induction false} FindAfter(b: seq<Byte>, off: nat, p: seq<Byte>, c: Byte)
    requires At(b, off, p) && c !in p && off + |p| < |b| && b[off + |p|] == c
    ensures Find(b, off, c) == Some(off + |p|)
    decreases |p|
  {
    if p != [] {
      assert b[off] == p[0] && p[0] in p;
      assert forall x :: x in p[1..] ==> x in p;
      FindAfter(b, off + 1, p[1..], c);
    }
  }

  lemma FlagBits(e: Raw)
    requires e.nameLen < 0x1000 && e.stage < 4
    ensures Flags(e) < 0x1_0000 && Flags(e) / 0x1000 % 4 == e.stage && (Flags(e) / 0x4000 % 2 == 1 <==> e.ext.Some?)
  {
  }

  /** The fixed part is read back field by field. */
  lemma FixedReads(b: seq<Byte>, off: nat, e: Raw, oidLen: nat)
    requires At(b, off, FixedBytes(e))
    requires |e.meta| == 24 && |e.more| == 12 && |e.oid| == oidLen && e.mode < 0x1_0000_0000 && Flags(e) < 0x1_0000
    ensures |FixedBytes(e)| == 42 + oidLen
    ensures off + 42 + oidLen <= |b|
    ensures U32(b, off + 24) == e.mode && b[off + 40..off + 40 + oidLen] == e.oid
    ensures U16(b, off + 40 + oidLen) == Flags(e)
  {
    var m, f := ToBytes(e.mode, FOUR), ToBytes(Flags(e), TWO);
    AtJoin(b, off, e.meta, m + (e.more + (e.oid + f)));
    AtJoin(b, off + 24, m, e.more + (e.oid + f));
    AtJoin(b, off + 28, e.more, e.oid + f);
    AtJoin(b, off + 40, e.oid, f);
    AtSlice(b, off + 40, e.oid);
    NumberAt32(b, off + 24, e.mode);
    NumberAt16(b, off + 40 + oidLen, Flags(e));
  }

  /** Versions 2 and 3: the path up to its NUL, then on to the next multiple of eight. */
  lemma PaddedPathReads(version: nat, oidLen: nat, e: Raw, prev: seq<Byte>, b: seq<Byte>, start: nat)
    requires RawOk(version, oidLen, e, prev) && version != 4
    requires var at := start + 42 + oidLen + |ExtBytes(e)|; At(b, at, PathBytes(version, oidLen, e, prev))
    ensures var at := start + 42 + oidLen + |ExtBytes(e)|;
      ParsePath(version, b, start, at, prev) == Some((e.path, at + |PathBytes(version, oidLen, e, prev)|))
  {
    var at, z := start + 42 + oidLen + |ExtBytes(e)|, e.pad;
    AtFits(b, at, e.path + z);
    AtJoin(b, at, e.path, z);
    assert b[at + |e.path|] == z[0];
    FindAfter(b, at, e.path, NUL);
    AtSlice(b, at, e.path);
  }

  /** Version 4: what is kept of the previous path, and the rest. */
  lemma CompressedPathReads(oidLen: nat, e: Raw, prev: seq<Byte>, b: seq<Byte>, start: nat, at: nat)
    requires RawOk(4, oidLen, e, prev) && start <= at && At(b, at, PathBytes(4, oidLen, e, prev))
    ensures ParsePath(4, b, start, at, prev) == Some((e.path, at + |PathBytes(4, oidLen, e, prev)|))
  {
    var strip, suffix := |prev| - e.keep, e.path[e.keep..];
    var mid := at + |EncVar(strip)|;
    var nul := mid + |suffix|;
    assert ReadVar(b, at) == Some((strip, mid)) && At(b, mid, suffix + [0]) by {
      AtJoin(b, at, EncVar(strip), suffix + [0]);
      VarintRoundTrip(b, at, strip);
    }
    assert Find(b, mid, NUL) == Some(nul) && b[mid..nul] == suffix by {
      AtSplit(b, mid, suffix, 0);
      assert forall x :: x in suffix ==> x in e.path;
      FindAfter(b, mid, suffix, NUL);
      AtSlice(b, mid, suffix);
    }
    assert prev[..|prev| - strip] + b[mid..nul] == e.path by {
      assert prev[..e.keep] + suffix == e.path;
    }
    CompressedPath(b, start, at, prev, strip, mid, nul, e.path);
  }

  lemma CompressedPath(b: seq<Byte>, start: nat, at: nat, prev: seq<Byte>, strip: nat, mid: nat, nul: nat, path: seq<Byte>)
    requires start <= at && ReadVar(b, at) == Some((strip, mid)) && Find(b, mid, NUL) == Some(nul)
    requires strip <= |prev| && prev[..|prev| - strip] + b[mid..nul] == path
    ensures ParsePath(4, b, start, at, prev) == Some((path, nul + 1))
  {
  }

  lemma PathReads(version: nat, oidLen: nat, e: Raw, prev: seq<Byte>, b: seq<Byte>, off: nat, at: nat)
    requires RawOk(version, oidLen, e, prev) && at == off + 42 + oidLen + |ExtBytes(e)|
    requires At(b, at, PathBytes(version, oidLen, e, prev))
    ensures at <= |b| && ParsePath(version, b, off, at, prev) == Some((e.path, at + |PathBytes(version, oidLen, e, prev)|))
  {
    AtFits(b, at, PathBytes(version, oidLen, e, prev));
    if version == 4 {
      CompressedPathReads(oidLen, e, prev, b, off, at);
    } else {
      PaddedPathReads(version, oidLen, e, prev, b, off);
    }
  }

  /** What the parser reads ahead of the path is the entry's. */
  predicate HeadRead(b: seq<Byte>, off: nat, oidLen: nat, e: Raw) {
    && off + 42 + oidLen + |ExtBytes(e)| <= |b|
    && U32(b, off + 24) == e.mode && b[off + 40..off + 40 + oidLen] == e.oid
    && U16(b, off + 40 + oidLen) == Flags(e)
    && (e.ext.Some? ==> U16(b, off + 42 + oidLen) == e.ext.value)
  }

  lemma HeadReads(oidLen: nat, e: Raw, b: seq<Byte>, off: nat)
    requires |e.meta| == 24 && |e.more| == 12 && |e.oid| == oidLen && e.mode < 0x1_0000_0000 && Flags(e) < 0x1_0000
    requires e.ext.Some? ==> e.ext.value < 0x1_0000
    requires At(b, off, FixedBytes(e)) && At(b, off + 42 + oidLen, ExtBytes(e))
    ensures HeadRead(b, off, oidLen, e)
  {
    FixedReads(b, off, e, oidLen);
    if e.ext.Some? {
      NumberAt16(b, off + 42 + oidLen, e.ext.value);
    }
  }

  lemma EntryFromPieces(version: nat, oidLen: nat, e: Raw, prev: seq<Byte>, b: seq<Byte>, off: nat)
    requires RawOk(version, oidLen, e, prev)
    requires var h := off + 42 + oidLen;
      && At(b, off, FixedBytes(e)) && At(b, h, ExtBytes(e)) && At(b, h + |ExtBytes(e)|, PathBytes(version, oidLen, e, prev))
    ensures ParseEntry(version, oidLen, b, off, prev)
      == Some((Meaning(e), off + 42 + oidLen + |ExtBytes(e)| + |PathBytes(version, oidLen, e, prev)|))
  {
    var at := off + 42 + oidLen + |ExtBytes(e)|;
    FlagBits(e);
    HeadReads(oidLen, e, b, off);
    PathReads(version, oidLen, e, prev, b, off, at);
    EntryFields(version, oidLen, b, off, prev, e, at + |PathBytes(version, oidLen, e, prev)|);
  }

  /** Every entry git can write is read back, whatever its version's padding or compression, up to exactly its end. */
  lemma EntryRoundTrip(version: nat, oidLen: nat, e: Raw, prev: seq<Byte>, b: seq<Byte>, off: nat)
    requires RawOk(version, oidLen, e, prev) && At(b, off, RawBytes(version, oidLen, e, prev))
    ensures ParseEntry(version, oidLen, b, off, prev) == Some((Meaning(e), off + |RawBytes(version, oidLen, e, prev)|))
  {
    FixedLength(e);
    PiecesStand(b, off, FixedBytes(e), e.ext.Some?, ExtBytes(e), PathBytes(version, oidLen, e, prev));
    EntryFromPieces(version, oidLen, e, prev, b, off);
  }

  lemma PiecesStand(b: seq<Byte>, off: nat, fixed: seq<Byte>, extended: bool, ext: seq<Byte>, path: seq<Byte>)
    requires !extended ==> ext == []
    requires At(b, off, if extended then fixed + (ext + path) else fixed + path)
    ensures At(b, off, fixed) && At(b, off + |fixed|, ext) && At(b, off + |fixed| + |ext|, path)
  {
    if extended {
      AtJoin(b, off, fixed, ext + path);
      AtJoin(b, off + |fixed|, ext, path);
    } else {
      AtJoin(b, off, fixed, path);
      AtFits(b, off + |fixed|, path);
    }
  }

  lemma FixedLength(e: Raw)
    ensures |FixedBytes(e)| == |e.meta| + 4 + |e.more| + |e.oid| + 2
  {
  }

  lemma EntryFields(version: nat, oidLen: nat, b: seq<Byte>, off: nat, prev: seq<Byte>, e: Raw, next: nat)
    requires HeadRead(b, off, oidLen, e) && (e.ext.Some? ==> version >= 3)
    requires Flags(e) / 0x1000 % 4 == e.stage && (Flags(e) / 0x4000 % 2 == 1 <==> e.ext.Some?)
    requires ParsePath(version, b, off, off + 42 + oidLen + |ExtBytes(e)|, prev) == Some((e.path, next))
    ensures ParseEntry(version, oidLen, b, off, prev) == Some((Meaning(e), next))
  {
  }

  /** The entry writer of one version, named like the reader. */
  datatype Writer = Writer(version: nat, oidLen: nat, raw: (Raw, seq<Byte>) -> seq<Byte>) {

    predicate RawIs(e: Raw, prev: seq<Byte>) {
      RawOk(version, oidLen, e, prev) ==> raw(e, prev) == RawBytes(version, oidLen, e, prev)
    }

    ghost predicate Valid() {
      forall e, prev :: RawIs(e, prev)
    }
  }

  function WriterOf(version: nat, oidLen: nat): (w: Writer)
    ensures w.version == version && w.oidLen == oidLen && w.Valid()
  {
    var w := Writer(version, oidLen, (e, prev) => if RawOk(version, oidLen, e, prev) then RawBytes(version, oidLen, e, prev) else []);
    assert forall e, prev :: w.RawIs(e, prev);
    w
  }

  /** Every entry can be written after the one before it. */
  predicate RawsOk(version: nat, oidLen: nat, es: seq<Raw>, prev: seq<Byte>)
    decreases |es|
  {
    es != [] ==> RawOk(version, oidLen, es[0], prev) && RawsOk(version, oidLen, es[1..], es[0].path)
  }

  function RawsBytes(w: Writer, es: seq<Raw>, prev: seq<Byte>): seq<Byte>
    decreases |es|
  {
    if es == [] then [] else w.raw(es[0], prev) + RawsBytes(w, es[1..], es[0].path)
  }

  function Meanings(es: seq<Raw>): seq<Entry> {
    if es == [] then [] else [Meaning(es[0])] + Meanings(es[1..])
  }

  lemma JoinAt(r: Reader, off: nat, x: seq<Byte>, y: seq<Byte>)
    requires r.Valid() && r.at(off, x + y)
    ensures r.at(off, x) && r.at(off + |x|, y)
  {
    assert r.AtIs(off, x + y) && r.AtIs(off, x) && r.AtIs(off + |x|, y);
    AtJoin(r.b, off, x, y);
  }

  /** The bytes of the list stand at an offset and end at another. */
  predicate RawsAt(r: Reader, w: Writer, es: seq<Raw>, prev: seq<Byte>, off: nat, end: nat)
    decreases |es|
  {
    if es == [] then off == end
    else
      var raw := w.raw(es[0], prev);
      r.at(off, raw) && RawsAt(r, w, es[1..], es[0].path, off + |raw|, end)
  }

  lemma {:induction false} RawsStand(r: Reader, w: Writer, es: seq<Raw>, prev: seq<Byte>, off: nat)
    requires r.Valid() && r.at(off, RawsBytes(w, es, prev))
    ensures RawsAt(r, w, es, prev, off, off + |RawsBytes(w, es, prev)|)
    decreases |es|
  {
    if es != [] {
      var raw := w.raw(es[0], prev);
      JoinAt(r, off, raw, RawsBytes(w, es[1..], es[0].path));
      RawsStand(r, w, es[1..], es[0].path, off + |raw|);
    }
  }

  predicate SameFormat(r: Reader, w: Writer) {
    r.version == w.version && r.oidLen == w.oidLen
  }

  lemma EntryAnswers(r: Reader, e: Raw, prev: seq<Byte>, off: nat, raw: seq<Byte>)
    requires r.Valid() && RawOk(r.version, r.oidLen, e, prev) && raw == RawBytes(r.version, r.oidLen, e, prev) && r.at(off, raw)
    ensures r.entry(off, prev) == Some((Meaning(e), off + |raw|))
  {
    assert r.AtIs(off, raw);
    EntryRoundTrip(r.version, r.oidLen, e, prev, r.b, off);
    assert r.EntryAt(off, prev);
  }

  lemma EntryRead(r: Reader, w: Writer, e: Raw, prev: seq<Byte>, off: nat)
    requires r.Valid() && w.Valid() && SameFormat(r, w) && RawOk(w.version, w.oidLen, e, prev) && r.at(off, w.raw(e, prev))
    ensures r.entry(off, prev) == Some((Meaning(e), off + |w.raw(e, prev)|))
  {
    assert w.RawIs(e, prev);
    EntryAnswers(r, e, prev, off, w.raw(e, prev));
  }

  lemma {:induction false} EntriesRoundTrip(r: Reader, w: Writer, es: seq<Raw>, prev: seq<Byte>, off: nat, end: nat)
    requires r.Valid() && w.Valid() && SameFormat(r, w) && RawsOk(w.version, w.oidLen, es, prev) && RawsAt(r, w, es, prev, off, end)
    ensures ParseEntries(r, |es|, off, prev) == Some((Meanings(es), end))
    decreases |es|
  {
    if es != [] {
      EntryRead(r, w, es[0], prev, off);
      EntriesRoundTrip(r, w, es[1..], es[0].path, off + |w.raw(es[0], prev)|, end);
    }
  }

  datatype Extension = Extension(name: seq<Byte>, data: seq<Byte>)

  predicate ExtensionOk(x: Extension) {
    |x.name| == 4 && |x.data| < 0x1_0000_0000 && 65 <= x.name[0] <= 90
  }

  function ExtensionBytes(x: Extension): seq<Byte> {
    x.name + (ToBytes(|x.data|, FOUR) + x.data)
  }

  function ExtensionsBytes(xs: seq<Extension>): seq<Byte> {
    if xs == [] then [] else ExtensionBytes(xs[0]) + ExtensionsBytes(xs[1..])
  }

  /** The last cache tree decides; an unreadable one fails the file. */
  function Staleness(tree: seq<Byte> -> Option<bool>, xs: seq<Extension>, stale: bool): Option<bool> {
    if xs == [] then Some(stale)
    else if xs[0].name != TREE then Staleness(tree, xs[1..], stale)
    else match tree(xs[0].data) case None => None case Some(s) => Staleness(tree, xs[1..], s)
  }

  lemma ExtensionReads(b: seq<Byte>, off: nat, x: Extension)
    requires ExtensionOk(x) && At(b, off, ExtensionBytes(x))
    ensures off + 8 + |x.data| <= |b| && b[off..off + 4] == x.name && b[off] == x.name[0]
    ensures U32(b, off + 4) == |x.data| && b[off + 8..off + 8 + |x.data|] == x.data
  {
    var n := ToBytes(|x.data|, FOUR);
    AtJoin(b, off, x.name, n + x.data);
    AtJoin(b, off + 4, n, x.data);
    NumberAt32(b, off + 4, |x.data|);
    AtSlice(b, off, x.name);
    AtSlice(b, off + 8, x.data);
    assert b[off] == x.name[0];
  }

  lemma ExtensionFields(tree: seq<Byte> -> Option<bool>, b: seq<Byte>, off: nat, name: seq<Byte>, data: seq<Byte>, stale: bool)
    requires off + 8 + |data| <= |b| && b[off..off + 4] == name && 65 <= b[off] <= 90
    requires U32(b, off + 4) == |data| && b[off + 8..off + 8 + |data|] == data
    ensures var next := off + 8 + |data|;
      ParseExtensions(tree, b, off, stale) ==
        if name != TREE then ParseExtensions(tree, b, next, stale)
        else match tree(data) case None => None case Some(s) => ParseExtensions(tree, b, next, s)
  {
  }

  /** One extension read: where the next one starts, and what it says. */
  lemma ExtensionStep(r: Reader, tree: seq<Byte> -> Option<bool>, x: Extension, off: nat, stale: bool)
    requires r.Valid() && ExtensionOk(x) && r.at(off, ExtensionBytes(x))
    ensures var next := off + |ExtensionBytes(x)|;
      ParseExtensions(tree, r.b, off, stale) ==
        if x.name != TREE then ParseExtensions(tree, r.b, next, stale)
        else match tree(x.data) case None => None case Some(s) => ParseExtensions(tree, r.b, next, s)
  {
    assert r.AtIs(off, ExtensionBytes(x));
    ExtensionReads(r.b, off, x);
    ExtensionFields(tree, r.b, off, x.name, x.data, stale);
  }

  lemma {:induction false} ExtensionsRoundTrip(r: Reader, tree: seq<Byte> -> Option<bool>, xs: seq<Extension>, off: nat, stale: bool)
    requires r.Valid() && forall x :: x in xs ==> ExtensionOk(x)
    requires r.at(off, ExtensionsBytes(xs)) && off + |ExtensionsBytes(xs)| == |r.b|
    ensures ParseExtensions(tree, r.b, off, stale) == Staleness(tree, xs, stale)
    decreases |xs|
  {
    if xs != [] {
      assert xs[0] in xs;
      JoinAt(r, off, ExtensionBytes(xs[0]), ExtensionsBytes(xs[1..]));
      ExtensionStep(r, tree, xs[0], off, stale);
      var next := off + |ExtensionBytes(xs[0])|;
      if xs[0].name != TREE {
        ExtensionsRoundTrip(r, tree, xs[1..], next, stale);
      } else if tree(xs[0].data).Some? {
        ExtensionsRoundTrip(r, tree, xs[1..], next, tree(xs[0].data).value);
      }
    }
  }

  /** A file without its checksum. */
  function FileBytes(w: Writer, es: seq<Raw>, xs: seq<Extension>): seq<Byte> {
    DIRC + (ToBytes(w.version, FOUR) + (ToBytes(|es|, FOUR) + (RawsBytes(w, es, []) + ExtensionsBytes(xs))))
  }

  lemma HeaderReads(b: seq<Byte>, version: nat, count: nat, rest: seq<Byte>)
    requires version < 0x1_0000_0000 && count < 0x1_0000_0000
    requires b == DIRC + (ToBytes(version, FOUR) + (ToBytes(count, FOUR) + rest))
    ensures |b| == 12 + |rest| && b[..4] == DIRC && U32(b, 4) == version && U32(b, 8) == count
    ensures At(b, 12, rest)
  {
    var v, n := ToBytes(version, FOUR), ToBytes(count, FOUR);
    AtWhole(b, 0);
    assert b[0..] == b;
    AtJoin(b, 0, DIRC, v + (n + rest));
    AtJoin(b, 4, v, n + rest);
    AtJoin(b, 8, n, rest);
    NumberAt32(b, 4, version);
    NumberAt32(b, 8, count);
  }

  lemma BodyReads(r: Reader, w: Writer, tree: seq<Byte> -> Option<bool>, es: seq<Raw>, xs: seq<Extension>, mid: nat)
    requires r.Valid() && w.Valid() && SameFormat(r, w) && mid == 12 + |RawsBytes(w, es, [])|
    requires RawsOk(w.version, w.oidLen, es, []) && forall x :: x in xs ==> ExtensionOk(x)
    requires r.at(12, RawsBytes(w, es, []) + ExtensionsBytes(xs)) && |r.b| == mid + |ExtensionsBytes(xs)|
    ensures ParseEntries(r, |es|, 12, []) == Some((Meanings(es), mid))
    ensures ParseExtensions(tree, r.b, mid, false) == Staleness(tree, xs, false)
  {
    JoinAt(r, 12, RawsBytes(w, es, []), ExtensionsBytes(xs));
    RawsStand(r, w, es, [], 12);
    EntriesRoundTrip(r, w, es, [], 12, mid);
    ExtensionsRoundTrip(r, tree, xs, mid, false);
  }

  lemma ReadPieces(r: Reader, w: Writer, tree: seq<Byte> -> Option<bool>, es: seq<Raw>, xs: seq<Extension>, checksum: seq<Byte>)
    requires r.Valid() && w.Valid() && SameFormat(r, w) && w.oidLen == |checksum| && 2 <= w.version <= 4
    requires RawsOk(w.version, w.oidLen, es, []) && forall x :: x in xs ==> ExtensionOk(x)
    requires r == ReaderOf(w.version, w.oidLen, r.b)
    requires |r.b| >= 12 && r.b[..4] == DIRC && U32(r.b, 4) == w.version && U32(r.b, 8) == |es|
    requires r.at(12, RawsBytes(w, es, []) + ExtensionsBytes(xs)) && |r.b| == 12 + |RawsBytes(w, es, [])| + |ExtensionsBytes(xs)|
    ensures Parse(tree, r.b + checksum, |checksum|)
      == match Staleness(tree, xs, false) case None => None case Some(s) => Some(Index(Meanings(es), s))
  {
    var mid := 12 + |RawsBytes(w, es, [])|;
    BodyReads(r, w, tree, es, xs, mid);
    FileFields(tree, r, checksum, |es|, Meanings(es), mid);
  }

  /** Every index file of versions 2 to 4, with any ignorable extensions and any checksum, is read back to its entries. */
  lemma IndexRoundTrip(tree: seq<Byte> -> Option<bool>, version: nat, es: seq<Raw>, xs: seq<Extension>, checksum: seq<Byte>)
    requires 2 <= version <= 4 && |es| < 0x1_0000_0000 && RawsOk(version, |checksum|, es, [])
    requires forall x :: x in xs ==> ExtensionOk(x)
    ensures Parse(tree, FileBytes(WriterOf(version, |checksum|), es, xs) + checksum, |checksum|)
      == match Staleness(tree, xs, false) case None => None case Some(s) => Some(Index(Meanings(es), s))
  {
    var w := WriterOf(version, |checksum|);
    var b := FileBytes(w, es, xs);
    var r := ReaderOf(version, |checksum|, b);
    HeaderReads(b, version, |es|, RawsBytes(w, es, []) + ExtensionsBytes(xs));
    assert r.AtIs(12, RawsBytes(w, es, []) + ExtensionsBytes(xs));
    ReadPieces(r, w, tree, es, xs, checksum);
  }

  lemma FileFields(tree: seq<Byte> -> Option<bool>, r: Reader, checksum: seq<Byte>, count: nat, entries: seq<Entry>, off: nat)
    requires r == ReaderOf(r.version, |checksum|, r.b) && 2 <= r.version <= 4
    requires |r.b| >= 12 && r.b[..4] == DIRC && U32(r.b, 4) == r.version && U32(r.b, 8) == count
    requires ParseEntries(r, count, 12, []) == Some((entries, off))
    ensures Parse(tree, r.b + checksum, |checksum|)
      == match ParseExtensions(tree, r.b, off, false) case None => None case Some(s) => Some(Index(entries, s))
  {
    var file := r.b + checksum;
    assert file[..|file| - |checksum|] == r.b;
    SameHeader(r.b, checksum);
  }

  lemma SameHeader(b: seq<Byte>, checksum: seq<Byte>)
    requires |b| >= 12
    ensures (b + checksum)[..4] == b[..4] && U32(b + checksum, 4) == U32(b, 4) && U32(b + checksum, 8) == U32(b, 8)
  {
  }
}
