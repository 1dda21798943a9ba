/** Exactly which files git's index reader accepts. */
module IndexFormat {
  import opened Bytes
  import opened GitIndex

  // ------------------------------------------------- from what was read back to what was written

  lemma {:induction false} FindFirst(b: seq<Byte>, off: nat, c: Byte)
    requires Find(b, off, c).Some?
    ensures c !in b[off..Find(b, off, c).value]
    decreases |b| - off
  {
    var n := Find(b, off, c).value;
    if b[off] != c {
      FindFirst(b, off + 1, c);
      assert b[off..n] == [b[off]] + b[off + 1..n];
    }
  }

  lemma Wrote16(b: seq<Byte>, off: nat)
    requires off + 2 <= |b|
    ensures U16(b, off) < 0x1_0000 && ToBytes(U16(b, off), TWO) == b[off..off + 2]
  {
    var n, s := U16(b, off), b[off..off + 2];
    Snoc(n, s[..1], s[1]);
    Snoc(n / 256, [], s[0]);
    assert s == [s[0]] + [s[1]] && s[..1] == [] + [s[0]];
  }

  /** The last byte of a number written in k + 1 bytes. */
  lemma Snoc(n: nat, high: seq<Byte>, last: Byte)
    requires n % 256 == last as int
    ensures ToBytes(n, |high| + 1) == ToBytes(n / 256, |high|) + [last]
  {
  }

  lemma Wrote32(b: seq<Byte>, off: nat)
    requires off + 4 <= |b|
    ensures U32(b, off) < 0x1_0000_0000 && ToBytes(U32(b, off), FOUR) == b[off..off + 4]
  {
    var n, s := U32(b, off), b[off..off + 4];
    var n3 := (b[off] as int * 256 + b[off + 1] as int) * 256 + b[off + 2] as int;
    var n2 := b[off] as int * 256 + b[off + 1] as int;
    Divided(n3, s[3], n);
    Divided(n2, s[2], n3);
    Wrote16(b, off);
    Snoc(n, s[..3], s[3]);
    Snoc(n3, s[..2], s[2]);
    assert s == b[off..off + 2] + [s[2]] + [s[3]];
  }

  lemma Divided(high: nat, last: Byte, n: nat)
    requires n == high * 256 + last as int
    ensures n / 256 == high && n % 256 == last as int
  {
  }

  /** One continuation byte more, of which v is then held. */
  lemma EncStep(u: nat, c: Byte, v: nat)
    requires v == (u + 1) * 128 + c as int % 128
    ensures (if c < 128 then EncVar(v) else EncHigh(v)) == EncHigh(u) + [c] && (v < 0x1_0000_0080 <==> u < VARINT_LIMIT)
  {
    assert v / 128 - 1 == u && v % 128 == c as int % 128;
  }

  lemma ReadMore(b: seq<Byte>, start: nat, off: nat, read: seq<Byte>)
    requires start < off < |b| && b[start..off] == read
    ensures b[start..off + 1] == read + [b[off]]
  {
  }

  lemma MoreStep(b: seq<Byte>, off: nat, u: nat, v: nat)
    requires off < |b| && v == (u + 1) * 128 + b[off] as int % 128 && MoreVar(b, off, u).Some?
    ensures u < VARINT_LIMIT && MoreVar(b, off, u) == if b[off] < 128 then Some((v, off + 1)) else MoreVar(b, off + 1, v)
  {
  }

  /** The continuation bytes read from one offset up to another leave the reader holding u, and are its encoding. */
  lemma {:induction false} MoreWrote(b: seq<Byte>, start: nat, off: nat, u: nat, read: seq<Byte>)
    requires start < off <= |b| && b[start..off] == read == EncHigh(u) && MoreVar(b, off, u).Some?
    ensures var (v, end) := MoreVar(b, off, u).value; v < 0x1_0000_0080 && b[start..end] == EncVar(v)
    decreases |b| - off
  {
    var v := (u + 1) * 128 + b[off] as int % 128;
    EncStep(u, b[off], v);
    ReadMore(b, start, off, read);
    MoreStep(b, off, u, v);
    if b[off] >= 128 {
      MoreWrote(b, start, off + 1, v, read + [b[off]]);
    }
  }

  lemma VarWrote(b: seq<Byte>, off: nat)
    requires ReadVar(b, off).Some?
    ensures var (v, end) := ReadVar(b, off).value; v < 0x1_0000_0080 && b[off..end] == EncVar(v)
  {
    assert b[off..off + 1] == [b[off]];
    if b[off] >= 128 {
      MoreWrote(b, off, off + 1, b[off] as int % 128, [b[off]]);
    }
  }

  /** The entry whose bytes were read. */
  function Recovered(version: nat, oidLen: nat, b: seq<Byte>, off: nat, prev: seq<Byte>): Raw
    requires ParseEntry(version, oidLen, b, off, prev).Some?
  {
    var (e, next) := ParseEntry(version, oidLen, b, off, prev).value;
    var h := off + 42 + oidLen;
    var flags := U16(b, off + 40 + oidLen);
    var ext := if flags / 0x4000 % 2 == 1 then Some(U16(b, h)) else None;
    var at := if ext.Some? then h + 2 else h;
    var keep := if version == 4 then |prev| - ReadVar(b, at).value.0 else 0;
    var pad := if version == 4 then [] else b[at + |e.path|..next];
    Raw(b[off..off + 24], U32(b, off + 24), b[off + 28..off + 40], e.oid, flags % 0x1000, e.stage, flags / 0x8000 % 2 == 1,
        ext, e.path, keep, pad)
  }

  lemma FlagsRecovered(flags: nat, e: Raw)
    requires flags < 0x1_0000 && e.nameLen == flags % 0x1000 && e.stage == flags / 0x1000 % 4
    requires (e.ext.Some? <==> flags / 0x4000 % 2 == 1) && (e.assumeValid <==> flags / 0x8000 % 2 == 1)
    ensures Flags(e) == flags
  {
    assert flags == flags % 0x1000 + 0x1000 * (flags / 0x1000);
    assert flags / 0x1000 == flags / 0x1000 % 4 + 4 * (flags / 0x4000);
    assert flags / 0x4000 == flags / 0x4000 % 2 + 2 * (flags / 0x8000);
  }

  /** Where the path of an entry starts. */
  function PathAt(oidLen: nat, off: nat, e: Raw): nat {
    off + 42 + oidLen + |ExtBytes(e)|
  }

  lemma KeptAndAdded(prev: seq<Byte>, keep: nat, suffix: seq<Byte>)
    requires keep <= |prev| && NUL !in prev && NUL !in suffix
    ensures var path := prev[..keep] + suffix; path[..keep] == prev[..keep] && path[keep..] == suffix && NUL !in path
  {
  }

  lemma CompressedWrote(b: seq<Byte>, start: nat, at: nat, prev: seq<Byte>, path: seq<Byte>, next: nat, strip: nat, mid: nat)
    requires start <= at && ParsePath(4, b, start, at, prev) == Some((path, next)) && NUL !in prev
    requires ReadVar(b, at) == Some((strip, mid))
    ensures strip <= |prev| && strip < 0x1_0000_0080 && at < next
    ensures var keep := |prev| - strip;
      && keep <= |path| && prev[..keep] == path[..keep] && NUL !in path
      && b[at..next] == EncVar(strip) + (path[keep..] + [0])
  {
    var nul := Find(b, mid, NUL).value;
    VarWrote(b, at);
    FindFirst(b, mid, NUL);
    KeptAndAdded(prev, |prev| - strip, b[mid..nul]);
    Ended(b, at, mid, nul);
  }

  lemma Ended(b: seq<Byte>, at: nat, mid: nat, nul: nat)
    requires at <= mid <= nul < |b| && b[nul] == 0
    ensures b[at..nul + 1] == b[at..mid] + (b[mid..nul] + [0])
  {
  }

  lemma PaddedWrote(version: nat, b: seq<Byte>, start: nat, at: nat, prev: seq<Byte>, path: seq<Byte>, next: nat)
    requires version != 4 && start <= at && ParsePath(version, b, start, at, prev) == Some((path, next))
    ensures NUL !in path && at + |path| < next && b[at + |path|] == 0 && next == start + Padded(at - start + |path|)
    ensures b[at..next] == path + b[at + |path|..next]
  {
    FindFirst(b, at, NUL);
  }

  lemma ExtWrote(version: nat, oidLen: nat, b: seq<Byte>, off: nat, prev: seq<Byte>)
    requires ParseEntry(version, oidLen, b, off, prev).Some?
    ensures var raw := Recovered(version, oidLen, b, off, prev);
      && PathAt(oidLen, off, raw) <= |b| && b[off + 42 + oidLen..PathAt(oidLen, off, raw)] == ExtBytes(raw)
      && (raw.ext.Some? ==> version >= 3 && raw.ext.value < 0x1_0000)
  {
    var raw := Recovered(version, oidLen, b, off, prev);
    if raw.ext.Some? {
      Wrote16(b, off + 42 + oidLen);
    }
  }

  /** The path stands after the fixed part, padded or compressed as the version has it. */
  lemma PathParsed(version: nat, oidLen: nat, b: seq<Byte>, off: nat, prev: seq<Byte>)
    requires ParseEntry(version, oidLen, b, off, prev).Some?
    ensures var (e, next) := ParseEntry(version, oidLen, b, off, prev).value;
      var raw := Recovered(version, oidLen, b, off, prev);
      ParsePath(version, b, off, PathAt(oidLen, off, raw), prev) == Some((e.path, next)) && raw.path == e.path
  {
  }

  lemma ShortPathWrote(version: nat, oidLen: nat, b: seq<Byte>, off: nat, prev: seq<Byte>)
    requires version == 4 && ParseEntry(version, oidLen, b, off, prev).Some? && NUL !in prev
    ensures var next, raw := ParseEntry(version, oidLen, b, off, prev).value.1, Recovered(version, oidLen, b, off, prev);
      && NUL !in raw.path && PathAt(oidLen, off, raw) <= next
      && raw.keep <= |prev| && raw.keep <= |raw.path| && prev[..raw.keep] == raw.path[..raw.keep] && |prev| - raw.keep < 0x1_0000_0080
      && b[PathAt(oidLen, off, raw)..next] == EncVar(|prev| - raw.keep) + (raw.path[raw.keep..] + [0])
  {
    var (e, next) := ParseEntry(version, oidLen, b, off, prev).value;
    var raw := Recovered(version, oidLen, b, off, prev);
    var at := PathAt(oidLen, off, raw);
    PathParsed(version, oidLen, b, off, prev);
    KeptRecovered(version, oidLen, b, off, prev);
    CompressedWrote(b, off, at, prev, e.path, next, ReadVar(b, at).value.0, ReadVar(b, at).value.1);
  }

  lemma KeptRecovered(version: nat, oidLen: nat, b: seq<Byte>, off: nat, prev: seq<Byte>)
    requires version == 4 && ParseEntry(version, oidLen, b, off, prev).Some?
    ensures var raw := Recovered(version, oidLen, b, off, prev); var v := ReadVar(b, PathAt(oidLen, off, raw));
      v.Some? && v.value.0 <= |prev| && raw.keep == |prev| - v.value.0
  {
  }

  lemma FullPathWrote(version: nat, oidLen: nat, b: seq<Byte>, off: nat, prev: seq<Byte>)
    requires version != 4 && ParseEntry(version, oidLen, b, off, prev).Some?
    ensures var next, raw := ParseEntry(version, oidLen, b, off, prev).value.1, Recovered(version, oidLen, b, off, prev);
      && NUL !in raw.path && PathAt(oidLen, off, raw) <= next
      && PadOk(oidLen, raw) && b[PathAt(oidLen, off, raw)..next] == raw.path + raw.pad
  {
    var (e, next) := ParseEntry(version, oidLen, b, off, prev).value;
    var at := PathAt(oidLen, off, Recovered(version, oidLen, b, off, prev));
    PathParsed(version, oidLen, b, off, prev);
    PaddedWrote(version, b, off, at, prev, e.path, next);
  }

  lemma Assembled(version: nat, oidLen: nat, raw: Raw, prev: seq<Byte>, b: seq<Byte>, off: nat, next: nat)
    requires RawOk(version, oidLen, raw, prev) && PathAt(oidLen, off, raw) <= next <= |b|
    requires FixedBytes(raw) == b[off..off + 42 + oidLen] && b[off + 42 + oidLen..PathAt(oidLen, off, raw)] == ExtBytes(raw)
    requires b[PathAt(oidLen, off, raw)..next] == PathBytes(version, oidLen, raw, prev)
    ensures b[off..next] == RawBytes(version, oidLen, raw, prev)
  {
    Sliced(b, off, off + 42 + oidLen, PathAt(oidLen, off, raw), next);
  }

  /** An entry that is read can be written, and its bytes are those that were read. */
  lemma EntryWrote(version: nat, oidLen: nat, b: seq<Byte>, off: nat, prev: seq<Byte>)
    requires ParseEntry(version, oidLen, b, off, prev).Some? && NUL !in prev
    ensures var (e, next) := ParseEntry(version, oidLen, b, off, prev).value;
      var raw := Recovered(version, oidLen, b, off, prev);
      && RawOk(version, oidLen, raw, prev) && Meaning(raw) == e && NUL !in e.path
      && b[off..next] == RawBytes(version, oidLen, raw, prev)
  {
    FixedWrote(version, oidLen, b, off, prev);
    ExtWrote(version, oidLen, b, off, prev);
    if version == 4 {
      ShortPathWrote(version, oidLen, b, off, prev);
    } else {
      FullPathWrote(version, oidLen, b, off, prev);
    }
    Assembled(version, oidLen, Recovered(version, oidLen, b, off, prev), prev, b, off,
              ParseEntry(version, oidLen, b, off, prev).value.1);
  }

  lemma Sliced(b: seq<Byte>, off: nat, h: nat, at: nat, next: nat)
    requires off <= h <= at <= next <= |b|
    ensures b[off..next] == b[off..h] + (b[h..at] + b[at..next]) && (h == at ==> b[off..next] == b[off..h] + b[at..next])
  {
  }

  lemma FixedRecovered(version: nat, oidLen: nat, b: seq<Byte>, off: nat, prev: seq<Byte>)
    requires ParseEntry(version, oidLen, b, off, prev).Some?
    ensures var raw := Recovered(version, oidLen, b, off, prev);
      && off + 42 + oidLen <= |b| && raw.mode == U32(b, off + 24)
      && raw.meta == b[off..off + 24] && raw.more == b[off + 28..off + 40] && raw.oid == b[off + 40..off + 40 + oidLen]
      && Flags(raw) == U16(b, off + 40 + oidLen)
  {
    Wrote16(b, off + 40 + oidLen);
    FlagsRecovered(U16(b, off + 40 + oidLen), Recovered(version, oidLen, b, off, prev));
  }

  lemma FixedWrote(version: nat, oidLen: nat, b: seq<Byte>, off: nat, prev: seq<Byte>)
    requires ParseEntry(version, oidLen, b, off, prev).Some?
    ensures var raw := Recovered(version, oidLen, b, off, prev);
      && |raw.meta| == 24 && raw.mode < 0x1_0000_0000 && |raw.more| == 12 && |raw.oid| == oidLen
      && FixedBytes(raw) == b[off..off + 42 + oidLen]
  {
    FixedRecovered(version, oidLen, b, off, prev);
    Wrote32(b, off + 24);
    Wrote16(b, off + 40 + oidLen);
    FixedJoined(Recovered(version, oidLen, b, off, prev), b, off, oidLen);
  }

  lemma FixedJoined(raw: Raw, b: seq<Byte>, off: nat, oidLen: nat)
    requires off + 42 + oidLen <= |b| && raw.meta == b[off..off + 24] && ToBytes(raw.mode, FOUR) == b[off + 24..off + 28]
    requires raw.more == b[off + 28..off + 40] && raw.oid == b[off + 40..off + 40 + oidLen]
    requires ToBytes(Flags(raw), TWO) == b[off + 40 + oidLen..off + 42 + oidLen]
    ensures FixedBytes(raw) == b[off..off + 42 + oidLen]
  {
    FixedSlices(b, off, oidLen);
  }

  lemma FixedSlices(b: seq<Byte>, off: nat, oidLen: nat)
    requires off + 42 + oidLen <= |b|
    ensures b[off..off + 42 + oidLen] == b[off..off + 24] + (b[off + 24..off + 28] + (b[off + 28..off + 40]
              + (b[off + 40..off + 40 + oidLen] + b[off + 40 + oidLen..off + 42 + oidLen])))
  {
  }

  // ------------------------------------------------- the list of entries

  lemma {:induction false} EntriesWrote(r: Reader, w: Writer, count: nat, off: nat, prev: seq<Byte>) returns (es: seq<Raw>)
    requires r.Valid() && w.Valid() && SameFormat(r, w) && off <= |r.b| && NUL !in prev && ParseEntries(r, count, off, prev).Some?
    ensures var (entries, end) := ParseEntries(r, count, off, prev).value;
      && off <= end <= |r.b| && |es| == count && RawsOk(w.version, w.oidLen, es, prev)
      && Meanings(es) == entries && r.b[off..end] == RawsBytes(w, es, prev)
    decreases count
  {
    if count == 0 {
      es := [];
    } else {
      assert r.EntryAt(off, prev);
      var (e, next) := r.entry(off, prev).value;
      var raw := Recovered(r.version, r.oidLen, r.b, off, prev);
      EntryWrote(r.version, r.oidLen, r.b, off, prev);
      var more := EntriesWrote(r, w, count - 1, next, e.path);
      es := [raw] + more;
      assert es[0] == raw && es[1..] == more && w.RawIs(raw, prev);
      var end := ParseEntries(r, count, off, prev).value.1;
      Sliced(r.b, off, next, next, end);
    }
  }

  // ------------------------------------------------- the extensions

  lemma ExtensionWrote(b: seq<Byte>, off: nat) returns (x: Extension)
    requires off + 8 <= |b| && off + 8 + U32(b, off + 4) <= |b|
    ensures |x.name| == 4 && |x.data| == U32(b, off + 4) && |x.data| < 0x1_0000_0000
    ensures x == Extension(b[off..off + 4], b[off + 8..off + 8 + U32(b, off + 4)])
    ensures b[off..off + 8 + |x.data|] == ExtensionBytes(x)
  {
    var next := off + 8 + U32(b, off + 4);
    x := Extension(b[off..off + 4], b[off + 8..next]);
    Wrote32(b, off + 4);
    Sliced(b, off, off + 4, off + 8, next);
  }

  /** Extensions that are read are all ignorable: their names start with a capital letter. */
  lemma {:induction false} ExtensionsWrote(tree: seq<Byte> -> Option<bool>, b: seq<Byte>, off: nat, stale: bool) returns (xs: seq<Extension>)
    requires off <= |b| && ParseExtensions(tree, b, off, stale).Some?
    ensures forall x :: x in xs ==> ExtensionOk(x)
    ensures b[off..] == ExtensionsBytes(xs) && Staleness(tree, xs, stale) == ParseExtensions(tree, b, off, stale)
    decreases |b| - off
  {
    if off == |b| {
      xs := [];
    } else {
      var x := ExtensionWrote(b, off);
      var next := off + 8 + |x.data|;
      var now := if x.name == TREE then tree(x.data).value else stale;
      var more := ExtensionsWrote(tree, b, next, now);
      xs := [x] + more;
      assert xs[0] == x && xs[1..] == more && ExtensionOk(x);
      assert b[off..] == b[off..next] + b[next..];
    }
  }

  // ------------------------------------------------- the file

  /** The file is an index of one of the three versions: its header, entries that can each be written after the one
      before, extensions that may all be ignored, and a checksum nobody checks. */
  predicate Is(tree: seq<Byte> -> Option<bool>, file: seq<Byte>, oidLen: nat, index: Index, version: nat, es: seq<Raw>,
               xs: seq<Extension>, checksum: seq<Byte>)
  {
    && 2 <= version <= 4 && |es| < 0x1_0000_0000 && |checksum| == oidLen
    && RawsOk(version, oidLen, es, []) && (forall x :: x in xs ==> ExtensionOk(x))
    && file == FileBytes(WriterOf(version, oidLen), es, xs) + checksum
    && index.entries == Meanings(es) && Staleness(tree, xs, false) == Some(index.stale)
  }

  lemma HeaderWrote(b: seq<Byte>)
    requires |b| >= 12 && b[..4] == DIRC
    ensures b == DIRC + (ToBytes(U32(b, 4), FOUR) + (ToBytes(U32(b, 8), FOUR) + b[12..]))
  {
    Wrote32(b, 4);
    Wrote32(b, 8);
    assert b == b[..4] + (b[4..8] + (b[8..12] + b[12..]));
  }

  lemma BodyWrote(tree: seq<Byte> -> Option<bool>, r: Reader, w: Writer, count: nat) returns (es: seq<Raw>, xs: seq<Extension>)
    requires r.Valid() && w.Valid() && SameFormat(r, w) && |r.b| >= 12 && ParseEntries(r, count, 12, []).Some?
    requires ParseExtensions(tree, r.b, ParseEntries(r, count, 12, []).value.1, false).Some?
    ensures |es| == count && RawsOk(w.version, w.oidLen, es, []) && Meanings(es) == ParseEntries(r, count, 12, []).value.0
    ensures (forall x :: x in xs ==> ExtensionOk(x))
    ensures Staleness(tree, xs, false) == ParseExtensions(tree, r.b, ParseEntries(r, count, 12, []).value.1, false)
    ensures r.b[12..] == RawsBytes(w, es, []) + ExtensionsBytes(xs)
  {
    es := EntriesWrote(r, w, count, 12, []);
    var mid := ParseEntries(r, count, 12, []).value.1;
    xs := ExtensionsWrote(tree, r.b, mid, false);
    assert r.b[12..] == r.b[12..mid] + r.b[mid..];
  }

  lemma SameHead(file: seq<Byte>, n: nat)
    requires 12 <= n <= |file|
    ensures file[..n][..4] == file[..4] && U32(file[..n], 4) == U32(file, 4) && U32(file[..n], 8) == U32(file, 8)
    ensures file == file[..n] + file[n..]
  {
  }

  lemma FileWrote(tree: seq<Byte> -> Option<bool>, file: seq<Byte>, oidLen: nat)
    returns (version: nat, es: seq<Raw>, xs: seq<Extension>, checksum: seq<Byte>)
    requires Parse(tree, file, oidLen).Some?
    ensures Is(tree, file, oidLen, Parse(tree, file, oidLen).value, version, es, xs, checksum)
  {
    version, checksum := U32(file, 4), file[|file| - oidLen..];
    var b := file[..|file| - oidLen];
    var w := WriterOf(version, oidLen);
    es, xs := BodyWrote(tree, ReaderOf(version, oidLen, b), w, U32(file, 8));
    SameHead(file, |file| - oidLen);
    Wrote32(file, 8);
    HeaderWrote(b);
    assert b == FileBytes(w, es, xs);
  }

  /** The reader accepts a file as an index exactly when the file is that index, written out; so no index with a mandatory
      extension, a truncated part or an entry its version does not allow is ever read. */
  lemma AcceptsExactlyIndexes(tree: seq<Byte> -> Option<bool>, file: seq<Byte>, oidLen: nat, index: Index)
    ensures Parse(tree, file, oidLen) == Some(index) <==>
      exists version, es, xs, checksum :: Is(tree, file, oidLen, index, version, es, xs, checksum)
  {
    if Parse(tree, file, oidLen) == Some(index) {
      var version, es, xs, checksum := FileWrote(tree, file, oidLen);
    }
    forall version, es, xs, checksum | Is(tree, file, oidLen, index, version, es, xs, checksum)
      ensures Parse(tree, file, oidLen) == Some(index)
    {
      IndexRoundTrip(tree, version, es, xs, checksum);
    }
  }
}
