/** `store.rs`, the files: one JSON line per item, appended and made durable
    before it is acknowledged; one torn line tolerated at the very end. */
module Journal {
  import opened Bytes
  import opened Origin
  import opened Pack
  import opened Ledger

  const NEWLINE: Byte := 10

  /** How items are written and read as text. The serialiser is a parameter; what is relied on is below. */
  datatype Codec<!T> = Codec(enc: T -> seq<Byte>, dec: seq<Byte> -> Option<T>, isText: seq<Byte> -> bool) {

    /** Reading gives back what was written. */
    ghost predicate RoundTrips(x: T) {
      enc(x) != [] && NEWLINE !in enc(x) && isText(enc(x)) && dec(enc(x)) == Some(x)
    }

    /** A line cut short is no item. */
    ghost predicate CutAt(x: T, k: nat) {
      0 < k < |enc(x)| ==> dec(enc(x)[..k]) == None
    }

    /** Nor are two items on one line. */
    ghost predicate GluedUnreadable(x: T, y: T) {
      dec(enc(x) + enc(y)) == None
    }

    /** Text is read from its start, character by character. */
    ghost predicate TextSplits(a: seq<Byte>, b: seq<Byte>) {
      isText(a) ==> (isText(a + b) <==> isText(b))
    }
  }

  ghost predicate ValidCodec<T(!new)>(c: Codec<T>) {
    && (forall x :: c.RoundTrips(x)) && (forall x, k :: c.CutAt(x, k)) && (forall x, y :: c.GluedUnreadable(x, y))
    && (forall a, b :: c.TextSplits(a, b)) && c.isText([]) && c.isText([NEWLINE])
  }

  // ------------------------------------------------- lines

  /** Length of the first line, its newline included when it has one. */
  function LineEnd(b: seq<Byte>): (n: nat)
    ensures n <= |b| && (b != [] ==> n > 0)
    ensures forall i :: 0 <= i < n - 1 ==> b[i] != NEWLINE
    ensures n < |b| ==> b[n - 1] == NEWLINE
  {
    if b == [] then 0 else if b[0] == NEWLINE then 1 else 1 + LineEnd(b[1..])
  }

  /** `split_inclusive`. */
  function Chunks(b: seq<Byte>): (cs: seq<seq<Byte>>)
    ensures b == [] <==> cs == []
    ensures forall c :: c in cs ==> c != []
    decreases |b|
  {
    if b == [] then [] else [b[..LineEnd(b)]] + Chunks(b[LineEnd(b)..])
  }

  function Trimmed(chunk: seq<Byte>): seq<Byte> {
    if chunk != [] && chunk[|chunk| - 1] == NEWLINE then chunk[..|chunk| - 1] else chunk
  }

  lemma FirstLineWhole(line: seq<Byte>, rest: seq<Byte>)
    requires NEWLINE !in line
    ensures LineEnd(line + [NEWLINE] + rest) == |line| + 1
  {
    var b := line + [NEWLINE] + rest;
    assert b[|line|] == NEWLINE;
    forall i | 0 <= i < |line| ensures b[i] != NEWLINE {
      assert b[i] == line[i] && line[i] in line;
    }
  }

  lemma ChunksLine(line: seq<Byte>, rest: seq<Byte>)
    requires NEWLINE !in line
    ensures Chunks(line + [NEWLINE] + rest) == [line + [NEWLINE]] + Chunks(rest)
    ensures Trimmed(line + [NEWLINE]) == line
  {
    var b := line + [NEWLINE] + rest;
    FirstLineWhole(line, rest);
    assert b[..|line| + 1] == line + [NEWLINE] && b[|line| + 1..] == rest;
  }

  lemma ChunksTorn(line: seq<Byte>)
    requires NEWLINE !in line && line != []
    ensures Chunks(line) == [line] && Trimmed(line) == line
  {
    forall i | 0 <= i < |line| ensures line[i] != NEWLINE {
      assert line[i] in line;
    }
    assert line[..|line|] == line && line[|line|..] == [];
  }

  // ------------------------------------------------- reading a file

  /** What reading yields: the items, and the bytes left in the file. */
  datatype Loaded<T> = Loaded(items: seq<T>, bytes: seq<Byte>) | Broken

  /** Reading line by line: an unreadable last line is cut off, any other is corruption. */
  function LoadChunks<T>(c: Codec<T>, cs: seq<seq<Byte>>): Loaded<T> {
    if cs == [] then Loaded([], [])
    else
      match LineItems(c, cs[0])
      case None => if |cs| == 1 then Loaded([], []) else Broken
      case Some(v) => Ahead(v, cs[0], LoadChunks(c, cs[1..]))
  }

  /** What one line holds: an item, or nothing if it is blank; none if it cannot be read. */
  function LineItems<T>(c: Codec<T>, chunk: seq<Byte>): Option<seq<T>> {
    var line := Trimmed(chunk);
    if line == [] then Some([]) else match c.dec(line) case None => None case Some(v) => Some([v])
  }

  /** Items already read put before the rest. */
  function Ahead<T>(items: seq<T>, done: seq<Byte>, rest: Loaded<T>): Loaded<T> {
    match rest case Broken => Broken case Loaded(more, bytes) => Loaded(items + more, done + bytes)
  }

  /** `read_jsonl`. */
  function Load<T>(c: Codec<T>, b: seq<Byte>): Loaded<T> {
    if c.isText(b) then LoadChunks(c, Chunks(b)) else Broken
  }

  class File {
    var bytes: seq<Byte>

    constructor (b: seq<Byte>)
      ensures bytes == b
    {
      bytes := b;
    }

    /** `append_line`: the call returns once the bytes are durable. */
    method AppendLine(line: seq<Byte>)
      modifies this
      ensures bytes == old(bytes) + line + [NEWLINE]
    {
      bytes := bytes + line;
      bytes := bytes + [NEWLINE];
    }
  }

  function Joined(cs: seq<seq<Byte>>): seq<Byte> {
    if cs == [] then [] else cs[0] + Joined(cs[1..])
  }

  lemma JoinedFirst(line: seq<Byte>, more: seq<seq<Byte>>)
    ensures Joined([line] + more) == line + Joined(more)
  {
    assert ([line] + more)[1..] == more;
  }

  lemma {:induction false} JoinedChunks(b: seq<Byte>)
    ensures Joined(Chunks(b)) == b
    decreases |b|
  {
    if b != [] {
      var n := LineEnd(b);
      JoinedChunks(b[n..]);
      JoinedFirst(b[..n], Chunks(b[n..]));
      assert b == b[..n] + b[n..];
    }
  }

  lemma {:induction false} JoinedSnoc(cs: seq<seq<Byte>>, i: nat)
    requires i < |cs|
    ensures Joined(cs[..i + 1]) == Joined(cs[..i]) + cs[i]
    ensures |Joined(cs[..i + 1])| <= |Joined(cs)|
    ensures Joined(cs)[..|Joined(cs[..i + 1])|] == Joined(cs[..i + 1])
  {
    if i == 0 {
      assert cs[..1][1..] == [];
      assert cs[..0] == [];
    } else {
      JoinedSnoc(cs[1..], i - 1);
      assert cs[..i + 1][1..] == cs[1..][..i] && cs[..i][1..] == cs[1..][..i - 1];
      Assoc(cs[0], Joined(cs[1..][..i - 1]), cs[i]);
    }
  }

  /** The reading loop, with its byte offset; the file is cut when its last line is unreadable. */
  method ReadLines<T>(c: Codec<T>, f: File) returns (r: Option<seq<T>>)
    modifies f
    ensures match Load(c, old(f.bytes))
            case Broken => r == None && f.bytes == old(f.bytes)
            case Loaded(items, bytes) => r == Some(items) && f.bytes == bytes
  {
    if !c.isText(f.bytes) {
      return None;
    }
    var chunks := Chunks(f.bytes);
    var items: seq<T> := [];
    var offset := 0;
    ghost var whole := LoadChunks(c, chunks);
    JoinedChunks(f.bytes);
    StartAhead(c, chunks);
    for i := 0 to |chunks|
      invariant f.bytes == old(f.bytes) && offset == |Joined(chunks[..i])| <= |f.bytes|
      invariant whole == Ahead(items, Joined(chunks[..i]), LoadChunks(c, chunks[i..]))
    {
      JoinedSnoc(chunks, i);
      var read := LineItems(c, chunks[i]);
      if read.None? {
        Stuck(c, chunks, i, items, Joined(chunks[..i]));
        if i + 1 == |chunks| {
          JoinedPrefix(chunks, i);
          f.bytes := f.bytes[..offset];
          return Some(items);
        }
        return None;
      }
      Further(c, chunks, i, items, Joined(chunks[..i]));
      items := items + read.value;
      offset := offset + |chunks[i]|;
    }
    EndAhead(c, chunks, items);
    return Some(items);
  }

  lemma StartAhead<T>(c: Codec<T>, chunks: seq<seq<Byte>>)
    ensures LoadChunks(c, chunks) == Ahead([], Joined(chunks[..0]), LoadChunks(c, chunks[0..]))
  {
    assert chunks[0..] == chunks;
    var r := LoadChunks(c, chunks);
    if r.Loaded? {
      assert [] + r.items == r.items && [] + r.bytes == r.bytes;
    }
  }

  lemma EndAhead<T>(c: Codec<T>, chunks: seq<seq<Byte>>, items: seq<T>)
    ensures Ahead(items, Joined(chunks[..|chunks|]), LoadChunks(c, chunks[|chunks|..])) == Loaded(items, Joined(chunks))
  {
    assert chunks[..|chunks|] == chunks;
    assert items + [] == items && Joined(chunks) + [] == Joined(chunks);
  }

  lemma JoinedPrefix(cs: seq<seq<Byte>>, i: nat)
    requires i < |cs|
    ensures |Joined(cs[..i])| <= |Joined(cs)| && Joined(cs)[..|Joined(cs[..i])|] == Joined(cs[..i])
  {
    JoinedSnoc(cs, i);
    var part, whole := Joined(cs[..i]), Joined(cs[..i + 1]);
    assert whole[..|part|] == part;
    assert Joined(cs)[..|whole|][..|part|] == Joined(cs)[..|part|];
  }

  lemma Stuck<T>(c: Codec<T>, chunks: seq<seq<Byte>>, i: nat, items: seq<T>, done: seq<Byte>)
    requires i < |chunks| && LineItems(c, chunks[i]).None?
    ensures Ahead(items, done, LoadChunks(c, chunks[i..])) == if i + 1 == |chunks| then Loaded(items, done) else Broken
  {
    assert items + [] == items && done + [] == done;
  }

  lemma Further<T>(c: Codec<T>, chunks: seq<seq<Byte>>, i: nat, items: seq<T>, done: seq<Byte>)
    requires i < |chunks| && LineItems(c, chunks[i]).Some?
    ensures Ahead(items, done, LoadChunks(c, chunks[i..]))
      == Ahead(items + LineItems(c, chunks[i]).value, done + chunks[i], LoadChunks(c, chunks[i + 1..]))
  {
    var v, rest := LineItems(c, chunks[i]).value, LoadChunks(c, chunks[i + 1..]);
    assert chunks[i..][1..] == chunks[i + 1..];
    if rest.Loaded? {
      Assoc(items, v, rest.items);
      Assoc(done, chunks[i], rest.bytes);
    }
  }

  // ------------------------------------------------- what is read at all

  /** A line ends at its newline and nowhere before; only the last may have none. */
  lemma {:induction false} ChunksAreLines(b: seq<Byte>, i: nat)
    requires i < |Chunks(b)|
    ensures var line := Chunks(b)[i];
      && line != [] && (forall j :: 0 <= j < |line| - 1 ==> line[j] != NEWLINE)
      && (i < |Chunks(b)| - 1 ==> line[|line| - 1] == NEWLINE)
    decreases |b|
  {
    var n := LineEnd(b);
    assert Chunks(b)[i] in Chunks(b);
    if i > 0 {
      ChunksAreLines(b[n..], i - 1);
    } else if n < |b| {
      assert b[..n][n - 1] == b[n - 1];
    }
  }

  /** A line is its bytes up to its newline, if it has one: blank, or the text of one item. */
  lemma LineMeans<T>(c: Codec<T>, text: seq<Byte>, ended: bool, items: seq<T>)
    requires NEWLINE !in text
    ensures LineItems(c, if ended then text + [NEWLINE] else text) == Some(items) <==>
      if text == [] then items == [] else |items| == 1 && c.dec(text) == Some(items[0])
  {
    if ended {
      assert (text + [NEWLINE])[..|text|] == text;
    } else if text != [] {
      assert text[|text| - 1] in text;
    }
    assert |items| == 1 ==> items == [items[0]];
  }

  /** Every line holds an item or is blank. */
  predicate Readable<T>(c: Codec<T>, cs: seq<seq<Byte>>) {
    forall i :: 0 <= i < |cs| ==> LineItems(c, cs[i]).Some?
  }

  function ItemsOf<T>(c: Codec<T>, cs: seq<seq<Byte>>): seq<T>
    requires Readable(c, cs)
  {
    if cs == [] then []
    else
      assert LineItems(c, cs[0]).Some?;
      assert forall i :: 0 <= i < |cs[1..]| ==> cs[1..][i] == cs[i + 1];
      LineItems(c, cs[0]).value + ItemsOf(c, cs[1..])
  }

  /** The first k lines can all be read, and are all there is but for one unreadable last line. */
  predicate Kept<T>(c: Codec<T>, cs: seq<seq<Byte>>, k: nat) {
    && k <= |cs| && Readable(c, cs[..k])
    && (k == |cs| || (k == |cs| - 1 && LineItems(c, cs[k]).None?))
  }

  lemma {:induction false} LoadKeeps<T>(c: Codec<T>, cs: seq<seq<Byte>>, k: nat)
    requires Kept(c, cs, k)
    ensures LoadChunks(c, cs) == Loaded(ItemsOf(c, cs[..k]), Joined(cs[..k]))
    decreases |cs|
  {
    if k > 0 {
      assert cs[..k][0] == cs[0] && cs[..k][1..] == cs[1..][..k - 1];
      KeptRest(c, cs, k);
      LoadKeeps(c, cs[1..], k - 1);
    } else {
      assert cs[..0] == [];
    }
  }

  lemma KeptRest<T>(c: Codec<T>, cs: seq<seq<Byte>>, k: nat)
    requires k > 0 && |cs| > 0
    ensures Kept(c, cs, k) <==> LineItems(c, cs[0]).Some? && Kept(c, cs[1..], k - 1)
  {
    if k <= |cs| {
      var part, rest := cs[..k], cs[1..][..k - 1];
      assert part[0] == cs[0] && forall i :: 0 <= i < k - 1 ==> rest[i] == part[i + 1];
      assert forall i :: 0 < i < k ==> part[i] == rest[i - 1];
    }
  }

  lemma {:induction false} LoadKept<T>(c: Codec<T>, cs: seq<seq<Byte>>) returns (k: nat)
    requires LoadChunks(c, cs).Loaded?
    ensures Kept(c, cs, k)
    decreases |cs|
  {
    if cs == [] || LineItems(c, cs[0]).None? {
      k := 0;
    } else {
      var n := LoadKept(c, cs[1..]);
      k := n + 1;
      KeptRest(c, cs, k);
    }
  }

  predicate LoadsAs<T(==)>(c: Codec<T>, cs: seq<seq<Byte>>, items: seq<T>, bytes: seq<Byte>, k: nat) {
    Kept(c, cs, k) && items == ItemsOf(c, cs[..k]) && bytes == Joined(cs[..k])
  }

  /** A file is read exactly when it is text whose lines can all be read, but for the last: then the items are those of the
      lines that can, and what is left of the file is those lines. Anywhere else an unreadable line refuses the file. */
  lemma LoadsExactly<T>(c: Codec<T>, b: seq<Byte>, items: seq<T>, bytes: seq<Byte>)
    ensures Load(c, b) == Loaded(items, bytes) <==> c.isText(b) && exists k: nat :: LoadsAs(c, Chunks(b), items, bytes, k)
  {
    if Load(c, b) == Loaded(items, bytes) {
      var k := LoadKept(c, Chunks(b));
      LoadKeeps(c, Chunks(b), k);
      assert LoadsAs(c, Chunks(b), items, bytes, k);
    }
    forall k: nat | LoadsAs(c, Chunks(b), items, bytes, k) ensures LoadChunks(c, Chunks(b)) == Loaded(items, bytes) {
      LoadKeeps(c, Chunks(b), k);
    }
  }

  // ------------------------------------------------- what appends leave behind

  /** The file after the items have been appended one by one. */
  function Written<T>(c: Codec<T>, items: seq<T>): seq<Byte> {
    if items == [] then [] else c.enc(items[0]) + [NEWLINE] + Written(c, items[1..])
  }

  lemma {:induction false} WrittenSnoc<T>(c: Codec<T>, items: seq<T>, x: T)
    ensures Written(c, items + [x]) == Written(c, items) + c.enc(x) + [NEWLINE]
  {
    if items == [] {
      assert items + [x] == [x];
      assert [x][1..] == [];
    } else {
      assert (items + [x])[1..] == items[1..] + [x];
      WrittenSnoc(c, items[1..], x);
    }
  }

  lemma {:induction false} WrittenText<T(!new)>(c: Codec<T>, items: seq<T>, tail: seq<Byte>)
    requires ValidCodec(c)
    ensures c.isText(Written(c, items) + tail) <==> c.isText(tail)
  {
    if items == [] {
      assert [] + tail == tail;
    } else {
      WrittenText(c, items[1..], tail);
      var head, rest := c.enc(items[0]) + [NEWLINE], Written(c, items[1..]) + tail;
      assert c.RoundTrips(items[0]) && c.TextSplits(c.enc(items[0]), [NEWLINE]) && c.TextSplits(head, rest);
      assert Written(c, items) + tail == head + rest;
    }
  }

  /** The lines written are read back, and what follows them is read as if it stood alone. */
  lemma {:induction false} LoadAfter<T(!new)>(c: Codec<T>, items: seq<T>, tail: seq<Byte>)
    requires ValidCodec(c)
    ensures LoadChunks(c, Chunks(Written(c, items) + tail)) == Ahead(items, Written(c, items), LoadChunks(c, Chunks(tail)))
  {
    if items == [] {
      assert [] + tail == tail;
      var r := LoadChunks(c, Chunks(tail));
      if r.Loaded? {
        assert [] + r.items == r.items && [] + r.bytes == r.bytes;
      }
    } else {
      var line, rest := c.enc(items[0]), Written(c, items[1..]) + tail;
      assert c.RoundTrips(items[0]);
      ChunksLine(line, rest);
      assert Written(c, items) + tail == line + [NEWLINE] + rest;
      LoadAfter(c, items[1..], tail);
      assert ([line + [NEWLINE]] + Chunks(rest))[1..] == Chunks(rest);
      AheadCons(items, line, Written(c, items[1..]), LoadChunks(c, Chunks(tail)));
    }
  }

  lemma AheadCons<T>(items: seq<T>, line: seq<Byte>, done: seq<Byte>, rest: Loaded<T>)
    requires items != []
    ensures var inner := Ahead(items[1..], done, rest);
      Ahead(items, line + [NEWLINE] + done, rest)
      == if inner.Broken? then Broken else Loaded([items[0]] + inner.items, (line + [NEWLINE]) + inner.bytes)
  {
    if rest.Loaded? {
      assert [items[0]] + (items[1..] + rest.items) == items + rest.items;
    }
  }

  /** Reload after any appends returns exactly them and leaves the file alone. */
  lemma ReloadWritten<T(!new)>(c: Codec<T>, items: seq<T>)
    requires ValidCodec(c)
    ensures Load(c, Written(c, items)) == Loaded(items, Written(c, items))
  {
    LoadAfter(c, items, []);
    WrittenText(c, items, []);
    assert Written(c, items) + [] == Written(c, items) && items + [] == items;
  }

  /** A line torn by a crash, before its last byte. */
  lemma TornLine<T(!new)>(c: Codec<T>, x: T, k: nat)
    requires ValidCodec(c) && k < |c.enc(x)|
    ensures LoadChunks(c, Chunks(c.enc(x)[..k])) == Loaded([], [])
  {
    if k > 0 {
      var line := c.enc(x)[..k];
      assert c.RoundTrips(x) && c.CutAt(x, k);
      assert NEWLINE !in line by {
        assert forall b :: b in line ==> b in c.enc(x);
      }
      ChunksTorn(line);
    }
  }

  /** After a crash that left any strict prefix of a line, reload returns exactly the acknowledged items and the file
      is as if the append had never begun; it fails altogether exactly when the cut falls inside a character. */
  lemma TornAppendForgotten<T(!new)>(c: Codec<T>, items: seq<T>, x: T, k: nat)
    requires ValidCodec(c) && k < |c.enc(x)|
    ensures Load(c, Written(c, items) + c.enc(x)[..k])
      == if c.isText(c.enc(x)[..k]) then Loaded(items, Written(c, items)) else Broken
  {
    WrittenText(c, items, c.enc(x)[..k]);
    LoadAfter(c, items, c.enc(x)[..k]);
    TornLine(c, x, k);
    assert items + [] == items && Written(c, items) + [] == Written(c, items);
  }

  // ------------------------------------------------- the one crash point that loses an item

  /** A crash that left the whole line but not its newline: the reader accepts the line as it stands. */
  lemma FullLineAccepted<T(!new)>(c: Codec<T>, items: seq<T>, x: T)
    requires ValidCodec(c)
    ensures Load(c, Written(c, items) + c.enc(x)) == Loaded(items + [x], Written(c, items) + c.enc(x))
  {
    assert c.RoundTrips(x);
    WrittenText(c, items, c.enc(x));
    LoadAfter(c, items, c.enc(x));
    ChunksTorn(c.enc(x));
    assert LoadChunks(c, [c.enc(x)][1..]) == Loaded([], []);
    assert [x] + [] == [x] && c.enc(x) + [] == c.enc(x);
  }

  /** The next append then lands on the same line, and the next reload throws both items away. */
  lemma GluedLineLost<T(!new)>(c: Codec<T>, items: seq<T>, x: T, y: T)
    requires ValidCodec(c)
    ensures Load(c, Written(c, items) + c.enc(x) + c.enc(y) + [NEWLINE]) == Loaded(items, Written(c, items))
  {
    var line := c.enc(x) + c.enc(y);
    var tail := line + [NEWLINE];
    assert c.RoundTrips(x) && c.RoundTrips(y) && c.GluedUnreadable(x, y);
    assert c.TextSplits(c.enc(x), c.enc(y)) && c.TextSplits(line, [NEWLINE]);
    assert Written(c, items) + c.enc(x) + c.enc(y) + [NEWLINE] == Written(c, items) + tail by {
      Assoc(Written(c, items), c.enc(x), c.enc(y));
      Assoc(Written(c, items), line, [NEWLINE]);
    }
    WrittenText(c, items, tail);
    LoadAfter(c, items, tail);
    ChunksLine(line, []);
    assert tail + [] == tail;
    assert items + [] == items && Written(c, items) + [] == Written(c, items);
  }

  lemma AppendThenReload<T(!new)>(c: Codec<T>, items: seq<T>, y: T)
    requires ValidCodec(c)
    ensures Load(c, Written(c, items) + c.enc(y) + [NEWLINE]) == Loaded(items + [y], Written(c, items + [y]))
  {
    WrittenSnoc(c, items, y);
    ReloadWritten(c, items + [y]);
  }

  /** An append is acknowledged when its line, newline included, is durable. A crash leaves some first k bytes of it. */
  function Torn<T>(c: Codec<T>, x: T, k: nat): seq<Byte>
    requires k <= |c.enc(x)| + 1
  {
    (c.enc(x) + [NEWLINE])[..k]
  }

  /** Reload after a crash at each point: nothing of the torn line, or all of it. */
  lemma ReloadAfterCrash<T(!new)>(c: Codec<T>, items: seq<T>, x: T, k: nat)
    requires ValidCodec(c) && k <= |c.enc(x)| + 1 && c.isText(Torn(c, x, k))
    ensures Load(c, Written(c, items) + Torn(c, x, k)) ==
      if k < |c.enc(x)| then Loaded(items, Written(c, items))
      else if k == |c.enc(x)| then Loaded(items + [x], Written(c, items) + c.enc(x))
      else Loaded(items + [x], Written(c, items + [x]))
  {
    if k < |c.enc(x)| {
      assert Torn(c, x, k) == c.enc(x)[..k];
      TornAppendForgotten(c, items, x, k);
    } else if k == |c.enc(x)| {
      assert Torn(c, x, k) == c.enc(x);
      FullLineAccepted(c, items, x);
    } else {
      assert Torn(c, x, k) == c.enc(x) + [NEWLINE];
      Assoc(Written(c, items), c.enc(x), [NEWLINE]);
      AppendThenReload(c, items, x);
    }
  }

  /** After a crash and a reload, the next acknowledged append survives exactly when the crash did not fall between
      the line and its newline. */
  lemma NextAppendSurvives<T(!new)>(c: Codec<T>, items: seq<T>, x: T, k: nat, y: T)
    requires ValidCodec(c) && k <= |c.enc(x)| + 1 && c.isText(Torn(c, x, k))
    ensures var r := Load(c, Written(c, items) + Torn(c, x, k));
      && r.Loaded?
      && ((var again := Load(c, r.bytes + c.enc(y) + [NEWLINE]); again.Loaded? && again.items == r.items + [y])
          <==> k != |c.enc(x)|)
  {
    ReloadAfterCrash(c, items, x, k);
    if k < |c.enc(x)| {
      AppendThenReload(c, items, y);
    } else if k == |c.enc(x)| {
      GluedLineLost(c, items, x, y);
      assert |items| != |items + [x] + [y]|;
    } else {
      AppendThenReload(c, items + [x], y);
    }
  }

  // ------------------------------------------------- runs of appends and crashes

  /** An acknowledged append, or one a crash cut short after k bytes, followed by a restart. */
  datatype Event<T> = Appended(item: T) | Crashed(item: T, k: nat)

  function Reloaded<T>(c: Codec<T>, b: seq<Byte>): seq<Byte> {
    match Load(c, b) case Broken => b case Loaded(_, bytes) => bytes
  }

  function FileAfter<T>(c: Codec<T>, b: seq<Byte>, events: seq<Event<T>>): seq<Byte>
    decreases |events|
  {
    if events == [] then b
    else
      match events[0]
      case Appended(x) => FileAfter(c, b + c.enc(x) + [NEWLINE], events[1..])
      case Crashed(x, k) =>
        FileAfter(c, Reloaded(c, b + if k <= |c.enc(x)| + 1 then Torn(c, x, k) else Torn(c, x, |c.enc(x)| + 1)), events[1..])
  }

  /** What must be there: every acknowledged item, and the ones whose line was complete when the crash came. */
  function Survivors<T>(c: Codec<T>, items: seq<T>, events: seq<Event<T>>): seq<T>
    decreases |events|
  {
    if events == [] then items
    else
      match events[0]
      case Appended(x) => Survivors(c, items + [x], events[1..])
      case Crashed(x, k) => Survivors(c, if k < |c.enc(x)| then items else items + [x], events[1..])
  }

  /** No crash falls inside a character, nor between a line and its newline. */
  predicate Benign<T>(c: Codec<T>, events: seq<Event<T>>) {
    forall i :: 0 <= i < |events| && events[i].Crashed? ==>
      var x, k := events[i].item, events[i].k; k != |c.enc(x)| && k <= |c.enc(x)| + 1 && c.isText(Torn(c, x, k))
  }

  /** Over every run of appends, crashes and restarts, a reload returns exactly the survivors. */
  lemma {:induction false} RunsSurvive<T(!new)>(c: Codec<T>, items: seq<T>, events: seq<Event<T>>)
    requires ValidCodec(c) && Benign(c, events)
    ensures FileAfter(c, Written(c, items), events) == Written(c, Survivors(c, items, events))
    ensures var b := FileAfter(c, Written(c, items), events); Load(c, b) == Loaded(Survivors(c, items, events), b)
    decreases |events|
  {
    if events == [] {
      ReloadWritten(c, items);
    } else {
      var x := events[0].item;
      WrittenSnoc(c, items, x);
      if events[0].Crashed? {
        ReloadAfterCrash(c, items, x, events[0].k);
        RunsSurvive(c, if events[0].k < |c.enc(x)| then items else items + [x], events[1..]);
      } else {
        RunsSurvive(c, items + [x], events[1..]);
      }
    }
  }

  // ------------------------------------------------- the store on disk

  /** The three files of a chain: the key list is replaced as a whole, never torn. */
  datatype Disk = Disk(keys: seq<KeyEntry>, checkpoints: seq<Byte>, anchors: seq<Byte>)

  datatype Codecs = Codecs(seals: Codec<SignedCheckpoint>, anchors: Codec<Anchor>)

  ghost predicate ValidCodecs(cs: Codecs) {
    ValidCodec(cs.seals) && ValidCodec(cs.anchors)
  }

  function Stored(cs: Codecs, st: StoreState): Disk {
    Disk(st.keys, Written(cs.seals, st.checkpoints), Written(cs.anchors, st.anchors))
  }

  /** What `open` reads before it checks anything. */
  function ReadDisk(cs: Codecs, chainId: Text, d: Disk): Option<StoreState> {
    match (Load(cs.seals, d.checkpoints), Load(cs.anchors, d.anchors))
    case (Loaded(cps, _), Loaded(tokens, _)) => Some(StoreState(chainId, cps, tokens, d.keys))
    case _ => None
  }

  /** A store that reopens, reopened from its own files, is the same store. */
  lemma StoreRoundTrip(c: Crypto, cs: Codecs, st: StoreState)
    requires ValidCodecs(cs) && Reopens(c, st)
    ensures ReadDisk(cs, st.chainId, Stored(cs, st)) == Some(st)
  {
    ReloadWritten(cs.seals, st.checkpoints);
    ReloadWritten(cs.anchors, st.anchors);
  }

  /** A crash while a checkpoint is being appended, after its key was recorded and before its line was complete:
      the store that comes back holds the acknowledged checkpoints and anchors, and opens. */
  lemma CrashedAppendReopens(c: Crypto, cs: Codecs, st: StoreState, sc: SignedCheckpoint, key: KeyEntry, k: nat)
    requires ValidCodecs(cs) && Reopens(c, st) && RecordKey(st.keys, key).Ok?
    requires k < |cs.seals.enc(sc)| && cs.seals.isText(cs.seals.enc(sc)[..k])
    ensures var keys := RecordKey(st.keys, key).value;
      var d := Disk(keys, Written(cs.seals, st.checkpoints) + cs.seals.enc(sc)[..k], Written(cs.anchors, st.anchors));
      ReadDisk(cs, st.chainId, d) == Some(st.(keys := keys)) && Reopens(c, st.(keys := keys))
  {
    TornAppendForgotten(cs.seals, st.checkpoints, sc, k);
    ReloadWritten(cs.anchors, st.anchors);
    var st' := st.(keys := RecordKey(st.keys, key).value);
    forall i | 0 <= i < |st'.checkpoints| ensures CheckpointOk(c, st', i) {
      assert CheckpointOk(c, st, i);
      RecordKeyKeeps(c, st.keys, key, st.checkpoints[i]);
    }
  }
}
