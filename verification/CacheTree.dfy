/** `worktree.rs`: the cache tree of git's index, scanned for a node some staged
    change invalidated.

    The scan stops at the first negative entry count, so an invalidated node
    anywhere in the tree decides, and what follows it is not looked at. Put
    together with the reader of the index, it says which index is stale. */
module CacheTree {
  import opened Bytes
  import opened GitIndex

  const SPACE: Byte := 32
  const LINE: Byte := 10
  const MINUS: Byte := 45
  const PLUS: Byte := 43

  predicate IsDigit(c: Byte) { 48 <= c <= 57 }

  function Digits(t: seq<Byte>): Option<nat> {
    if t == [] then Some(0)
    else
      var c := t[|t| - 1];
      match Digits(t[..|t| - 1])
      case None => None
      case Some(v) => if IsDigit(c) then Some(v * 10 + (c as int - 48)) else None
  }

  predicate FitsI64(n: int) { -0x8000_0000_0000_0000 <= n < 0x8000_0000_0000_0000 }

  function Signed(negative: bool, v: nat): int {
    if negative then -(v as int) else v
  }

  /** Parsing a decimal `i64`: an optional sign, at least one digit, in range. */
  function ParseInt(t: seq<Byte>): Option<int> {
    if t == [] then None
    else
      var signed := t[0] == MINUS || t[0] == PLUS;
      var body := if signed then t[1..] else t;
      if body == [] then None
      else
        match Digits(body)
        case None => None
        case Some(v) =>
          var n := Signed(t[0] == MINUS, v);
          if FitsI64(n) then Some(n) else None
  }

  /** What one node says: whether it is invalidated, and where the next one starts if it is not. */
  datatype Step = Corrupt | Invalidated | Next(at: nat)

  /** The path and the entry count at an offset, and where the subtree count starts. */
  function ReadCount(data: seq<Byte>, i: nat): (r: Option<(int, nat)>)
    ensures r.Some? ==> i < r.value.1 <= |data|
  {
    match Find(data, i, NUL)
    case None => None
    case Some(nul) =>
      match Find(data, nul + 1, SPACE)
      case None => None
      case Some(sp) => match ParseInt(data[nul + 1..sp]) case None => None case Some(count) => Some((count, sp + 1))
  }

  function Past(size: nat, count: int, next: nat): Step {
    if count < 0 then Invalidated else if next > size then Corrupt else Next(next)
  }

  /** The node at an offset: path, NUL, entry count, space, subtree count, newline, and an object id unless the
      count is negative. */
  function ReadNode(data: seq<Byte>, oidLen: nat, i: nat): (r: Step)
    ensures r.Next? ==> i < r.at <= |data|
  {
    match ReadCount(data, i)
    case None => Corrupt
    case Some(c) =>
      match Find(data, c.1, LINE) case None => Corrupt case Some(nl) => Past(|data|, c.0, nl + 1 + oidLen)
  }

  /** Whether the tree has an invalidated node; none if it is corrupt. */
  function Scan(data: seq<Byte>, oidLen: nat, i: nat): Option<bool>
    decreases |data| - i
  {
    if i >= |data| then Some(false)
    else
      match ReadNode(data, oidLen, i)
      case Corrupt => None
      case Invalidated => Some(true)
      case Next(at) => Scan(data, oidLen, at)
  }

  method TakeCount(data: seq<Byte>, i: nat) returns (r: Option<(int, nat)>)
    ensures r == ReadCount(data, i)
  {
    var nul := Find(data, i, NUL);
    if nul.None? {
      return None;
    }
    var sp := Find(data, nul.value + 1, SPACE);
    if sp.None? {
      return None;
    }
    var count := ParseInt(data[nul.value + 1..sp.value]);
    if count.None? {
      return None;
    }
    return Some((count.value, sp.value + 1));
  }

  /** One turn of the loop. */
  method NextNode(data: seq<Byte>, oidLen: nat, i: nat) returns (r: Step)
    ensures r == ReadNode(data, oidLen, i)
  {
    var count := TakeCount(data, i);
    if count.None? {
      return Corrupt;
    }
    var nl := Find(data, count.value.1, LINE);
    if nl.None? {
      return Corrupt;
    }
    return Past(|data|, count.value.0, nl.value + 1 + oidLen);
  }

  /** `cache_tree_has_invalidated_entry`. */
  method HasInvalidated(data: seq<Byte>, oidLen: nat) returns (r: Option<bool>)
    ensures r == Scan(data, oidLen, 0)
  {
    var i := 0;
    while i < |data|
      invariant Scan(data, oidLen, i) == Scan(data, oidLen, 0)
      decreases |data| - i
    {
      var s := NextNode(data, oidLen, i);
      if s.Corrupt? {
        return None;
      }
      if s.Invalidated? {
        return Some(true);
      }
      i := s.at;
    }
    return Some(false);
  }

  // ------------------------------------------------- the tree as git writes it

  /** A node, its count as it is printed: an invalidated one has a negative count and no object id. */
  datatype Node = Node(path: seq<Byte>, count: int, text: seq<Byte>, subtrees: seq<Byte>, oid: seq<Byte>)

  predicate NodeOk(oidLen: nat, n: Node) {
    && NUL !in n.path && ParseInt(n.text) == Some(n.count) && SPACE !in n.text && LINE !in n.subtrees
    && |n.oid| == if n.count < 0 then 0 else oidLen
  }

  function Decimal(n: nat): (t: seq<Byte>)
    ensures t != [] && forall c :: c in t ==> IsDigit(c)
  {
    if n < 10 then [48 + n] else Decimal(n / 10) + [48 + n % 10]
  }

  function DecimalInt(n: int): seq<Byte> {
    if n < 0 then [MINUS] + Decimal(-n) else Decimal(n)
  }

  lemma {:induction false} DigitsRead(n: nat)
    ensures Digits(Decimal(n)) == Some(n)
  {
    var t := Decimal(n);
    if n < 10 {
      assert t[..|t| - 1] == [];
    } else {
      DigitsRead(n / 10);
      assert t[..|t| - 1] == Decimal(n / 10) && t[|t| - 1] == 48 + n % 10;
    }
  }

  /** Parsing inverts printing for every number of the type. */
  lemma IntReads(n: int)
    requires FitsI64(n)
    ensures ParseInt(DecimalInt(n)) == Some(n)
  {
    var v: nat := if n < 0 then -n else n;
    DigitsRead(v);
    assert Decimal(v)[0] in Decimal(v);
    assert n < 0 ==> DecimalInt(n)[1..] == Decimal(v);
  }

  /** So a node printed the usual way is one. */
  lemma PrintedNodeOk(oidLen: nat, path: seq<Byte>, count: int, subtrees: seq<Byte>, oid: seq<Byte>)
    requires NUL !in path && FitsI64(count) && LINE !in subtrees && |oid| == if count < 0 then 0 else oidLen
    ensures NodeOk(oidLen, Node(path, count, DecimalInt(count), subtrees, oid))
  {
    IntReads(count);
  }

  lemma {:induction false} DigitsShape(t: seq<Byte>)
    ensures Digits(t).Some? <==> forall c :: c in t ==> IsDigit(c)
  {
    if t != [] {
      var n := |t| - 1;
      DigitsShape(t[..n]);
      assert t == t[..n] + [t[n]];
    }
  }

  /** Only an optional sign and then digits, at least one, are a number at all. */
  lemma IntShape(t: seq<Byte>)
    requires ParseInt(t).Some?
    ensures t != [] && FitsI64(ParseInt(t).value)
    ensures var body := if t[0] == MINUS || t[0] == PLUS then t[1..] else t; body != [] && forall c :: c in body ==> IsDigit(c)
  {
    DigitsShape(if t[0] == MINUS || t[0] == PLUS then t[1..] else t);
  }

  function NodeBytes(n: Node): seq<Byte> {
    (n.path + [NUL]) + ((n.text + [SPACE]) + ((n.subtrees + [LINE]) + n.oid))
  }

  /** The node writer, named so that lists of nodes can be reasoned about without its body. */
  datatype NodeWriter = NodeWriter(node: Node -> seq<Byte>) {
    predicate Writes(n: Node) {
      node(n) == NodeBytes(n)
    }

    ghost predicate Valid() {
      forall n :: Writes(n)
    }
  }

  function Nodes(): (w: NodeWriter)
    ensures w.Valid()
  {
    var w := NodeWriter((n: Node) => NodeBytes(n));
    assert forall n :: w.Writes(n);
    w
  }

  function TreeBytes(w: NodeWriter, ns: seq<Node>): seq<Byte> {
    if ns == [] then [] else w.node(ns[0]) + TreeBytes(w, ns[1..])
  }

  /** The bytes p, ended by the first c after an offset. */
  predicate Field(b: seq<Byte>, off: nat, p: seq<Byte>, c: Byte) {
    Find(b, off, c) == Some(off + |p|) && off + |p| < |b| && b[off..off + |p|] == p
  }

  lemma FieldReads(b: seq<Byte>, off: nat, p: seq<Byte>, c: Byte)
    requires At(b, off, p + [c]) && c !in p
    ensures Field(b, off, p, c)
  {
    AtSplit(b, off, p, c);
    FindAfter(b, off, p, c);
    AtSlice(b, off, p);
  }

  lemma CountReads(b: seq<Byte>, off: nat, path: seq<Byte>, text: seq<Byte>, n: int)
    requires Field(b, off, path, NUL) && Field(b, off + |path| + 1, text, SPACE) && ParseInt(text) == Some(n)
    ensures ReadCount(b, off) == Some((n, off + |path| + 1 + |text| + 1))
  {
  }

  lemma HeadReads(b: seq<Byte>, off: nat, path: seq<Byte>, text: seq<Byte>, n: int)
    requires At(b, off, path + [NUL]) && NUL !in path && ParseInt(text) == Some(n)
    requires At(b, off + |path| + 1, text + [SPACE]) && SPACE !in text
    ensures ReadCount(b, off) == Some((n, off + |path| + 1 + |text| + 1))
  {
    FieldReads(b, off, path, NUL);
    FieldReads(b, off + |path| + 1, text, SPACE);
    CountReads(b, off, path, text, n);
  }

  lemma NodeFields(b: seq<Byte>, oidLen: nat, i: nat, at: nat, nl: nat, count: int)
    requires ReadCount(b, i) == Some((count, at)) && Find(b, at, LINE) == Some(nl)
    ensures ReadNode(b, oidLen, i) == Past(|b|, count, nl + 1 + oidLen)
  {
  }

  /** A node git wrote is read to exactly its end, or found invalidated. */
  lemma NodeReads(b: seq<Byte>, oidLen: nat, off: nat, n: Node)
    requires NodeOk(oidLen, n) && At(b, off, NodeBytes(n))
    ensures ReadNode(b, oidLen, off) == if n.count < 0 then Invalidated else Next(off + |NodeBytes(n)|)
  {
    var count := n.text;
    var at := off + |n.path| + 1 + |count| + 1;
    var nl := at + |n.subtrees|;
    NodeParts(b, off, n.path + [NUL], count + [SPACE], n.subtrees + [LINE], n.oid);
    HeadReads(b, off, n.path, count, n.count);
    FieldReads(b, at, n.subtrees, LINE);
    NodeFields(b, oidLen, off, at, nl, n.count);
  }

  lemma NodeParts(b: seq<Byte>, off: nat, x: seq<Byte>, y: seq<Byte>, z: seq<Byte>, oid: seq<Byte>)
    requires At(b, off, x + (y + (z + oid)))
    ensures At(b, off, x) && At(b, off + |x|, y) && At(b, off + |x| + |y|, z) && off + |x| + |y| + |z| + |oid| <= |b|
  {
    AtJoin(b, off, x, y + (z + oid));
    AtJoin(b, off + |x|, y, z + oid);
    AtJoin(b, off + |x| + |y|, z, oid);
    AtFits(b, off + |x| + |y| + |z|, oid);
  }

  predicate SomeInvalidated(ns: seq<Node>) {
    exists k :: 0 <= k < |ns| && ns[k].count < 0
  }

  lemma SomeInvalidatedStep(ns: seq<Node>)
    requires ns != []
    ensures SomeInvalidated(ns) <==> ns[0].count < 0 || SomeInvalidated(ns[1..])
  {
    if SomeInvalidated(ns[1..]) {
      var k :| 0 <= k < |ns[1..]| && ns[1..][k].count < 0;
      assert ns[k + 1].count < 0;
    }
    forall k | 0 < k < |ns| && ns[k].count < 0
      ensures SomeInvalidated(ns[1..])
    {
      assert ns[1..][k - 1].count < 0;
    }
  }

  /** The nodes are read one after the other, up to the end or the first invalidated one. */
  predicate Reads(b: seq<Byte>, oidLen: nat, ns: seq<Node>, off: nat) {
    if ns == [] then off == |b|
    else if ns[0].count < 0 then ReadNode(b, oidLen, off) == Invalidated
    else match ReadNode(b, oidLen, off) case Next(at) => Reads(b, oidLen, ns[1..], at) case _ => false
  }

  lemma FirstReads(w: NodeWriter, b: seq<Byte>, oidLen: nat, off: nat, n: Node)
    requires w.Valid() && NodeOk(oidLen, n) && At(b, off, w.node(n))
    ensures ReadNode(b, oidLen, off) == if n.count < 0 then Invalidated else Next(off + |w.node(n)|)
  {
    assert w.Writes(n);
    NodeReads(b, oidLen, off, n);
  }

  lemma {:induction false} TreeReads(w: NodeWriter, b: seq<Byte>, oidLen: nat, off: nat, ns: seq<Node>)
    requires w.Valid() && (forall n :: n in ns ==> NodeOk(oidLen, n))
    requires At(b, off, TreeBytes(w, ns)) && off + |TreeBytes(w, ns)| == |b|
    ensures Reads(b, oidLen, ns, off)
    decreases |ns|
  {
    if ns != [] {
      assert ns[0] in ns;
      AtJoin(b, off, w.node(ns[0]), TreeBytes(w, ns[1..]));
      FirstReads(w, b, oidLen, off, ns[0]);
      if ns[0].count >= 0 {
        TreeReads(w, b, oidLen, off + |w.node(ns[0])|, ns[1..]);
      }
    }
  }

  lemma {:induction false} ReadsScan(b: seq<Byte>, oidLen: nat, off: nat, ns: seq<Node>)
    requires Reads(b, oidLen, ns, off)
    ensures Scan(b, oidLen, off) == Some(SomeInvalidated(ns))
    decreases |ns|
  {
    if ns != [] {
      SomeInvalidatedStep(ns);
      ReadNodeInside(b, oidLen, off);
      if ns[0].count >= 0 {
        ReadsScan(b, oidLen, ReadNode(b, oidLen, off).at, ns[1..]);
      }
    }
  }

  lemma ReadNodeInside(b: seq<Byte>, oidLen: nat, off: nat)
    requires !ReadNode(b, oidLen, off).Corrupt?
    ensures off < |b|
  {
  }

  /** A tree git wrote is stale exactly when some node anywhere in it is invalidated. */
  lemma ScanMeans(ns: seq<Node>, oidLen: nat)
    requires forall n :: n in ns ==> NodeOk(oidLen, n)
    ensures Scan(TreeBytes(Nodes(), ns), oidLen, 0) == Some(SomeInvalidated(ns))
  {
    AtWhole(TreeBytes(Nodes(), ns), 0);
    assert TreeBytes(Nodes(), ns)[0..] == TreeBytes(Nodes(), ns);
    TreeReads(Nodes(), TreeBytes(Nodes(), ns), oidLen, 0, ns);
    ReadsScan(TreeBytes(Nodes(), ns), oidLen, 0, ns);
  }

  function Scanner(oidLen: nat): seq<Byte> -> Option<bool> {
    data => Scan(data, oidLen, 0)
  }

  /** `parse_index`, with its cache-tree reader. */
  method ReadIndex(file: seq<Byte>, oidLen: nat) returns (r: Option<Index>)
    ensures r == Parse(Scanner(oidLen), file, oidLen)
  {
    r := ParseIndex(Scanner(oidLen), file, oidLen);
  }

  /** An index with a cache tree is read as its entries, marked stale exactly when the tree has an invalidated node. */
  lemma IndexWithTree(version: nat, es: seq<Raw>, ns: seq<Node>, checksum: seq<Byte>)
    requires 2 <= version <= 4 && |es| < 0x1_0000_0000 && RawsOk(version, |checksum|, es, [])
    requires (forall n :: n in ns ==> NodeOk(|checksum|, n)) && |TreeBytes(Nodes(), ns)| < 0x1_0000_0000
    ensures Parse(Scanner(|checksum|), FileBytes(WriterOf(version, |checksum|), es, [Extension(TREE, TreeBytes(Nodes(), ns))]) + checksum, |checksum|)
      == Some(Index(Meanings(es), SomeInvalidated(ns)))
  {
    var xs := [Extension(TREE, TreeBytes(Nodes(), ns))];
    ScanMeans(ns, |checksum|);
    assert xs[1..] == [] && xs[0] == Extension(TREE, TreeBytes(Nodes(), ns));
    IndexRoundTrip(Scanner(|checksum|), version, es, xs, checksum);
  }

  // ------------------------------------------------- exactly the trees that scan

  lemma {:induction false} FindFirst(b: seq<Byte>, off: nat, c: Byte)
    requires Find(b, off, c).Some?
    ensures c !in b[off..Find(b, off, c).value]
    decreases |b| - off
  {
    if b[off] != c {
      FindFirst(b, off + 1, c);
      assert b[off..Find(b, off, c).value] == [b[off]] + b[off + 1..Find(b, off, c).value];
    }
  }

  /** Where the separators of a node that was read stand. */
  lemma NodeFound(b: seq<Byte>, oidLen: nat, off: nat) returns (nul: nat, sp: nat, nl: nat, count: int)
    requires !ReadNode(b, oidLen, off).Corrupt?
    ensures Find(b, off, NUL) == Some(nul) && Find(b, nul + 1, SPACE) == Some(sp) && Find(b, sp + 1, LINE) == Some(nl)
    ensures ParseInt(b[nul + 1..sp]) == Some(count)
    ensures ReadNode(b, oidLen, off) == (if count < 0 then Invalidated else Next(nl + 1 + oidLen))
    ensures count >= 0 ==> nl + 1 + oidLen <= |b|
  {
    nul := Find(b, off, NUL).value;
    sp := Find(b, nul + 1, SPACE).value;
    nl := Find(b, sp + 1, LINE).value;
    count := ParseInt(b[nul + 1..sp]).value;
  }

  /** A node that was read, and the bytes it was read from. */
  lemma NodeWrote(b: seq<Byte>, oidLen: nat, off: nat) returns (n: Node, next: nat)
    requires !ReadNode(b, oidLen, off).Corrupt?
    ensures NodeOk(oidLen, n) && off < next <= |b| && b[off..next] == NodeBytes(n)
    ensures ReadNode(b, oidLen, off) == if n.count < 0 then Invalidated else Next(next)
  {
    var nul, sp, nl, count := NodeFound(b, oidLen, off);
    next := if count < 0 then nl + 1 else nl + 1 + oidLen;
    n := Node(b[off..nul], count, b[nul + 1..sp], b[sp + 1..nl], b[nl + 1..next]);
    FindFirst(b, off, NUL);
    FindFirst(b, nul + 1, SPACE);
    FindFirst(b, sp + 1, LINE);
    FourParts(b, off, nul, sp, nl, next);
  }

  lemma Ended(b: seq<Byte>, from: nat, end: nat)
    requires from <= end < |b|
    ensures b[from..end] + [b[end]] == b[from..end + 1]
  {
  }

  lemma Cut(b: seq<Byte>, i: nat, j: nat, k: nat)
    requires i <= j <= k <= |b|
    ensures b[i..k] == b[i..j] + b[j..k]
  {
  }

  lemma FourParts(b: seq<Byte>, off: nat, nul: nat, sp: nat, nl: nat, next: nat)
    requires off <= nul < sp < nl < next <= |b| && b[nul] == NUL && b[sp] == SPACE && b[nl] == LINE
    ensures b[off..next] == (b[off..nul] + [NUL]) + ((b[nul + 1..sp] + [SPACE]) + ((b[sp + 1..nl] + [LINE]) + b[nl + 1..next]))
  {
    Ended(b, off, nul);
    Ended(b, nul + 1, sp);
    Ended(b, sp + 1, nl);
    Cut(b, off, nul + 1, next);
    Cut(b, nul + 1, sp + 1, next);
    Cut(b, sp + 1, nl + 1, next);
  }

  /** Well-formed nodes, none of them invalidated except possibly the last. */
  predicate Scannable(oidLen: nat, ns: seq<Node>, stale: bool) {
    && (forall n :: n in ns ==> NodeOk(oidLen, n)) && (stale ==> ns != [])
    && forall k :: 0 <= k < |ns| ==> (ns[k].count < 0 <==> stale && k == |ns| - 1)
  }

  /** One node more in front of the bytes of others. */
  lemma TreeGrows(w: NodeWriter, n: Node, more: seq<Node>, rest: seq<Byte>, tail: seq<Byte>, whole: seq<Byte>)
    requires tail == TreeBytes(w, more) + rest && whole == w.node(n) + tail
    ensures whole == TreeBytes(w, [n] + more) + rest
  {
    assert ([n] + more)[1..] == more;
    Assoc(w.node(n), TreeBytes(w, more), rest);
  }

  lemma NodeStands(w: NodeWriter, b: seq<Byte>, oidLen: nat, off: nat) returns (n: Node, next: nat)
    requires w.Valid() && off <= |b| && !ReadNode(b, oidLen, off).Corrupt?
    ensures NodeOk(oidLen, n) && off < next <= |b| && b[off..] == w.node(n) + b[next..]
    ensures Scan(b, oidLen, off) == if n.count < 0 then Some(true) else Scan(b, oidLen, next)
  {
    n, next := NodeWrote(b, oidLen, off);
    assert w.Writes(n);
    Cut(b, off, next, |b|);
    ScanStep(b, oidLen, off);
  }

  lemma ScannableOne(oidLen: nat, n: Node)
    requires NodeOk(oidLen, n) && n.count < 0
    ensures Scannable(oidLen, [n], true)
  {
  }

  lemma ScannableMore(oidLen: nat, n: Node, more: seq<Node>, stale: bool)
    requires NodeOk(oidLen, n) && n.count >= 0 && Scannable(oidLen, more, stale)
    ensures Scannable(oidLen, [n] + more, stale)
  {
    var ns := [n] + more;
    forall k | 0 <= k < |ns| ensures ns[k].count < 0 <==> stale && k == |ns| - 1 {
      if k > 0 {
        assert ns[k] == more[k - 1];
      }
    }
  }

  lemma {:induction false} ScanWrote(w: NodeWriter, b: seq<Byte>, oidLen: nat, off: nat) returns (ns: seq<Node>, rest: seq<Byte>)
    requires w.Valid() && off <= |b| && Scan(b, oidLen, off).Some?
    ensures Scannable(oidLen, ns, Scan(b, oidLen, off).value) && b[off..] == TreeBytes(w, ns) + rest
    ensures !Scan(b, oidLen, off).value ==> rest == []
    decreases |b| - off
  {
    if off == |b| {
      ns, rest := [], [];
    } else {
      var n, next := NodeStands(w, b, oidLen, off);
      if n.count < 0 {
        ns, rest := [n], b[next..];
        ScannableOne(oidLen, n);
        TreeGrows(w, n, [], rest, rest, b[off..]);
      } else {
        var more;
        more, rest := ScanWrote(w, b, oidLen, next);
        ns := [n] + more;
        ScannableMore(oidLen, n, more, Scan(b, oidLen, next).value);
        TreeGrows(w, n, more, rest, b[next..], b[off..]);
      }
    }
  }

  lemma {:induction false} ScanReads(w: NodeWriter, b: seq<Byte>, oidLen: nat, off: nat, ns: seq<Node>, stale: bool)
    requires w.Valid() && Scannable(oidLen, ns, stale) && At(b, off, TreeBytes(w, ns))
    requires !stale ==> off + |TreeBytes(w, ns)| == |b|
    ensures Scan(b, oidLen, off) == Some(stale)
    decreases |ns|
  {
    if ns != [] {
      assert ns[0] in ns;
      AtJoin(b, off, w.node(ns[0]), TreeBytes(w, ns[1..]));
      FirstReads(w, b, oidLen, off, ns[0]);
      ScanStep(b, oidLen, off);
      if ns[0].count >= 0 {
        ScannableRest(oidLen, ns, stale);
        ScanReads(w, b, oidLen, off + |w.node(ns[0])|, ns[1..], stale);
      }
    }
  }

  lemma ScanStep(b: seq<Byte>, oidLen: nat, off: nat)
    requires !ReadNode(b, oidLen, off).Corrupt?
    ensures match ReadNode(b, oidLen, off)
            case Next(at) => off < at <= |b| && Scan(b, oidLen, off) == Scan(b, oidLen, at)
            case _ => Scan(b, oidLen, off) == Some(true)
  {
    ReadNodeInside(b, oidLen, off);
  }

  lemma ScannableRest(oidLen: nat, ns: seq<Node>, stale: bool)
    requires Scannable(oidLen, ns, stale) && ns != [] && ns[0].count >= 0
    ensures Scannable(oidLen, ns[1..], stale)
  {
    assert forall k :: 0 <= k < |ns[1..]| ==> ns[1..][k] == ns[k + 1];
    assert stale ==> ns[|ns| - 1].count < 0;
  }

  /** The bytes are the nodes, and after an invalidated one anything. */
  predicate Spells(data: seq<Byte>, oidLen: nat, ns: seq<Node>, rest: seq<Byte>, stale: bool) {
    Scannable(oidLen, ns, stale) && data == TreeBytes(Nodes(), ns) + rest && (!stale ==> rest == [])
  }

  /** The scan answers exactly on well-formed trees: fresh when they are whole and no node is invalidated, stale when they
      are well formed up to an invalidated one. Everything else is corrupt. */
  lemma ScansExactlyTrees(data: seq<Byte>, oidLen: nat, stale: bool)
    ensures Scan(data, oidLen, 0) == Some(stale) <==> exists ns, rest :: Spells(data, oidLen, ns, rest, stale)
  {
    assert data[0..] == data;
    if Scan(data, oidLen, 0) == Some(stale) {
      var ns, rest := ScanWrote(Nodes(), data, oidLen, 0);
      assert Spells(data, oidLen, ns, rest, stale);
    }
    forall ns, rest | Spells(data, oidLen, ns, rest, stale) ensures Scan(data, oidLen, 0) == Some(stale) {
      AtWhole(data, 0);
      AtJoin(data, 0, TreeBytes(Nodes(), ns), rest);
      ScanReads(Nodes(), data, oidLen, 0, ns, stale);
    }
  }
}
