/** `policy/bundle.rs`: the signed policy bundle, in its two formats.

    The second format adds the declarations of tool arguments; the first is
    accepted only without any. Overrides are kept in key order, and tools and
    arguments in the order of the file, which is signed. */
module PolicyBundles {
  import opened Bytes
  import opened Canonical
  import opened SignedLists

  datatype ArgKind = StringArg | LongArg | BoolArg | StringSetArg
  datatype Behaviour = Closed | Open

  /** A default value is held as its JSON text. */
  datatype ArgSpec = ArgSpec(name: Text, at: Option<Text>, kind: ArgKind, default: Option<Text>)
  datatype ToolDef = ToolDef(name: Text, server: Text, destructive: bool, scope: Option<Text>, args: seq<ArgSpec>)

  /** The overrides in key order, as the source's ordered map iterates them. */
  datatype Bundle = Bundle(format: Text, version: Text, cedar: Text, tools: seq<ToolDef>, fallback: Behaviour,
                           overrides: seq<(Text, Behaviour)>)

  function KindText(k: ArgKind): Text {
    match k
    case StringArg => Ascii("string")
    case LongArg => Ascii("long")
    case BoolArg => Ascii("bool")
    case StringSetArg => Ascii("string_set")
  }

  function BehaviourText(b: Behaviour): Text {
    match b case Closed => Ascii("closed") case Open => Ascii("open")
  }

  lemma KindTexts(a: ArgKind, b: ArgKind)
    requires KindText(a) == KindText(b)
    ensures a == b
  {
    assert KindText(LongArg)[0] == 'l' as int && KindText(BoolArg)[0] == 'b' as int;
    assert |KindText(StringArg)| == 6 && |KindText(StringSetArg)| == 10 && |KindText(LongArg)| == 4;
  }

  lemma BehaviourTexts(a: Behaviour, b: Behaviour)
    requires BehaviourText(a) == BehaviourText(b)
    ensures a == b
  {
    assert |BehaviourText(Closed)| == 6 && |BehaviourText(Open)| == 4;
  }

  function EncArg(a: ArgSpec): seq<Byte> {
    EncText(a.name) + (EncOptText(a.at) + (EncText(KindText(a.kind)) + EncOptText(a.default)))
  }

  /** Format v1 omits the argument declarations. */
  function EncToolAs(withArgs: bool, t: ToolDef): seq<Byte> {
    EncText(t.name) + (EncText(t.server) + ([if t.destructive then 1 else 0] + (EncOptText(t.scope)
    + (if withArgs then EncCounted(EncArg, t.args) else []))))
  }

  function EncTool(withArgs: bool): ToolDef -> seq<Byte> {
    (t: ToolDef) => EncToolAs(withArgs, t)
  }

  function EncOverride(o: (Text, Behaviour)): seq<Byte> {
    EncText(o.0) + EncText(BehaviourText(o.1))
  }

  /** The body that is digested and signed; v1 is the name of the first format. */
  function Body(v1: Text, b: Bundle): seq<Byte> {
    EncText(b.format) + (EncText(b.version) + (EncText(b.cedar) + (EncCounted(EncTool(b.format != v1), b.tools)
    + (EncText(BehaviourText(b.fallback)) + EncCounted(EncOverride, b.overrides)))))
  }

  /** What `verify` accepts once the signature holds. */
  predicate Accepted(v1: Text, v2: Text, b: Bundle) {
    b.format == v2 || (b.format == v1 && forall t :: t in b.tools ==> t.args == [])
  }

  predicate ShortArg(a: ArgSpec) {
    Short(a.name) && ShortOpt(a.at) && ShortOpt(a.default)
  }

  predicate ShortTool(t: ToolDef) {
    Short(t.name) && Short(t.server) && ShortOpt(t.scope) && Countable(t.args) && forall a :: a in t.args ==> ShortArg(a)
  }

  predicate ShortBundle(b: Bundle) {
    && Short(b.format) && Short(b.version) && Short(b.cedar)
    && Countable(b.tools) && (forall t :: t in b.tools ==> ShortTool(t))
    && Countable(b.overrides) && forall o :: o in b.overrides ==> Short(o.0)
  }

  method EncodeArgs(e: Encoder, args: seq<ArgSpec>)
    modifies e
    ensures e.buf == old(e.buf) + EncCounted(EncArg, args)
  {
    e.U64(|args| % 0x1_0000_0000_0000_0000);
    EncodeArgItems(e, args);
    Assoc(old(e.buf), EncWord(|args| % 0x1_0000_0000_0000_0000), EncList(EncArg, args));
  }

  method EncodeArgItems(e: Encoder, args: seq<ArgSpec>)
    modifies e
    ensures e.buf == old(e.buf) + EncList(EncArg, args)
  {
    for i := 0 to |args|
      invariant e.buf + EncList(EncArg, args[i..]) == old(e.buf) + EncList(EncArg, args)
    {
      ListStep(EncArg, args, i, e.buf);
      var a := args[i];
      Cat4(e.buf, EncText(a.name), EncOptText(a.at), EncText(KindText(a.kind)), EncOptText(a.default));
      e.Str(a.name);
      e.OptStr(a.at);
      e.Str(KindText(a.kind));
      e.OptStr(a.default);
    }
    assert e.buf + [] == e.buf;
  }

  method EncodeTool(e: Encoder, withArgs: bool, t: ToolDef)
    modifies e
    ensures e.buf == old(e.buf) + EncTool(withArgs)(t)
  {
    ghost var d: seq<Byte> := [if t.destructive then 1 else 0];
    Cat5(old(e.buf), EncText(t.name), EncText(t.server), d, EncOptText(t.scope),
         if withArgs then EncCounted(EncArg, t.args) else []);
    e.Str(t.name);
    e.Str(t.server);
    e.U8(if t.destructive then 1 else 0);
    e.OptStr(t.scope);
    if withArgs {
      EncodeArgs(e, t.args);
    } else {
      assert e.buf + [] == e.buf;
    }
  }

  method EncodeTools(e: Encoder, withArgs: bool, tools: seq<ToolDef>)
    modifies e
    ensures e.buf == old(e.buf) + EncCounted(EncTool(withArgs), tools)
  {
    var enc := EncTool(withArgs);
    e.U64(|tools| % 0x1_0000_0000_0000_0000);
    ghost var start := e.buf;
    for i := 0 to |tools|
      invariant e.buf + EncList(enc, tools[i..]) == start + EncList(enc, tools)
    {
      ListStep(enc, tools, i, e.buf);
      EncodeTool(e, withArgs, tools[i]);
    }
    assert e.buf + [] == e.buf;
    Assoc(old(e.buf), EncWord(|tools| % 0x1_0000_0000_0000_0000), EncList(enc, tools));
  }

  method EncodeOverrides(e: Encoder, os: seq<(Text, Behaviour)>)
    modifies e
    ensures e.buf == old(e.buf) + EncCounted(EncOverride, os)
  {
    e.U64(|os| % 0x1_0000_0000_0000_0000);
    ghost var start := e.buf;
    for i := 0 to |os|
      invariant e.buf + EncList(EncOverride, os[i..]) == start + EncList(EncOverride, os)
    {
      ListStep(EncOverride, os, i, e.buf);
      Assoc(e.buf, EncText(os[i].0), EncText(BehaviourText(os[i].1)));
      e.Str(os[i].0);
      e.Str(BehaviourText(os[i].1));
    }
    assert e.buf + [] == e.buf;
    Assoc(old(e.buf), EncWord(|os| % 0x1_0000_0000_0000_0000), EncList(EncOverride, os));
  }

  /** `Bundle::signing_bytes`, before the digest. */
  method SigningBody(v1: Text, b: Bundle) returns (body: seq<Byte>)
    ensures body == Body(v1, b)
  {
    var e := new Encoder();
    e.Str(b.format);
    assert [] + EncText(b.format) == EncText(b.format);
    e.Str(b.version);
    e.Str(b.cedar);
    EncodeTools(e, b.format != v1, b.tools);
    e.Str(BehaviourText(b.fallback));
    EncodeOverrides(e, b.overrides);
    Cat5(EncText(b.format), EncText(b.version), EncText(b.cedar), EncCounted(EncTool(b.format != v1), b.tools),
         EncText(BehaviourText(b.fallback)), EncCounted(EncOverride, b.overrides));
    body := e.buf;
  }

  // ------------------------------------------------- reading the body back

  lemma KindShort(k: ArgKind)
    ensures Short(KindText(k))
  {
  }

  lemma ArgReads(a: ArgSpec, b: ArgSpec)
    requires ShortArg(a) && ShortArg(b)
    ensures Reads(EncArg, a, b)
  {
    forall s, t ensures ReadAt(EncArg, a, b, s, t) {
      if EncArg(a) + s == EncArg(b) + t {
        var x2, y2 := EncText(KindText(a.kind)) + EncOptText(a.default), EncText(KindText(b.kind)) + EncOptText(b.default);
        KindShort(a.kind);
        KindShort(b.kind);
        PeelText(a.name, b.name, EncOptText(a.at) + x2, EncOptText(b.at) + y2, s, t);
        PeelOptText(a.at, b.at, x2, y2, s, t);
        PeelText(KindText(a.kind), KindText(b.kind), EncOptText(a.default), EncOptText(b.default), s, t);
        KindTexts(a.kind, b.kind);
        ReadOptText(a.default, b.default, s, t);
      }
    }
  }

  /** The last segment of a tool, or nothing in format v1. */
  function ArgsPart(withArgs: bool, t: ToolDef): seq<Byte> {
    if withArgs then EncCounted(EncArg, t.args) else []
  }

  lemma ReadArgs(withArgs: bool, a: ToolDef, b: ToolDef, s: seq<Byte>, t: seq<Byte>)
    requires ShortTool(a) && ShortTool(b) && (!withArgs ==> a.args == b.args == [])
    requires ArgsPart(withArgs, a) + s == ArgsPart(withArgs, b) + t
    ensures a.args == b.args && s == t
  {
    if withArgs {
      forall p, q | p in a.args && q in b.args ensures Reads(EncArg, p, q) {
        ArgReads(p, q);
      }
      ReadCounted(EncArg, a.args, b.args, s, t);
    } else {
      assert [] + s == s && [] + t == t;
    }
  }

  lemma ReadTool(withArgs: bool, a: ToolDef, b: ToolDef, s: seq<Byte>, t: seq<Byte>)
    requires ShortTool(a) && ShortTool(b) && (!withArgs ==> a.args == b.args == [])
    requires EncToolAs(withArgs, a) + s == EncToolAs(withArgs, b) + t
    ensures a == b && s == t
  {
    var x3, y3 := EncOptText(a.scope) + ArgsPart(withArgs, a), EncOptText(b.scope) + ArgsPart(withArgs, b);
    var da: Byte, db: Byte := if a.destructive then 1 else 0, if b.destructive then 1 else 0;
    PeelText(a.name, b.name, EncText(a.server) + ([da] + x3), EncText(b.server) + ([db] + y3), s, t);
    PeelText(a.server, b.server, [da] + x3, [db] + y3, s, t);
    Assoc([da], x3, s);
    Assoc([db], y3, t);
    ReadByte(da, db, x3 + s, y3 + t);
    PeelOptText(a.scope, b.scope, ArgsPart(withArgs, a), ArgsPart(withArgs, b), s, t);
    ReadArgs(withArgs, a, b, s, t);
  }

  lemma ToolsRead(v1: Text, v2: Text, a: Bundle, b: Bundle)
    requires v1 != v2 && ShortBundle(a) && ShortBundle(b) && Accepted(v1, v2, a) && Accepted(v1, v2, b) && a.format == b.format
    ensures forall p, q :: p in a.tools && q in b.tools ==> Reads(EncTool(a.format != v1), p, q)
  {
    var withArgs := a.format != v1;
    forall p, q | p in a.tools && q in b.tools ensures Reads(EncTool(withArgs), p, q) {
      forall s, t ensures ReadAt(EncTool(withArgs), p, q, s, t) {
        if EncTool(withArgs)(p) + s == EncTool(withArgs)(q) + t {
          ReadTool(withArgs, p, q, s, t);
        }
      }
    }
  }

  lemma OverridesRead(a: Bundle, b: Bundle)
    requires ShortBundle(a) && ShortBundle(b)
    ensures forall p, q :: p in a.overrides && q in b.overrides ==> Reads(EncOverride, p, q)
  {
    forall p, q | p in a.overrides && q in b.overrides ensures Reads(EncOverride, p, q) {
      forall s, t ensures ReadAt(EncOverride, p, q, s, t) {
        if EncOverride(p) + s == EncOverride(q) + t {
          PeelText(p.0, q.0, EncText(BehaviourText(p.1)), EncText(BehaviourText(q.1)), s, t);
          ReadText(BehaviourText(p.1), BehaviourText(q.1), s, t);
          BehaviourTexts(p.1, q.1);
        }
      }
    }
  }

  /** Across the two formats: two accepted bundles with the same signed body are the same bundle. */
  lemma BodyIdentifiesBundle(v1: Text, v2: Text, a: Bundle, b: Bundle)
    requires v1 != v2 && ShortBundle(a) && ShortBundle(b) && Accepted(v1, v2, a) && Accepted(v1, v2, b)
    requires Body(v1, a) == Body(v1, b)
    ensures a == b
  {
    var x5, y5 := EncCounted(EncOverride, a.overrides), EncCounted(EncOverride, b.overrides);
    var x4, y4 := EncText(BehaviourText(a.fallback)) + x5, EncText(BehaviourText(b.fallback)) + y5;
    var x3, y3 := EncCounted(EncTool(a.format != v1), a.tools) + x4, EncCounted(EncTool(b.format != v1), b.tools) + y4;
    assert Body(v1, a) + [] == Body(v1, b) + [];
    PeelText(a.format, b.format, EncText(a.version) + (EncText(a.cedar) + x3), EncText(b.version) + (EncText(b.cedar) + y3), [], []);
    PeelText(a.version, b.version, EncText(a.cedar) + x3, EncText(b.cedar) + y3, [], []);
    PeelText(a.cedar, b.cedar, x3, y3, [], []);
    ToolsRead(v1, v2, a, b);
    PeelCounted(EncTool(a.format != v1), a.tools, b.tools, x4, y4, [], []);
    PeelText(BehaviourText(a.fallback), BehaviourText(b.fallback), x5, y5, [], []);
    BehaviourTexts(a.fallback, b.fallback);
    OverridesRead(a, b);
    ReadCounted(EncOverride, a.overrides, b.overrides, [], []);
  }

  /** Why v1 refuses declarations: its body is the same whatever they are. */
  lemma V1CoversNoArgs(v1: Text, b: Bundle, i: nat, args: seq<ArgSpec>)
    requires b.format == v1 && i < |b.tools|
    ensures Body(v1, b.(tools := b.tools[i := b.tools[i].(args := args)])) == Body(v1, b)
  {
    SameList(EncTool(false), b.tools, b.tools[i := b.tools[i].(args := args)]);
  }

  lemma {:induction false} SameList<T>(enc: T -> seq<Byte>, a: seq<T>, b: seq<T>)
    requires |a| == |b| && forall i :: 0 <= i < |a| ==> enc(a[i]) == enc(b[i])
    ensures EncList(enc, a) == EncList(enc, b)
  {
    if a != [] {
      SameList(enc, a[1..], b[1..]);
    }
  }
}
