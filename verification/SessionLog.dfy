/** `session.rs`: what the gateway writes, and the identifiers it writes under. */
module SessionLog {
  import opened Bytes
  import opened Canonical
  import opened Records
  import opened Auth

  /** The identifiers of a session's records. */
  datatype RecordId =
    | NoRecord | CertRec | Call(n: nat) | Dec(n: nat) | Eff(n: nat) | Reload(n: nat) | Deployment(n: nat)
    | Deleg(g: nat) | LabelRec(g: nat) | ActorRec(g: nat) | Agent(g: nat)

  datatype Entry = Entry(id: RecordId, parent: Option<RecordId>, payload: Payload)

  /** An act forwarded and not yet answered. */
  datatype Slot = Slot(decision: RecordId, effect: RecordId)

  /** A JSON-RPC id: absent, null, or its JSON text. */
  datatype MsgId = NoId | NullId | Id(key: Text)

  datatype SessionState = SessionState(log: seq<Entry>, agent: RecordId, pending: map<MsgId, Slot>, toAgent: map<MsgId, Slot>,
                                       relayed: set<MsgId>, counter: nat, reloadCounter: nat)

  /** How the gateway describes itself in records. */
  datatype Host = Host(agentId: Text, agentVersion: Text, bundleVersion: Text, configHash: Hash)

  function Append(s: SessionState, id: RecordId, parent: Option<RecordId>, payload: Payload): SessionState {
    s.(log := s.log + [Entry(id, parent, payload)])
  }

  /** `record_config_reloads`. */
  function WithReloads(s: SessionState, reloads: seq<Payload>): SessionState
    decreases |reloads|
  {
    if reloads == [] then s
    else
      var n := s.reloadCounter + 1;
      WithReloads(Append(s.(reloadCounter := n), Reload(n), None, reloads[0]), reloads[1..])
  }

  function GrantPayload(g: Grant): Payload {
    Delegation(g.subject, g.issuer, g.scopes, g.expiresAtMs, None, Implicit)
  }

  /** A readable name is recorded only when the token carries one that differs from the subject. */
  predicate Labelled(g: Grant) {
    g.readable.Some? && g.readable.value.0 != g.subject
  }

  function GrantEntries(gen: nat, g: Grant, host: Host): seq<Entry> {
    [Entry(Deleg(gen), None, GrantPayload(g))]
    + (if Labelled(g)
       then [Entry(LabelRec(gen), Some(Deleg(gen)), PrincipalLabel(g.issuer, g.subject, g.readable.value.0, g.readable.value.1))]
       else [])
    + [Entry(ActorRec(gen), Some(Deleg(gen)), Actor(g.actorChain, g.kind)),
       Entry(Agent(gen), Some(ActorRec(gen)), AgentSession(host.agentId, host.agentVersion, host.configHash))]
  }

  /** `record_delegation`. */
  function WithGrant(s: SessionState, gen: nat, g: Grant, host: Host): SessionState {
    s.(log := s.log + GrantEntries(gen, g, host), agent := Agent(gen))
  }

  class Session {
    var log: seq<Entry>
    var agent: RecordId
    var pending: map<MsgId, Slot>
    var toAgent: map<MsgId, Slot>
    var relayed: set<MsgId>
    var counter: nat
    var reloadCounter: nat

    function State(): SessionState
      reads this
    {
      SessionState(log, agent, pending, toAgent, relayed, counter, reloadCounter)
    }

    constructor ()
      ensures State() == SessionState([], NoRecord, map[], map[], {}, 0, 0)
    {
      log, agent, pending, toAgent, relayed, counter, reloadCounter := [], NoRecord, map[], map[], {}, 0, 0;
    }

    /** `Session::write`: chained, signed and durable before the caller goes on. */
    method Write(id: RecordId, parent: Option<RecordId>, payload: Payload)
      modifies this`log
      ensures State() == Append(old(State()), id, parent, payload)
    {
      log := log + [Entry(id, parent, payload)];
    }

    method NextCallId() returns (id: RecordId)
      modifies this`counter
      ensures State() == old(State()).(counter := old(counter) + 1) && id == Call(counter)
    {
      counter := counter + 1;
      id := Call(counter);
    }

    method RecordReloads(reloads: seq<Payload>)
      modifies this
      ensures State() == WithReloads(old(State()), reloads)
    {
      for i := 0 to |reloads|
        invariant WithReloads(State(), reloads[i..]) == WithReloads(old(State()), reloads)
      {
        assert reloads[i..][1..] == reloads[i + 1..];
        reloadCounter := reloadCounter + 1;
        Write(Reload(reloadCounter), None, reloads[i]);
      }
    }

    method RecordGrant(gen: nat, g: Grant, host: Host)
      modifies this
      ensures State() == WithGrant(old(State()), gen, g, host)
    {
      Write(Deleg(gen), None, GrantPayload(g));
      if Labelled(g) {
        Write(LabelRec(gen), Some(Deleg(gen)), PrincipalLabel(g.issuer, g.subject, g.readable.value.0, g.readable.value.1));
      }
      Write(ActorRec(gen), Some(Deleg(gen)), Actor(g.actorChain, g.kind));
      Write(Agent(gen), Some(ActorRec(gen)), AgentSession(host.agentId, host.agentVersion, host.configHash));
      agent := Agent(gen);
      assert log == old(log) + GrantEntries(gen, g, host);
    }
  }

  // ------------------------------------------------- identifiers as text

  function Digits(n: nat): (t: string)
    ensures |t| > 0 && forall i :: 0 <= i < |t| ==> '0' <= t[i] <= '9'
  {
    var d := ('0' as int + n % 10) as char;
    if n < 10 then [d] else Digits(n / 10) + [d]
  }

  function Value(t: string): nat
    requires forall i :: 0 <= i < |t| ==> '0' <= t[i] <= '9'
  {
    if t == "" then 0 else Value(t[..|t| - 1]) * 10 + (t[|t| - 1] as int - '0' as int)
  }

  lemma {:induction false} DigitsRead(n: nat)
    ensures Value(Digits(n)) == n
  {
    var t := Digits(n);
    if n >= 10 {
      DigitsRead(n / 10);
      assert t[..|t| - 1] == Digits(n / 10);
    } else {
      assert t[..0] == "";
    }
  }

  /** The word before the dash. */
  function Prefix(id: RecordId): string {
    match id
    case NoRecord => ""
    case CertRec => "session"
    case Call(_) => "call"
    case Dec(_) => "dec"
    case Eff(_) => "eff"
    case Reload(_) => "reload"
    case Deployment(_) => "deployment"
    case Deleg(_) => "deleg"
    case LabelRec(_) => "label"
    case ActorRec(_) => "actor"
    case Agent(_) => "agent"
  }

  function Suffix(id: RecordId): string {
    match id
    case NoRecord => ""
    case CertRec => "cert"
    case Call(n) => Digits(n)
    case Dec(n) => Digits(n)
    case Eff(n) => Digits(n)
    case Reload(n) => Digits(n)
    case Deployment(n) => Digits(n)
    case Deleg(g) => Digits(g)
    case LabelRec(g) => Digits(g)
    case ActorRec(g) => Digits(g)
    case Agent(g) => Digits(g)
  }

  /** The identifier as it stands in the record. */
  function Render(id: RecordId): string {
    if id == NoRecord then "" else Prefix(id) + "-" + Suffix(id)
  }

  lemma FirstDash(p: string, s: string)
    requires '-' !in p
    ensures var x := p + "-" + s; x[|p|] == '-' && forall i :: 0 <= i < |p| ==> x[i] != '-'
  {
    forall i | 0 <= i < |p| ensures (p + "-" + s)[i] != '-' {
      assert (p + "-" + s)[i] == p[i] && p[i] in p;
    }
  }

  lemma DashSplits(p: string, s: string, q: string, t: string)
    requires '-' !in p && '-' !in q && p + "-" + s == q + "-" + t
    ensures p == q && s == t
  {
    var x := p + "-" + s;
    FirstDash(p, s);
    FirstDash(q, t);
    assert p == x[..|p|] && q == x[..|q|];
    assert s == x[|p| + 1..] && t == x[|q| + 1..];
  }

  lemma PrefixTells(a: RecordId, b: RecordId)
    requires Prefix(a) == Prefix(b)
    ensures a.NoRecord? <==> b.NoRecord?
    ensures a.CertRec? <==> b.CertRec?
    ensures a.Call? <==> b.Call?
    ensures a.Dec? <==> b.Dec?
    ensures a.Eff? <==> b.Eff?
    ensures a.Reload? <==> b.Reload?
    ensures a.Deployment? <==> b.Deployment?
    ensures a.Deleg? <==> b.Deleg?
    ensures a.LabelRec? <==> b.LabelRec?
    ensures a.ActorRec? <==> b.ActorRec?
    ensures a.Agent? <==> b.Agent?
  {
    var x, y := Prefix(a), Prefix(b);
    assert |x| == |y| && (|x| > 0 ==> x[0] == y[0]) && (|x| > 2 ==> x[1] == y[1] && x[2] == y[2]);
  }

  /** Two identifiers with the same text are the same identifier, so text is as good as structure. */
  lemma RenderInjective(a: RecordId, b: RecordId)
    requires Render(a) == Render(b)
    ensures a == b
  {
    assert a != NoRecord ==> |Render(a)| > 0;
    assert b != NoRecord ==> |Render(b)| > 0;
    if a != NoRecord && b != NoRecord {
      DashSplits(Prefix(a), Suffix(a), Prefix(b), Suffix(b));
      PrefixTells(a, b);
      if !a.CertRec? {
        DigitsRead(Number(a));
        DigitsRead(Number(b));
      }
    }
  }

  function Number(id: RecordId): nat {
    match id
    case NoRecord => 0
    case CertRec => 0
    case Call(n) => n
    case Dec(n) => n
    case Eff(n) => n
    case Reload(n) => n
    case Deployment(n) => n
    case Deleg(g) => g
    case LabelRec(g) => g
    case ActorRec(g) => g
    case Agent(g) => g
  }
}
