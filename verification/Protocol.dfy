/** Every interleaving of a session: agent and server messages, renewals, responses caught between their two locks. */
module Protocol {
  import opened Bytes
  import opened Canonical
  import opened Records
  import opened Auth
  import opened SessionLog
  import opened Gateway
  import opened Arbitration

  /** What a run has done so far beyond the session's own fields: the slots taken by responses whose effect is not
      written yet, the acts allowed with no id to answer under and what stood in its place, the grant of each generation, the grant each
      act's verdict was reached under, and which chain-level records were opened with. */
  datatype Trace = Trace(held: multiset<Slot>, silent: map<nat, MsgId>, grants: seq<Grant>, judged: map<nat, Grant>,
                         deployed: set<nat>, certified: bool)

  datatype World = World(s: SessionState, a: AuthState, t: Trace)

  /** One atomic move: everything a thread does under one lock. */
  datatype Move =
    | AgentMessage(msg: Msg, bearer: Option<Text>, nowMs: SignedWord, check: TokenCheck, latency: Word)
    | ServerMessage(said: Msg, verb: Method, atMs: SignedWord)
    | ResponseTaken(answer: Msg)
    | ResponseWritten(slot: Slot, response: Msg, took: Word)
    | BearerSeen(token: Text, seenMs: SignedWord, tokenCheck: TokenCheck)

  /** The act just counted was allowed and nothing will ever answer it. */
  function Silence(s: SessionState, s': SessionState, id: MsgId, forwarded: bool): map<nat, MsgId> {
    if s'.counter > s.counter && forwarded && !id.Id? then map[s'.counter := id] else map[]
  }

  function Judge(t: Trace, s: SessionState, s': SessionState, grant: Grant): map<nat, Grant> {
    if s'.counter > s.counter then t.judged[s'.counter := grant] else t.judged
  }

  function Grants(t: Trace, a: AuthState, a': AuthState): seq<Grant> {
    if a'.generation > a.generation then t.grants + [a'.current] else t.grants
  }

  function Next(ctx: Ctx, w: World, move: Move): World {
    match move
    case AgentMessage(msg, bearer, nowMs, check, latency) =>
      var (s, a, f) := FromAgent(ctx, w.s, w.a, msg, bearer, nowMs, check, latency);
      World(s, a, w.t.(silent := w.t.silent + Silence(w.s, s, msg.id, f == Pass), grants := Grants(w.t, w.a, a),
                       judged := Judge(w.t, w.s, s, a.current)))
    case ServerMessage(msg, verb, nowMs) =>
      var (s, d) := ServerSpeaks(ctx, w.s, w.a, msg, verb, nowMs);
      World(s, w.a, w.t.(silent := w.t.silent + Silence(w.s, s, msg.id, d == Deliver && verb != NoteMessage),
                         judged := Judge(w.t, w.s, s, w.a.current)))
    case ResponseTaken(msg) =>
      var (s, slot) := TakeSlot(w.s, msg.id);
      World(s, w.a, w.t.(held := w.t.held + if slot.Some? then multiset{slot.value} else multiset{}))
    case ResponseWritten(slot, msg, latency) =>
      if slot in w.t.held
      then World(ServerAnswered(ctx, w.s, slot, msg, latency), w.a, w.t.(held := w.t.held - multiset{slot}))
      else w
    case BearerSeen(token, nowMs, check) =>
      var (s, a, _) := Identify(ctx, w.s, w.a, Some(token), nowMs, check);
      World(s, a, w.t.(grants := Grants(w.t, w.a, a)))
  }

  function Run(ctx: Ctx, w: World, moves: seq<Move>): World
    decreases |moves|
  {
    if moves == [] then w else Run(ctx, Next(ctx, w, moves[0]), moves[1..])
  }

  // ------------------------------------------------- counting records

  /** How many records carry the id. */
  function Occ(log: seq<Entry>, id: RecordId): nat {
    if log == [] then 0
    else
      var n := |log| - 1;
      Occ(log[..n], id) + if log[n].id == id then 1 else 0
  }

  lemma {:induction false} OccAppend(a: seq<Entry>, b: seq<Entry>, id: RecordId)
    ensures Occ(a + b, id) == Occ(a, id) + Occ(b, id)
  {
    if b == [] {
      assert a + b == a;
    } else {
      var n := |b| - 1;
      OccAppend(a, b[..n], id);
      assert (a + b)[..|a + b| - 1] == a + b[..n];
    }
  }

  lemma OccOne(e: Entry, id: RecordId)
    ensures Occ([e], id) == if e.id == id then 1 else 0
  {
    assert [e][..0] == [];
  }

  lemma OccTwo(e: Entry, f: Entry, id: RecordId)
    ensures Occ([e, f], id) == (if e.id == id then 1 else 0) + (if f.id == id then 1 else 0)
  {
    OccOne(e, id);
    assert [e, f][..1] == [e];
  }

  /** How many ids of a table reserve the effect of act n. */
  function SlotsIn(m: map<MsgId, Slot>, n: nat): nat {
    |set k | k in m && m[k] == SlotOf(n)|
  }

  lemma SlotsInsert(m: map<MsgId, Slot>, k: MsgId, slot: Slot, n: nat)
    requires k !in m
    ensures SlotsIn(m[k := slot], n) == SlotsIn(m, n) + if slot == SlotOf(n) then 1 else 0
  {
    var m' := m[k := slot];
    var before, after := set x | x in m && m[x] == SlotOf(n), set x | x in m' && m'[x] == SlotOf(n);
    assert after == if slot == SlotOf(n) then before + {k} else before;
  }

  lemma SlotsRemove(m: map<MsgId, Slot>, k: MsgId, n: nat)
    requires k in m
    ensures SlotsIn(m - {k}, n) + (if m[k] == SlotOf(n) then 1 else 0) == SlotsIn(m, n)
  {
    var m' := m - {k};
    var before, after := set x | x in m && m[x] == SlotOf(n), set x | x in m' && m'[x] == SlotOf(n);
    assert before == if m[k] == SlotOf(n) then after + {k} else after;
  }

  lemma SlotsBound(m: map<MsgId, Slot>, n: nat)
    ensures SlotsIn(m, n) <= |m|
  {
    var keys := set k | k in m && m[k] == SlotOf(n);
    assert m.Keys == keys + (m.Keys - keys) && |m.Keys| == |keys| + |m.Keys - keys|;
  }

  /** In how many places the effect of act n is still owed, or known never to be. */
  function Owed(s: SessionState, t: Trace, n: nat): nat {
    SlotsIn(s.pending, n) + SlotsIn(s.toAgent, n) + t.held[SlotOf(n)] + if n in t.silent then 1 else 0
  }

  function Within(n: nat, m: nat): nat {
    if 1 <= n <= m then 1 else 0
  }

  /** How many records the session must hold under each id, when the effects of acts up to m are accounted for. */
  function Due(s: SessionState, t: Trace, m: nat, id: RecordId): int {
    match id
    case NoRecord => 0
    case CertRec => if t.certified then 1 else 0
    case Call(n) => Within(n, s.counter)
    case Dec(n) => Within(n, s.counter)
    case Eff(n) => Within(n, m) - Owed(s, t, n)
    case Reload(n) => if n in t.deployed then 0 else Within(n, s.reloadCounter)
    case Deployment(n) => if n in t.deployed then 1 else 0
    case Deleg(g) => Within(g, |t.grants|)
    case ActorRec(g) => Within(g, |t.grants|)
    case Agent(g) => Within(g, |t.grants|)
    case LabelRec(g) => if 1 <= g <= |t.grants| && Labelled(t.grants[g - 1]) then 1 else 0
  }

  predicate BookedAt(s: SessionState, t: Trace, m: nat, id: RecordId) {
    Occ(s.log, id) == Due(s, t, m, id)
  }

  /** The books balance: every id has exactly the records it is due. */
  ghost predicate Booked(s: SessionState, t: Trace, m: nat) {
    forall id :: BookedAt(s, t, m, id)
  }

  predicate SlotOk(slot: Slot, n: nat) {
    1 <= Number(slot.effect) <= n && slot == SlotOf(Number(slot.effect))
  }

  /** Every table holds reserved slots of counted acts, under proper ids. */
  predicate TablesOk(s: SessionState, t: Trace) {
    && (forall k :: k in s.pending ==> k.Id? && SlotOk(s.pending[k], s.counter))
    && (forall k :: k in s.toAgent ==> k.Id? && SlotOk(s.toAgent[k], s.counter))
    && (forall slot :: slot in t.held ==> SlotOk(slot, s.counter))
    && (forall n :: n in t.deployed ==> 1 <= n <= s.reloadCounter)
  }

  // ------------------------------------------------- what each move does to the books

  lemma AttemptBooks(ctx: Ctx, s: SessionState, t: Trace, payload: Payload, v: Verdict)
    requires Booked(s, t, s.counter) && TablesOk(s, t)
    ensures Booked(Attempt(ctx, s, payload, v), t, s.counter) && TablesOk(Attempt(ctx, s, payload, v), t)
  {
    var s' := Attempt(ctx, s, payload, v);
    var n := s.counter + 1;
    var e, f := Entry(Call(n), Some(s.agent), payload), Entry(Dec(n), Some(Call(n)), DecisionPayload(ctx, v));
    forall id ensures BookedAt(s', t, s.counter, id) {
      assert BookedAt(s, t, s.counter, id);
      OccAppend(s.log, [e, f], id);
      OccTwo(e, f, id);
    }
  }

  /** An act not yet accounted for has no effect and no reservation anywhere. */
  lemma NothingYet(s: SessionState, t: Trace, n: nat)
    requires n >= 1 && Booked(s, t, n - 1)
    ensures Occ(s.log, Eff(n)) == 0 && Owed(s, t, n) == 0
  {
    assert BookedAt(s, t, n - 1, Eff(n));
  }

  /** One record more, and one more due, under the same id. */
  lemma AddedAt(s: SessionState, t: Trace, m: nat, e: Entry, s': SessionState, t': Trace, m': nat, id: RecordId)
    requires BookedAt(s, t, m, id) && s'.log == s.log + [e]
    requires Due(s', t', m', id) == Due(s, t, m, id) + if e.id == id then 1 else 0
    ensures BookedAt(s', t', m', id)
  {
    OccAppend(s.log, [e], id);
    OccOne(e, id);
  }

  lemma CloseOwnDue(s: SessionState, s': SessionState, t: Trace, id: RecordId)
    requires s.counter >= 1 && s' == s.(log := s'.log)
    ensures Due(s', t, s.counter, id) == Due(s, t, s.counter - 1, id) + if Eff(s.counter) == id then 1 else 0
  {
  }

  lemma HeldDue(s: SessionState, s': SessionState, t: Trace, slot: Slot, id: RecordId)
    requires slot in t.held && SlotOk(slot, s.counter) && s' == s.(log := s'.log)
    ensures Due(s', t.(held := t.held - multiset{slot}), s.counter, id)
      == Due(s, t, s.counter, id) + if slot.effect == id then 1 else 0
  {
  }

  lemma CloseOwnBooks(s: SessionState, t: Trace, status: EffectStatus, result: Option<Hash>, latency: Word)
    requires s.counter >= 1 && Booked(s, t, s.counter - 1) && TablesOk(s, t)
    ensures Booked(Close(s, SlotOf(s.counter), status, result, latency), t, s.counter)
    ensures TablesOk(Close(s, SlotOf(s.counter), status, result, latency), t)
  {
    var s' := Close(s, SlotOf(s.counter), status, result, latency);
    var e := Entry(Eff(s.counter), Some(Dec(s.counter)), Effect(status, result, latency));
    forall id ensures BookedAt(s', t, s.counter, id) {
      assert BookedAt(s, t, s.counter - 1, id);
      CloseOwnDue(s, s', t, id);
      AddedAt(s, t, s.counter - 1, e, s', t, s.counter, id);
    }
  }

  lemma ReserveBooks(s: SessionState, t: Trace, way: Way, id: MsgId)
    requires s.counter >= 1 && Booked(s, t, s.counter - 1) && TablesOk(s, t) && id.Id? && id !in Table(s, way)
    ensures Booked(Reserve(s, way, id, SlotOf(s.counter)), t, s.counter)
    ensures TablesOk(Reserve(s, way, id, SlotOf(s.counter)), t)
  {
    var s' := Reserve(s, way, id, SlotOf(s.counter));
    forall rid ensures BookedAt(s', t, s.counter, rid) {
      assert BookedAt(s, t, s.counter - 1, rid);
      if rid.Eff? {
        SlotsInsert(Table(s, way), id, SlotOf(s.counter), rid.n);
      }
    }
  }

  lemma SilentBooks(s: SessionState, t: Trace, none: MsgId)
    requires s.counter >= 1 && Booked(s, t, s.counter - 1) && TablesOk(s, t)
    ensures Booked(s, t.(silent := t.silent + map[s.counter := none]), s.counter)
  {
    NothingYet(s, t, s.counter);
    forall id ensures BookedAt(s, t.(silent := t.silent + map[s.counter := none]), s.counter, id) {
      assert BookedAt(s, t, s.counter - 1, id);
    }
  }

  /** A reserved effect, written: it leaves its table and enters the log. */
  lemma AgentSlotBooks(s: SessionState, t: Trace, id: MsgId, status: EffectStatus, result: Option<Hash>, latency: Word)
    requires Booked(s, t, s.counter) && TablesOk(s, t) && id in s.toAgent
    ensures var s' := Close(s.(toAgent := s.toAgent - {id}), s.toAgent[id], status, result, latency);
      Booked(s', t, s.counter) && TablesOk(s', t)
  {
    var slot := s.toAgent[id];
    var s' := Close(s.(toAgent := s.toAgent - {id}), slot, status, result, latency);
    var e := Entry(slot.effect, Some(slot.decision), Effect(status, result, latency));
    forall rid ensures BookedAt(s', t, s.counter, rid) {
      assert BookedAt(s, t, s.counter, rid);
      OccAppend(s.log, [e], rid);
      OccOne(e, rid);
      if rid.Eff? {
        SlotsRemove(s.toAgent, id, rid.n);
      }
    }
  }

  lemma TakeBooks(s: SessionState, t: Trace, id: MsgId)
    requires Booked(s, t, s.counter) && TablesOk(s, t) && id in s.pending
    ensures var (s', slot) := TakeSlot(s, id); var t' := t.(held := t.held + multiset{slot.value});
      Booked(s', t', s.counter) && TablesOk(s', t')
  {
    var (s', slot) := TakeSlot(s, id);
    var t' := t.(held := t.held + multiset{slot.value});
    forall rid ensures BookedAt(s', t', s.counter, rid) {
      assert BookedAt(s, t, s.counter, rid);
      if rid.Eff? {
        SlotsRemove(s.pending, id, rid.n);
      }
    }
  }

  lemma HeldBooks(s: SessionState, t: Trace, slot: Slot, status: EffectStatus, result: Option<Hash>, latency: Word)
    requires Booked(s, t, s.counter) && TablesOk(s, t) && slot in t.held
    ensures var s' := Close(s, slot, status, result, latency); var t' := t.(held := t.held - multiset{slot});
      Booked(s', t', s.counter) && TablesOk(s', t')
  {
    var s' := Close(s, slot, status, result, latency);
    var t' := t.(held := t.held - multiset{slot});
    var e := Entry(slot.effect, Some(slot.decision), Effect(status, result, latency));
    forall rid ensures BookedAt(s', t', s.counter, rid) {
      assert BookedAt(s, t, s.counter, rid);
      HeldDue(s, s', t, slot, rid);
      AddedAt(s, t, s.counter, e, s', t', s.counter, rid);
    }
  }

  lemma {:induction false} ReloadBooks(s: SessionState, t: Trace, reloads: seq<Payload>)
    requires Booked(s, t, s.counter) && TablesOk(s, t)
    ensures var s' := WithReloads(s, reloads);
      && Booked(s', t, s.counter) && TablesOk(s', t)
      && s' == s.(log := s'.log, reloadCounter := s'.reloadCounter)
    decreases |reloads|
  {
    if reloads != [] {
      var n := s.reloadCounter + 1;
      var e := Entry(Reload(n), None, reloads[0]);
      var s1 := Append(s.(reloadCounter := n), Reload(n), None, reloads[0]);
      forall id ensures BookedAt(s1, t, s.counter, id) {
        assert BookedAt(s, t, s.counter, id);
        OccAppend(s.log, [e], id);
        OccOne(e, id);
      }
      ReloadBooks(s1, t, reloads[1..]);
    }
  }

  lemma GrantOcc(gen: nat, g: Grant, host: Host, id: RecordId)
    ensures Occ(GrantEntries(gen, g, host), id)
      == if id == Deleg(gen) || id == ActorRec(gen) || id == Agent(gen) || (id == LabelRec(gen) && Labelled(g)) then 1 else 0
  {
    var es := GrantEntries(gen, g, host);
    var first := [es[0]];
    var rest := [es[|es| - 2], es[|es| - 1]];
    OccOne(es[0], id);
    OccTwo(es[|es| - 2], es[|es| - 1], id);
    if Labelled(g) {
      assert es == ([es[0]] + [es[1]]) + rest;
      OccOne(es[1], id);
      OccAppend([es[0]], [es[1]], id);
      OccAppend([es[0]] + [es[1]], rest, id);
    } else {
      assert es == first + rest;
      OccAppend(first, rest, id);
    }
  }

  lemma GrantBooks(s: SessionState, t: Trace, g: Grant, host: Host)
    requires Booked(s, t, s.counter) && TablesOk(s, t)
    ensures var s' := WithGrant(s, |t.grants| + 1, g, host); var t' := t.(grants := t.grants + [g]);
      Booked(s', t', s.counter) && TablesOk(s', t')
  {
    var gen := |t.grants| + 1;
    var s' := WithGrant(s, gen, g, host);
    var t' := t.(grants := t.grants + [g]);
    forall id ensures BookedAt(s', t', s.counter, id) {
      GrantBooksAt(s, t, g, host, id);
    }
  }

  lemma GrantBooksAt(s: SessionState, t: Trace, g: Grant, host: Host, id: RecordId)
    requires BookedAt(s, t, s.counter, id)
    ensures BookedAt(WithGrant(s, |t.grants| + 1, g, host), t.(grants := t.grants + [g]), s.counter, id)
  {
    OccAppend(s.log, GrantEntries(|t.grants| + 1, g, host), id);
    GrantOcc(|t.grants| + 1, g, host, id);
  }

  // ------------------------------------------------- who acted under what

  /** Where a record must attach, and what it must hold, given the grants and verdicts of the run. */
  predicate EntryOk(t: Trace, counter: nat, e: Entry) {
    match e.id
    case NoRecord => false
    case CertRec => e.parent == None
    case Reload(_) => e.parent == None
    case Deployment(_) => e.parent == None
    case Call(n) =>
      && 1 <= n <= counter && n in t.judged
      && e.parent.Some? && e.parent.value.Agent? && 1 <= e.parent.value.g <= |t.grants|
      && t.grants[e.parent.value.g - 1] == t.judged[n]
    case Dec(n) => e.parent == Some(Call(n)) && e.payload.Decision?
    case Eff(n) => e.parent == Some(Dec(n)) && e.payload.Effect?
    case Deleg(g) => 1 <= g <= |t.grants| && e.parent == None && e.payload == GrantPayload(t.grants[g - 1])
    case LabelRec(g) => e.parent == Some(Deleg(g)) && e.payload.PrincipalLabel?
    case ActorRec(g) =>
      1 <= g <= |t.grants| && e.parent == Some(Deleg(g)) && e.payload == Actor(t.grants[g - 1].actorChain, t.grants[g - 1].kind)
    case Agent(g) => e.parent == Some(ActorRec(g)) && e.payload.AgentSession?
  }

  predicate Traced(log: seq<Entry>, t: Trace, counter: nat) {
    forall i :: 0 <= i < |log| ==> EntryOk(t, counter, log[i])
  }

  /** The attribution parent is the session record of the generation in force. */
  predicate InForce(s: SessionState, a: AuthState, t: Trace) {
    |t.grants| == a.generation && a.generation >= 1 && a.current == t.grants[a.generation - 1] && s.agent == Agent(a.generation)
  }

  ghost predicate Good(w: World) {
    && Booked(w.s, w.t, w.s.counter) && TablesOk(w.s, w.t)
    && Traced(w.s.log, w.t, w.s.counter) && InForce(w.s, w.a, w.t)
    && |w.s.relayed| <= RELAYED_CAP
  }

  /** A longer history keeps what was already right. */
  lemma TracedGrows(log: seq<Entry>, t: Trace, counter: nat, t': Trace, counter': nat)
    requires Traced(log, t, counter) && counter <= counter' && t.grants <= t'.grants
    requires forall n :: n in t.judged && n <= counter ==> n in t'.judged && t'.judged[n] == t.judged[n]
    ensures Traced(log, t', counter')
  {
    forall i | 0 <= i < |log| ensures EntryOk(t', counter', log[i]) {
      assert EntryOk(t, counter, log[i]);
    }
  }

  lemma TracedAppend(log: seq<Entry>, added: seq<Entry>, t: Trace, counter: nat)
    requires Traced(log, t, counter) && Traced(added, t, counter)
    ensures Traced(log + added, t, counter)
  {
  }

  lemma CloseTraced(s: SessionState, t: Trace, slot: Slot, status: EffectStatus, result: Option<Hash>, latency: Word)
    requires Traced(s.log, t, s.counter) && SlotOk(slot, s.counter)
    ensures Traced(Close(s, slot, status, result, latency).log, t, s.counter)
  {
    TracedAppend(s.log, [Entry(slot.effect, Some(slot.decision), Effect(status, result, latency))], t, s.counter);
  }

  /** Counting an act and deciding on it, under the grant in force. */
  lemma AttemptTraced(ctx: Ctx, s: SessionState, a: AuthState, t: Trace, payload: Payload, v: Verdict)
    requires Traced(s.log, t, s.counter) && InForce(s, a, t)
    ensures var s' := Attempt(ctx, s, payload, v); var t' := t.(judged := t.judged[s'.counter := a.current]);
      Traced(s'.log, t', s'.counter)
  {
    var n := s.counter + 1;
    var t' := t.(judged := t.judged[n := a.current]);
    TracedGrows(s.log, t, s.counter, t', n);
    var added := [Entry(Call(n), Some(s.agent), payload), Entry(Dec(n), Some(Call(n)), DecisionPayload(ctx, v))];
    assert EntryOk(t', n, added[0]) && EntryOk(t', n, added[1]);
    TracedAppend(s.log, added, t', n);
  }

  lemma SettleGood(s: SessionState, a: AuthState, t: Trace, way: Way, id: MsgId, allowed: bool)
    requires s.counter >= 1 && Booked(s, t, s.counter - 1) && TablesOk(s, t) && Traced(s.log, t, s.counter)
    requires InForce(s, a, t) && |s.relayed| <= RELAYED_CAP
    ensures var (s', passed) := Settle(s, way, id, allowed);
      s'.counter == s.counter && Good(World(s', a, t.(silent := t.silent + if passed && !id.Id? then map[s.counter := id] else map[])))
  {
    if allowed && !id.Id? {
      SilentGood(s, a, t, id);
    } else {
      assert t.(silent := t.silent + map[]) == t;
      OwedOrClosedGood(s, a, t, way, id, allowed);
    }
  }

  lemma SilentGood(s: SessionState, a: AuthState, t: Trace, none: MsgId)
    requires s.counter >= 1 && Booked(s, t, s.counter - 1) && TablesOk(s, t) && Traced(s.log, t, s.counter)
    requires InForce(s, a, t) && |s.relayed| <= RELAYED_CAP
    ensures Good(World(s, a, t.(silent := t.silent + map[s.counter := none])))
  {
    SilentBooks(s, t, none);
    TracedGrows(s.log, t, s.counter, t.(silent := t.silent + map[s.counter := none]), s.counter);
  }

  lemma OwedOrClosedGood(s: SessionState, a: AuthState, t: Trace, way: Way, id: MsgId, allowed: bool)
    requires s.counter >= 1 && Booked(s, t, s.counter - 1) && TablesOk(s, t) && Traced(s.log, t, s.counter)
    requires InForce(s, a, t) && |s.relayed| <= RELAYED_CAP && !(allowed && !id.Id?)
    ensures var (s', passed) := Settle(s, way, id, allowed);
      s'.counter == s.counter && Good(World(s', a, t))
  {
    if allowed && id !in Table(s, way) {
      ReserveBooks(s, t, way, id);
    } else {
      CloseOwnBooks(s, t, Blocked, None, 0);
      CloseTraced(s, t, SlotOf(s.counter), Blocked, None, 0);
    }
  }

  lemma ActGood(ctx: Ctx, w: World, payload: Payload, v: Verdict, way: Way, id: MsgId)
    requires Good(w)
    ensures var s1 := Attempt(ctx, w.s, payload, v);
      var (s', passed) := Settle(s1, way, id, Allowed(v));
      s'.counter == w.s.counter + 1
      && Good(World(s', w.a, w.t.(silent := w.t.silent + (if passed && !id.Id? then map[s'.counter := id] else map[]),
                                  judged := w.t.judged[s'.counter := w.a.current])))
  {
    var s1 := Attempt(ctx, w.s, payload, v);
    var t1 := w.t.(judged := w.t.judged[s1.counter := w.a.current]);
    AttemptBooks(ctx, w.s, w.t, payload, v);
    AttemptTraced(ctx, w.s, w.a, w.t, payload, v);
    SameBooks(s1, w.t, t1, w.s.counter);
    SettleGood(s1, w.a, t1, way, id, Allowed(v));
  }

  /** The books do not look at verdicts. */
  lemma SameBooks(s: SessionState, t: Trace, t': Trace, m: nat)
    requires Booked(s, t, m) && t' == t.(judged := t'.judged)
    ensures Booked(s, t', m)
  {
    forall id ensures BookedAt(s, t', m, id) {
      assert BookedAt(s, t, m, id);
    }
  }

  /** An act whose three records close at once. */
  lemma ClosedActGood(ctx: Ctx, w: World, payload: Payload, v: Verdict, status: EffectStatus)
    requires Good(w)
    ensures var s1 := Attempt(ctx, w.s, payload, v);
      Good(World(Close(s1, SlotOf(s1.counter), status, None, 0), w.a, w.t.(judged := w.t.judged[s1.counter := w.a.current])))
  {
    var s1 := Attempt(ctx, w.s, payload, v);
    var t1 := w.t.(judged := w.t.judged[s1.counter := w.a.current]);
    AttemptBooks(ctx, w.s, w.t, payload, v);
    AttemptTraced(ctx, w.s, w.a, w.t, payload, v);
    SameBooks(s1, w.t, t1, w.s.counter);
    CloseOwnBooks(s1, t1, status, None, 0);
    CloseTraced(s1, t1, SlotOf(s1.counter), status, None, 0);
  }

  lemma {:induction false} ReloadsTraced(s: SessionState, t: Trace, reloads: seq<Payload>)
    requires Traced(s.log, t, s.counter)
    ensures Traced(WithReloads(s, reloads).log, t, s.counter)
    decreases |reloads|
  {
    if reloads != [] {
      var n := s.reloadCounter + 1;
      TracedAppend(s.log, [Entry(Reload(n), None, reloads[0])], t, s.counter);
      ReloadsTraced(Append(s.(reloadCounter := n), Reload(n), None, reloads[0]), t, reloads[1..]);
    }
  }

  lemma GrantTraced(s: SessionState, t: Trace, g: Grant, host: Host)
    requires Traced(s.log, t, s.counter)
    ensures Traced(WithGrant(s, |t.grants| + 1, g, host).log, t.(grants := t.grants + [g]), s.counter)
  {
    var t' := t.(grants := t.grants + [g]);
    var added := GrantEntries(|t.grants| + 1, g, host);
    TracedGrows(s.log, t, s.counter, t', s.counter);
    forall i | 0 <= i < |added| ensures EntryOk(t', s.counter, added[i]) {
    }
    TracedAppend(s.log, added, t', s.counter);
  }

  lemma RenewGood(s: SessionState, a: AuthState, t: Trace, host: Host)
    requires Booked(s, t, s.counter) && TablesOk(s, t) && Traced(s.log, t, s.counter) && |s.relayed| <= RELAYED_CAP
    requires a.generation == |t.grants| + 1
    ensures Good(World(WithGrant(s, a.generation, a.current, host), a, t.(grants := t.grants + [a.current])))
  {
    GrantBooks(s, t, a.current, host);
    GrantTraced(s, t, a.current, host);
  }

  /** Taking the token of the moment into account keeps identity and attribution in step. */
  lemma IdentifyGood(ctx: Ctx, w: World, bearer: Option<Text>, nowMs: SignedWord, check: TokenCheck)
    requires Good(w)
    ensures var (s', a', _) := Identify(ctx, w.s, w.a, bearer, nowMs, check);
      s'.counter == w.s.counter && Good(World(s', a', w.t.(grants := Grants(w.t, w.a, a'))))
  {
    var (a1, outcome) := Consult(w.a, bearer, nowMs, check);
    RenewalCounts(w.a, bearer, nowMs, check);
    ReloadBooks(w.s, w.t, a1.reloads);
    ReloadsTraced(w.s, w.t, a1.reloads);
    if outcome == Renewed {
      RenewGood(WithReloads(w.s, a1.reloads), a1.(reloads := []), w.t, ctx.host);
    }
  }

  // ------------------------------------------------- every move, every run

  lemma ChangeRelayed(w: World, relayed: set<MsgId>)
    requires Good(w) && |relayed| <= RELAYED_CAP
    ensures Good(World(w.s.(relayed := relayed), w.a, w.t))
  {
    forall id ensures BookedAt(w.s.(relayed := relayed), w.t, w.s.counter, id) {
      assert BookedAt(w.s, w.t, w.s.counter, id);
    }
  }

  lemma AgentAnswerGood(ctx: Ctx, w: World, msg: Msg, latency: Word)
    requires Good(w)
    ensures var (s', f) := AgentAnswers(ctx, w.s, msg, latency);
      && Good(World(s', w.a, w.t.(judged := Judge(w.t, w.s, s', w.a.current))))
      && Silence(w.s, s', msg.id, f == Pass) == map[]
  {
    if msg.id.Id? && msg.id in w.s.toAgent {
      var status := if msg.error then EffectError else EffectOk;
      AgentSlotBooks(w.s, w.t, msg.id, status, ResultHash(ctx, msg), latency);
      CloseTraced(w.s.(toAgent := w.s.toAgent - {msg.id}), w.t, w.s.toAgent[msg.id], status, ResultHash(ctx, msg), latency);
    } else if msg.id.Id? && msg.id in w.s.relayed {
      ChangeRelayed(w, w.s.relayed - {msg.id});
    } else {
      ClosedActGood(ctx, w, SelfAccess(ctx, ctx.unsolicited, msg.raw), Refused(ctx, NoServerRequest), Blocked);
    }
  }

  lemma AgentActGood(ctx: Ctx, w: World, msg: Msg, act: Act, bearer: Option<Text>, nowMs: SignedWord, check: TokenCheck)
    requires Good(w)
    ensures var (s', a', f) := AgentActs(ctx, w.s, w.a, msg, act, bearer, nowMs, check);
      Good(World(s', a', w.t.(silent := w.t.silent + Silence(w.s, s', msg.id, f == Pass), grants := Grants(w.t, w.a, a'),
                              judged := Judge(w.t, w.s, s', a'.current))))
  {
    var (s1, a1, outcome) := Identify(ctx, w.s, w.a, bearer, nowMs, check);
    IdentifyGood(ctx, w, bearer, nowMs, check);
    var w1 := World(s1, a1, w.t.(grants := Grants(w.t, w.a, a1)));
    ActGood(ctx, w1, ActPayload(ctx, act, msg.params), VerdictOn(ctx, act, msg.params, a1.current, outcome), ToServer, msg.id);
  }

  lemma AgentMessageGood(ctx: Ctx, w: World, move: Move)
    requires Good(w) && move.AgentMessage?
    ensures Good(Next(ctx, w, move))
  {
    if move.msg.verb.None? {
      AgentAnswerGood(ctx, w, move.msg, move.latency);
      assert w.t.silent + map[] == w.t.silent;
    } else {
      match Classify(move.msg.verb.value, move.msg.params) {
        case None =>
          assert w.t.silent + map[] == w.t.silent;
        case Some(act) =>
          AgentActGood(ctx, w, move.msg, act, move.bearer, move.nowMs, move.check);
      }
    }
  }

  lemma ServerNoteGood(ctx: Ctx, w: World, msg: Msg, nowMs: SignedWord)
    requires Good(w)
    ensures var (s', d) := ServerNotes(ctx, w.s, w.a, msg, nowMs);
      Good(World(s', w.a, w.t.(judged := Judge(w.t, w.s, s', w.a.current))))
  {
    var v := ServerVerdict(ctx, Some(Notify), w.a.current, nowMs);
    ClosedActGood(ctx, w, SelfAccess(ctx, ctx.name(NoteMessage), msg.params.text), v, if Allowed(v) then EffectOk else Blocked);
  }

  // What the server says, channel by channel.

  lemma NextRelays(ctx: Ctx, w: World, move: Move)
    requires move.ServerMessage? && (ChannelOf(move.verb).RelayAndExpect? || ChannelOf(move.verb).RelayOnly?)
    ensures Next(ctx, w, move)
      == World(if ChannelOf(move.verb).RelayAndExpect? then Remember(w.s, move.said.id) else w.s, w.a, w.t)
  {
    assert w.t.silent + map[] == w.t.silent;
  }

  lemma NextNotes(ctx: Ctx, w: World, move: Move)
    requires move.ServerMessage? && ChannelOf(move.verb).NoteChannel?
    ensures var s' := ServerNotes(ctx, w.s, w.a, move.said, move.atMs).0;
      Next(ctx, w, move) == World(s', w.a, w.t.(judged := Judge(w.t, w.s, s', w.a.current)))
  {
    assert w.t.silent + map[] == w.t.silent;
  }

  lemma NextAsks(ctx: Ctx, w: World, move: Move, cap: Option<Capability>)
    requires move.ServerMessage? && ChannelOf(move.verb) == Arbitrate(cap)
    ensures var (s', d) := ServerAsks(ctx, w.s, w.a, move.said, move.verb, cap, move.atMs);
      Next(ctx, w, move) == World(s', w.a, w.t.(silent := w.t.silent + Silence(w.s, s', move.said.id, d == Deliver),
                                                judged := Judge(w.t, w.s, s', w.a.current)))
  {
  }

  lemma ServerMessageGood(ctx: Ctx, w: World, move: Move)
    requires Good(w) && move.ServerMessage?
    ensures Good(Next(ctx, w, move))
  {
    match ChannelOf(move.verb) {
      case RelayAndExpect =>
        NextRelays(ctx, w, move);
        ChangeRelayed(w, Remember(w.s, move.said.id).relayed);
      case RelayOnly =>
        NextRelays(ctx, w, move);
      case NoteChannel =>
        NextNotes(ctx, w, move);
        ServerNoteGood(ctx, w, move.said, move.atMs);
      case Arbitrate(cap) =>
        NextAsks(ctx, w, move, cap);
        ServerAskGood(ctx, w, move, cap);
    }
  }

  lemma ServerAskGood(ctx: Ctx, w: World, move: Move, cap: Option<Capability>)
    requires Good(w) && move.ServerMessage?
    ensures var (s', d) := ServerAsks(ctx, w.s, w.a, move.said, move.verb, cap, move.atMs);
      Good(World(s', w.a, w.t.(silent := w.t.silent + Silence(w.s, s', move.said.id, d == Deliver),
                               judged := Judge(w.t, w.s, s', w.a.current))))
  {
    ActGood(ctx, w, SelfAccess(ctx, ctx.name(move.verb), move.said.params.text),
            ServerVerdict(ctx, cap, w.a.current, move.atMs), ToTheAgent, move.said.id);
  }

  lemma ResponseTakenGood(ctx: Ctx, w: World, move: Move)
    requires Good(w) && move.ResponseTaken?
    ensures Good(Next(ctx, w, move))
  {
    if move.answer.id in w.s.pending {
      TakeBooks(w.s, w.t, move.answer.id);
    } else {
      assert w.t.held + multiset{} == w.t.held;
    }
  }

  lemma ResponseWrittenGood(ctx: Ctx, w: World, move: Move)
    requires Good(w) && move.ResponseWritten?
    ensures Good(Next(ctx, w, move))
  {
    if move.slot in w.t.held {
      var msg := move.response;
      var status := if msg.error || (msg.result.Some? && msg.toolError) then EffectError else EffectOk;
      HeldBooks(w.s, w.t, move.slot, status, ResultHash(ctx, msg), move.took);
      CloseTraced(w.s, w.t, move.slot, status, ResultHash(ctx, msg), move.took);
    }
  }

  /** Every atomic move keeps the books, the tables, the attribution and the cap. */
  lemma NextGood(ctx: Ctx, w: World, move: Move)
    requires Good(w)
    ensures Good(Next(ctx, w, move))
  {
    match move {
      case AgentMessage(_, _, _, _, _) => AgentMessageGood(ctx, w, move);
      case ServerMessage(_, _, _) => ServerMessageGood(ctx, w, move);
      case ResponseTaken(_) => ResponseTakenGood(ctx, w, move);
      case ResponseWritten(_, _, _) => ResponseWrittenGood(ctx, w, move);
      case BearerSeen(token, nowMs, check) => IdentifyGood(ctx, w, Some(token), nowMs, check);
    }
  }

  /** Every run, in every interleaving. */
  lemma {:induction false} RunGood(ctx: Ctx, w: World, moves: seq<Move>)
    requires Good(w)
    ensures Good(Run(ctx, w, moves))
    decreases |moves|
  {
    if moves != [] {
      NextGood(ctx, w, moves[0]);
      RunGood(ctx, Next(ctx, w, moves[0]), moves[1..]);
    }
  }

  // ------------------------------------------------- acts nothing will answer

  /** The decision lets the act through. */
  predicate Lets(p: Payload) {
    p.Decision? && (p.outcome == Allow || p.outcome == AllowFailOpen)
  }

  predicate LetThrough(log: seq<Entry>, n: nat) {
    forall i :: 0 <= i < |log| && log[i].id == Dec(n) ==> Lets(log[i].payload)
  }

  /** An act is silent only if it was counted, its message carried no id, and its decision lets it through. */
  predicate SilentOk(w: World) {
    forall n :: n in w.t.silent ==> 1 <= n <= w.s.counter && !w.t.silent[n].Id? && LetThrough(w.s.log, n)
  }

  /** What was written since decides no act but n, and lets that one through if it must. */
  predicate Decides(before: seq<Entry>, now: seq<Entry>, n: nat, lets: bool) {
    && before <= now
    && forall i :: |before| <= i < |now| && now[i].id.Dec? ==> now[i].id.n == n && (lets ==> Lets(now[i].payload))
  }

  lemma DecidesTwice(a: seq<Entry>, b: seq<Entry>, d: seq<Entry>, n: nat, lets: bool)
    requires Decides(a, b, n, lets) && Decides(b, d, n, lets)
    ensures Decides(a, d, n, lets)
  {
    forall i | |a| <= i < |d| && d[i].id.Dec? ensures d[i].id.n == n && (lets ==> Lets(d[i].payload)) {
      if i < |b| {
        assert d[i] == b[i];
      }
    }
  }

  lemma {:induction false} ReloadsDecideNone(s: SessionState, reloads: seq<Payload>, n: nat)
    ensures Decides(s.log, WithReloads(s, reloads).log, n, true)
    decreases |reloads|
  {
    if reloads != [] {
      var k := s.reloadCounter + 1;
      var s1 := Append(s.(reloadCounter := k), Reload(k), None, reloads[0]);
      ReloadsDecideNone(s1, reloads[1..], n);
      DecidesTwice(s.log, s1.log, WithReloads(s, reloads).log, n, true);
    }
  }

  lemma IdentifyDecidesNone(ctx: Ctx, w: World, bearer: Option<Text>, nowMs: SignedWord, check: TokenCheck, n: nat)
    ensures Decides(w.s.log, Identify(ctx, w.s, w.a, bearer, nowMs, check).0.log, n, true)
  {
    var (a1, outcome) := Consult(w.a, bearer, nowMs, check);
    var s1 := WithReloads(w.s, a1.reloads);
    ReloadsDecideNone(w.s, a1.reloads, n);
    if outcome == Renewed {
      var s2 := WithGrant(s1, a1.generation, a1.current, ctx.host);
      assert Decides(s1.log, s2.log, n, true);
      DecidesTwice(w.s.log, s1.log, s2.log, n, true);
    }
  }

  lemma AttemptDecides(ctx: Ctx, s: SessionState, payload: Payload, v: Verdict)
    ensures Decides(s.log, Attempt(ctx, s, payload, v).log, s.counter + 1, Allowed(v))
  {
  }

  /** Counting an act, deciding on it and settling it, all after what came before. */
  lemma ActDecides(ctx: Ctx, before: seq<Entry>, s: SessionState, payload: Payload, v: Verdict, way: Way, id: MsgId)
    requires Decides(before, s.log, s.counter + 1, true)
    ensures Decides(before, Settle(Attempt(ctx, s, payload, v), way, id, Allowed(v)).0.log, s.counter + 1, Allowed(v))
  {
    var s1 := Attempt(ctx, s, payload, v);
    AttemptDecides(ctx, s, payload, v);
    DecidesTwice(before, s.log, s1.log, s.counter + 1, Allowed(v));
    DecidesTwice(before, s1.log, Settle(s1, way, id, Allowed(v)).0.log, s.counter + 1, Allowed(v));
  }

  lemma ClosedActDecides(ctx: Ctx, s: SessionState, payload: Payload, v: Verdict, status: EffectStatus)
    ensures var s1 := Attempt(ctx, s, payload, v);
      Decides(s.log, Close(s1, SlotOf(s1.counter), status, None, 0).log, s.counter + 1, false)
  {
    var s1 := Attempt(ctx, s, payload, v);
    AttemptDecides(ctx, s, payload, v);
    DecidesTwice(s.log, s1.log, Close(s1, SlotOf(s1.counter), status, None, 0).log, s.counter + 1, false);
  }

  /** A move decides at most the next act; if it makes one silent it is that one, under no id, and it lets it through. */
  predicate MoveOk(w: World, w': World) {
    var n := w.s.counter + 1;
    || (w'.t.silent == w.t.silent && w.s.counter <= w'.s.counter && Decides(w.s.log, w'.s.log, n, false))
    || (w'.s.counter == n && Decides(w.s.log, w'.s.log, n, true)
        && n in w'.t.silent && !w'.t.silent[n].Id? && w'.t.silent == w.t.silent[n := w'.t.silent[n]])
  }

  /** The act a message stands for, when it stands for one. */
  predicate StandsFor(msg: Msg, act: Act) {
    msg.verb.Some? && Classify(msg.verb.value, msg.params) == Some(act)
  }

  lemma NextActs(ctx: Ctx, w: World, move: Move, act: Act)
    requires move.AgentMessage? && StandsFor(move.msg, act)
    ensures var (s', a', f) := AgentActs(ctx, w.s, w.a, move.msg, act, move.bearer, move.nowMs, move.check);
      Next(ctx, w, move) == World(s', a', w.t.(silent := w.t.silent + Silence(w.s, s', move.msg.id, f == Pass),
                                               grants := Grants(w.t, w.a, a'), judged := Judge(w.t, w.s, s', a'.current)))
  {
  }

  lemma AgentAnswerOk(ctx: Ctx, w: World, msg: Msg, latency: Word)
    requires Good(w)
    ensures var s' := AgentAnswers(ctx, w.s, msg, latency).0;
      w.s.counter <= s'.counter && Decides(w.s.log, s'.log, w.s.counter + 1, false)
  {
    if !(msg.id.Id? && (msg.id in w.s.toAgent || msg.id in w.s.relayed)) {
      ClosedActDecides(ctx, w.s, SelfAccess(ctx, ctx.unsolicited, msg.raw), Refused(ctx, NoServerRequest), Blocked);
    }
  }

  /** A move that counted one act, and silenced it only by letting it through. */
  lemma CountedMoveOk(w: World, w': World, id: MsgId, forwarded: bool)
    requires w'.s.counter == w.s.counter + 1 && w'.t.silent == w.t.silent + Silence(w.s, w'.s, id, forwarded)
    requires Decides(w.s.log, w'.s.log, w.s.counter + 1, Silence(w.s, w'.s, id, forwarded) != map[])
    ensures MoveOk(w, w')
  {
    assert w.t.silent + map[] == w.t.silent;
  }

  lemma AnswerMoveOk(ctx: Ctx, w: World, move: Move)
    requires Good(w) && move.AgentMessage? && move.msg.verb.None?
    ensures MoveOk(w, Next(ctx, w, move))
  {
    assert w.t.silent + map[] == w.t.silent;
    assert Silence(w.s, AgentAnswers(ctx, w.s, move.msg, move.latency).0, move.msg.id, AgentAnswers(ctx, w.s, move.msg, move.latency).1 == Pass) == map[] by {
      AgentAnswerGood(ctx, w, move.msg, move.latency);
    }
    AgentAnswerOk(ctx, w, move.msg, move.latency);
  }

  lemma ActMoveOk(ctx: Ctx, w: World, move: Move, act: Act)
    requires Good(w) && move.AgentMessage? && StandsFor(move.msg, act)
    ensures MoveOk(w, Next(ctx, w, move))
  {
    NextActs(ctx, w, move, act);
    AgentActOk(ctx, w, move.msg, act, move.bearer, move.nowMs, move.check);
    var f := AgentActs(ctx, w.s, w.a, move.msg, act, move.bearer, move.nowMs, move.check).2;
    CountedMoveOk(w, Next(ctx, w, move), move.msg.id, f == Pass);
  }

  lemma AgentMoveOk(ctx: Ctx, w: World, move: Move)
    requires Good(w) && move.AgentMessage?
    ensures MoveOk(w, Next(ctx, w, move))
  {
    if move.msg.verb.None? {
      AnswerMoveOk(ctx, w, move);
    } else {
      match Classify(move.msg.verb.value, move.msg.params) {
        case None =>
          assert w.t.silent + map[] == w.t.silent;
          assert Next(ctx, w, move) == w;
        case Some(act) =>
          ActMoveOk(ctx, w, move, act);
      }
    }
  }

  lemma AgentActOk(ctx: Ctx, w: World, msg: Msg, act: Act, bearer: Option<Text>, nowMs: SignedWord, check: TokenCheck)
    requires Good(w)
    ensures var (s', a', f) := AgentActs(ctx, w.s, w.a, msg, act, bearer, nowMs, check);
      && s'.counter == w.s.counter + 1
      && Decides(w.s.log, s'.log, w.s.counter + 1, Silence(w.s, s', msg.id, f == Pass) != map[])
  {
    var (s1, a1, outcome) := Identify(ctx, w.s, w.a, bearer, nowMs, check);
    IdentifyGood(ctx, w, bearer, nowMs, check);
    IdentifyDecidesNone(ctx, w, bearer, nowMs, check, w.s.counter + 1);
    ActDecides(ctx, w.s.log, s1, ActPayload(ctx, act, msg.params), VerdictOn(ctx, act, msg.params, a1.current, outcome), ToServer, msg.id);
  }

  lemma AskMoveOk(ctx: Ctx, w: World, move: Move, cap: Option<Capability>)
    requires move.ServerMessage? && ChannelOf(move.verb) == Arbitrate(cap)
    ensures MoveOk(w, Next(ctx, w, move))
  {
    NextAsks(ctx, w, move, cap);
    ServerAskOk(ctx, w, move.said, move.verb, cap, move.atMs);
    var d := ServerAsks(ctx, w.s, w.a, move.said, move.verb, cap, move.atMs).1;
    CountedMoveOk(w, Next(ctx, w, move), move.said.id, d == Deliver);
  }

  lemma NoteMoveOk(ctx: Ctx, w: World, move: Move)
    requires move.ServerMessage? && ChannelOf(move.verb).NoteChannel?
    ensures MoveOk(w, Next(ctx, w, move))
  {
    NextNotes(ctx, w, move);
    ServerNoteOk(ctx, w, move.said, move.atMs);
  }

  lemma ServerMoveOk(ctx: Ctx, w: World, move: Move)
    requires Good(w) && move.ServerMessage?
    ensures MoveOk(w, Next(ctx, w, move))
  {
    match ChannelOf(move.verb) {
      case NoteChannel => NoteMoveOk(ctx, w, move);
      case Arbitrate(cap) => AskMoveOk(ctx, w, move, cap);
      case _ => NextRelays(ctx, w, move);
    }
  }

  lemma ServerNoteOk(ctx: Ctx, w: World, msg: Msg, nowMs: SignedWord)
    ensures var s' := ServerNotes(ctx, w.s, w.a, msg, nowMs).0;
      s'.counter == w.s.counter + 1 && Decides(w.s.log, s'.log, w.s.counter + 1, false)
  {
    var v := ServerVerdict(ctx, Some(Notify), w.a.current, nowMs);
    ClosedActDecides(ctx, w.s, SelfAccess(ctx, ctx.name(NoteMessage), msg.params.text), v, if Allowed(v) then EffectOk else Blocked);
  }

  lemma ServerAskOk(ctx: Ctx, w: World, msg: Msg, m: Method, cap: Option<Capability>, nowMs: SignedWord)
    ensures var (s', d) := ServerAsks(ctx, w.s, w.a, msg, m, cap, nowMs);
      && s'.counter == w.s.counter + 1
      && Decides(w.s.log, s'.log, w.s.counter + 1, Silence(w.s, s', msg.id, d == Deliver) != map[])
  {
    var v := ServerVerdict(ctx, cap, w.a.current, nowMs);
    ActDecides(ctx, w.s.log, w.s, SelfAccess(ctx, ctx.name(m), msg.params.text), v, ToTheAgent, msg.id);
  }

  lemma EveryMoveOk(ctx: Ctx, w: World, move: Move)
    requires Good(w)
    ensures MoveOk(w, Next(ctx, w, move))
  {
    match move {
      case AgentMessage(_, _, _, _, _) => AgentMoveOk(ctx, w, move);
      case ServerMessage(_, _, _) => ServerMoveOk(ctx, w, move);
      case ResponseTaken(_) =>
      case ResponseWritten(_, _, _) => WrittenMoveOk(ctx, w, move);
      case BearerSeen(_, _, _) => BearerMoveOk(ctx, w, move);
    }
  }

  lemma WrittenMoveOk(ctx: Ctx, w: World, move: Move)
    requires Good(w) && move.ResponseWritten?
    ensures MoveOk(w, Next(ctx, w, move))
  {
  }

  lemma BearerMoveOk(ctx: Ctx, w: World, move: Move)
    requires Good(w) && move.BearerSeen?
    ensures MoveOk(w, Next(ctx, w, move))
  {
    IdentifyGood(ctx, w, Some(move.token), move.seenMs, move.tokenCheck);
    IdentifyDecidesNone(ctx, w, Some(move.token), move.seenMs, move.tokenCheck, w.s.counter + 1);
  }

  lemma {:induction false} OccHere(log: seq<Entry>, i: nat)
    requires i < |log|
    ensures Occ(log, log[i].id) > 0
  {
    var n := |log| - 1;
    if i < n {
      OccHere(log[..n], i);
    }
  }

  lemma SilentStep(ctx: Ctx, w: World, move: Move)
    requires Good(w) && SilentOk(w)
    ensures SilentOk(Next(ctx, w, move))
  {
    var w' := Next(ctx, w, move);
    EveryMoveOk(ctx, w, move);
    forall n | n in w'.t.silent ensures 1 <= n <= w'.s.counter && !w'.t.silent[n].Id? && LetThrough(w'.s.log, n) {
      forall i | 0 <= i < |w'.s.log| && w'.s.log[i].id == Dec(n) ensures Lets(w'.s.log[i].payload) {
        if i < |w.s.log| {
          assert w'.s.log[i] == w.s.log[i];
          OccHere(w.s.log, i);
          assert BookedAt(w.s, w.t, w.s.counter, Dec(n));
        }
      }
    }
  }

  lemma {:induction false} RunSilent(ctx: Ctx, w: World, moves: seq<Move>)
    requires Good(w) && SilentOk(w)
    ensures SilentOk(Run(ctx, w, moves))
    decreases |moves|
  {
    if moves != [] {
      NextGood(ctx, w, moves[0]);
      SilentStep(ctx, w, moves[0]);
      RunSilent(ctx, Next(ctx, w, moves[0]), moves[1..]);
    }
  }

  // ------------------------------------------------- opening a session

  /** The chain-level records: the session certificate, then the deployment bundle, numbered with the reloads. */
  function WithOpening(s: SessionState, cert: Option<SessionCert>, deployment: Option<Payload>): SessionState {
    var s1 := if cert.Some? then Append(s, CertRec, None, Payload.Session(cert.value)) else s;
    var n := s.reloadCounter + 1;
    if deployment.Some? then Append(s1.(reloadCounter := n), Deployment(n), None, deployment.value) else s1
  }

  method WriteOpening(s: SessionLog.Session, cert: Option<SessionCert>, deployment: Option<Payload>)
    modifies s
    ensures s.State() == WithOpening(old(s.State()), cert, deployment)
  {
    if cert.Some? {
      s.Write(CertRec, None, Payload.Session(cert.value));
    }
    if deployment.Some? {
      s.reloadCounter := s.reloadCounter + 1;
      s.Write(Deployment(s.reloadCounter), None, deployment.value);
    }
  }

  /** What the opening writes: pending reloads, the session certificate, the deployment bundle, the delegation. */
  function Opened(ctx: Ctx, a: AuthState, cert: Option<SessionCert>, deployment: Option<Payload>): World {
    var s0 := WithReloads(SessionState([], NoRecord, map[], map[], {}, 0, 0), a.reloads);
    var n := s0.reloadCounter + 1;
    var s2 := WithOpening(s0, cert, deployment);
    World(WithGrant(s2, a.generation, a.current, ctx.host), a.(reloads := []),
          Trace(multiset{}, map[], [a.current], map[], if deployment.Some? then {n} else {}, cert.Some?))
  }

  method OpenSession(ctx: Ctx, a: AuthState, cert: Option<SessionCert>, deployment: Option<Payload>)
    returns (s: SessionLog.Session, authority: Authority)
    ensures fresh(s) && fresh(authority)
    ensures s.State() == Opened(ctx, a, cert, deployment).s && authority.State() == Opened(ctx, a, cert, deployment).a
  {
    s := new SessionLog.Session();
    authority := new Authority(a);
    var reloads := authority.TakeReloads();
    s.RecordReloads(reloads);
    WriteOpening(s, cert, deployment);
    s.RecordGrant(authority.generation, authority.current, ctx.host);
  }

  /** Before the first delegation: the books balance and nothing has been counted. */
  ghost predicate Opening(s: SessionState, t: Trace) {
    && Booked(s, t, 0) && TablesOk(s, t) && Traced(s.log, t, 0)
    && s == SessionState(s.log, NoRecord, map[], map[], {}, 0, s.reloadCounter)
    && t == Trace(multiset{}, map[], [], map[], t.deployed, t.certified)
  }

  lemma OneMore(s: SessionState, t: Trace, e: Entry, s': SessionState, t': Trace)
    requires Opening(s, t) && e.parent == None
    requires s' == s.(log := s.log + [e], reloadCounter := s'.reloadCounter)
    requires (e.id == CertRec && !t.certified && t' == t.(certified := true) && s'.reloadCounter == s.reloadCounter)
          || (s'.reloadCounter == s.reloadCounter + 1 && e.id == Deployment(s'.reloadCounter)
              && t' == t.(deployed := t.deployed + {s'.reloadCounter}))
    ensures Opening(s', t')
  {
    forall id ensures BookedAt(s', t', 0, id) {
      assert BookedAt(s, t, 0, id);
      OccAppend(s.log, [e], id);
      OccOne(e, id);
    }
    TracedGrows(s.log, t, 0, t', 0);
    TracedAppend(s.log, [e], t', 0);
  }

  lemma OpenReloads(reloads: seq<Payload>)
    ensures Opening(WithReloads(SessionState([], NoRecord, map[], map[], {}, 0, 0), reloads), Trace(multiset{}, map[], [], map[], {}, false))
  {
    var empty := SessionState([], NoRecord, map[], map[], {}, 0, 0);
    var t := Trace(multiset{}, map[], [], map[], {}, false);
    forall id ensures BookedAt(empty, t, 0, id) {
      if id.Eff? {
        SlotsBound(empty.pending, id.n);
      }
    }
    ReloadBooks(empty, t, reloads);
    ReloadsTraced(empty, t, reloads);
  }

  lemma OpenGrant(s: SessionState, t: Trace, a: AuthState, host: Host)
    requires Opening(s, t) && a.generation == 1
    ensures Good(World(WithGrant(s, 1, a.current, host), a, t.(grants := [a.current])))
  {
    RenewGood(s, a, t, host);
    assert [] + [a.current] == [a.current];
  }

  lemma CertOpens(s: SessionState, t: Trace, cert: Option<SessionCert>)
    requires Opening(s, t) && !t.certified
    ensures Opening(if cert.Some? then Append(s, CertRec, None, Payload.Session(cert.value)) else s, t.(certified := cert.Some?))
  {
    if cert.Some? {
      var e := Entry(CertRec, None, Payload.Session(cert.value));
      OneMore(s, t, e, s.(log := s.log + [e]), t.(certified := true));
    }
  }

  lemma DeploymentOpens(s: SessionState, t: Trace, deployment: Option<Payload>)
    requires Opening(s, t) && t.deployed == {}
    ensures var n := s.reloadCounter + 1;
      Opening(if deployment.Some? then Append(s.(reloadCounter := n), Deployment(n), None, deployment.value) else s,
              t.(deployed := if deployment.Some? then {n} else {}))
  {
    if deployment.Some? {
      var n := s.reloadCounter + 1;
      var e := Entry(Deployment(n), None, deployment.value);
      assert t.deployed + {n} == {n};
      OneMore(s, t, e, s.(log := s.log + [e], reloadCounter := n), t.(deployed := {n}));
    }
  }

  lemma OpeningOpens(s: SessionState, t: Trace, cert: Option<SessionCert>, deployment: Option<Payload>)
    requires Opening(s, t) && !t.certified && t.deployed == {}
    ensures Opening(WithOpening(s, cert, deployment),
                    t.(certified := cert.Some?, deployed := if deployment.Some? then {s.reloadCounter + 1} else {}))
  {
    CertOpens(s, t, cert);
    DeploymentOpens(if cert.Some? then Append(s, CertRec, None, Payload.Session(cert.value)) else s, t.(certified := cert.Some?), deployment);
  }

  /** A session opens in good order. */
  lemma OpenedGood(ctx: Ctx, a: AuthState, cert: Option<SessionCert>, deployment: Option<Payload>)
    requires a.generation == 1
    ensures Good(Opened(ctx, a, cert, deployment))
  {
    var s0 := WithReloads(SessionState([], NoRecord, map[], map[], {}, 0, 0), a.reloads);
    var t0 := Trace(multiset{}, map[], [], map[], {}, false);
    OpenReloads(a.reloads);
    OpeningOpens(s0, t0, cert, deployment);
    OpenGrant(WithOpening(s0, cert, deployment),
              t0.(certified := cert.Some?, deployed := if deployment.Some? then {s0.reloadCounter + 1} else {}),
              a.(reloads := []), ctx.host);
  }

  // ------------------------------------------------- what holds in every run

  /** The world after any moves of any session. */
  function After(ctx: Ctx, a: AuthState, cert: Option<SessionCert>, deployment: Option<Payload>, moves: seq<Move>): World {
    Run(ctx, Opened(ctx, a, cert, deployment), moves)
  }

  lemma AfterGood(ctx: Ctx, a: AuthState, cert: Option<SessionCert>, deployment: Option<Payload>, moves: seq<Move>)
    requires a.generation == 1
    ensures Good(After(ctx, a, cert, deployment, moves))
  {
    OpenedGood(ctx, a, cert, deployment);
    RunGood(ctx, Opened(ctx, a, cert, deployment), moves);
  }

  /** A call hangs under an agent session, its decision under the call, its effect under the decision. */
  predicate ChainedAt(e: Entry, n: nat) {
    && (e.id == Call(n) ==> e.parent.Some? && e.parent.value.Agent?)
    && (e.id == Dec(n) ==> e.parent == Some(Call(n)) && e.payload.Decision?)
    && (e.id == Eff(n) ==> e.parent == Some(Dec(n)) && e.payload.Effect?)
  }

  predicate Chained(log: seq<Entry>, n: nat) {
    forall i :: 0 <= i < |log| ==> ChainedAt(log[i], n)
  }

  /** In every run, each counted act has exactly one call and one decision, and its effect is in exactly one place,
      once: written, reserved in one of the two tables, held by a response between its locks, or never due. The three
      hang under one another, and an effect is never due only for an act that was let through with no id to answer under. */
  lemma OneFateEach(ctx: Ctx, a: AuthState, cert: Option<SessionCert>, deployment: Option<Payload>, moves: seq<Move>, n: nat)
    requires a.generation == 1
    ensures var w := After(ctx, a, cert, deployment, moves);
      1 <= n <= w.s.counter ==>
        && Occ(w.s.log, Call(n)) == 1 && Occ(w.s.log, Dec(n)) == 1
        && Occ(w.s.log, Eff(n)) + SlotsIn(w.s.pending, n) + SlotsIn(w.s.toAgent, n) + w.t.held[SlotOf(n)]
           + (if n in w.t.silent then 1 else 0) == 1
        && Chained(w.s.log, n)
        && (n in w.t.silent ==> !w.t.silent[n].Id? && LetThrough(w.s.log, n))
  {
    var w := After(ctx, a, cert, deployment, moves);
    AfterGood(ctx, a, cert, deployment, moves);
    OpenedGood(ctx, a, cert, deployment);
    RunSilent(ctx, Opened(ctx, a, cert, deployment), moves);
    assert BookedAt(w.s, w.t, w.s.counter, Call(n)) && BookedAt(w.s, w.t, w.s.counter, Dec(n));
    assert BookedAt(w.s, w.t, w.s.counter, Eff(n));
    forall i | 0 <= i < |w.s.log| ensures ChainedAt(w.s.log[i], n) {
      assert EntryOk(w.t, w.s.counter, w.s.log[i]);
    }
  }

  /** No two records of a session share an identifier, whatever order the responses came back in. */
  lemma IdsUnique(ctx: Ctx, a: AuthState, cert: Option<SessionCert>, deployment: Option<Payload>, moves: seq<Move>, id: RecordId)
    requires a.generation == 1
    ensures Occ(After(ctx, a, cert, deployment, moves).s.log, id) <= 1
  {
    var w := After(ctx, a, cert, deployment, moves);
    AfterGood(ctx, a, cert, deployment, moves);
    assert BookedAt(w.s, w.t, w.s.counter, id);
  }

  lemma {:induction false} OccFinds(log: seq<Entry>, id: RecordId) returns (i: nat)
    requires Occ(log, id) > 0
    ensures i < |log| && log[i].id == id
  {
    var n := |log| - 1;
    if log[n].id == id {
      i := n;
    } else {
      i := OccFinds(log[..n], id);
    }
  }

  /** The records of one generation are there and chained. */
  predicate Climbs(log: seq<Entry>, g: nat, grant: Grant, session: nat, actor: nat, delegation: nat) {
    && session < |log| && log[session].id == Agent(g) && log[session].parent == Some(ActorRec(g))
    && actor < |log| && log[actor].id == ActorRec(g) && log[actor].parent == Some(Deleg(g))
    && log[actor].payload == Actor(grant.actorChain, grant.kind)
    && delegation < |log| && log[delegation].id == Deleg(g) && log[delegation].payload
         == Delegation(grant.subject, grant.issuer, grant.scopes, grant.expiresAtMs, None, Implicit)
  }

  lemma FindRecord(w: World, id: RecordId) returns (i: nat)
    requires Good(w) && Due(w.s, w.t, w.s.counter, id) > 0
    ensures i < |w.s.log| && w.s.log[i].id == id && EntryOk(w.t, w.s.counter, w.s.log[i])
  {
    assert BookedAt(w.s, w.t, w.s.counter, id);
    i := OccFinds(w.s.log, id);
  }

  lemma GenerationClimbs(w: World, g: nat) returns (session: nat, actor: nat, delegation: nat)
    requires Good(w) && 1 <= g <= |w.t.grants|
    ensures Climbs(w.s.log, g, w.t.grants[g - 1], session, actor, delegation)
  {
    session := FindRecord(w, Agent(g));
    actor := FindRecord(w, ActorRec(g));
    delegation := FindRecord(w, Deleg(g));
  }

  /** Attribution. In every run, between any two moves, the next act would attach to the agent session of the current
      generation; and climbing from any recorded act one reaches, by way of that act's own agent session and actor
      records, the delegation record of exactly the grant its verdict was reached under. */
  lemma Attribution(ctx: Ctx, a: AuthState, cert: Option<SessionCert>, deployment: Option<Payload>, moves: seq<Move>, i: nat)
    returns (g: nat, session: nat, actor: nat, delegation: nat)
    requires a.generation == 1
    requires var log := After(ctx, a, cert, deployment, moves).s.log; i < |log| && log[i].id.Call?
    ensures var w := After(ctx, a, cert, deployment, moves); var log, n := w.s.log, w.s.log[i].id.n;
      && w.s.agent == Agent(w.a.generation)
      && n in w.t.judged && 1 <= g <= w.a.generation && log[i].parent == Some(Agent(g))
      && Climbs(log, g, w.t.judged[n], session, actor, delegation)
  {
    var w := After(ctx, a, cert, deployment, moves);
    AfterGood(ctx, a, cert, deployment, moves);
    assert EntryOk(w.t, w.s.counter, w.s.log[i]);
    g := w.s.log[i].parent.value.g;
    session, actor, delegation := GenerationClimbs(w, g);
  }

  /** Generations are counted by what is in the log: exactly one delegation, actor and agent session record for each
      generation up to the current one, none beyond. */
  lemma GenerationsRecorded(ctx: Ctx, a: AuthState, cert: Option<SessionCert>, deployment: Option<Payload>, moves: seq<Move>, g: nat)
    requires a.generation == 1
    ensures var w := After(ctx, a, cert, deployment, moves);
      Occ(w.s.log, Deleg(g)) == Occ(w.s.log, ActorRec(g)) == Occ(w.s.log, Agent(g)) == Within(g, w.a.generation)
  {
    var w := After(ctx, a, cert, deployment, moves);
    AfterGood(ctx, a, cert, deployment, moves);
    assert BookedAt(w.s, w.t, w.s.counter, Agent(g)) && BookedAt(w.s, w.t, w.s.counter, ActorRec(g));
    assert BookedAt(w.s, w.t, w.s.counter, Deleg(g));
  }

  // ------------------------------------------------- what one move may do

  /** An agent's message never touches the slots awaiting the server: it can only add its own. */
  lemma AgentNeverClosesServerSide(ctx: Ctx, w: World, move: Move)
    requires Good(w) && move.AgentMessage?
    ensures var w' := Next(ctx, w, move);
      && (forall k :: k in w.s.pending ==> k in w'.s.pending && w'.s.pending[k] == w.s.pending[k])
      && w'.t.held == w.t.held
      && (forall k :: k in w.s.toAgent && k != move.msg.id ==> k in w'.s.toAgent && w'.s.toAgent[k] == w.s.toAgent[k])
  {
    if move.msg.verb.Some? {
      match Classify(move.msg.verb.value, move.msg.params) {
        case None =>
        case Some(act) =>
          NextActs(ctx, w, move, act);
          ActTables(ctx, w, move.msg, act, move.bearer, move.nowMs, move.check);
      }
    }
  }

  lemma ActTables(ctx: Ctx, w: World, msg: Msg, act: Act, bearer: Option<Text>, nowMs: SignedWord, check: TokenCheck)
    requires Good(w)
    ensures var s' := AgentActs(ctx, w.s, w.a, msg, act, bearer, nowMs, check).0;
      && s'.toAgent == w.s.toAgent
      && forall k :: k in w.s.pending ==> k in s'.pending && s'.pending[k] == w.s.pending[k]
  {
    IdentifyTables(ctx, w, bearer, nowMs, check);
  }

  lemma IdentifyTables(ctx: Ctx, w: World, bearer: Option<Text>, nowMs: SignedWord, check: TokenCheck)
    requires Good(w)
    ensures var (s', _, _) := Identify(ctx, w.s, w.a, bearer, nowMs, check);
      s'.pending == w.s.pending && s'.toAgent == w.s.toAgent && s'.relayed == w.s.relayed && s'.counter == w.s.counter
  {
    var (a1, _) := Consult(w.a, bearer, nowMs, check);
    ReloadBooks(w.s, w.t, a1.reloads);
  }

  /** Nor does anything the server says touch a slot awaiting either side, except to add its own. */
  lemma ServerClosesNothing(ctx: Ctx, w: World, move: Move)
    requires move.ServerMessage?
    ensures var w' := Next(ctx, w, move);
      && w'.s.pending == w.s.pending
      && forall k :: k in w.s.toAgent ==> k in w'.s.toAgent && w'.s.toAgent[k] == w.s.toAgent[k]
  {
  }

  /** A response from the server takes the slot reserved under its own id; once taken, it closes that act and no other,
      with the outcome and the hash of what came back. */
  lemma ResponseClosesItsOwn(ctx: Ctx, w: World, move: Move)
    requires move.ResponseTaken? || move.ResponseWritten?
    ensures var w' := Next(ctx, w, move);
      && w'.s.toAgent == w.s.toAgent
      && w'.s.pending == (if move.ResponseTaken? then w.s.pending - {move.answer.id} else w.s.pending)
      && w'.s.log == if move.ResponseWritten? && move.slot in w.t.held
                     then w.s.log + [Entry(move.slot.effect, Some(move.slot.decision), Answered(ctx, move.response, move.took))]
                     else w.s.log
  {
  }

  /** What the effect of an answered act records. */
  function Answered(ctx: Ctx, msg: Msg, latency: Word): Payload {
    var failed := msg.error || (msg.result.Some? && msg.toolError);
    Effect(if failed then EffectError else EffectOk, HashOf(ctx, msg.result), latency)
  }

  // ------------------------------------------------- nothing crosses unrecorded

  /** What the agent sends reaches the server only as machinery, as the answer to a request in flight, or as an act that
      a grant in force authorizes and the engine permits, whose call and allowing decision are the last two records
      written. What does not reach it leaves a blocked effect as the last record. */
  lemma NothingCrossesUnrecorded(ctx: Ctx, w: World, msg: Msg, bearer: Option<Text>, nowMs: SignedWord, check: TokenCheck, latency: Word)
    ensures var (s', a', f) := FromAgent(ctx, w.s, w.a, msg, bearer, nowMs, check, latency); var n := |s'.log|;
      && (f == Pass ==>
           || (msg.verb.Some? && msg.verb.value in RELAYED_UP)
           || (msg.verb.None? && msg.id.Id? && (msg.id in w.s.toAgent || msg.id in w.s.relayed))
           || (msg.verb.Some? && Authorizes(w.a, bearer, nowMs, check, a'.current) && Admitted(ctx, s', msg, a'.current)))
      && (f == Reply ==> n > 0 && s'.log[n - 1] == Entry(Eff(s'.counter), Some(Dec(s'.counter)), Effect(Blocked, None, 0)))
  {
    if msg.verb.None? {
      AnswerDecided(ctx, w.s, msg, latency);
    } else if msg.verb.value !in RELAYED_UP {
      ActDecided(ctx, w.s, w.a, msg, bearer, nowMs, check, latency);
    }
  }

  /** The engine permits exactly this message under the grant, and the log ends in its call and that verdict. */
  predicate Admitted(ctx: Ctx, s: SessionState, msg: Msg, g: Grant)
    requires msg.verb.Some?
  {
    var q, n := AskedOf(msg.verb.value, msg.params, g), |s.log|;
    && q.Some? && n >= 2 && Lets(s.log[n - 1].payload)
    && s.log[n - 2] == Entry(Call(s.counter), Some(s.agent), CallOf(ctx, msg.verb.value, msg.params, q))
    && s.log[n - 1].id == Dec(s.counter) && s.log[n - 1].parent == Some(Call(s.counter))
    && s.log[n - 1].payload.outcome == ctx.engine(q.value).outcome && s.log[n - 1].payload.policyId == ctx.engine(q.value).policyId
  }
}
