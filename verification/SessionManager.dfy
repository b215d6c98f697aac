/**
  core/session/manager.go, command by command, over a Redis whose state other operations
  may change between any two commands.
  */
module SessionManager {
  import opened Wrappers
  import opened SessionStore

  datatype Reply = Found(user: UserId) | Nil | Failed

  /** -2 for a missing key and -1 for one without expiry, as the client passes them through;
      otherwise the remaining time rounded to whole seconds, in ms. */
  function Ttl(s: Store, key: Sid): int {
    if !Live(s, key) then -2
    else if s.entries[key].deadline.None? then -1
    else (s.entries[key].deadline.value - s.now + 500) / 1000 * 1000
  }

  /** The machine after the command at t's program counter: `applied` says whether Redis ran it,
      `ok` whether the caller was told so.  A failure ends the operation, except that Sync
      ignores the outcome of SREM. */
  ghost function Outcome(m: Machine, t: Tid, applied: bool, ok: bool): Machine
    requires t in m.ops && Writes(m.ops[t])
  {
    if ok || (applied && m.ops[t].Removing?) then Do(m, LApply(t))
    else if m.ops[t].Removing? then Do(m, LMove(t, Pruning(m.ops[t].u, m.ops[t].todo)))
    else if applied && After(m.ops[t]).Some? then Do(Do(m, LApply(t)), LStop(t))
    else if applied then Do(m, LApply(t))
    else Do(m, LStop(t))
  }

  ghost predicate Keeps(m: Machine, m': Machine) {
    Bound(m') && Evolves(m, m') && (Indexed(m) ==> Indexed(m'))
  }

  lemma OutcomeKeeps(m: Machine, t: Tid, applied: bool, ok: bool)
    requires Bound(m) && t in m.ops && Writes(m.ops[t])
    ensures Keeps(m, Outcome(m, t, applied, ok))
  {
    if m.ops[t].Removing? {
      ApplyKeeps(m, t);
      StepKeeps(m, LMove(t, Pruning(m.ops[t].u, m.ops[t].todo)));
    } else {
      ApplyKeeps(m, t);
      StepKeeps(m, LStop(t));
    }
  }

  lemma StepKeeps(m: Machine, l: Label)
    requires Bound(m) && Allowed(m, l) && !ScansInWindow(m, l)
    ensures Keeps(m, Do(m, l))
  {
    StepKeepsAll(m, l);
  }

  lemma ApplyKeeps(m: Machine, t: Tid)
    requires Bound(m) && t in m.ops && Writes(m.ops[t])
    ensures Keeps(m, Do(m, LApply(t)))
    ensures After(m.ops[t]).Some? ==> Keeps(m, Do(Do(m, LApply(t)), LStop(t)))
  {
    var m1 := Do(m, LApply(t));
    StepKeeps(m, LApply(t));
    if After(m.ops[t]).Some? {
      var m2 := Do(m1, LStop(t));
      StepKeeps(m1, LStop(t));
      EvolvesOn(m, m1, m2);
    }
  }

  lemma EvolvesOwners(m: Machine, m': Machine)
    requires Evolves(m, m')
    ensures m.owner.Keys <= m'.owner.Keys
    ensures forall sid :: sid in m.owner ==> m'.owner[sid] == m.owner[sid]
  {
  }

  lemma EvolvesOn(m: Machine, m': Machine, m'': Machine)
    requires Evolves(m, m') && Evolves(m', m'')
    ensures Evolves(m, m'')
  {
  }

  /** KSUIDs are written in base 62. */
  predicate IsToken(s: string) {
    s != "" && forall i :: 0 <= i < |s| ==> '0' <= s[i] <= '9' || 'A' <= s[i] <= 'Z' || 'a' <= s[i] <= 'z'
  }

  lemma FreshSidExists(used: set<Sid>) returns (sid: Sid)
    ensures IsToken(sid) && sid !in used
  {
    var n := LongestLength(used);
    sid := seq(n + 1, _ => 'k');
  }

  lemma {:induction false} LongestLength(used: set<Sid>) returns (n: nat)
    ensures forall x :: x in used ==> |x| <= n
  {
    if used == {} {
      n := 0;
    } else {
      var x :| x in used;
      n := LongestLength(used - {x});
      n := if n < |x| then |x| else n;
    }
  }

  /** From `m0` to `m`, thread `t` has worked on nothing but `u`; the rest is other threads. */
  ghost predicate Track(t: Tid, mine: set<UserId>, u: UserId, m0: Machine, m: Machine) {
    && Bound(m)
    && Evolves(m0, m)
    && (forall v :: v in mine ==> Alone(m, t, v))
    && (forall v :: v in mine && v != u ==> Quiet(m0, m, v))
  }

  lemma TrackStart(t: Tid, mine: set<UserId>, u: UserId, m: Machine)
    requires Bound(m) && forall v :: v in mine ==> Alone(m, t, v)
    ensures Track(t, mine, u, m, m)
  {
  }

  lemma TrackBegin(t: Tid, mine: set<UserId>, u: UserId, m0: Machine, m: Machine)
    requires Track(t, mine, u, m0, m)
    ensures (forall v :: v in mine ==> Alone(m, t, v)) && Evolves(m0, m)
  {
  }

  /** A set's members in some order, each once. */
  method Walk(members: set<Sid>) returns (sids: seq<Sid>)
    ensures forall sid :: sid in sids <==> sid in members
    ensures forall i, j :: 0 <= i < j < |sids| ==> sids[i] != sids[j]
  {
    var rest := members;
    sids := [];
    while rest != {}
      invariant forall sid :: sid in members <==> sid in sids || sid in rest
      invariant forall i :: 0 <= i < |sids| ==> sids[i] !in rest
      invariant forall i, j :: 0 <= i < j < |sids| ==> sids[i] != sids[j]
      decreases rest
    {
      var sid :| sid in rest;
      sids, rest := sids + [sid], rest - {sid};
    }
  }

  lemma ElsewhereGives(t: Tid, mine: set<UserId>, m: Machine, m': Machine)
    requires Elsewhere(t, mine, m, m')
    ensures Evolves(m, m') && (t in m.ops <==> t in m'.ops)
    ensures forall v :: v in mine ==> Alone(m', t, v)
  {
  }

  lemma TrackElsewhere(t: Tid, mine: set<UserId>, u: UserId, m0: Machine, m: Machine, m': Machine)
    requires Track(t, mine, u, m0, m) && Elsewhere(t, mine, m, m') && Bound(m')
    ensures Track(t, mine, u, m0, m') && Evolves(m, m')
    ensures (t in m.ops <==> t in m'.ops) && (t in m.ops ==> m'.ops[t] == m.ops[t])
    ensures u in mine ==> Members(m'.store, u) == Members(m.store, u)
  {
    EvolvesOn(m0, m, m');
    forall v | v in mine && v != u ensures Quiet(m0, m', v) {
      assert Quiet(m0, m, v) && Quiet(m, m', v);
    }
  }

  lemma TrackStep(t: Tid, mine: set<UserId>, u: UserId, m0: Machine, m: Machine, l: Label)
    requires Track(t, mine, u, m0, m) && Allowed(m, l)
    requires match l case LTick(_) => false case LBegin(x, pc) => x == t case LMove(x, _) => x == t
                     case LApply(x) => x == t && m.ops[t].u == u case LStop(x) => x == t
    ensures Track(t, mine, u, m0, Do(m, l))
  {
    var m' := Do(m, l);
    StepKeepsAll(m, l);
    EvolvesOn(m0, m, m');
    if l.LApply? {
      assert PcFits(m, m.ops[t]);
    }
    forall v | v in mine && v != u ensures Quiet(m0, m', v) {
      assert Quiet(m0, m, v) && Quiet(m, m', v);
    }
  }

  lemma TrackOutcome(t: Tid, mine: set<UserId>, u: UserId, m0: Machine, m: Machine, applied: bool, ok: bool)
    requires Track(t, mine, u, m0, m) && t in m.ops && Writes(m.ops[t]) && m.ops[t].u == u
    ensures Track(t, mine, u, m0, Outcome(m, t, applied, ok))
  {
    TrackStep(t, mine, u, m0, m, LApply(t));
    TrackStep(t, mine, u, m0, m, LStop(t));
    if m.ops[t].Removing? {
      TrackStep(t, mine, u, m0, m, LMove(t, Pruning(u, m.ops[t].todo)));
    } else if After(m.ops[t]).Some? {
      TrackStep(t, mine, u, m0, Do(m, LApply(t)), LStop(t));
    }
  }

  /** Others run from `m1` to `m2`, then t's command: the operation is still on track. */
  lemma Commanded(t: Tid, mine: set<UserId>, u: UserId, m0: Machine, m1: Machine, m2: Machine, applied: bool, ok: bool)
    requires Track(t, mine, u, m0, m1) && Bound(m2) && Elsewhere(t, mine, m1, m2)
    requires t in m1.ops && Writes(m1.ops[t]) && m1.ops[t].u == u
    ensures t in m2.ops && m2.ops[t] == m1.ops[t]
    ensures Track(t, mine, u, m0, Outcome(m2, t, applied, ok))
    ensures Indexed(m2) ==> Indexed(Outcome(m2, t, applied, ok))
    ensures Evolves(m1, Outcome(m2, t, applied, ok))
    ensures u in mine ==> Members(m2.store, u) == Members(m1.store, u)
  {
    TrackElsewhere(t, mine, u, m0, m1, m2);
    TrackOutcome(t, mine, u, m0, m2, applied, ok);
    OutcomeKeeps(m2, t, applied, ok);
    EvolvesOn(m1, m2, Outcome(m2, t, applied, ok));
    assert u in mine ==> Quiet(m1, m2, u);
  }

  lemma SetOutcome(m: Machine, t: Tid, applied: bool, ok: bool)
    requires Bound(m) && t in m.ops && m.ops[t].Setting? && (ok ==> applied)
    ensures
      var m' := Outcome(m, t, applied, ok);
      var pc := m.ops[t];
      && m'.store == (if applied then SetKey(m.store, pc.sid, pc.u, pc.expiry) else m.store) && m'.owner == m.owner
      && t !in m'.ops && Owns(m', pc.u, pc.sid)
  {
    assert PcFits(m, m.ops[t]);
  }

  lemma DelOutcome(m: Machine, t: Tid, applied: bool, ok: bool)
    requires Bound(m) && t in m.ops && (m.ops[t].Deleting? || m.ops[t].Renewing?) && (ok ==> applied)
    ensures
      var m' := Outcome(m, t, applied, ok);
      && m'.store == (if applied then Del(m.store, m.ops[t].sid) else m.store) && m'.owner == m.owner
      && (ok ==> t in m'.ops && m'.ops[t] == After(m.ops[t]).value)
      && (ok ==> Owns(m', m.ops[t].u, m.ops[t].sid) && Retired(m', m.ops[t].sid))
      && (!ok ==> t !in m'.ops)
  {
    assert PcFits(m, m.ops[t]);
    if ok {
      PendingIsFresh(m, LApply(t));
    }
  }

  lemma SRemOutcome(m: Machine, t: Tid, applied: bool, ok: bool)
    requires Bound(m) && t in m.ops && (m.ops[t].Removing? || m.ops[t].Unlisting?) && (ok ==> applied)
    ensures
      var m' := Outcome(m, t, applied, ok);
      && m'.store == (if applied then SRem(m.store, m.ops[t].u, m.ops[t].sid) else m.store) && m'.owner == m.owner
      && (ok || m.ops[t].Removing? ==> t in m'.ops && m'.ops[t] == After(m.ops[t]).value)
      && (!ok && m.ops[t].Unlisting? ==> t !in m'.ops)
  {
  }

  /** While `t` alone works on u, a member of u's set that is live now was live before. */
  lemma MemberWasLive(t: Tid, u: UserId, m: Machine, m': Machine, sid: Sid)
    requires Bound(m) && Alone(m, t, u) && (t in m.ops ==> m.ops[t].Scanning?)
    requires Evolves(m, m') && sid in Members(m.store, u) && Live(m'.store, sid)
    ensures Live(m.store, sid)
  {
    assert Owns(m, u, sid);
    assert forall x :: x in m.ops ==> PcFits(m, m.ops[x]);
  }

  lemma TrackCompose(t: Tid, mine: set<UserId>, u: UserId, m0: Machine, m1: Machine, m2: Machine)
    requires Track(t, mine, u, m0, m1) && Track(t, mine, u, m1, m2)
    ensures Track(t, mine, u, m0, m2)
  {
    EvolvesOn(m0, m1, m2);
    forall v | v in mine && v != u ensures Quiet(m0, m2, v) {
      assert Quiet(m0, m1, v) && Quiet(m1, m2, v);
    }
  }

  /** A member that Sync, alone on u, finds without a key never comes back. */
  lemma GoneIsRetired(m: Machine, t: Tid, u: UserId, sid: Sid)
    requires Bound(m) && Alone(m, t, u) && t in m.ops
    requires m.ops[t].Pruning? && m.ops[t].u == u && sid in m.ops[t].todo && !Live(m.store, sid)
    ensures Retired(m, sid)
  {
    assert PcFits(m, m.ops[t]);
    assert forall x :: x in m.ops ==> PcFits(m, m.ops[x]);
  }

  lemma RetiredAreDead(m: Machine)
    ensures forall sid :: Retired(m, sid) ==> !Live(m.store, sid)
  {
  }

  /** The sid has a key of a user in `mine` that does not expire before `until`. */
  predicate Held(m: Machine, mine: set<UserId>, sid: Sid, until: int) {
    && sid in m.store.entries && m.store.entries[sid].user in mine
    && (m.store.entries[sid].deadline.None? || until < m.store.entries[sid].deadline.value)
  }

  /** What other operations do leaves such a key alone. */
  lemma HeldElsewhere(t: Tid, mine: set<UserId>, m: Machine, m': Machine, sid: Sid, until: int)
    requires Bound(m) && Elsewhere(t, mine, m, m') && Held(m, mine, sid, until)
    ensures Held(m', mine, sid, until) && m'.store.entries[sid] == m.store.entries[sid]
    ensures m'.store.now <= until ==> Live(m'.store, sid)
  {
    var u := m.store.entries[sid].user;
    assert Owns(m, u, sid) && Quiet(m, m', u);
  }

  lemma HeldOn(t: Tid, mine: set<UserId>, m: Machine, m': Machine, sid: Sid)
    requires Bound(m) && Elsewhere(t, mine, m, m')
    ensures forall until :: Held(m, mine, sid, until) ==> Held(m', mine, sid, until)
    ensures sid in m.store.entries && m.store.entries[sid].user in mine
      ==> sid in m'.store.entries && m'.store.entries[sid] == m.store.entries[sid]
  {
    if sid in m.store.entries && m.store.entries[sid].user in mine {
      assert Owns(m, m.store.entries[sid].user, sid) && Quiet(m, m', m.store.entries[sid].user);
    }
  }

  /** A sid found live was not retired earlier. */
  lemma NotRetiredBefore(m: Machine, m': Machine, sid: Sid)
    requires Evolves(m, m') && Live(m'.store, sid)
    ensures !Retired(m, sid)
  {
  }

  lemma RetiredStay(m: Machine, m': Machine)
    requires Evolves(m, m')
    ensures forall sid :: Retired(m, sid) ==> Retired(m', sid)
  {
  }

  /** An SREM that was sent: whether Redis ran it, and whether the sender was told so. */
  datatype Removal = Removal(u: UserId, sid: Sid, applied: bool, ok: bool)

  function Tried(log: seq<Removal>): set<Sid> {
    set r | r in log :: r.sid
  }

  function Removed(log: seq<Removal>): set<Sid> {
    set r | r in log && r.applied :: r.sid
  }

  /** No SREM was answered with an error. */
  predicate AllAnswered(log: seq<Removal>) {
    forall r :: r in log ==> r.ok
  }

  /** The SREMs in the log account for u's set: each was sent once, for a member that is dead, and
      the set has lost exactly the members whose SREM Redis ran. */
  ghost predicate Swept(s: Store, s': Store, u: UserId, log: seq<Removal>) {
    && Members(s', u) == Members(s, u) - Removed(log)
    && (forall r :: r in log ==> r.u == u && r.sid in Members(s, u) && !Live(s', r.sid) && (r.ok ==> r.applied))
    && (forall i, j :: 0 <= i < j < |log| ==> log[i].sid != log[j].sid)
  }

  /** What a successful Sync alone on u leaves: an SREM was sent for every member dead before it. */
  ghost predicate Synced(s: Store, s': Store, u: UserId, log: seq<Removal>) {
    && Swept(s, s', u, log)
    && (forall sid :: sid in Members(s, u) && !Live(s, sid) ==> sid in Tried(log))
  }

  /** Sync's progress after the first `i` members. */
  ghost predicate SyncedUpTo(m0: Machine, m: Machine, u: UserId, sids: seq<Sid>, i: nat, log: seq<Removal>)
    requires i <= |sids|
  {
    && Members(m.store, u) == Members(m0.store, u) - Removed(log)
    && (forall r :: r in log ==> r.u == u && r.sid in sids[..i] && Retired(m, r.sid) && (r.ok ==> r.applied))
    && (forall j, k :: 0 <= j < k < |log| ==> log[j].sid != log[k].sid)
    && (forall k :: 0 <= k < i ==> sids[k] in Tried(log) || Live(m0.store, sids[k]))
  }

  lemma SyncStarts(m0: Machine, m: Machine, u: UserId, sids: seq<Sid>)
    requires Members(m.store, u) == Members(m0.store, u)
    ensures Swept(m0.store, m.store, u, []) && SyncedUpTo(m0, m, u, sids, 0, [])
  {
  }

  lemma SyncEnds(m0: Machine, m: Machine, u: UserId, sids: seq<Sid>, i: nat, log: seq<Removal>)
    requires i <= |sids| && SyncedUpTo(m0, m, u, sids, i, log)
    requires forall sid :: sid in sids <==> sid in Members(m0.store, u)
    ensures Swept(m0.store, m.store, u, log)
    ensures i == |sids| ==> Synced(m0.store, m.store, u, log)
  {
    RetiredAreDead(m);
    assert forall sid :: sid in sids[..i] ==> sid in sids;
  }

  /** What one turn of Sync's loop does about the member `sid`: an SREM is sent if and only if the
      GET found no key. */
  ghost predicate Turned(m: Machine, m': Machine, u: UserId, sid: Sid, sent: seq<Removal>, ok: bool) {
    && Members(m'.store, u) == Members(m.store, u) - Removed(sent)
    && |sent| <= 1
    && (sent != [] ==> ok && sent[0].u == u && sent[0].sid == sid && Retired(m', sid) && (sent[0].ok ==> sent[0].applied))
    && (sent == [] && ok ==> Live(m'.store, sid))
  }

  lemma SyncTurn(t: Tid, u: UserId, m0: Machine, m: Machine, m': Machine, sids: seq<Sid>, i: nat,
                 log: seq<Removal>, sent: seq<Removal>, ok: bool)
    requires i < |sids| && SyncedUpTo(m0, m, u, sids, i, log)
    requires Bound(m0) && Alone(m0, t, u) && (t in m0.ops ==> m0.ops[t].Scanning?)
    requires Evolves(m, m') && Evolves(m0, m')
    requires forall j, k :: 0 <= j < k < |sids| ==> sids[j] != sids[k]
    requires forall sid :: sid in sids <==> sid in Members(m0.store, u)
    requires Turned(m, m', u, sids[i], sent, ok)
    ensures SyncedUpTo(m0, m', u, sids, if ok then i + 1 else i, log + sent)
  {
    RetiredStay(m, m');
    assert sids[i] in sids;
    if Live(m'.store, sids[i]) {
      MemberWasLive(t, u, m0, m', sids[i]);
    }
    TurnLogged(sids, i, log, sent);
    hide Evolves, Bound, Retired, Live;
  }

  lemma TurnLogged(sids: seq<Sid>, i: nat, log: seq<Removal>, sent: seq<Removal>)
    requires i < |sids| && forall j, k :: 0 <= j < k < |sids| ==> sids[j] != sids[k]
    requires forall r :: r in log ==> r.sid in sids[..i]
    requires forall j, k :: 0 <= j < k < |log| ==> log[j].sid != log[k].sid
    requires |sent| <= 1 && (sent != [] ==> sent[0].sid == sids[i])
    ensures Removed(log + sent) == Removed(log) + Removed(sent) && Tried(log + sent) == Tried(log) + Tried(sent)
    ensures sent != [] ==> sids[i] in Tried(sent)
    ensures forall j, k :: 0 <= j < k < |log + sent| ==> (log + sent)[j].sid != (log + sent)[k].sid
  {
    assert forall j :: 0 <= j < |log| ==> log[j] in log;
    assert sent != [] ==> sent[0] in sent;
  }

  class Redis {
    var entries: map<Sid, Entry>
    var index: map<UserId, set<Sid>>
    var now: int
    var generated: set<Sid>
    ghost var owner: map<Sid, UserId>
    ghost var ops: map<Tid, Pc>
    /** The SREMs each thread has sent, in order. */
    ghost var removals: map<Tid, seq<Removal>>
    /** How many commands of each thread were answered with an error. */
    ghost var faults: map<Tid, nat>
    /** Users on which no operation runs but the one under consideration. */
    ghost const mine: set<UserId>

    constructor (ghost mine: set<UserId>)
      ensures this.mine == mine && M() == Empty && Valid() && Indexed(M())
    {
      entries, index, now, generated := map[], map[], 0, {};
      owner, ops, removals, faults := map[], map[], map[], map[];
      this.mine := mine;
    }

    ghost function M(): Machine
      reads this
    {
      Machine(Store(entries, index, now), owner, ops)
    }

    ghost function RemovalsBy(t: Tid): seq<Removal>
      reads this
    {
      if t in removals then removals[t] else []
    }

    ghost function FaultsOf(t: Tid): nat
      reads this
    {
      if t in faults then faults[t] else 0
    }

    ghost method Note(t: Tid, failed: bool)
      modifies `faults
      ensures FaultsOf(t) == old(FaultsOf(t)) + if failed then 1 else 0
    {
      faults := if failed then faults[t := FaultsOf(t) + 1] else faults;
    }

    ghost predicate Valid()
      reads this
    {
      Bound(M()) && generated == owner.Keys
    }

    ghost predicate Ours(t: Tid)
      reads this
    {
      forall u :: u in mine ==> Alone(M(), t, u)
    }

    /** Thread `t` began working on `u` at `m0` and has done nothing else since. */
    ghost predicate Working(t: Tid, u: UserId, m0: Machine)
      reads this
    {
      Valid() && Track(t, mine, u, m0, M()) && (u in mine && Indexed(m0) ==> Indexed(M()))
    }

    /** Between two commands of thread `t`, anything in `Elsewhere` may have happened. */
    method Pause(ghost t: Tid)
      requires Valid() && Ours(t)
      modifies this
      ensures RemovalsBy(t) == old(RemovalsBy(t))
      ensures Valid() && Elsewhere(t, mine, old(M()), M())
      ensures old(Indexed(M())) ==> Indexed(M())
      ensures FaultsOf(t) == old(FaultsOf(t))
    {
      var elapsed: nat :| true;
      ghost var l := LTick(now + elapsed);
      StepKeepsAll(M(), l);
      StepElsewhere(t, mine, M(), l);
      now := now + elapsed;
    }

    ghost method Step(t: Tid, u: UserId, m0: Machine, l: Label)
      requires Working(t, u, m0) && Allowed(M(), l)
      requires l.LBegin? || l.LMove? || l.LStop?
      requires l.t == t && (l.LMove? ==> !l.next.Adding? && ops[t].u == u)
      modifies `ops
      ensures Working(t, u, m0) && M() == Do(old(M()), l) && Evolves(old(M()), M())
    {
      TrackStep(t, mine, u, m0, M(), l);
      StepKeepsAll(M(), l);
      if u in mine && Indexed(m0) {
        assert Alone(M(), t, u);
        assert l.LMove? && ops[t].Scanning? ==> !WindowOpen(M(), u);
      }
      ops := Do(M(), l).ops;
    }

    method Get(ghost t: Tid, key: Sid) returns (r: Reply)
      requires Valid() && Ours(t)
      modifies this
      ensures RemovalsBy(t) == old(RemovalsBy(t))
      ensures Valid() && Elsewhere(t, mine, old(M()), M())
      ensures old(Indexed(M())) ==> Indexed(M())
      ensures r.Found? ==> Live(M().store, key) && r.user == entries[key].user
      ensures r.Nil? ==> !Live(M().store, key)
      ensures FaultsOf(t) == old(FaultsOf(t)) + if r.Failed? then 1 else 0
    {
      Pause(t);
      var reached: bool := *;
      if !reached {
        r := Failed;
      } else if key in entries && (entries[key].deadline.None? || now < entries[key].deadline.value) {
        r := Found(entries[key].user);
      } else {
        r := Nil;
      }
      Note(t, r.Failed?);
    }

    method TTL(ghost t: Tid, key: Sid) returns (r: Option<int>)
      requires Valid() && Ours(t)
      modifies this
      ensures Valid() && Elsewhere(t, mine, old(M()), M())
      ensures r.Some? ==> r.value == Ttl(M().store, key)
      ensures FaultsOf(t) == old(FaultsOf(t)) + if r.None? then 1 else 0
    {
      Pause(t);
      var reached: bool := *;
      r := if reached then Some(Ttl(Store(entries, index, now), key)) else None;
      Note(t, r.None?);
    }

    method SMembers(ghost t: Tid, u: UserId) returns (r: Option<seq<Sid>>)
      requires Valid() && Ours(t)
      modifies this
      ensures RemovalsBy(t) == old(RemovalsBy(t))
      ensures Valid() && Elsewhere(t, mine, old(M()), M())
      ensures old(Indexed(M())) ==> Indexed(M())
      ensures r.Some? ==> forall sid :: sid in r.value <==> sid in Members(M().store, u)
      ensures r.Some? ==> forall i, j :: 0 <= i < j < |r.value| ==> r.value[i] != r.value[j]
      ensures FaultsOf(t) == old(FaultsOf(t)) + if r.None? then 1 else 0
    {
      Pause(t);
      var reached: bool := *;
      if reached {
        var sids := Walk(if u in index then index[u] else {});
        r := Some(sids);
      } else {
        r := None;
      }
      Note(t, r.None?);
    }

    /** KSUIDs are taken to be new whenever one is generated. */
    method NewSid(ghost t: Tid, ghost u: UserId, ghost m0: Machine) returns (sid: Sid)
      requires Working(t, u, m0) && t in ops && ops[t].Issuing? && ops[t].u == u
      modifies this
      ensures Working(t, u, m0) && t in ops && ops[t] == Adding(u, sid, old(ops[t]).expiry)
      ensures IsToken(sid) && sid !in m0.owner
      ensures u in mine ==> Members(M().store, u) == old(Members(M().store, u))
      ensures FaultsOf(t) == old(FaultsOf(t))
    {
      hide Bound, Indexed, Evolves, Elsewhere, Track, Retired;
      TrackBegin(t, mine, u, m0, M());
      ghost var was := M();
      Pause(t);
      TrackElsewhere(t, mine, u, m0, was, M());
      ghost var unused := FreshSidExists(generated);
      assert IsToken(unused) && unused !in generated;
      sid :| IsToken(sid) && sid !in generated;
      TrackBegin(t, mine, u, m0, M());
      EvolvesOwners(m0, M());
      ghost var l := LMove(t, Adding(u, sid, ops[t].expiry));
      TrackStep(t, mine, u, m0, M(), l);
      StepKeepsAll(M(), l);
      generated, owner := generated + {sid}, owner[sid := u];
      ops := ops[t := Adding(u, sid, ops[t].expiry)];
    }

    /** SADD itself, which may fail before or after Redis has run it. */
    method PutIn(ghost t: Tid, u: UserId, sid: Sid) returns (applied: bool, ok: bool)
      modifies `index, `faults
      ensures ok ==> applied
      ensures index == if applied then old(index)[u := Members(old(M().store), u) + {sid}] else old(index)
      ensures FaultsOf(t) == old(FaultsOf(t)) + if !ok then 1 else 0
    {
      applied, ok := *, *;
      ok := ok && applied;
      if applied {
        index := index[u := (if u in index then index[u] else {}) + {sid}];
      }
      Note(t, !ok);
    }

    method SAdd(ghost t: Tid, u: UserId, sid: Sid, ghost expiry: int, ghost m0: Machine) returns (ok: bool)
      requires Working(t, u, m0) && t in ops && ops[t] == Adding(u, sid, expiry)
      modifies this
      ensures Working(t, u, m0)
      ensures ok ==> t in ops && ops[t] == Setting(u, sid, expiry)
      ensures !ok ==> t !in ops
      ensures u in mine && ok ==> Members(M().store, u) == old(Members(M().store, u)) + {sid}
      ensures FaultsOf(t) == old(FaultsOf(t)) + if !ok then 1 else 0
    {
      hide Bound, Indexed, Evolves, Elsewhere, Track, Retired;
      TrackBegin(t, mine, u, m0, M());
      ghost var m1 := M();
      Pause(t);
      ghost var m2 := M();
      TrackElsewhere(t, mine, u, m0, m1, m2);
      var applied;
      applied, ok := PutIn(t, u, sid);
      ops := Outcome(m2, t, applied, ok).ops;
      assert M() == Outcome(m2, t, applied, ok) && M().ops == ops && M().store.entries == entries;
      hide M;
      Commanded(t, mine, u, m0, m1, m2, applied, ok);
    }

    method Set(ghost t: Tid, sid: Sid, u: UserId, expiry: int, ghost m0: Machine) returns (ok: bool)
      requires Working(t, u, m0) && t in ops && ops[t] == Setting(u, sid, expiry)
      modifies this
      ensures Working(t, u, m0)
      ensures t !in ops
      ensures ok ==> Owns(M(), u, sid) && sid in entries
      ensures ok ==> entries[sid] == Entry(u, if expiry > 0 then Some(now + expiry) else None)
      ensures u in mine ==> Members(M().store, u) == old(Members(M().store, u))
      ensures FaultsOf(t) == old(FaultsOf(t)) + if !ok then 1 else 0
    {
      hide Bound, Indexed, Evolves, Elsewhere, Track, Retired;
      TrackBegin(t, mine, u, m0, M());
      ghost var m1 := M();
      Pause(t);
      ghost var m2 := M();
      TrackElsewhere(t, mine, u, m0, m1, m2);
      var applied: bool := *;
      ok := *;
      ok := ok && applied;
      if applied {
        entries := entries[sid := Entry(u, Deadline(now, expiry))];
      }
      ops, faults := Outcome(m2, t, applied, ok).ops, faults[t := FaultsOf(t) + if ok then 0 else 1];
      SetOutcome(m2, t, applied, ok);
      assert M() == Outcome(m2, t, applied, ok) && M().ops == ops && M().store.entries == entries;
      hide M;
      Commanded(t, mine, u, m0, m1, m2, applied, ok);
    }

    method Del(ghost t: Tid, ghost u: UserId, sid: Sid, ghost m0: Machine) returns (ok: bool)
      requires Working(t, u, m0) && t in ops && (ops[t].Deleting? || ops[t].Renewing?)
      requires ops[t].u == u && ops[t].sid == sid
      modifies this
      ensures RemovalsBy(t) == old(RemovalsBy(t))
      ensures Working(t, u, m0)
      ensures ok ==> t in ops && ops[t] == After(old(ops[t])).value && Owns(M(), u, sid) && Retired(M(), sid)
      ensures !ok ==> t !in ops
      ensures u in mine ==> Members(M().store, u) == old(Members(M().store, u))
      ensures FaultsOf(t) == old(FaultsOf(t)) + if !ok then 1 else 0
    {
      hide Bound, Indexed, Evolves, Elsewhere, Track, Retired;
      TrackBegin(t, mine, u, m0, M());
      ghost var m1 := M();
      Pause(t);
      ghost var m2 := M();
      TrackElsewhere(t, mine, u, m0, m1, m2);
      var applied: bool := *;
      ok := *;
      ok := ok && applied;
      if applied {
        entries := entries - {sid};
      }
      ops, faults := Outcome(m2, t, applied, ok).ops, faults[t := FaultsOf(t) + if ok then 0 else 1];
      DelOutcome(m2, t, applied, ok);
      assert M() == Outcome(m2, t, applied, ok) && M().ops == ops && M().store.entries == entries;
      hide M;
      Commanded(t, mine, u, m0, m1, m2, applied, ok);
    }

    /** SREM itself, which may fail before or after Redis has run it. */
    method TakeOut(ghost t: Tid, u: UserId, sid: Sid) returns (applied: bool, ok: bool)
      modifies `index, `removals, `faults
      ensures ok ==> applied
      ensures index == if applied then old(index)[u := Members(old(M().store), u) - {sid}] else old(index)
      ensures RemovalsBy(t) == old(RemovalsBy(t)) + [Removal(u, sid, applied, ok)]
      ensures FaultsOf(t) == old(FaultsOf(t)) + if !ok then 1 else 0
    {
      applied, ok := *, *;
      ok := ok && applied;
      removals := removals[t := RemovalsBy(t) + [Removal(u, sid, applied, ok)]];
      if applied {
        index := index[u := (if u in index then index[u] else {}) - {sid}];
      }
      Note(t, !ok);
    }

    method SRem(ghost t: Tid, u: UserId, sid: Sid, ghost m0: Machine) returns (ok: bool, ghost removal: Removal)
      requires Working(t, u, m0) && t in ops && (ops[t].Removing? || ops[t].Unlisting?)
      requires ops[t].u == u && ops[t].sid == sid
      modifies this
      ensures Working(t, u, m0) && Evolves(old(M()), M())
      ensures ok || old(ops[t].Removing?) ==> t in ops && ops[t] == After(old(ops[t])).value
      ensures !ok && old(ops[t].Unlisting?) ==> t !in ops
      ensures removal == Removal(u, sid, removal.applied, ok) && (ok ==> removal.applied)
      ensures RemovalsBy(t) == old(RemovalsBy(t)) + [removal]
      ensures u in mine ==> Members(M().store, u) == old(Members(M().store, u)) - Removed([removal])
      ensures FaultsOf(t) == old(FaultsOf(t)) + if !ok then 1 else 0
    {
      hide Bound, Indexed, Evolves, Elsewhere, Track, Retired, Removed, Alone, Live, Outcome, After;
      TrackBegin(t, mine, u, m0, M());
      ghost var m1 := M();
      Pause(t);
      ghost var m2 := M();
      TrackElsewhere(t, mine, u, m0, m1, m2);
      var applied;
      applied, ok := TakeOut(t, u, sid);
      removal := Removal(u, sid, applied, ok);
      ops := Outcome(m2, t, applied, ok).ops;
      SRemOutcome(m2, t, applied, ok);
      assert M() == Outcome(m2, t, applied, ok) && M().ops == ops && M().store.entries == entries;
      hide M;
      Commanded(t, mine, u, m0, m1, m2, applied, ok);
      RemovedOne(removal);
    }
  }

  /** What a sweep from `m1` did, it did from `m0`, if u's set was the same and t alone worked on u. */
  lemma SweptBefore(t: Tid, u: UserId, m0: Machine, m1: Machine, m: Machine, log: seq<Removal>, ok: bool, sid: Sid)
    requires Bound(m0) && Alone(m0, t, u) && t !in m0.ops && Evolves(m0, m1)
    requires Members(m1.store, u) == Members(m0.store, u)
    requires Swept(m1.store, m.store, u, log) && (ok ==> Synced(m1.store, m.store, u, log))
    requires !Live(m1.store, sid)
    ensures Swept(m0.store, m.store, u, log)
    ensures ok ==> Synced(m0.store, m.store, u, log) && (sid in Members(m0.store, u) ==> sid in Tried(log))
  {
    forall x | x in Members(m0.store, u) && Live(m1.store, x) ensures Live(m0.store, x) {
      MemberWasLive(t, u, m0, m1, x);
    }
  }

  lemma LogGrows(before: seq<Removal>, log: seq<Removal>, sent: seq<Removal>)
    ensures before + log + sent == before + (log + sent)
  {
  }

  lemma Headed(sids: seq<Sid>, i: nat)
    requires i < |sids|
    ensures [sids[i]] + sids[i + 1..] == sids[i..]
  {
  }

  lemma RemovedOne(r: Removal)
    ensures Removed([r]) == if r.applied then {r.sid} else {}
    ensures Removed([]) == {}
  {
    assert r in [r];
  }

  /** If nothing of u's expires during it, a successful Sync leaves exactly u's live sids if and only
      if Redis ran every SREM it sent, as it did when none was answered with an error; and a Sync
      that finds every member live sends none and changes nothing. */
  lemma SyncIsExact(m: Machine, m': Machine, u: UserId, log: seq<Removal>)
    requires Bound(m') && Indexed(m') && Synced(m.store, m'.store, u, log)
    requires forall sid :: sid in Members(m.store, u) && Live(m.store, sid) ==> Live(m'.store, sid)
    ensures (forall sid :: sid in Members(m'.store, u) <==> Live(m'.store, sid) && m'.store.entries[sid].user == u)
            <==> forall r :: r in log ==> r.applied
    ensures AllAnswered(log) ==> forall r :: r in log ==> r.applied
    ensures (forall sid :: sid in Members(m.store, u) ==> Live(m'.store, sid))
            ==> log == [] && Members(m'.store, u) == Members(m.store, u)
  {
    forall sid | sid in Members(m'.store, u) && Live(m'.store, sid) ensures m'.store.entries[sid].user == u {
      assert Owns(m', u, sid) && Owns(m', m'.store.entries[sid].user, sid);
    }
    forall r | r in log ensures r.sid in Members(m'.store, u) <==> !r.applied {
      RemovedIffApplied(log, r);
    }
    if log != [] {
      assert log[0] in log;
    }
  }

  /** With one SREM per sid, the log decides a member's fate by that SREM alone. */
  lemma RemovedIffApplied(log: seq<Removal>, r: Removal)
    requires r in log && forall i, j :: 0 <= i < j < |log| ==> log[i].sid != log[j].sid
    ensures r.sid in Removed(log) <==> r.applied
  {
    forall x | x in log && x.sid == r.sid ensures x == r {
      var i :| 0 <= i < |log| && log[i] == x;
      var j :| 0 <= j < |log| && log[j] == r;
      assert i == j;
    }
  }

  /** An SREM of `sid` that Redis did not run. */
  predicate NotRun(log: seq<Removal>, sid: Sid) {
    exists r :: r in log && r.sid == sid && !r.applied
  }

  /** Whatever expires during it: after a successful Sync, a member that was dead before it is still
      listed if and only if the SREM sent for it was not run, and every member live at the end is. */
  lemma SyncFate(m: Machine, m': Machine, u: UserId, log: seq<Removal>, sid: Sid)
    requires Synced(m.store, m'.store, u, log) && sid in Members(m.store, u)
    ensures !Live(m.store, sid) ==>
      (sid in Members(m'.store, u) <==> NotRun(log, sid))
    ensures Live(m'.store, sid) ==> sid in Members(m'.store, u)
  {
    forall r | r in log ensures r.sid in Removed(log) <==> r.applied {
      RemovedIffApplied(log, r);
    }
    assert !Live(m.store, sid) ==> exists r :: r in log && r.sid == sid;
  }

  /** A refused SREM goes unnoticed: from any state in which Sync looks at a dead member, the
      operation can run on to success with that member still in the set. */
  lemma RefusedRemovalIsSilent(m: Machine, t: Tid, u: UserId, sid: Sid)
    requires t in m.ops && m.ops[t] == Pruning(u, [sid]) && sid in Members(m.store, u) && !Live(m.store, sid)
    ensures
      var look := LMove(t, Removing(u, sid, []));
      var goOn := LMove(t, Pruning(u, []));
      && Allowed(m, look)
      && Allowed(Do(m, look), goOn)
      && Allowed(Do(Do(m, look), goOn), LStop(t))
      && sid in Members(Do(Do(Do(m, look), goOn), LStop(t)).store, u)
  {
    assert [sid][1..] == [];
  }

  class Manager {
    const rdb: Redis

    constructor (rdb: Redis)
      ensures this.rdb == rdb
    {
      this.rdb := rdb;
    }

    /** Generates a session for `u`; runs on its own or as the tail of RenewSession. */
    method SetNew(ghost t: Tid, u: UserId, expiry: int) returns (r: Result<Sid, string>)
      requires rdb.Valid() && rdb.Ours(t)
      requires t in rdb.ops ==> rdb.ops[t] == Issuing(u, expiry)
      modifies rdb
      ensures rdb.Working(t, u, old(rdb.M())) && t !in rdb.ops
      ensures r.Ok? ==>
        && IsToken(r.value) && r.value !in old(rdb.owner) && Owns(rdb.M(), u, r.value)
        && r.value in rdb.entries && rdb.entries[r.value] == Entry(u, if expiry > 0 then Some(rdb.now + expiry) else None)
      ensures r.Ok? && u in rdb.mine
        ==> Members(rdb.M().store, u) == old(Members(rdb.M().store, u)) + {r.value}
      ensures rdb.FaultsOf(t) >= old(rdb.FaultsOf(t))
      ensures r.Err? ==> rdb.FaultsOf(t) > old(rdb.FaultsOf(t))
    {
      hide Bound, Indexed, Evolves, Elsewhere, Track, Retired, Live;
      ghost var m0 := rdb.M();
      TrackStart(t, rdb.mine, u, m0);
      if t !in rdb.ops {
        rdb.Step(t, u, m0, LBegin(t, Issuing(u, expiry)));
      }
      var sid := rdb.NewSid(t, u, m0);
      var ok := rdb.SAdd(t, u, sid, expiry, m0);
      if !ok {
        return Err("SADD");
      }
      ok := rdb.Set(t, sid, u, expiry, m0);
      if !ok {
        return Err("SET");
      }
      return Ok(sid);
    }

    method HasSession(ghost t: Tid, sid: Sid) returns (r: Result<bool, string>)
      requires rdb.Valid() && rdb.Ours(t)
      modifies rdb
      ensures rdb.Valid() && Elsewhere(t, rdb.mine, old(rdb.M()), rdb.M())
      ensures r.Ok? ==> r.value == Live(rdb.M().store, sid)
      ensures rdb.FaultsOf(t) >= old(rdb.FaultsOf(t))
      ensures r.Err? ==> rdb.FaultsOf(t) > old(rdb.FaultsOf(t))
      ensures rdb.FaultsOf(t) == old(rdb.FaultsOf(t)) && Held(old(rdb.M()), rdb.mine, sid, rdb.now) ==> r == Ok(true)
    {
      ghost var m0 := rdb.M();
      var reply := rdb.Get(t, sid);
      if Held(m0, rdb.mine, sid, rdb.now) {
        HeldElsewhere(t, rdb.mine, m0, rdb.M(), sid, rdb.now);
      }
      match reply
      case Found(_) => return Ok(true);
      case Nil => return Ok(false);
      case Failed => return Err("GET");
    }

    method GetUserBySID(ghost t: Tid, sid: Sid) returns (r: Result<UserId, string>)
      requires rdb.Valid() && rdb.Ours(t)
      modifies rdb
      ensures rdb.RemovalsBy(t) == old(rdb.RemovalsBy(t))
      ensures rdb.Valid() && Elsewhere(t, rdb.mine, old(rdb.M()), rdb.M())
      ensures old(Indexed(rdb.M())) ==> Indexed(rdb.M())
      ensures r.Ok? ==> Live(rdb.M().store, sid) && rdb.entries[sid].user == r.value && Owns(rdb.M(), r.value, sid)
      ensures rdb.FaultsOf(t) >= old(rdb.FaultsOf(t))
      ensures r.Err? ==> rdb.FaultsOf(t) > old(rdb.FaultsOf(t)) || !Live(rdb.M().store, sid)
      ensures rdb.FaultsOf(t) == old(rdb.FaultsOf(t)) && Held(old(rdb.M()), rdb.mine, sid, rdb.now)
        ==> r.Ok? && r.value == old(rdb.entries)[sid].user
    {
      ghost var m0 := rdb.M();
      var reply := rdb.Get(t, sid);
      if Held(m0, rdb.mine, sid, rdb.now) {
        HeldElsewhere(t, rdb.mine, m0, rdb.M(), sid, rdb.now);
      }
      match reply
      case Found(u) =>
        assert sid in rdb.M().store.entries;
        return Ok(u);
      case Nil => return Err("redis: nil");
      case Failed => return Err("GET");
    }

    /** Removes from u's set the members whose keys are gone; `log` is what it sent for that. */
    method Sync(ghost t: Tid, u: UserId) returns (ok: bool, ghost log: seq<Removal>)
      requires rdb.Valid() && rdb.Ours(t)
      requires t in rdb.ops ==> rdb.ops[t] == Scanning(u)
      modifies rdb
      ensures rdb.Working(t, u, old(rdb.M())) && t !in rdb.ops
      ensures rdb.RemovalsBy(t) == old(rdb.RemovalsBy(t)) + log
      ensures u in rdb.mine ==> Swept(old(rdb.M().store), rdb.M().store, u, log)
      ensures u in rdb.mine && ok ==> Synced(old(rdb.M().store), rdb.M().store, u, log)
      ensures rdb.FaultsOf(t) >= old(rdb.FaultsOf(t))
      ensures rdb.FaultsOf(t) == old(rdb.FaultsOf(t)) ==> ok && AllAnswered(log)
    {
      hide Bound, Indexed, Evolves, Elsewhere, Track, Retired, Swept, Synced, SyncedUpTo, Turned, Tried, Removed, Live;
      ghost var m0 := rdb.M();
      TrackStart(t, rdb.mine, u, m0);
      log := [];
      if t !in rdb.ops {
        rdb.Step(t, u, m0, LBegin(t, Scanning(u)));
      }
      ghost var m1 := rdb.M();
      TrackBegin(t, rdb.mine, u, m0, m1);
      var members := rdb.SMembers(t, u);
      TrackElsewhere(t, rdb.mine, u, m0, m1, rdb.M());
      if u in rdb.mine {
        SyncStarts(m0, rdb.M(), u, []);
      }
      if members.None? {
        rdb.Step(t, u, m0, LStop(t));
        return false, log;
      }
      rdb.Step(t, u, m0, LMove(t, Pruning(u, members.value)));
      ok, log := Prune(t, u, members.value, m0);
    }

    /** Sync's loop over the members it read. */
    method Prune(ghost t: Tid, u: UserId, sids: seq<Sid>, ghost m0: Machine) returns (ok: bool, ghost log: seq<Removal>)
      requires rdb.Working(t, u, m0) && t in rdb.ops && rdb.ops[t] == Pruning(u, sids)
      requires u in rdb.mine ==> Bound(m0) && Alone(m0, t, u)
      requires t in m0.ops ==> m0.ops[t].Scanning?
      requires u in rdb.mine ==> Members(rdb.M().store, u) == Members(m0.store, u)
      requires u in rdb.mine ==> forall sid :: sid in sids <==> sid in Members(m0.store, u)
      requires forall i, j :: 0 <= i < j < |sids| ==> sids[i] != sids[j]
      modifies rdb
      ensures rdb.Working(t, u, m0) && t !in rdb.ops
      ensures rdb.RemovalsBy(t) == old(rdb.RemovalsBy(t)) + log
      ensures u in rdb.mine ==> Swept(m0.store, rdb.M().store, u, log)
      ensures u in rdb.mine && ok ==> Synced(m0.store, rdb.M().store, u, log)
      ensures rdb.FaultsOf(t) >= old(rdb.FaultsOf(t))
      ensures rdb.FaultsOf(t) == old(rdb.FaultsOf(t)) ==> ok && AllAnswered(log)
    {
      hide Bound, Indexed, Evolves, Elsewhere, Track, Retired, Live, Alone;
      hide Swept, Synced, SyncedUpTo, Turned, Tried, Removed;
      log := [];
      if u in rdb.mine {
        SyncStarts(m0, rdb.M(), u, sids);
      }
      for i := 0 to |sids|
        invariant rdb.Working(t, u, m0) && t in rdb.ops && rdb.ops[t] == Pruning(u, sids[i..])
        invariant rdb.RemovalsBy(t) == old(rdb.RemovalsBy(t)) + log
        invariant rdb.FaultsOf(t) >= old(rdb.FaultsOf(t))
        invariant rdb.FaultsOf(t) == old(rdb.FaultsOf(t)) ==> AllAnswered(log)
        invariant u in rdb.mine ==> SyncedUpTo(m0, rdb.M(), u, sids, i, log)
      {
        ghost var sent;
        ghost var m2 := rdb.M();
        Headed(sids, i);
        ok, sent := Visit(t, u, sids[i], m0, sids[i + 1..]);
        TrackBegin(t, rdb.mine, u, m0, rdb.M());
        if u in rdb.mine {
          SyncTurn(t, u, m0, m2, rdb.M(), sids, i, log, sent, ok);
          SyncEnds(m0, rdb.M(), u, sids, if ok then i + 1 else i, log + sent);
        }
        LogGrows(old(rdb.RemovalsBy(t)), log, sent);
        log := log + sent;
        if !ok {
          return false, log;
        }
      }
      if u in rdb.mine {
        SyncEnds(m0, rdb.M(), u, sids, |sids|, log);
      }
      rdb.Step(t, u, m0, LStop(t));
      return true, log;
    }

    /** One turn of Sync's loop; `sent` is the SREM it sent, if any. */
    method Visit(ghost t: Tid, u: UserId, sid: Sid, ghost m0: Machine, ghost rest: seq<Sid>)
      returns (ok: bool, ghost sent: seq<Removal>)
      requires rdb.Working(t, u, m0) && t in rdb.ops && rdb.ops[t] == Pruning(u, [sid] + rest)
      modifies rdb
      ensures rdb.Working(t, u, m0) && Evolves(old(rdb.M()), rdb.M())
      ensures if ok then t in rdb.ops && rdb.ops[t] == Pruning(u, rest) else t !in rdb.ops
      ensures rdb.RemovalsBy(t) == old(rdb.RemovalsBy(t)) + sent
      ensures u in rdb.mine ==> Turned(old(rdb.M()), rdb.M(), u, sid, sent, ok)
      ensures rdb.FaultsOf(t) >= old(rdb.FaultsOf(t))
      ensures rdb.FaultsOf(t) == old(rdb.FaultsOf(t)) ==> ok && AllAnswered(sent)
    {
      hide Bound, Indexed, Evolves, Elsewhere, Track, Retired;
      sent := [];
      ghost var m1 := rdb.M();
      TrackBegin(t, rdb.mine, u, m0, m1);
      var reply := rdb.Get(t, sid);
      ghost var m2 := rdb.M();
      TrackElsewhere(t, rdb.mine, u, m0, m1, m2);
      TrackBegin(t, rdb.mine, u, m0, m2);
      assert ([sid] + rest)[1..] == rest;
      match reply {
        case Failed =>
          ok := false;
          rdb.Step(t, u, m0, LStop(t));
        case Nil =>
          ok := true;
          if u in rdb.mine {
            GoneIsRetired(m2, t, u, sid);
          }
          rdb.Step(t, u, m0, LMove(t, Removing(u, sid, rest)));
          ghost var m3 := rdb.M();
          EvolvesOn(m1, m2, m3);
          var _, removal := rdb.SRem(t, u, sid, m0);
          sent := [removal];
          EvolvesOn(m1, m3, rdb.M());
          if u in rdb.mine {
            RetiredStay(m2, m3);
            RetiredStay(m3, rdb.M());
          }
        case Found(_) =>
          ok := true;
          rdb.Step(t, u, m0, LMove(t, Pruning(u, rest)));
      }
      if !reply.Nil? {
        EvolvesOn(m1, m2, rdb.M());
      }
    }

    /** Removes a session; on success its key is gone for good, whatever ran beside it, and `log`
        is what was sent to take it, and every other dead member, out of the user's set. */
    method Delete(ghost t: Tid, sid: Sid) returns (ok: bool, ghost u: UserId, ghost log: seq<Removal>)
      requires rdb.Valid() && rdb.Ours(t) && t !in rdb.ops
      modifies rdb
      ensures rdb.Working(t, u, old(rdb.M())) && t !in rdb.ops
      ensures rdb.RemovalsBy(t) == old(rdb.RemovalsBy(t)) + log
      ensures ok ==> Owns(rdb.M(), u, sid) && Retired(rdb.M(), sid)
      ensures old(Retired(rdb.M(), sid)) ==> !ok
      ensures u in rdb.mine ==> Swept(old(rdb.M().store), rdb.M().store, u, log)
      ensures ok && u in rdb.mine ==> Synced(old(rdb.M().store), rdb.M().store, u, log)
      ensures ok && u in rdb.mine && sid in old(Members(rdb.M().store, u)) ==> sid in Tried(log)
      ensures rdb.FaultsOf(t) >= old(rdb.FaultsOf(t))
      ensures !ok ==> rdb.FaultsOf(t) > old(rdb.FaultsOf(t)) || !Live(rdb.M().store, sid)
      ensures rdb.FaultsOf(t) == old(rdb.FaultsOf(t)) && Held(old(rdb.M()), rdb.mine, sid, rdb.now) ==> ok
      ensures rdb.FaultsOf(t) == old(rdb.FaultsOf(t)) && !ok ==> Elsewhere(t, rdb.mine, old(rdb.M()), rdb.M())
    {
      hide Bound, Indexed, Evolves, Elsewhere, Track, Retired, Swept, Synced, Removed, Tried, Live, Held;
      log := [];
      ghost var m0 := rdb.M();
      var found := GetUserBySID(t, sid);
      var user := if found.Ok? then found.value else "";
      u := user;
      TrackStart(t, rdb.mine, u, m0);
      TrackElsewhere(t, rdb.mine, u, m0, m0, rdb.M());
      if u in rdb.mine {
        SyncStarts(m0, rdb.M(), u, []);
      }
      if found.Err? {
        return false, u, log;
      }
      NotRetiredBefore(m0, rdb.M(), sid);
      rdb.Step(t, u, m0, LBegin(t, Deleting(u, sid)));
      ok := rdb.Del(t, u, sid, m0);
      if u in rdb.mine {
        SyncStarts(m0, rdb.M(), u, []);
      }
      if !ok {
        return false, u, log;
      }
      ghost var m1 := rdb.M();
      TrackBegin(t, rdb.mine, u, m0, m1);
      RetiredAreDead(m1);
      ok, log := Sync(t, user);
      TrackBegin(t, rdb.mine, u, m1, rdb.M());
      TrackCompose(t, rdb.mine, u, m0, m1, rdb.M());
      RetiredStay(m1, rdb.M());
      EvolvesOwners(m1, rdb.M());
      if u in rdb.mine {
        SweptBefore(t, u, m0, m1, rdb.M(), log, ok, sid);
      }
    }

    /** Replaces a session by a new one of the same user. */
    method RenewSession(ghost t: Tid, sid: Sid, expiry: int) returns (r: Result<Sid, string>, ghost u: UserId)
      requires rdb.Valid() && rdb.Ours(t) && t !in rdb.ops
      modifies rdb
      ensures rdb.Working(t, u, old(rdb.M())) && t !in rdb.ops
      ensures r.Ok? ==>
        && Owns(rdb.M(), u, sid) && Retired(rdb.M(), sid)
        && IsToken(r.value) && r.value != sid && r.value !in old(rdb.owner) && Owns(rdb.M(), u, r.value)
        && r.value in rdb.entries && rdb.entries[r.value] == Entry(u, if expiry > 0 then Some(rdb.now + expiry) else None)
      ensures old(Retired(rdb.M(), sid)) ==> r.Err?
      ensures r.Ok? && u in rdb.mine
        ==> Members(rdb.M().store, u) == old(Members(rdb.M().store, u)) - {sid} + {r.value}
      ensures rdb.FaultsOf(t) >= old(rdb.FaultsOf(t))
      ensures r.Err? ==> rdb.FaultsOf(t) > old(rdb.FaultsOf(t)) || !Live(rdb.M().store, sid)
      ensures rdb.FaultsOf(t) == old(rdb.FaultsOf(t)) && Held(old(rdb.M()), rdb.mine, sid, rdb.now) ==> r.Ok?
      ensures rdb.FaultsOf(t) == old(rdb.FaultsOf(t)) && r.Err? ==> Elsewhere(t, rdb.mine, old(rdb.M()), rdb.M())
    {
      hide Bound, Indexed, Evolves, Elsewhere, Track, Retired, Removed, Held, Live;
      ghost var m0 := rdb.M();
      var found := GetUserBySID(t, sid);
      var user := if found.Ok? then found.value else "";
      u := user;
      TrackStart(t, rdb.mine, u, m0);
      TrackElsewhere(t, rdb.mine, u, m0, m0, rdb.M());
      if found.Err? {
        return Err(found.error), u;
      }
      NotRetiredBefore(m0, rdb.M(), sid);
      rdb.Step(t, u, m0, LBegin(t, Renewing(u, sid, expiry)));
      r := Replace(t, user, sid, expiry, m0);
    }

    /** RenewSession from its DEL on. */
    method Replace(ghost t: Tid, u: UserId, sid: Sid, expiry: int, ghost m0: Machine)
      returns (r: Result<Sid, string>)
      requires rdb.Working(t, u, m0) && t in rdb.ops && rdb.ops[t] == Renewing(u, sid, expiry)
      modifies rdb
      ensures rdb.Working(t, u, m0) && t !in rdb.ops
      ensures r.Ok? ==>
        && Owns(rdb.M(), u, sid) && Retired(rdb.M(), sid)
        && IsToken(r.value) && r.value != sid && r.value !in m0.owner && Owns(rdb.M(), u, r.value)
        && r.value in rdb.entries && rdb.entries[r.value] == Entry(u, if expiry > 0 then Some(rdb.now + expiry) else None)
      ensures r.Ok? && u in rdb.mine
        ==> Members(rdb.M().store, u) == old(Members(rdb.M().store, u)) - {sid} + {r.value}
      ensures rdb.FaultsOf(t) >= old(rdb.FaultsOf(t))
      ensures r.Err? ==> rdb.FaultsOf(t) > old(rdb.FaultsOf(t))
    {
      hide Bound, Indexed, Evolves, Elsewhere, Track, Retired, Removed, Live;
      var ok := rdb.Del(t, u, sid, m0);
      if !ok {
        return Err("DEL");
      }
      ghost var m1 := rdb.M();
      var unlisted, removal := rdb.SRem(t, u, sid, m0);
      RemovedOne(removal);
      if !unlisted {
        return Err("SREM");
      }
      ghost var m2 := rdb.M();
      TrackBegin(t, rdb.mine, u, m0, m2);
      RetiredStay(m1, m2);
      EvolvesOwners(m1, m2);
      r := SetNew(t, u, expiry);
      TrackBegin(t, rdb.mine, u, m2, rdb.M());
      TrackCompose(t, rdb.mine, u, m0, m2, rdb.M());
      EvolvesOwners(m0, m2);
      EvolvesOwners(m2, rdb.M());
      RetiredStay(m2, rdb.M());
    }
  }
}
