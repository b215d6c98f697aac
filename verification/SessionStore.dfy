/**
  The session store of core/session/manager.go as a transition system.

  Redis holds two structures: an expiring map from session id to user, and one set of
  session ids per user that indexes it.  Any number of manager operations run at the
  same time; each is a program counter over separate Redis commands, time may pass
  between any two commands, and an operation may stop after any command.
  */
module SessionStore {
  import opened Wrappers

  type Sid = string
  type UserId = string
  type Tid = nat

  /** A string key: the user it stands for and the instant (in ms) it expires, if any. */
  datatype Entry = Entry(user: UserId, deadline: Option<int>)

  datatype Store = Store(entries: map<Sid, Entry>, index: map<UserId, set<Sid>>, now: int)

  predicate Live(s: Store, sid: Sid) {
    sid in s.entries && (s.entries[sid].deadline.None? || s.now < s.entries[sid].deadline.value)
  }

  function Members(s: Store, u: UserId): set<Sid> {
    if u in s.index then s.index[u] else {}
  }

  /** The client sends an expiry only when it is positive; otherwise the key never expires. */
  function Deadline(now: int, expiry: int): Option<int> {
    if expiry > 0 then Some(now + expiry) else None
  }

  // The Redis commands that change the store.

  function SAdd(s: Store, u: UserId, sid: Sid): Store {
    s.(index := s.index[u := Members(s, u) + {sid}])
  }

  function SRem(s: Store, u: UserId, sid: Sid): Store {
    s.(index := s.index[u := Members(s, u) - {sid}])
  }

  function SetKey(s: Store, sid: Sid, u: UserId, expiry: int): Store {
    s.(entries := s.entries[sid := Entry(u, Deadline(s.now, expiry))])
  }

  function Del(s: Store, sid: Sid): Store {
    s.(entries := s.entries - {sid})
  }

  /** Where a running operation stands: each constructor names the command it issues next. */
  datatype Pc =
    | Issuing(u: UserId, expiry: int)                  // SetNew: generate a sid
    | Adding(u: UserId, sid: Sid, expiry: int)         // SetNew: SADD
    | Setting(u: UserId, sid: Sid, expiry: int)        // SetNew: SET
    | Deleting(u: UserId, sid: Sid)                    // Delete: DEL
    | Scanning(u: UserId)                              // Sync: SMEMBERS
    | Pruning(u: UserId, todo: seq<Sid>)               // Sync: GET of the next member
    | Removing(u: UserId, sid: Sid, todo: seq<Sid>)    // Sync: SREM of a missing member
    | Renewing(u: UserId, sid: Sid, expiry: int)       // RenewSession: DEL
    | Unlisting(u: UserId, sid: Sid, expiry: int)      // RenewSession: SREM

  /** `owner` records, for every sid ever generated, the user it was generated for. */
  datatype Machine = Machine(store: Store, owner: map<Sid, UserId>, ops: map<Tid, Pc>)

  const Empty := Machine(Store(map[], map[], 0), map[], map[])

  /** An operation starts at its first command; Delete and RenewSession have read the sid's user. */
  predicate CanBegin(s: Store, pc: Pc) {
    match pc
    case Issuing(_, _) => true
    case Scanning(_) => true
    case Deleting(u, sid) => Live(s, sid) && s.entries[sid].user == u
    case Renewing(u, sid, _) => Live(s, sid) && s.entries[sid].user == u
    case _ => false
  }

  /** Steps of an operation that only read the store, or go on after an ignored SREM failure. */
  ghost predicate CanMove(m: Machine, pc: Pc, next: Pc) {
    match pc
    case Issuing(u, e) => next.Adding? && next.u == u && next.expiry == e && next.sid !in m.owner
    case Scanning(u) =>
      next.Pruning? && next.u == u && (forall sid :: sid in next.todo <==> sid in Members(m.store, u))
    case Pruning(u, todo) =>
      && todo != []
      && next == if Live(m.store, todo[0]) then Pruning(u, todo[1..]) else Removing(u, todo[0], todo[1..])
    case Removing(u, _, todo) => next == Pruning(u, todo)
    case _ => false
  }

  predicate Writes(pc: Pc) {
    pc.Adding? || pc.Setting? || pc.Deleting? || pc.Removing? || pc.Renewing? || pc.Unlisting?
  }

  /** The store after the writing command at `pc`. */
  function Effect(s: Store, pc: Pc): Store
    requires Writes(pc)
  {
    match pc
    case Adding(u, sid, _) => SAdd(s, u, sid)
    case Setting(u, sid, e) => SetKey(s, sid, u, e)
    case Deleting(_, sid) => Del(s, sid)
    case Removing(u, sid, _) => SRem(s, u, sid)
    case Renewing(_, sid, _) => Del(s, sid)
    case Unlisting(u, sid, _) => SRem(s, u, sid)
  }

  /** Where the operation stands after the writing command at `pc`; None when it has returned. */
  function After(pc: Pc): Option<Pc>
    requires Writes(pc)
  {
    match pc
    case Adding(u, sid, e) => Some(Setting(u, sid, e))
    case Setting(_, _, _) => None
    case Deleting(u, _) => Some(Scanning(u))
    case Removing(u, _, todo) => Some(Pruning(u, todo))
    case Renewing(u, sid, e) => Some(Unlisting(u, sid, e))
    case Unlisting(u, _, e) => Some(Issuing(u, e))
  }

  function Begin(m: Machine, t: Tid, pc: Pc): Machine {
    m.(ops := m.ops[t := pc])
  }

  function Move(m: Machine, t: Tid, next: Pc): Machine {
    m.(ops := m.ops[t := next],
       owner := if next.Adding? then m.owner[next.sid := next.u] else m.owner)
  }

  function Apply(m: Machine, t: Tid): Machine
    requires t in m.ops && Writes(m.ops[t])
  {
    var next := After(m.ops[t]);
    m.(store := Effect(m.store, m.ops[t]),
       ops := if next.Some? then m.ops[t := next.value] else m.ops - {t})
  }

  /** A failed command is an Apply (or nothing) followed by Stop. */
  function Stop(m: Machine, t: Tid): Machine {
    m.(ops := m.ops - {t})
  }

  function Tick(m: Machine, now: int): Machine {
    m.(store := m.store.(now := now))
  }

  datatype Label =
    | LTick(now: int)
    | LBegin(t: Tid, pc: Pc)
    | LMove(t: Tid, next: Pc)
    | LApply(t: Tid)
    | LStop(t: Tid)

  ghost predicate Allowed(m: Machine, l: Label) {
    match l
    case LTick(now) => m.store.now <= now
    case LBegin(t, pc) => t !in m.ops && CanBegin(m.store, pc)
    case LMove(t, next) => t in m.ops && CanMove(m, m.ops[t], next)
    case LApply(t) => t in m.ops && Writes(m.ops[t])
    case LStop(t) => t in m.ops
  }

  ghost function Do(m: Machine, l: Label): Machine
    requires Allowed(m, l)
  {
    match l
    case LTick(now) => Tick(m, now)
    case LBegin(t, pc) => Begin(m, t, pc)
    case LMove(t, next) => Move(m, t, next)
    case LApply(t) => Apply(m, t)
    case LStop(t) => Stop(m, t)
  }

  /** A SetNew for `u` has added its sid to u's set but has not yet set the key. */
  ghost predicate WindowOpen(m: Machine, u: UserId) {
    exists t :: t in m.ops && m.ops[t].Setting? && m.ops[t].u == u
  }

  /** The one schedule to keep out: Sync reading u's set while a SetNew's window on u is open. */
  ghost predicate ScansInWindow(m: Machine, l: Label) {
    l.LMove? && l.t in m.ops && m.ops[l.t].Scanning? && WindowOpen(m, m.ops[l.t].u)
  }

  // ----- Invariants

  ghost predicate IsPending(m: Machine, sid: Sid) {
    exists t :: t in m.ops && (m.ops[t].Adding? || m.ops[t].Setting?) && m.ops[t].sid == sid
  }

  /** A generated sid that is not live and that no SetNew is about to set. */
  ghost predicate Retired(m: Machine, sid: Sid) {
    sid in m.owner && !Live(m.store, sid) && !IsPending(m, sid)
  }

  ghost predicate Owns(m: Machine, u: UserId, sid: Sid) {
    sid in m.owner && m.owner[sid] == u
  }

  ghost predicate PcFits(m: Machine, pc: Pc) {
    match pc
    case Issuing(_, _) => true
    case Adding(u, sid, _) => Owns(m, u, sid) && sid !in m.store.entries && sid !in Members(m.store, u)
    case Setting(u, sid, _) => Owns(m, u, sid) && sid !in m.store.entries
    case Deleting(u, sid) => Owns(m, u, sid) && !IsPending(m, sid)
    case Scanning(_) => true
    case Pruning(u, todo) => forall sid :: sid in todo ==> Owns(m, u, sid)
    case Removing(u, sid, todo) => Owns(m, u, sid) && forall x :: x in todo ==> Owns(m, u, x)
    case Renewing(u, sid, _) => Owns(m, u, sid) && !IsPending(m, sid)
    case Unlisting(u, sid, _) => Owns(m, u, sid) && Retired(m, sid)
  }

  /** Every sid, wherever it appears, belongs to the user it was generated for. */
  ghost predicate Bound(m: Machine) {
    && (forall sid :: sid in m.store.entries ==> Owns(m, m.store.entries[sid].user, sid))
    && (forall u, sid :: sid in Members(m.store, u) ==> Owns(m, u, sid))
    && (forall t :: t in m.ops ==> PcFits(m, m.ops[t]))
    && (forall t, t' :: t in m.ops && t' in m.ops && t != t'
          && (m.ops[t].Adding? || m.ops[t].Setting?) && (m.ops[t'].Adding? || m.ops[t'].Setting?)
          ==> m.ops[t].sid != m.ops[t'].sid)
  }

  ghost predicate PcIndexed(m: Machine, pc: Pc) {
    match pc
    case Setting(u, sid, _) => sid in Members(m.store, u)
    case Pruning(_, todo) => forall sid :: sid in todo ==> !IsPending(m, sid)
    case Removing(_, sid, todo) => Retired(m, sid) && forall x :: x in todo ==> !IsPending(m, x)
    case _ => true
  }

  /** The per-user sets index exactly the live sids. */
  ghost predicate Indexed(m: Machine) {
    && (forall sid :: Live(m.store, sid) ==> sid in Members(m.store, m.store.entries[sid].user))
    && (forall t :: t in m.ops ==> PcIndexed(m, m.ops[t]))
  }

  /** What any number of steps may do to the sids already generated. */
  ghost predicate Evolves(m: Machine, m': Machine) {
    && m.store.now <= m'.store.now
    && (forall sid :: sid in m.owner ==> sid in m'.owner && m'.owner[sid] == m.owner[sid])
    && (forall sid :: Retired(m, sid) ==> Retired(m', sid))
    && (forall sid :: sid in m.owner && !IsPending(m, sid) ==> !IsPending(m', sid))
    && (forall sid :: sid in m.owner && !IsPending(m, sid) && sid in m'.store.entries
          ==> sid in m.store.entries && m'.store.entries[sid] == m.store.entries[sid])
  }

  // ----- One step, whatever runs beside it

  /** Only a freshly generated sid can become pending. */
  lemma PendingIsFresh(m: Machine, l: Label)
    requires Allowed(m, l)
    ensures forall sid :: IsPending(Do(m, l), sid) && sid in m.owner ==> IsPending(m, sid)
  {
    var m' := Do(m, l);
    forall sid | IsPending(m', sid) && sid in m.owner ensures IsPending(m, sid) {
      var x :| x in m'.ops && (m'.ops[x].Adding? || m'.ops[x].Setting?) && m'.ops[x].sid == sid;
      assert x in m.ops && (m.ops[x].Adding? || m.ops[x].Setting?) && m.ops[x].sid == sid;
    }
  }

  lemma StepEvolves(m: Machine, l: Label)
    requires Bound(m) && Allowed(m, l)
    ensures Evolves(m, Do(m, l))
  {
    PendingIsFresh(m, l);
    var m' := Do(m, l);
    if l.LApply? {
      assert PcFits(m, m.ops[l.t]);
      assert m.ops[l.t].Setting? ==> IsPending(m, m.ops[l.t].sid);
    }
  }

  lemma StepKeepsBound(m: Machine, l: Label)
    requires Bound(m) && Allowed(m, l)
    ensures Bound(Do(m, l))
  {
    var m' := Do(m, l);
    forall t | t in m'.ops ensures PcFits(m', m'.ops[t]) {
      PcKeepsFitting(m, l, t);
    }
    StoreKeepsOwners(m, l);
    PendingSidsDiffer(m, l);
    hide Do, Allowed, PcFits, Members, Owns;
  }

  lemma StoreKeepsOwners(m: Machine, l: Label)
    requires Bound(m) && Allowed(m, l)
    ensures forall sid :: sid in Do(m, l).store.entries ==> Owns(Do(m, l), Do(m, l).store.entries[sid].user, sid)
    ensures forall u, sid :: sid in Members(Do(m, l).store, u) ==> Owns(Do(m, l), u, sid)
  {
    StepEvolves(m, l);
    if l.LApply? {
      assert PcFits(m, m.ops[l.t]);
    }
    forall u, sid | sid in Members(Do(m, l).store, u) ensures Owns(Do(m, l), u, sid) {
      assert Owns(m, u, sid);
    }
  }

  lemma PendingSidsDiffer(m: Machine, l: Label)
    requires Bound(m) && Allowed(m, l)
    ensures var m' := Do(m, l);
      forall t, t' :: t in m'.ops && t' in m'.ops && t != t'
        && (m'.ops[t].Adding? || m'.ops[t].Setting?) && (m'.ops[t'].Adding? || m'.ops[t'].Setting?)
        ==> m'.ops[t].sid != m'.ops[t'].sid
  {
    var m' := Do(m, l);
    forall t | t in m.ops && (m.ops[t].Adding? || m.ops[t].Setting?) ensures m.ops[t].sid in m.owner {
      assert PcFits(m, m.ops[t]);
    }
  }

  lemma PcKeepsFitting(m: Machine, l: Label, t: Tid)
    requires Bound(m) && Allowed(m, l) && t in Do(m, l).ops
    ensures PcFits(Do(m, l), Do(m, l).ops[t])
  {
    if t in m.ops && Do(m, l).ops[t] == m.ops[t] {
      OtherPcKeepsFitting(m, l, t);
    } else {
      OwnPcKeepsFitting(m, l, t);
    }
  }

  lemma OtherPcKeepsFitting(m: Machine, l: Label, t: Tid)
    requires Bound(m) && Allowed(m, l) && t in m.ops && t in Do(m, l).ops && Do(m, l).ops[t] == m.ops[t]
    ensures PcFits(Do(m, l), m.ops[t])
  {
    StepEvolves(m, l);
    assert PcFits(m, m.ops[t]);
    if l.LApply? {
      assert PcFits(m, m.ops[l.t]);
    }
  }

  lemma OwnPcKeepsFitting(m: Machine, l: Label, t: Tid)
    requires Bound(m) && Allowed(m, l) && t in Do(m, l).ops
    requires t in m.ops ==> Do(m, l).ops[t] != m.ops[t]
    ensures PcFits(Do(m, l), Do(m, l).ops[t])
  {
    StepEvolves(m, l);
    var pc' := Do(m, l).ops[t];
    if t in m.ops {
      assert PcFits(m, m.ops[t]);
      assert l.LMove? && m.ops[t].Pruning? && m.ops[t].todo != [] ==> m.ops[t].todo[0] in m.ops[t].todo;
    }
    if pc'.Pruning? || pc'.Removing? {
      forall x | x in pc'.todo ensures Owns(Do(m, l), pc'.u, x) {
        assert Owns(m, pc'.u, x);
      }
    }
  }

  lemma StepKeepsIndexed(m: Machine, l: Label)
    requires Bound(m) && Indexed(m) && Allowed(m, l) && !ScansInWindow(m, l)
    ensures Indexed(Do(m, l))
  {
    StepKeepsBound(m, l);
    StepEvolves(m, l);
    var m' := Do(m, l);
    forall t | t in m'.ops ensures PcIndexed(m', m'.ops[t]) {
      PcKeepsIndexed(m, l, t);
    }
    if l.LApply? {
      assert PcFits(m, m.ops[l.t]) && PcIndexed(m, m.ops[l.t]);
    }
  }

  lemma PcKeepsIndexed(m: Machine, l: Label, t: Tid)
    requires Bound(m) && Indexed(m) && Allowed(m, l) && !ScansInWindow(m, l) && t in Do(m, l).ops
    ensures PcIndexed(Do(m, l), Do(m, l).ops[t])
  {
    if t in m.ops && Do(m, l).ops[t] == m.ops[t] {
      OtherPcKeepsIndexed(m, l, t);
    } else {
      OwnPcKeepsIndexed(m, l, t);
    }
  }

  lemma OtherPcKeepsIndexed(m: Machine, l: Label, t: Tid)
    requires Bound(m) && Indexed(m) && Allowed(m, l) && t in m.ops && t in Do(m, l).ops && Do(m, l).ops[t] == m.ops[t]
    ensures PcIndexed(Do(m, l), m.ops[t])
  {
    StepEvolves(m, l);
    assert PcFits(m, m.ops[t]) && PcIndexed(m, m.ops[t]);
    if l.LApply? {
      assert PcFits(m, m.ops[l.t]) && PcIndexed(m, m.ops[l.t]);
    }
  }

  lemma OwnPcKeepsIndexed(m: Machine, l: Label, t: Tid)
    requires Bound(m) && Indexed(m) && Allowed(m, l) && !ScansInWindow(m, l) && t in Do(m, l).ops
    requires t in m.ops ==> Do(m, l).ops[t] != m.ops[t]
    ensures PcIndexed(Do(m, l), Do(m, l).ops[t])
  {
    StepEvolves(m, l);
    var m' := Do(m, l);
    var pc' := m'.ops[t];
    if t in m.ops {
      assert PcFits(m, m.ops[t]) && PcIndexed(m, m.ops[t]);
      assert l.LMove? && m.ops[t].Pruning? && m.ops[t].todo != [] ==> m.ops[t].todo[0] in m.ops[t].todo;
    }
    if pc'.Pruning? || pc'.Removing? {
      forall x | x in pc'.todo ensures !IsPending(m', x) {
        assert Owns(m, pc'.u, x);
      }
    }
  }

  lemma StepKeepsAll(m: Machine, l: Label)
    requires Bound(m) && Allowed(m, l)
    ensures Bound(Do(m, l)) && Evolves(m, Do(m, l))
    ensures Indexed(m) && !ScansInWindow(m, l) ==> Indexed(Do(m, l))
  {
    StepKeepsBound(m, l);
    StepEvolves(m, l);
    if Indexed(m) && !ScansInWindow(m, l) {
      StepKeepsIndexed(m, l);
    }
  }

  // ----- Whole runs

  ghost predicate Run(ms: seq<Machine>, ls: seq<Label>) {
    && |ms| == |ls| + 1
    && ms[0] == Empty
    && forall i :: 0 <= i < |ls| ==> Allowed(ms[i], ls[i]) && ms[i + 1] == Do(ms[i], ls[i])
  }

  lemma {:induction false} RunKeepsBound(ms: seq<Machine>, ls: seq<Label>, i: nat)
    requires Run(ms, ls) && i < |ms|
    ensures Bound(ms[i])
  {
    if i > 0 {
      RunKeepsBound(ms, ls, i - 1);
      StepKeepsBound(ms[i - 1], ls[i - 1]);
    }
  }

  lemma {:induction false} RunKeepsIndexed(ms: seq<Machine>, ls: seq<Label>, i: nat)
    requires Run(ms, ls) && i < |ms|
    requires forall j :: 0 <= j < |ls| ==> !ScansInWindow(ms[j], ls[j])
    ensures Indexed(ms[i])
  {
    if i > 0 {
      RunKeepsIndexed(ms, ls, i - 1);
      RunKeepsBound(ms, ls, i - 1);
      StepKeepsIndexed(ms[i - 1], ls[i - 1]);
    }
  }

  /** At every point of every run that keeps Sync out of open windows, a user's set holds
      exactly those live sids that are bound to the user. */
  lemma IndexInvariant(ms: seq<Machine>, ls: seq<Label>, i: nat, u: UserId, sid: Sid)
    requires Run(ms, ls) && i < |ms|
    requires forall j :: 0 <= j < |ls| ==> !ScansInWindow(ms[j], ls[j])
    requires Live(ms[i].store, sid)
    ensures sid in Members(ms[i].store, u) <==> ms[i].store.entries[sid].user == u
  {
    RunKeepsBound(ms, ls, i);
    RunKeepsIndexed(ms, ls, i);
    assert Owns(ms[i], ms[i].store.entries[sid].user, sid);
    if sid in Members(ms[i].store, u) {
      assert Owns(ms[i], u, sid);
    }
  }

  ghost predicate Strayed(s: Store, u: UserId, sid: Sid) {
    Live(s, sid) && s.entries[sid].user == u && sid !in Members(s, u)
  }

  /** The excluded schedule is fatal from every state: if Sync reads u's set while a SetNew on
      u has added its sid but not set the key, three more steps leave a live sid out of the set. */
  lemma ScanInWindowLosesASid(m: Machine, setter: Tid, syncer: Tid, rest: seq<Sid>)
    requires Bound(m) && Indexed(m)
    requires setter in m.ops && m.ops[setter].Setting?
    requires syncer in m.ops && m.ops[syncer] == Scanning(m.ops[setter].u)
    requires forall sid :: sid in [m.ops[setter].sid] + rest <==> sid in Members(m.store, m.ops[setter].u)
    ensures
      var u, sid := m.ops[setter].u, m.ops[setter].sid;
      var scan := LMove(syncer, Pruning(u, [sid] + rest));
      var miss := LMove(syncer, Removing(u, sid, rest));
      && ScansInWindow(m, scan)
      && Allowed(m, scan)
      && Allowed(Do(m, scan), miss)
      && Allowed(Do(Do(m, scan), miss), LApply(setter))
      && Allowed(Do(Do(Do(m, scan), miss), LApply(setter)), LApply(syncer))
      && Strayed(Do(Do(Do(Do(m, scan), miss), LApply(setter)), LApply(syncer)).store, u, sid)
  {
    assert PcFits(m, m.ops[setter]);
    assert ([m.ops[setter].sid] + rest)[1..] == rest;
  }

  lemma EvolvesThen(m: Machine, m': Machine, m'': Machine)
    ensures Evolves(m, m)
    ensures Evolves(m, m') && Evolves(m', m'') ==> Evolves(m, m'')
  {
    hide IsPending, Live;
  }

  lemma {:induction false} RunEvolves(ms: seq<Machine>, ls: seq<Label>, i: nat, j: nat)
    requires Run(ms, ls) && i <= j < |ms|
    ensures Evolves(ms[i], ms[j])
    decreases j
  {
    hide Evolves, Bound, Do, Allowed;
    EvolvesThen(ms[i], ms[if i < j then j - 1 else j], ms[j]);
    if i < j {
      RunEvolves(ms, ls, i, j - 1);
      RunKeepsBound(ms, ls, j - 1);
      StepEvolves(ms[j - 1], ls[j - 1]);
    }
  }

  /** In every run whatever, a generated sid keeps its user, a live sid is bound to that user,
      and a sid that was live and then is not never becomes live again. */
  lemma SidsAreFinal(ms: seq<Machine>, ls: seq<Label>, i: nat, j: nat, k: nat, sid: Sid)
    requires Run(ms, ls) && i <= j <= k < |ms|
    requires Live(ms[i].store, sid)
    ensures sid in ms[k].owner && ms[k].owner[sid] == ms[i].store.entries[sid].user
    ensures Live(ms[k].store, sid) ==> ms[k].store.entries[sid] == ms[i].store.entries[sid]
    ensures !Live(ms[j].store, sid) ==> !Live(ms[k].store, sid)
  {
    RunKeepsBound(ms, ls, i);
    LiveIsNotPending(ms[i], sid);
    RunEvolves(ms, ls, i, j);
    RunEvolves(ms, ls, j, k);
    assert Owns(ms[i], ms[i].store.entries[sid].user, sid);
    if !Live(ms[j].store, sid) {
      assert Retired(ms[j], sid);
    }
  }

  lemma LiveIsNotPending(m: Machine, sid: Sid)
    requires Bound(m) && sid in m.store.entries
    ensures sid in m.owner && !IsPending(m, sid)
  {
  }

  // ----- What an operation may rely on while others run

  /** No operation but `t` is under way on user `u`. */
  ghost predicate Alone(m: Machine, t: Tid, u: UserId) {
    forall x :: x in m.ops && x != t ==> m.ops[x].u != u
  }

  /** u's set is untouched, and u's keys change by nothing but the passing of time. */
  ghost predicate Quiet(m: Machine, m': Machine, u: UserId) {
    && Members(m'.store, u) == Members(m.store, u)
    && (forall sid :: Owns(m, u, sid) && sid in m.store.entries
          ==> sid in m'.store.entries && m'.store.entries[sid] == m.store.entries[sid])
  }

  /** What the rest of the system can have done while thread `t` was between two commands,
      when `t` is the only one working on the users in `mine`. */
  ghost predicate Elsewhere(t: Tid, mine: set<UserId>, m: Machine, m': Machine) {
    && Evolves(m, m')
    && (t in m.ops <==> t in m'.ops)
    && (t in m.ops ==> m'.ops[t] == m.ops[t])
    && (forall u :: u in mine ==> Quiet(m, m', u) && Alone(m', t, u))
  }

  /** A step that thread `t` does not take and that starts nothing on the users in `mine`. */
  ghost predicate ByOthers(t: Tid, mine: set<UserId>, l: Label) {
    match l
    case LTick(_) => true
    case LBegin(x, pc) => x != t && pc.u !in mine
    case LMove(x, _) => x != t
    case LApply(x) => x != t
    case LStop(x) => x != t
  }

  lemma StepElsewhere(t: Tid, mine: set<UserId>, m: Machine, l: Label)
    requires Bound(m) && Allowed(m, l) && ByOthers(t, mine, l)
    requires forall u :: u in mine ==> Alone(m, t, u)
    ensures Elsewhere(t, mine, m, Do(m, l))
  {
    StepEvolves(m, l);
    forall u | u in mine ensures Quiet(m, Do(m, l), u) && Alone(Do(m, l), t, u) {
      StepQuiet(t, mine, m, l, u);
    }
    hide Evolves, Bound, Quiet, Alone;
  }

  lemma StepQuiet(t: Tid, mine: set<UserId>, m: Machine, l: Label, u: UserId)
    requires Bound(m) && Allowed(m, l) && ByOthers(t, mine, l)
    requires u in mine && Alone(m, t, u)
    ensures Quiet(m, Do(m, l), u) && Alone(Do(m, l), t, u)
  {
    if l.LApply? {
      assert PcFits(m, m.ops[l.t]);
    }
    if l.LMove? || l.LApply? {
      assert m.ops[l.t].u != u;
    }
  }

  /** Any number of steps by others stays within `Elsewhere`, and keeps the index if none of them
      is a scan in an open window: the allowance an operation is verified against covers every
      interleaving. */
  lemma {:induction false} RunElsewhere(t: Tid, mine: set<UserId>, ms: seq<Machine>, ls: seq<Label>, i: nat, j: nat)
    requires Run(ms, ls) && i <= j < |ms|
    requires forall k :: i <= k < j ==> ByOthers(t, mine, ls[k])
    requires forall u :: u in mine ==> Alone(ms[i], t, u)
    ensures Elsewhere(t, mine, ms[i], ms[j])
    ensures Indexed(ms[i]) && (forall k :: i <= k < j ==> !ScansInWindow(ms[k], ls[k])) ==> Indexed(ms[j])
    decreases j
  {
    hide Bound, Do, Allowed, IsPending, Retired, Indexed, ScansInWindow;
    RunEvolves(ms, ls, i, j);
    if i < j {
      RunElsewhere(t, mine, ms, ls, i, j - 1);
      RunKeepsBound(ms, ls, j - 1);
      StepElsewhere(t, mine, ms[j - 1], ls[j - 1]);
      StepKeepsAll(ms[j - 1], ls[j - 1]);
    }
  }
}
