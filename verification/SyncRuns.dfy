/**
  Sync of core/session/manager.go over whole runs of the session store: what it leaves in a
  user's set is decided by which of its SREMs Redis ran, whatever else runs and expires.
  */
module SyncRuns {
  import opened SessionStore
  import opened SessionManager

  /** Thread `t` takes step `k` on its own behalf: it neither begins nor stops an operation. */
  ghost predicate Proceeds(t: Tid, l: Label) {
    (l.LMove? || l.LApply?) && l.t == t
  }

  /** The SREM on which `t` decides in step `k`: run, or skipped because it failed. */
  ghost predicate Removes(ms: seq<Machine>, ls: seq<Label>, t: Tid, k: nat)
    requires k < |ms| && k < |ls|
  {
    Proceeds(t, ls[k]) && t in ms[k].ops && ms[k].ops[t].Removing?
  }

  /** In step `k`, the SREM of `sid` fails and Sync goes on. */
  ghost predicate Skips(ms: seq<Machine>, ls: seq<Label>, t: Tid, k: nat, sid: Sid)
    requires k < |ms| && k < |ls|
  {
    Removes(ms, ls, t, k) && ls[k].LMove? && ms[k].ops[t].sid == sid
  }

  /** From step `i`, its SMEMBERS, up to state `k`, thread `t` is in Sync and alone on u. */
  ghost predicate InSync(ms: seq<Machine>, ls: seq<Label>, t: Tid, u: UserId, i: nat, k: nat) {
    && Run(ms, ls) && i < k < |ms|
    && t in ms[i].ops && ms[i].ops[t] == Scanning(u) && Alone(ms[i], t, u)
    && ls[i].LMove? && ls[i].t == t
    && (forall g, h :: 0 <= g < h < |Snapshot(ms, ls, t, i)| ==> Snapshot(ms, ls, t, i)[g] != Snapshot(ms, ls, t, i)[h])
    && (forall h :: i < h < k ==> ByOthers(t, {u}, ls[h]) || Proceeds(t, ls[h]))
  }

  /** The members SMEMBERS returned in step `i`. */
  ghost function Snapshot(ms: seq<Machine>, ls: seq<Label>, t: Tid, i: nat): seq<Sid>
    requires Run(ms, ls) && i < |ls| && t in ms[i].ops && ms[i].ops[t].Scanning? && ls[i].LMove? && ls[i].t == t
  {
    ls[i].next.todo
  }

  /** The SREMs of `t` in steps `i` to `k`; the reply, which Sync ignores, is taken to be truthful. */
  ghost function Log(ms: seq<Machine>, ls: seq<Label>, t: Tid, i: nat, k: nat): seq<Removal>
    requires k < |ms| && |ms| == |ls| + 1
  {
    if k <= i then []
    else Log(ms, ls, t, i, k - 1) + Sent(ms, ls, t, k - 1)
  }

  ghost function Sent(ms: seq<Machine>, ls: seq<Label>, t: Tid, k: nat): seq<Removal>
    requires k < |ms| && k < |ls|
  {
    if Removes(ms, ls, t, k) then [Removal(ms[k].ops[t].u, ms[k].ops[t].sid, ls[k].LApply?, ls[k].LApply?)] else []
  }

  /** Sync has dealt with the first `n` members, and possibly looked at the next. */
  ghost predicate AtTurn(m0: Machine, m: Machine, t: Tid, u: UserId, sids: seq<Sid>, n: nat, log: seq<Removal>) {
    && n <= |sids| && SyncedUpTo(m0, m, u, sids, n, log)
    && Alone(m, t, u) && t in m.ops
    && (m.ops[t] == Pruning(u, sids[n..])
        || (n < |sids| && m.ops[t] == Removing(u, sids[n], sids[n + 1..]) && Retired(m, sids[n])))
  }

  lemma OthersKeepTurn(m0: Machine, m: Machine, l: Label, t: Tid, u: UserId, sids: seq<Sid>, n: nat, log: seq<Removal>)
    requires Bound(m) && Allowed(m, l) && ByOthers(t, {u}, l)
    requires AtTurn(m0, m, t, u, sids, n, log)
    ensures AtTurn(m0, Do(m, l), t, u, sids, n, log)
  {
    StepElsewhere(t, {u}, m, l);
    hide Bound, Do, Allowed;
    assert Quiet(m, Do(m, l), u);
    RetiredStay(m, Do(m, l));
  }

  lemma SyncBegins(m: Machine, l: Label, t: Tid, u: UserId)
    requires Bound(m) && Allowed(m, l) && l.LMove? && l.t == t
    requires t in m.ops && m.ops[t] == Scanning(u) && Alone(m, t, u)
    ensures l.next.Pruning? && (forall sid :: sid in l.next.todo <==> sid in Members(m.store, u))
    ensures AtTurn(m, Do(m, l), t, u, l.next.todo, 0, [])
  {
    SyncStarts(m, Do(m, l), u, l.next.todo);
    assert l.next.todo[0..] == l.next.todo;
    hide SyncedUpTo, Bound;
  }

  /** A look at the next member: found, or about to be removed. */
  lemma LookKeepsTurn(m0: Machine, m: Machine, l: Label, t: Tid, u: UserId, sids: seq<Sid>, n: nat, log: seq<Removal>)
    returns (n': nat)
    requires Bound(m0) && Alone(m0, t, u) && t in m0.ops && m0.ops[t].Scanning? && Evolves(m0, m)
    requires Bound(m) && Allowed(m, l) && Proceeds(t, l) && AtTurn(m0, m, t, u, sids, n, log) && m.ops[t].Pruning?
    requires forall j, k :: 0 <= j < k < |sids| ==> sids[j] != sids[k]
    requires forall sid :: sid in sids <==> sid in Members(m0.store, u)
    ensures AtTurn(m0, Do(m, l), t, u, sids, n', log)
  {
    hide Bound, Evolves, Retired, Removed, Tried, Live;
    var m' := Do(m, l);
    StepEvolves(m, l);
    EvolvesOn(m0, m, m');
    assert sids[n..][0] == sids[n] && sids[n..][1..] == sids[n + 1..];
    assert m'.store == m.store;
    if Live(m.store, sids[n]) {
      n' := n + 1;
      NothingRemoved();
      SyncTurn(t, u, m0, m, m', sids, n, log, [], true);
      assert log + [] == log;
    } else {
      n' := n;
      GoneIsRetired(m, t, u, sids[n]);
      RetiredStay(m, m');
    }
  }

  lemma NothingRemoved()
    ensures Removed([]) == {}
  {
  }

  /** The removal of a member, run or skipped: either way Sync turns to the next one. */
  lemma RemovalKeepsTurn(m0: Machine, m: Machine, l: Label, t: Tid, u: UserId, sids: seq<Sid>, n: nat, log: seq<Removal>)
    requires Bound(m0) && Alone(m0, t, u) && t in m0.ops && m0.ops[t].Scanning? && Evolves(m0, m)
    requires Bound(m) && Allowed(m, l) && Proceeds(t, l) && AtTurn(m0, m, t, u, sids, n, log) && m.ops[t].Removing?
    requires forall j, k :: 0 <= j < k < |sids| ==> sids[j] != sids[k]
    requires forall sid :: sid in sids <==> sid in Members(m0.store, u)
    ensures AtTurn(m0, Do(m, l), t, u, sids, n + 1, log + [Removal(u, sids[n], l.LApply?, l.LApply?)])
  {
    hide Bound, Evolves, Retired, SyncedUpTo, Removed, Live;
    var m' := Do(m, l);
    var removal := Removal(u, sids[n], l.LApply?, l.LApply?);
    StepEvolves(m, l);
    EvolvesOn(m0, m, m');
    RetiredStay(m, m');
    RemovedOne(removal);
    SyncTurn(t, u, m0, m, m', sids, n, log, [removal], true);
  }

  /** At every point of Sync, the members it has dealt with are accounted for by its SREMs. */
  lemma {:induction false} SyncProgress(ms: seq<Machine>, ls: seq<Label>, t: Tid, u: UserId, i: nat, k: nat)
    returns (n: nat)
    requires InSync(ms, ls, t, u, i, k)
    ensures AtTurn(ms[i], ms[k], t, u, Snapshot(ms, ls, t, i), n, Log(ms, ls, t, i, k))
    decreases k
  {
    hide AtTurn, Bound, Do, Allowed, Alone;
    RunKeepsBound(ms, ls, i);
    RunStep(ms, ls, i);
    SyncBegins(ms[i], ls[i], t, u);
    if k == i + 1 {
      n := 0;
      assert Log(ms, ls, t, i, k) == [];
    } else {
      RunStep(ms, ls, k - 1);
      RunKeepsBound(ms, ls, k - 1);
      RunEvolves(ms, ls, i, k - 1);
      n := SyncProgress(ms, ls, t, u, i, k - 1);
      n := StepKeepsTurn(ms, ls, t, u, i, k - 1, n);
    }
  }

  lemma RunStep(ms: seq<Machine>, ls: seq<Label>, k: nat)
    requires Run(ms, ls) && k < |ls|
    ensures Allowed(ms[k], ls[k]) && ms[k + 1] == Do(ms[k], ls[k])
  {
  }

  lemma StepKeepsTurn(ms: seq<Machine>, ls: seq<Label>, t: Tid, u: UserId, i: nat, k: nat, n: nat) returns (n': nat)
    requires InSync(ms, ls, t, u, i, k + 1) && i < k
    requires Bound(ms[i]) && Bound(ms[k]) && Evolves(ms[i], ms[k])
    requires forall sid :: sid in Snapshot(ms, ls, t, i) <==> sid in Members(ms[i].store, u)
    requires AtTurn(ms[i], ms[k], t, u, Snapshot(ms, ls, t, i), n, Log(ms, ls, t, i, k))
    ensures AtTurn(ms[i], ms[k + 1], t, u, Snapshot(ms, ls, t, i), n', Log(ms, ls, t, i, k + 1))
  {
    hide Bound, Evolves, Do, Allowed, SyncedUpTo, Retired, Alone;
    RunStep(ms, ls, k);
    var sids, log := Snapshot(ms, ls, t, i), Log(ms, ls, t, i, k);
    assert Log(ms, ls, t, i, k + 1) == log + Sent(ms, ls, t, k);
    if !Proceeds(t, ls[k]) {
      n' := n;
      OthersKeepTurn(ms[i], ms[k], ls[k], t, u, sids, n, log);
    } else if ms[k].ops[t].Pruning? {
      n' := LookKeepsTurn(ms[i], ms[k], ls[k], t, u, sids, n, log);
    } else {
      n' := n + 1;
      RemovalKeepsTurn(ms[i], ms[k], ls[k], t, u, sids, n, log);
    }
    assert log + [] == log;
  }

  /** A Sync that walks the whole set, alone on u, leaves what its SREMs account for, whatever else
      runs and whatever expires meanwhile. */
  lemma SyncAccounts(ms: seq<Machine>, ls: seq<Label>, t: Tid, u: UserId, i: nat, j: nat)
    requires InSync(ms, ls, t, u, i, j) && t in ms[j].ops && ms[j].ops[t] == Pruning(u, [])
    ensures Synced(ms[i].store, ms[j].store, u, Log(ms, ls, t, i, j))
  {
    var sids, log := Snapshot(ms, ls, t, i), Log(ms, ls, t, i, j);
    var n := SyncProgress(ms, ls, t, u, i, j);
    RunKeepsBound(ms, ls, i);
    RunStep(ms, ls, i);
    SyncBegins(ms[i], ls[i], t, u);
    hide Synced, SyncedUpTo, Bound, Log;
    assert n == |sids| by {
      assert |sids[n..]| == 0;
    }
    SyncEnds(ms[i], ms[j], u, sids, n, log);
  }

  /** Some SREM of `sid` failed in steps `i` to `k`. */
  ghost predicate Skipped(ms: seq<Machine>, ls: seq<Label>, t: Tid, i: nat, k: nat, sid: Sid)
    requires |ms| == |ls| + 1 && k < |ms|
  {
    exists h :: i <= h < k && Skips(ms, ls, t, h, sid)
  }

  /** The log and the steps tell the same: a removal not run is a skipping step. */
  lemma {:induction false} LogTells(ms: seq<Machine>, ls: seq<Label>, t: Tid, i: nat, k: nat, sid: Sid)
    requires |ms| == |ls| + 1 && k < |ms|
    ensures NotRun(Log(ms, ls, t, i, k), sid) <==> Skipped(ms, ls, t, i, k, sid)
  {
    if i < k {
      LogTells(ms, ls, t, i, k - 1, sid);
      var log, sent := Log(ms, ls, t, i, k - 1), Sent(ms, ls, t, k - 1);
      assert forall r :: r in log + sent <==> r in log || r in sent;
      if Skips(ms, ls, t, k - 1, sid) {
        assert Removal(ms[k - 1].ops[t].u, sid, false, false) in sent;
      }
    }
  }

  /** A member dead when Sync read the set is still listed at its end if and only if the SREM of
      that member failed; a member live at the end is always listed. */
  lemma DeadStaysIffSkipped(ms: seq<Machine>, ls: seq<Label>, t: Tid, u: UserId, i: nat, j: nat, sid: Sid)
    requires InSync(ms, ls, t, u, i, j) && t in ms[j].ops && ms[j].ops[t] == Pruning(u, [])
    requires sid in Members(ms[i].store, u)
    ensures !Live(ms[i].store, sid)
      ==> (sid in Members(ms[j].store, u) <==> Skipped(ms, ls, t, i, j, sid))
    ensures Live(ms[j].store, sid) ==> sid in Members(ms[j].store, u)
  {
    hide Synced, Log, InSync, Skipped, NotRun, Live;
    InSyncIsRun(ms, ls, t, u, i, j);
    SyncAccounts(ms, ls, t, u, i, j);
    SyncFate(ms[i], ms[j], u, Log(ms, ls, t, i, j), sid);
    LogTells(ms, ls, t, i, j, sid);
  }

  lemma InSyncIsRun(ms: seq<Machine>, ls: seq<Label>, t: Tid, u: UserId, i: nat, j: nat)
    requires InSync(ms, ls, t, u, i, j)
    ensures Run(ms, ls) && |ms| == |ls| + 1 && i < j < |ms|
  {
  }

  /** In every run that keeps the index, if none of u's sids expires during it, Sync ends with exactly
      u's live sids in u's set if and only if none of its SREMs failed. */
  lemma SyncExactIffNoneSkipped(ms: seq<Machine>, ls: seq<Label>, t: Tid, u: UserId, i: nat, j: nat)
    requires InSync(ms, ls, t, u, i, j) && t in ms[j].ops && ms[j].ops[t] == Pruning(u, [])
    requires forall k :: 0 <= k < |ls| ==> !ScansInWindow(ms[k], ls[k])
    requires forall sid :: sid in Members(ms[i].store, u) && Live(ms[i].store, sid) ==> Live(ms[j].store, sid)
    ensures (forall sid :: sid in Members(ms[j].store, u)
                       <==> Live(ms[j].store, sid) && ms[j].store.entries[sid].user == u)
      <==> forall sid :: !Skipped(ms, ls, t, i, j, sid)
  {
    hide Synced, Log, InSync, Skipped, ScansInWindow, Bound, Indexed;
    InSyncIsRun(ms, ls, t, u, i, j);
    SyncAccounts(ms, ls, t, u, i, j);
    RunKeepsBound(ms, ls, j);
    RunKeepsIndexed(ms, ls, j);
    SyncIsExact(ms[i], ms[j], u, Log(ms, ls, t, i, j));
    forall sid ensures NotRun(Log(ms, ls, t, i, j), sid) <==> Skipped(ms, ls, t, i, j, sid) {
      LogTells(ms, ls, t, i, j, sid);
    }
    hide Live, Members;
    forall r | r in Log(ms, ls, t, i, j) && !r.applied ensures NotRun(Log(ms, ls, t, i, j), r.sid) {
    }
  }
}
