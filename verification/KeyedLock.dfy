/**
  backend/pkg/lock/lock.go: a map from key to RW mutex, filled on first use.

  Calls run concurrently, so the lock is a transition system: LoadOrStore is one step, a
  writer first claims its mutex (which keeps new readers out) and then waits for the
  readers inside to leave, a reader enters when no writer has claimed it.
  */
module KeyedLock {
  type Tid = nat
  type Id = nat

  datatype Mode = Write | Read

  /** pending: a writer has claimed the mutex; active: that writer is in; readers: how many are in. */
  datatype RWMutex = RWMutex(pending: bool, active: bool, readers: int)

  datatype Pc =
    | Arrived(key: string, mode: Mode)
    | Loaded(key: string, mode: Mode, id: Id)
    | Claimed(key: string, id: Id)
    | Holding(key: string, mode: Mode, id: Id)

  datatype State = State(table: map<string, Id>, heap: map<Id, RWMutex>, ops: map<Tid, Pc>)

  const Empty := State(map[], map[], map[])

  datatype Label =
    | LCall(t: Tid, key: string, mode: Mode)
    | LLoad(t: Tid, spare: Id)   // `spare` is the mutex allocated for LoadOrStore
    | LEnter(t: Tid)
    | LLeave(t: Tid)

  /** The mutex lets the thread past its next wait. */
  predicate CanEnter(s: State, pc: Pc)
    requires !pc.Arrived? && pc.id in s.heap
  {
    match pc
    case Loaded(_, _, id) => !s.heap[id].pending
    case Claimed(_, id) => s.heap[id].readers == 0
    case Holding(_, _, _) => false
  }

  predicate Allowed(s: State, l: Label) {
    match l
    case LCall(t, _, _) => t !in s.ops
    case LLoad(t, spare) => t in s.ops && s.ops[t].Arrived? && spare !in s.heap
    case LEnter(t) => t in s.ops && !s.ops[t].Arrived? && s.ops[t].id in s.heap && CanEnter(s, s.ops[t])
    case LLeave(t) => t in s.ops && s.ops[t].Holding? && s.ops[t].id in s.heap
  }

  function Enter(s: State, t: Tid): State
    requires Allowed(s, LEnter(t))
  {
    var m := s.heap[s.ops[t].id];
    match s.ops[t]
    case Loaded(key, Write, id) =>
      s.(heap := s.heap[id := m.(pending := true)], ops := s.ops[t := Claimed(key, id)])
    case Loaded(key, Read, id) =>
      s.(heap := s.heap[id := m.(readers := m.readers + 1)], ops := s.ops[t := Holding(key, Read, id)])
    case Claimed(key, id) =>
      s.(heap := s.heap[id := m.(active := true)], ops := s.ops[t := Holding(key, Write, id)])
  }

  function Do(s: State, l: Label): State
    requires Allowed(s, l)
  {
    match l
    case LCall(t, key, mode) => s.(ops := s.ops[t := Arrived(key, mode)])
    case LLoad(t, spare) =>
      var pc := s.ops[t];
      if pc.key in s.table then s.(ops := s.ops[t := Loaded(pc.key, pc.mode, s.table[pc.key])])
      else State(s.table[pc.key := spare], s.heap[spare := RWMutex(false, false, 0)],
                 s.ops[t := Loaded(pc.key, pc.mode, spare)])
    case LEnter(t) => Enter(s, t)
    case LLeave(t) =>
      var id, m := s.ops[t].id, s.heap[s.ops[t].id];
      var m' := if s.ops[t].mode.Read? then m.(readers := m.readers - 1) else m.(pending := false, active := false);
      s.(heap := s.heap[id := m'], ops := s.ops - {t})
  }

  // ----- The mutex fields count the threads

  predicate Reads(s: State, t: Tid, id: Id) {
    t in s.ops && s.ops[t].Holding? && s.ops[t].mode.Read? && s.ops[t].id == id
  }

  predicate Writes(s: State, t: Tid, id: Id) {
    t in s.ops && s.ops[t].Holding? && s.ops[t].mode.Write? && s.ops[t].id == id
  }

  predicate Claims(s: State, t: Tid, id: Id) {
    t in s.ops && s.ops[t].Claimed? && s.ops[t].id == id
  }

  function Readers(s: State, id: Id): set<Tid> {
    set t | t in s.ops && Reads(s, t, id)
  }

  function Writers(s: State, id: Id): set<Tid> {
    set t | t in s.ops && Writes(s, t, id)
  }

  function Claimers(s: State, id: Id): set<Tid> {
    set t | t in s.ops && Claims(s, t, id)
  }

  ghost predicate Counted(s: State, id: Id)
    requires id in s.heap
  {
    var m := s.heap[id];
    && m.readers == |Readers(s, id)|
    && |Writers(s, id)| == One(m.active)
    && |Claimers(s, id)| == One(m.pending && !m.active)
    && (m.active ==> m.pending && m.readers == 0)
  }

  function One(b: bool): nat {
    if b then 1 else 0
  }

  ghost predicate Tabled(s: State) {
    && (forall k :: k in s.table ==> s.table[k] in s.heap)
    && (forall k, k' :: k in s.table && k' in s.table && s.table[k] == s.table[k'] ==> k == k')
    && (forall t :: t in s.ops && !s.ops[t].Arrived? ==> s.ops[t].key in s.table && s.table[s.ops[t].key] == s.ops[t].id)
  }

  ghost predicate Inv(s: State) {
    Tabled(s) && forall id :: id in s.heap ==> Counted(s, id)
  }

  lemma StepKeepsInv(s: State, l: Label)
    requires Inv(s) && Allowed(s, l)
    ensures Inv(Do(s, l))
  {
    var s' := Do(s, l);
    forall id | id in s'.heap ensures Counted(s', id) {
      CountedKept(s, l, id);
    }
    hide Counted;
    TableKept(s, l);
  }

  lemma TableKept(s: State, l: Label)
    requires Tabled(s) && Allowed(s, l)
    ensures Tabled(Do(s, l))
  {
  }

  lemma Card(x: set<Tid>, x': set<Tid>, t: Tid)
    requires x - {t} == x' - {t}
    ensures |x'| == |x| - One(t in x) + One(t in x')
  {
    assert |x - {t}| == |x| - One(t in x);
    assert |x' - {t}| == |x'| - One(t in x');
  }

  /** A step moves nobody but its own thread in or out. */
  lemma OnlyItsThread(s: State, l: Label, id: Id)
    requires Allowed(s, l)
    ensures
      var s', t := Do(s, l), l.t;
      && |Readers(s', id)| == |Readers(s, id)| - One(Reads(s, t, id)) + One(Reads(s', t, id))
      && |Writers(s', id)| == |Writers(s, id)| - One(Writes(s, t, id)) + One(Writes(s', t, id))
      && |Claimers(s', id)| == |Claimers(s, id)| - One(Claims(s, t, id)) + One(Claims(s', t, id))
  {
    var s', t := Do(s, l), l.t;
    assert forall x :: x != t ==> (x in s'.ops <==> x in s.ops) && (x in s.ops ==> s'.ops[x] == s.ops[x]);
    Card(Readers(s, id), Readers(s', id), t);
    Card(Writers(s, id), Writers(s', id), t);
    Card(Claimers(s, id), Claimers(s', id), t);
  }

  lemma CountedKept(s: State, l: Label, id: Id)
    requires Inv(s) && Allowed(s, l) && id in Do(s, l).heap
    ensures Counted(Do(s, l), id)
  {
    OnlyItsThread(s, l, id);
    if id !in s.heap {
      assert Readers(s, id) == {} && Writers(s, id) == {} && Claimers(s, id) == {};
    } else {
      assert Counted(s, id);
      InItsSet(s, l.t, id);
      hide Readers, Writers, Claimers;
    }
  }

  lemma InItsSet(s: State, t: Tid, id: Id)
    ensures Reads(s, t, id) ==> |Readers(s, id)| >= 1
    ensures Writes(s, t, id) ==> |Writers(s, id)| >= 1
    ensures Claims(s, t, id) ==> |Claimers(s, id)| >= 1
  {
    assert Reads(s, t, id) ==> t in Readers(s, id);
    assert Writes(s, t, id) ==> t in Writers(s, id);
    assert Claims(s, t, id) ==> t in Claimers(s, id);
  }

  lemma Single(w: set<Tid>, t: Tid)
    requires t in w && |w| <= 1
    ensures w == {t}
  {
    assert |w - {t}| == 0;
  }

  // ----- What the lock promises

  /** A writer on a key is alone on that key. */
  lemma WriterExcludes(s: State, t: Tid, t': Tid)
    requires Inv(s)
    requires t in s.ops && s.ops[t].Holding? && s.ops[t].mode.Write?
    requires t' in s.ops && s.ops[t'].Holding? && s.ops[t'].key == s.ops[t].key
    ensures t' == t
  {
    var id := s.ops[t].id;
    assert Counted(s, id) && t in Writers(s, id);
    Single(Writers(s, id), t);
    InItsSet(s, t', id);
    assert s.ops[t'].mode.Write? ==> t' in Writers(s, id);
  }

  /** The thread's next wait conflicts with what `t'` has: a loaded caller with a writer that
      claimed or holds the key, a claiming writer with a reader of the key. */
  predicate InTheWay(s: State, t: Tid, t': Tid)
    requires t in s.ops && t' in s.ops
  {
    && s.ops[t'].key == s.ops[t].key
    && match s.ops[t]
       case Loaded(_, _, _) => s.ops[t'].Claimed? || (s.ops[t'].Holding? && s.ops[t'].mode.Write?)
       case Claimed(_, _) => s.ops[t'].Holding? && s.ops[t'].mode.Read?
       case _ => false
  }

  /** A waiting caller is blocked exactly when another caller of the same key is in its way. */
  lemma BlockedBySameKeyOnly(s: State, t: Tid)
    requires Inv(s) && t in s.ops && (s.ops[t].Loaded? || s.ops[t].Claimed?)
    ensures !Allowed(s, LEnter(t)) <==> exists t' :: t' in s.ops && t' != t && InTheWay(s, t, t')
  {
    var id := s.ops[t].id;
    assert Counted(s, id);
    if s.ops[t].Loaded? && s.heap[id].pending {
      var t' :| t' in Writers(s, id) || t' in Claimers(s, id);
      assert t' != t && InTheWay(s, t, t');
    } else if s.ops[t].Claimed? && s.heap[id].readers != 0 {
      var t' :| t' in Readers(s, id);
      assert t' != t && InTheWay(s, t, t');
    } else {
      assert forall t' :: t' in s.ops && InTheWay(s, t, t')
                ==> (t' in Writers(s, id) || t' in Claimers(s, id) || t' in Readers(s, id));
    }
  }

  ghost predicate Run(ss: seq<State>, ls: seq<Label>) {
    && |ss| == |ls| + 1
    && ss[0] == Empty
    && forall i :: 0 <= i < |ls| ==> Allowed(ss[i], ls[i]) && ss[i + 1] == Do(ss[i], ls[i])
  }

  lemma {:induction false} RunKeepsInv(ss: seq<State>, ls: seq<Label>, i: nat)
    requires Run(ss, ls) && i < |ss|
    ensures Inv(ss[i])
  {
    if i > 0 {
      RunKeepsInv(ss, ls, i - 1);
      StepKeepsInv(ss[i - 1], ls[i - 1]);
    }
  }

  /** In every run a key keeps the first mutex it gets, and every caller of the key uses that one. */
  lemma {:induction false} OneMutexPerKey(ss: seq<State>, ls: seq<Label>, i: nat, j: nat, key: string)
    requires Run(ss, ls) && i <= j < |ss| && key in ss[i].table
    ensures key in ss[j].table && ss[j].table[key] == ss[i].table[key]
    ensures forall t :: t in ss[j].ops && !ss[j].ops[t].Arrived? && ss[j].ops[t].key == key
              ==> ss[j].ops[t].id == ss[i].table[key]
    decreases j
  {
    hide Counted;
    RunKeepsInv(ss, ls, j);
    if i < j {
      OneMutexPerKey(ss, ls, i, j - 1, key);
    }
  }

  // ----- What a thread asked for

  /** The steps a thread has taken from its last call on. */
  function SinceCall(ls: seq<Label>, t: Tid): seq<Label> {
    if ls == [] then []
    else
      var last := ls[|ls| - 1];
      if last.t != t then SinceCall(ls[..|ls| - 1], t)
      else if last.LCall? then [last]
      else SinceCall(ls[..|ls| - 1], t) + [last]
  }

  /** Where these steps lead: Lock takes two waits, RLock one, and both leave the key and the mode as
      they were asked for. */
  predicate Leads(steps: seq<Label>, pc: Pc) {
    && steps != [] && steps[0].LCall? && pc.key == steps[0].key
    && match |steps|
       case 1 => pc.Arrived? && pc.mode == steps[0].mode
       case 2 => pc.Loaded? && pc.mode == steps[0].mode
       case 3 => if steps[0].mode.Read? then pc.Holding? && pc.mode.Read? else pc.Claimed?
       case 4 => steps[0].mode.Write? && pc.Holding? && pc.mode.Write?
       case _ => false
  }

  ghost predicate Follows(s: State, steps: seq<Label>, t: Tid) {
    && (t in s.ops <==> steps != [] && !steps[|steps| - 1].LLeave?)
    && (t in s.ops ==> Leads(steps, s.ops[t]))
  }

  lemma StepFollows(s: State, l: Label, steps: seq<Label>, t: Tid)
    requires Allowed(s, l) && Follows(s, steps, t)
    ensures Follows(Do(s, l), if l.t != t then steps else if l.LCall? then [l] else steps + [l], t)
  {
  }

  lemma RunStep(ss: seq<State>, ls: seq<Label>, i: nat)
    requires Run(ss, ls) && i < |ls|
    ensures Allowed(ss[i], ls[i]) && ss[i + 1] == Do(ss[i], ls[i])
  {
  }

  lemma SinceCallNext(ls: seq<Label>, i: nat, t: Tid)
    requires i < |ls|
    ensures SinceCall(ls[..i + 1], t)
         == if ls[i].t != t then SinceCall(ls[..i], t)
            else if ls[i].LCall? then [ls[i]] else SinceCall(ls[..i], t) + [ls[i]]
  {
    assert ls[..i + 1][..i] == ls[..i];
  }

  /** In every run, each thread stands where its own steps have led it. */
  lemma {:induction false} ThreadsFollowTheirCalls(ss: seq<State>, ls: seq<Label>, i: nat, t: Tid)
    requires Run(ss, ls) && i < |ss|
    ensures Follows(ss[i], SinceCall(ls[..i], t), t)
  {
    if i > 0 {
      hide Follows, Do, Allowed, SinceCall;
      ThreadsFollowTheirCalls(ss, ls, i - 1, t);
      RunStep(ss, ls, i - 1);
      SinceCallNext(ls, i - 1, t);
      StepFollows(ss[i - 1], ls[i - 1], SinceCall(ls[..i - 1], t), t);
    }
  }

  lemma {:induction false} CallsAreSteps(ls: seq<Label>, t: Tid)
    requires SinceCall(ls, t) != []
    ensures SinceCall(ls, t)[0].LCall? ==> SinceCall(ls, t)[0] in ls
  {
    var front := ls[..|ls| - 1];
    assert forall l :: l in front ==> l in ls;
    if SinceCall(front, t) != [] {
      CallsAreSteps(front, t);
    }
  }

  /** Readers share: in every run in which a key was asked for by RLock only, no caller of the key waits. */
  lemma ReadersShare(ss: seq<State>, ls: seq<Label>, i: nat, t: Tid)
    requires Run(ss, ls) && i < |ss| && t in ss[i].ops && ss[i].ops[t].Loaded?
    requires forall j :: 0 <= j < i && ls[j].LCall? && ls[j].key == ss[i].ops[t].key ==> ls[j].mode.Read?
    ensures Allowed(ss[i], LEnter(t))
  {
    var s := ss[i];
    RunKeepsInv(ss, ls, i);
    forall t' | t' in s.ops && s.ops[t'].key == s.ops[t].key
      ensures !s.ops[t'].Claimed? && (s.ops[t'].Holding? ==> s.ops[t'].mode.Read?)
    {
      ThreadsFollowTheirCalls(ss, ls, i, t');
      CallsAreSteps(ls[..i], t');
      var call := SinceCall(ls[..i], t')[0];
      assert call in ls[..i] && call.key == s.ops[t].key;
    }
    hide Inv, Run;
    BlockedBySameKeyOnly(s, t);
  }

  // ----- Only the two waits wait

  lemma FreshId(used: set<Id>) returns (id: Id)
    ensures id !in used
  {
    var n := LargestId(used);
    id := n + 1;
  }

  lemma {:induction false} LargestId(used: set<Id>) returns (n: nat)
    ensures forall x :: x in used ==> x <= n
  {
    if used == {} {
      n := 0;
    } else {
      var x :| x in used;
      var rest := used - {x};
      n := LargestId(rest);
      n := if n < x then x else n;
      assert forall y :: y in used ==> y == x || y in rest;
    }
  }

  /** An idle thread can call, an arrived one find its mutex, and a holder leave, whatever the others do. */
  lemma CallsAndLeavesNeverWait(s: State, t: Tid, key: string, mode: Mode)
    requires Inv(s)
    ensures t !in s.ops ==> Allowed(s, LCall(t, key, mode))
    ensures t in s.ops && s.ops[t].Arrived? ==> exists spare :: Allowed(s, LLoad(t, spare))
    ensures t in s.ops && s.ops[t].Holding? ==> Allowed(s, LLeave(t))
  {
    var spare := FreshId(s.heap.Keys);
    assert t in s.ops && s.ops[t].Arrived? ==> Allowed(s, LLoad(t, spare));
  }

  /** The lock never gets stuck: while anyone has called, someone who has can go on. */
  lemma NeverStuck(s: State, t: Tid) returns (l: Label)
    requires Inv(s) && t in s.ops
    ensures l.t in s.ops && !l.LCall? && Allowed(s, l)
  {
    var mover := Mover(s, t);
    CallsAndLeavesNeverWait(s, mover, "", Read);
    if s.ops[mover].Arrived? {
      var spare :| Allowed(s, LLoad(mover, spare));
      l := LLoad(mover, spare);
    } else {
      l := if s.ops[mover].Holding? then LLeave(mover) else LEnter(mover);
    }
  }

  /** Whoever is in a waiter's way either holds or, at most one further, waits for a holder. */
  lemma Mover(s: State, t: Tid) returns (mover: Tid)
    requires Inv(s) && t in s.ops
    ensures mover in s.ops
    ensures s.ops[mover].Arrived? || s.ops[mover].Holding? || Allowed(s, LEnter(mover))
  {
    mover := t;
    if s.ops[t].Loaded? && !Allowed(s, LEnter(t)) {
      BlockedBySameKeyOnly(s, t);
      mover :| mover in s.ops && mover != t && InTheWay(s, t, mover);
    }
    if s.ops[mover].Claimed? && !Allowed(s, LEnter(mover)) {
      BlockedBySameKeyOnly(s, mover);
      var holder :| holder in s.ops && holder != mover && InTheWay(s, mover, holder);
      mover := holder;
    }
  }
}
