/**
  Increments, reads and creations by many goroutines at once: CreateConversation writes one
  replica at a time, and IncrementInactiveUserMsgsCount and ReadConversationMessages fetch a
  replica with HGET and write it back with HSET later, with anything in between.
  */
module Replicas {
  import opened Wrappers
  import opened Chat
  import ChatUsecase

  type Tid = nat
  type Key = (string, string)

  datatype Pc =
    | Filing(conv: Conversation, rest: set<string>)   // CreateConversation: participants left to file
    | Counting(key: Key, conv: Conversation)          // an increment holds this copy
    | Reading(key: Key, conv: Conversation)           // a read holds this copy

  /** `created` keeps each conversation as its creator made it; `done` counts the completed
      increments of each replica, `since` those after the replica's last completed read. */
  datatype State = State(
    convs: map<Key, Conversation>,
    created: map<string, Conversation>,
    done: map<Key, nat>,
    since: map<Key, nat>,
    ops: map<Tid, Pc>)

  const Empty := State(map[], map[], map[], map[], map[])

  datatype Label =
    | LCreate(t: Tid, conv: Conversation)
    | LFile(t: Tid, participant: string)
    | LFetchToCount(t: Tid, key: Key)
    | LFetchToRead(t: Tid, key: Key)
    | LWriteBack(t: Tid)
    | LStop(t: Tid)

  function DoneAt(s: State, k: Key): nat {
    if k in s.done then s.done[k] else 0
  }

  function SinceAt(s: State, k: Key): nat {
    if k in s.since then s.since[k] else 0
  }

  predicate Allowed(s: State, l: Label) {
    match l
    case LCreate(t, conv) =>
      && t !in s.ops && conv.id !in s.created
      && conv.unread == 0 && conv.lastMessage == None && ChatUsecase.WellFormed(conv)
    case LFile(t, p) => t in s.ops && s.ops[t].Filing? && p in s.ops[t].rest
    case LFetchToCount(t, k) => t !in s.ops && k in s.convs
    case LFetchToRead(t, k) => t !in s.ops && k in s.convs
    case LWriteBack(t) => t in s.ops && !s.ops[t].Filing?
    case LStop(t) => t in s.ops
  }

  function Do(s: State, l: Label): State
    requires Allowed(s, l)
  {
    match l
    case LCreate(t, conv) =>
      s.(created := s.created[conv.id := conv], ops := s.ops[t := Filing(conv, conv.participants.Keys)])
    case LFile(t, p) =>
      var pc := s.ops[t];
      s.(convs := s.convs[(p, pc.conv.id) := pc.conv], ops := s.ops[t := Filing(pc.conv, pc.rest - {p})])
    case LFetchToCount(t, k) => s.(ops := s.ops[t := Counting(k, s.convs[k])])
    case LFetchToRead(t, k) => s.(ops := s.ops[t := Reading(k, s.convs[k])])
    case LWriteBack(t) =>
      var pc := s.ops[t];
      var key := (pc.key.0, pc.conv.id);
      if pc.Counting? then
        State(s.convs[key := pc.conv.(unread := pc.conv.unread + 1)], s.created,
              s.done[pc.key := DoneAt(s, pc.key) + 1], s.since[pc.key := SinceAt(s, pc.key) + 1], s.ops - {t})
      else
        s.(convs := s.convs[key := pc.conv.(unread := 0)], since := s.since[pc.key := 0], ops := s.ops - {t})
    case LStop(t) => s.(ops := s.ops - {t})
  }

  /** A copy of replica `k`: its conversation as created, but for a count within bounds. */
  ghost predicate IsCopy(s: State, k: Key, conv: Conversation) {
    && k.1 in s.created
    && conv.(unread := 0) == s.created[k.1]
    && conv.id == k.1 && k.0 in conv.participants
    && 0 <= conv.unread <= DoneAt(s, k)
  }

  ghost predicate PcFits(s: State, pc: Pc) {
    match pc
    case Filing(conv, rest) =>
      && conv.id in s.created && s.created[conv.id] == conv
      && rest <= conv.participants.Keys
      && (forall p :: p in rest ==> (p, conv.id) !in s.convs)
    case Counting(k, conv) => IsCopy(s, k, conv) && k in s.convs
    case Reading(k, conv) => IsCopy(s, k, conv) && k in s.convs
  }

  ghost predicate Recorded(s: State) {
    && (forall c :: c in s.created ==>
          s.created[c].id == c && s.created[c].unread == 0 && s.created[c].lastMessage == None)
    && (forall k :: k in s.since ==> k in s.convs)
  }

  ghost predicate Inv(s: State) {
    && Recorded(s)
    && (forall k :: k in s.convs ==> IsCopy(s, k, s.convs[k]))
    && (forall t :: t in s.ops ==> PcFits(s, s.ops[t]))
    && OneFiler(s)
  }

  /** Each conversation is filed by one creation. */
  ghost predicate OneFiler(s: State) {
    forall t, t' :: t in s.ops && t' in s.ops && t != t' && s.ops[t].Filing? && s.ops[t'].Filing?
      ==> s.ops[t].conv.id != s.ops[t'].conv.id
  }

  lemma CopyKept(s: State, l: Label, k: Key, conv: Conversation)
    requires Allowed(s, l) && IsCopy(s, k, conv)
    ensures IsCopy(Do(s, l), k, conv)
  {
  }

  lemma StepKeepsInv(s: State, l: Label)
    requires Inv(s) && Allowed(s, l)
    ensures Inv(Do(s, l))
  {
    var s' := Do(s, l);
    forall k | k in s'.convs ensures IsCopy(s', k, s'.convs[k]) {
      StoredKept(s, l, k);
    }
    forall t | t in s'.ops ensures PcFits(s', s'.ops[t]) {
      PcKept(s, l, t);
    }
    RecordsKept(s, l);
    OneFilerEach(s, l);
    hide IsCopy, PcFits, OneFiler, Recorded, Do, Allowed;
  }

  lemma RecordsKept(s: State, l: Label)
    requires Inv(s) && Allowed(s, l)
    ensures Recorded(Do(s, l))
  {
    if l.LWriteBack? {
      assert PcFits(s, s.ops[l.t]);
    }
    hide IsCopy;
  }

  lemma StoredKept(s: State, l: Label, k: Key)
    requires Inv(s) && Allowed(s, l) && k in Do(s, l).convs
    ensures IsCopy(Do(s, l), k, Do(s, l).convs[k])
  {
    hide OneFiler;
    if l.t in s.ops {
      assert PcFits(s, s.ops[l.t]);
    }
    if k in s.convs {
      CopyKept(s, l, k, s.convs[k]);
    }
  }

  /** A new conversation has a new id. */
  lemma OneFilerEach(s: State, l: Label)
    requires Inv(s) && Allowed(s, l)
    ensures OneFiler(Do(s, l))
  {
    forall t | t in s.ops && s.ops[t].Filing? ensures s.ops[t].conv.id in s.created {
      assert PcFits(s, s.ops[t]);
    }
    hide IsCopy, PcFits;
  }

  lemma PcKept(s: State, l: Label, t: Tid)
    requires Inv(s) && Allowed(s, l) && t in Do(s, l).ops
    ensures PcFits(Do(s, l), Do(s, l).ops[t])
  {
    hide Recorded, PcFits, IsCopy;
    if t == l.t {
      OwnPcKept(s, l);
    } else {
      OtherPcKept(s, l, t);
    }
  }

  lemma OwnPcKept(s: State, l: Label)
    requires Inv(s) && Allowed(s, l) && l.t in Do(s, l).ops
    ensures PcFits(Do(s, l), Do(s, l).ops[l.t])
  {
    hide Recorded, OneFiler;
    if l.t in s.ops {
      assert PcFits(s, s.ops[l.t]);
    }
  }

  lemma OtherPcKept(s: State, l: Label, t: Tid)
    requires Inv(s) && Allowed(s, l) && t in s.ops && t != l.t
    ensures PcFits(Do(s, l), s.ops[t])
  {
    hide Recorded;
    assert PcFits(s, s.ops[t]);
    if !s.ops[t].Filing? {
      CopyKept(s, l, s.ops[t].key, s.ops[t].conv);
    }
    if l.t in s.ops {
      assert PcFits(s, s.ops[l.t]);
    }
    hide IsCopy;
  }

  ghost predicate Run(ss: seq<State>, ls: seq<Label>) {
    && |ss| == |ls| + 1
    && ss[0] == Empty
    && forall i :: 0 <= i < |ls| ==> Allowed(ss[i], ls[i]) && ss[i + 1] == Do(ss[i], ls[i])
  }

  lemma RunStep(ss: seq<State>, ls: seq<Label>, i: nat)
    requires Run(ss, ls) && i < |ls|
    ensures Allowed(ss[i], ls[i]) && ss[i + 1] == Do(ss[i], ls[i])
  {
  }

  lemma {:induction false} RunKeepsInv(ss: seq<State>, ls: seq<Label>, i: nat)
    requires Run(ss, ls) && i < |ss|
    ensures Inv(ss[i])
  {
    if i > 0 {
      RunKeepsInv(ss, ls, i - 1);
      StepKeepsInv(ss[i - 1], ls[i - 1]);
    }
  }

  /** In every state of every interleaving, the replicas of a conversation agree on id,
      participants and creation time and store no newest message, and each unread count lies
      between 0 and the number of increments of that replica completed so far. */
  lemma ReplicasAgree(ss: seq<State>, ls: seq<Label>, i: nat, u: string, u': string, c: string)
    requires Run(ss, ls) && i < |ss| && (u, c) in ss[i].convs && (u', c) in ss[i].convs
    ensures ss[i].convs[(u, c)].(unread := 0) == ss[i].convs[(u', c)].(unread := 0)
    ensures ss[i].convs[(u, c)].id == c && u in ss[i].convs[(u, c)].participants
    ensures ss[i].convs[(u, c)].lastMessage == None
    ensures 0 <= ss[i].convs[(u, c)].unread <= DoneAt(ss[i], (u, c))
  {
    RunKeepsInv(ss, ls, i);
    assert IsCopy(ss[i], (u, c), ss[i].convs[(u, c)]) && IsCopy(ss[i], (u', c), ss[i].convs[(u', c)]);
    assert ss[i].convs[(u, c)].(unread := 0).lastMessage == None;
  }

  // ----- When the counts are exact

  /** The replica's count is the number of increments completed since its last completed read. */
  ghost predicate Exact(s: State, k: Key) {
    k in s.convs ==> s.convs[k].unread == SinceAt(s, k)
  }

  /** The thread holds a copy of replica `k`, fetched and not yet written back. */
  predicate Holds(s: State, t: Tid, k: Key) {
    t in s.ops && !s.ops[t].Filing? && s.ops[t].key == k
  }

  /** An increment writes back a copy that is no longer what is stored. */
  predicate StaleCount(s: State, l: Label, k: Key) {
    && l.LWriteBack? && Holds(s, l.t, k) && s.ops[l.t].Counting?
    && k in s.convs && s.ops[l.t].conv != s.convs[k]
  }

  /** An increment's write-back adds exactly one if and only if its copy is still what is stored. */
  lemma CountAddsOneIff(s: State, t: Tid, k: Key)
    requires Inv(s) && Holds(s, t, k) && s.ops[t].Counting?
    ensures Do(s, LWriteBack(t)).convs.Keys == s.convs.Keys && k in s.convs
    ensures Do(s, LWriteBack(t)).convs[k].unread == s.convs[k].unread + 1 <==> s.ops[t].conv == s.convs[k]
  {
    assert PcFits(s, s.ops[t]) && IsCopy(s, k, s.convs[k]);
    SameButCount(s, k, s.ops[t].conv);
    assert k == (k.0, s.ops[t].conv.id);
  }

  /** A read's write-back leaves an exact count of zero; what it takes away is what its copy counted
      if and only if the copy is still what is stored. */
  lemma ReadTakesItsCopyIff(s: State, t: Tid, k: Key)
    requires Inv(s) && Holds(s, t, k) && s.ops[t].Reading?
    ensures var s' := Do(s, LWriteBack(t)); k in s'.convs && s'.convs[k].unread == 0 && Exact(s', k)
    ensures k in s.convs
    ensures s.convs[k].unread - Do(s, LWriteBack(t)).convs[k].unread == s.ops[t].conv.unread
      <==> s.ops[t].conv == s.convs[k]
  {
    assert PcFits(s, s.ops[t]) && IsCopy(s, k, s.convs[k]);
    SameButCount(s, k, s.ops[t].conv);
    assert k == (k.0, s.ops[t].conv.id);
  }

  lemma SameButCount(s: State, k: Key, conv: Conversation)
    requires k in s.convs && IsCopy(s, k, conv) && IsCopy(s, k, s.convs[k])
    ensures conv == s.convs[k] <==> conv.unread == s.convs[k].unread
  {
    var a, b := conv.(unread := 0), s.convs[k].(unread := 0);
    assert conv == a.(unread := conv.unread) && s.convs[k] == b.(unread := s.convs[k].unread);
  }

  /** A step that writes back no copy of the replica keeps its count exact. */
  lemma OthersKeepExact(s: State, l: Label, k: Key)
    requires Inv(s) && Allowed(s, l) && Exact(s, k) && !(l.LWriteBack? && Holds(s, l.t, k))
    ensures Exact(Do(s, l), k)
  {
    hide OneFiler;
    if l.t in s.ops {
      assert PcFits(s, s.ops[l.t]);
    }
    if l.LWriteBack? {
      var x := s.ops[l.t].key;
      assert x == (x.0, s.ops[l.t].conv.id);
    }
    hide IsCopy;
  }

  /** A step makes an exact count inexact if and only if it is a stale increment. */
  lemma StepExact(s: State, l: Label, k: Key)
    requires Inv(s) && Allowed(s, l) && Exact(s, k)
    ensures Exact(Do(s, l), k) <==> !StaleCount(s, l, k)
  {
    hide Inv;
    if l.LWriteBack? && Holds(s, l.t, k) {
      if s.ops[l.t].Counting? {
        CountAddsOneIff(s, l.t, k);
      } else {
        ReadTakesItsCopyIff(s, l.t, k);
      }
    } else {
      OthersKeepExact(s, l, k);
    }
  }

  /** From an exact state of a run on (the start, or the end of a read), a replica's count stays exact
      if and only if no increment writes back a stale copy of it. */
  lemma {:induction false} ExactIffNoStaleCount(ss: seq<State>, ls: seq<Label>, h: nat, i: nat, k: Key)
    requires Run(ss, ls) && h <= i < |ss| && Exact(ss[h], k)
    ensures (forall j :: h <= j <= i ==> Exact(ss[j], k)) <==> (forall j :: h <= j < i ==> !StaleCount(ss[j], ls[j], k))
    decreases i
  {
    hide Inv, Exact, StaleCount, Do, Allowed;
    if h < i {
      ExactIffNoStaleCount(ss, ls, h, i - 1, k);
      RunKeepsInv(ss, ls, i - 1);
      RunStep(ss, ls, i - 1);
      hide Run;
      if Exact(ss[i - 1], k) {
        StepExact(ss[i - 1], ls[i - 1], k);
      }
    }
  }

  predicate Fetches(l: Label, k: Key) {
    (l.LFetchToCount? || l.LFetchToRead?) && l.key == k
  }

  /** The caller's rule: a replica is fetched only while nobody holds a copy of it. */
  ghost predicate OneAtATime(ss: seq<State>, ls: seq<Label>, i: nat, k: Key) {
    |ss| == |ls| + 1 && i < |ss|
    && forall j, t :: 0 <= j < i && Fetches(ls[j], k) ==> !Holds(ss[j], t, k)
  }

  /** At most one thread holds a copy of the replica, and it is what is stored. */
  ghost predicate SoleCopy(s: State, k: Key) {
    && (forall t, t' :: Holds(s, t, k) && Holds(s, t', k) ==> t == t')
    && (forall t :: Holds(s, t, k) ==> k in s.convs && s.ops[t].conv == s.convs[k])
  }

  lemma StepKeepsSoleCopy(s: State, l: Label, k: Key)
    requires Inv(s) && Allowed(s, l) && SoleCopy(s, k)
    requires Fetches(l, k) ==> forall t :: !Holds(s, t, k)
    ensures SoleCopy(Do(s, l), k) && !StaleCount(s, l, k)
  {
    var s' := Do(s, l);
    forall t | Holds(s', t, k) && !(Fetches(l, k) && t == l.t)
      ensures Holds(s, t, k) && s'.ops[t] == s.ops[t] && s'.convs[k] == s.convs[k]
    {
      StoredUnderCopy(s, l, t, k);
    }
  }

  /** A step that leaves another thread with its sole copy leaves the stored replica, too. */
  lemma StoredUnderCopy(s: State, l: Label, t: Tid, k: Key)
    requires Inv(s) && Allowed(s, l) && SoleCopy(s, k)
    requires Holds(Do(s, l), t, k) && !(Fetches(l, k) && t == l.t)
    ensures Holds(s, t, k) && Do(s, l).ops[t] == s.ops[t]
    ensures k in s.convs && k in Do(s, l).convs && Do(s, l).convs[k] == s.convs[k]
  {
    if l.LFile? {
      assert PcFits(s, s.ops[l.t]);
    } else if l.LWriteBack? {
      assert PcFits(s, s.ops[l.t]);
      var x := s.ops[l.t].key;
      assert x == (x.0, s.ops[l.t].conv.id);
      assert x == k ==> Holds(s, l.t, k);
    }
    hide IsCopy;
  }

  lemma {:induction false} RunKeepsSoleCopy(ss: seq<State>, ls: seq<Label>, i: nat, k: Key)
    requires Run(ss, ls) && OneAtATime(ss, ls, i, k)
    ensures SoleCopy(ss[i], k) && forall j :: 0 <= j < i ==> !StaleCount(ss[j], ls[j], k)
  {
    if i > 0 {
      RunKeepsSoleCopy(ss, ls, i - 1, k);
      RunKeepsInv(ss, ls, i - 1);
      StepKeepsSoleCopy(ss[i - 1], ls[i - 1], k);
      hide SoleCopy, StaleCount, Do, Allowed, Inv;
    }
  }

  /** In every run in which the replica is fetched by one operation at a time, its count is always the
      number of increments completed since its last completed read. */
  lemma OneAtATimeCountsExactly(ss: seq<State>, ls: seq<Label>, i: nat, k: Key)
    requires Run(ss, ls) && OneAtATime(ss, ls, i, k) && k in ss[i].convs
    ensures ss[i].convs[k].unread == SinceAt(ss[i], k)
  {
    RunKeepsSoleCopy(ss, ls, i, k);
    assert Exact(ss[0], k);
    ExactIffNoStaleCount(ss, ls, 0, i, k);
    hide StaleCount, OneAtATime, Run;
    assert Exact(ss[i], k);
  }

  /** The upper bound need not be reached: from any state in which a replica exists and two
      threads are free, two increments can complete and count for one. */
  lemma IncrementsCanBeLost(s: State, t: Tid, t': Tid, k: Key)
    requires Inv(s) && k in s.convs && t !in s.ops && t' !in s.ops && t != t'
    ensures
      var a, b := LFetchToCount(t, k), LFetchToCount(t', k);
      && Allowed(s, a)
      && Allowed(Do(s, a), b)
      && Allowed(Do(Do(s, a), b), LWriteBack(t))
      && Allowed(Do(Do(Do(s, a), b), LWriteBack(t)), LWriteBack(t'))
      && (var last := Do(Do(Do(Do(s, a), b), LWriteBack(t)), LWriteBack(t'));
          DoneAt(last, k) == DoneAt(s, k) + 2 && last.convs[k].unread == s.convs[k].unread + 1)
  {
    assert IsCopy(s, k, s.convs[k]);
    assert k == (k.0, s.convs[k].id);
  }
}
