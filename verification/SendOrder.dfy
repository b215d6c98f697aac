/**
  SendMessage of backend/pkg/chat/usecase/usecase.go run by any number of goroutines that
  share one usecase: lock the conversation's messages key, ZADD, PUBLISH, unlock.  Other
  users of the same lock (GetMessages takes read locks) may do anything the lock allows.
  */
module SendOrder {
  import L = KeyedLock
  import opened ChatKeys

  type Tid = L.Tid

  datatype Phase = Locking | Storing | Publishing | Unlocking

  datatype Job = Job(conv: string, payload: string, phase: Phase)

  /** What became of the PUBLISH that follows a ZADD. */
  datatype Fate = Pending | Sent | Dropped

  datatype Added = Added(payload: string, fate: Fate)

  /** `added` lists the executed ZADDs of each messages key, `published` the payloads that
      reached each channel, both in the order of execution. */
  datatype State = State(lock: L.State, jobs: map<Tid, Job>,
                         added: map<string, seq<Added>>, published: map<string, seq<string>>)

  const Empty := State(L.Empty, map[], map[], map[])

  function LogAt(s: State, key: string): seq<Added> {
    if key in s.added then s.added[key] else []
  }

  function ChannelAt(s: State, key: string): seq<string> {
    if key in s.published then s.published[key] else []
  }

  datatype Label =
    | LSend(t: Tid, conv: string, payload: string)
    | LLock(l: L.Label)                            // a step of the lock itself
    | LZAdd(t: Tid, applied: bool, ok: bool)
    | LPublish(t: Tid, delivered: bool)
    | LUnlock(t: Tid)

  predicate Allowed(s: State, l: Label) {
    match l
    case LSend(t, _, _) => t !in s.jobs && t !in s.lock.ops
    case LLock(m) =>
      && L.Allowed(s.lock, m)
      && (m.t in s.jobs ==> s.jobs[m.t].phase.Locking?)
      && (m.t !in s.jobs && m.LCall? ==> m.mode.Read?)
    case LZAdd(t, applied, ok) => t in s.jobs && s.jobs[t].phase.Storing? && (ok ==> applied)
    case LPublish(t, _) => t in s.jobs && s.jobs[t].phase.Publishing?
    case LUnlock(t) => t in s.jobs && s.jobs[t].phase.Unlocking? && L.Allowed(s.lock, L.LLeave(t))
  }

  function AddTo(s: State, t: Tid, fate: Fate): map<string, seq<Added>>
    requires t in s.jobs
  {
    var key := ConversationMessagesKey(s.jobs[t].conv);
    s.added[key := LogAt(s, key) + [Added(s.jobs[t].payload, fate)]]
  }

  /** The last entry of the log gets its fate. */
  function Settle(s: State, t: Tid, fate: Fate): map<string, seq<Added>>
    requires t in s.jobs
  {
    var key := ConversationMessagesKey(s.jobs[t].conv);
    var log := LogAt(s, key);
    if log == [] then s.added
    else s.added[key := log[..|log| - 1] + [log[|log| - 1].(fate := fate)]]
  }

  function Do(s: State, l: Label): State
    requires Allowed(s, l)
  {
    match l
    case LSend(t, conv, payload) =>
      s.(jobs := s.jobs[t := Job(conv, payload, Locking)],
         lock := L.Do(s.lock, L.LCall(t, ConversationMessagesKey(conv), L.Write)))
    case LLock(m) =>
      var lock := L.Do(s.lock, m);
      s.(lock := lock,
         jobs := if m.t in s.jobs && m.t in lock.ops && lock.ops[m.t].Holding?
                 then s.jobs[m.t := s.jobs[m.t].(phase := Storing)] else s.jobs)
    case LZAdd(t, applied, ok) =>
      s.(added := if applied then AddTo(s, t, if ok then Pending else Dropped) else s.added,
         jobs := s.jobs[t := s.jobs[t].(phase := if ok then Publishing else Unlocking)])
    case LPublish(t, delivered) =>
      var channel := ConversationPubSubKey(s.jobs[t].conv);
      s.(added := Settle(s, t, if delivered then Sent else Dropped),
         published := if delivered then s.published[channel := ChannelAt(s, channel) + [s.jobs[t].payload]]
                      else s.published,
         jobs := s.jobs[t := s.jobs[t].(phase := Unlocking)])
    case LUnlock(t) =>
      s.(lock := L.Do(s.lock, L.LLeave(t)), jobs := s.jobs - {t})
  }

  /** The payloads of the ZADDs whose PUBLISH went out, in ZADD order. */
  function SentOf(log: seq<Added>): seq<string> {
    if log == [] then []
    else
      var last := log[|log| - 1];
      SentOf(log[..|log| - 1]) + if last.fate.Sent? then [last.payload] else []
  }

  ghost predicate InLock(s: State, t: Tid)
    requires t in s.jobs
  {
    && t in s.lock.ops
    && s.lock.ops[t].key == ConversationMessagesKey(s.jobs[t].conv)
    && if s.jobs[t].phase.Locking? then
         s.lock.ops[t].Claimed? || (!s.lock.ops[t].Holding? && s.lock.ops[t].mode.Write?)
       else
         s.lock.ops[t].Holding? && s.lock.ops[t].mode.Write?
  }

  /** Only the last ZADD of a conversation can still await its PUBLISH, and then its sender is
      between the two commands; what went out is what the log says, in its order. */
  ghost predicate LogFits(s: State, conv: string) {
    var log := LogAt(s, ConversationMessagesKey(conv));
    && (forall i :: 0 <= i < |log| - 1 ==> !log[i].fate.Pending?)
    && (log != [] && log[|log| - 1].fate.Pending? ==>
          exists t :: t in s.jobs && s.jobs[t] == Job(conv, log[|log| - 1].payload, Publishing))
    && ChannelAt(s, ConversationPubSubKey(conv)) == SentOf(log)
  }

  ghost predicate JobFits(s: State, t: Tid)
    requires t in s.jobs
  {
    && InLock(s, t)
    && (s.jobs[t].phase.Publishing? ==>
          var log := LogAt(s, ConversationMessagesKey(s.jobs[t].conv));
          log != [] && log[|log| - 1] == Added(s.jobs[t].payload, Pending))
  }

  ghost predicate Inv(s: State) {
    && L.Inv(s.lock)
    && (forall t :: t in s.jobs ==> JobFits(s, t))
    && (forall conv :: LogFits(s, conv))
  }

  lemma StepKeepsInv(s: State, l: Label)
    requires Inv(s) && Allowed(s, l)
    ensures Inv(Do(s, l))
  {
    var s' := Do(s, l);
    match l {
      case LSend(t, conv, payload) => L.StepKeepsInv(s.lock, L.LCall(t, ConversationMessagesKey(conv), L.Write));
      case LLock(m) => L.StepKeepsInv(s.lock, m);
      case LUnlock(t) => L.StepKeepsInv(s.lock, L.LLeave(t));
      case _ =>
    }
    forall t | t in s'.jobs ensures JobFits(s', t) {
      JobKept(s, l, t);
    }
    forall conv ensures LogFits(s', conv) {
      LogKept(s, l, conv);
    }
  }

  /** Two senders past their lock are on different conversations. */
  lemma Alone(s: State, t: Tid, t': Tid)
    requires Inv(s) && t in s.jobs && t' in s.jobs && s.jobs[t].conv == s.jobs[t'].conv
    requires !s.jobs[t].phase.Locking? && !s.jobs[t'].phase.Locking?
    ensures t == t'
  {
    assert JobFits(s, t) && JobFits(s, t');
    L.WriterExcludes(s.lock, t, t');
  }

  lemma JobKept(s: State, l: Label, t: Tid)
    requires Inv(s) && Allowed(s, l) && t in Do(s, l).jobs
    ensures JobFits(Do(s, l), t)
  {
    hide L.Inv, LogFits;
    if t in s.jobs {
      assert JobFits(s, t);
    }
    if (l.LZAdd? || l.LPublish?) && l.t != t {
      if s.jobs[t].phase.Publishing? {
        OtherLogKept(s, l, t);
      }
      hide Settle, AddTo, LogAt;
    }
  }

  /** What one sender adds or settles is not in the log of another one's conversation. */
  lemma OtherLogKept(s: State, l: Label, t: Tid)
    requires Inv(s) && Allowed(s, l) && (l.LZAdd? || l.LPublish?) && l.t != t
    requires t in s.jobs && s.jobs[t].phase.Publishing?
    ensures var key := ConversationMessagesKey(s.jobs[t].conv); LogAt(Do(s, l), key) == LogAt(s, key)
  {
    hide L.Inv, LogFits, JobFits;
    KeysAreInjective(s.jobs[t].conv, s.jobs[l.t].conv);
    if s.jobs[t].conv == s.jobs[l.t].conv {
      Alone(s, t, l.t);
    }
  }

  lemma LogKept(s: State, l: Label, conv: string)
    requires Inv(s) && Allowed(s, l)
    ensures LogFits(Do(s, l), conv)
  {
    hide L.Inv, JobFits, LogFits;
    if (l.LZAdd? || l.LPublish?) && s.jobs[l.t].conv == conv {
      if l.LZAdd? {
        ZAddKeepsLog(s, l.t, l.applied, l.ok);
      } else {
        PublishKeepsLog(s, l.t, l.delivered);
      }
    } else {
      OthersKeepLog(s, l, conv);
    }
  }

  lemma OthersKeepLog(s: State, l: Label, conv: string)
    requires Inv(s) && Allowed(s, l)
    requires l.LZAdd? || l.LPublish? ==> s.jobs[l.t].conv != conv
    ensures LogFits(Do(s, l), conv)
  {
    hide L.Inv, JobFits, SentOf;
    assert LogFits(s, conv);
    if l.LZAdd? || l.LPublish? {
      KeysAreInjective(conv, s.jobs[l.t].conv);
    }
    var log := LogAt(s, ConversationMessagesKey(conv));
    if log != [] && log[|log| - 1].fate.Pending? {
      var t :| t in s.jobs && s.jobs[t] == Job(conv, log[|log| - 1].payload, Publishing);
      assert t in Do(s, l).jobs && Do(s, l).jobs[t] == s.jobs[t];
    }
  }

  lemma SentOfAppend(log: seq<Added>, last: Added)
    ensures SentOf(log + [last]) == SentOf(log) + if last.fate.Sent? then [last.payload] else []
  {
    assert (log + [last])[..|log|] == log;
  }

  lemma ZAddKeepsLog(s: State, t: Tid, applied: bool, ok: bool)
    requires Inv(s) && Allowed(s, LZAdd(t, applied, ok))
    ensures LogFits(Do(s, LZAdd(t, applied, ok)), s.jobs[t].conv)
  {
    hide L.Inv, JobFits, SentOf;
    var conv := s.jobs[t].conv;
    assert LogFits(s, conv);
    var s' := Do(s, LZAdd(t, applied, ok));
    var log, log' := LogAt(s, ConversationMessagesKey(conv)), LogAt(s', ConversationMessagesKey(conv));
    if log != [] && log[|log| - 1].fate.Pending? {
      var t' :| t' in s.jobs && s.jobs[t'] == Job(conv, log[|log| - 1].payload, Publishing);
      Alone(s, t, t');
    }
    if applied {
      SentOfAppend(log, log'[|log|]);
      assert ok ==> s'.jobs[t] == Job(conv, log'[|log|].payload, Publishing);
    }
  }

  lemma PublishKeepsLog(s: State, t: Tid, delivered: bool)
    requires Inv(s) && Allowed(s, LPublish(t, delivered))
    ensures LogFits(Do(s, LPublish(t, delivered)), s.jobs[t].conv)
  {
    hide L.Inv, SentOf;
    var conv := s.jobs[t].conv;
    assert LogFits(s, conv) && JobFits(s, t);
    var s' := Do(s, LPublish(t, delivered));
    var log, log' := LogAt(s, ConversationMessagesKey(conv)), LogAt(s', ConversationMessagesKey(conv));
    var front := log[..|log| - 1];
    assert log == front + [log[|log| - 1]];
    SentOfAppend(front, log[|log| - 1]);
    SentOfAppend(front, log'[|log| - 1]);
  }

  ghost predicate Run(ss: seq<State>, ls: seq<Label>) {
    && |ss| == |ls| + 1
    && ss[0] == Empty
    && forall i :: 0 <= i < |ls| ==> Allowed(ss[i], ls[i]) && ss[i + 1] == Do(ss[i], ls[i])
  }

  lemma {:induction false} RunKeepsInv(ss: seq<State>, ls: seq<Label>, i: nat)
    requires Run(ss, ls) && i < |ss|
    ensures Inv(ss[i])
  {
    if i > 0 {
      RunKeepsInv(ss, ls, i - 1);
      StepKeepsInv(ss[i - 1], ls[i - 1]);
    }
  }

  function Payloads(log: seq<Added>): seq<string> {
    seq(|log|, i requires 0 <= i < |log| => log[i].payload)
  }

  lemma {:induction false} AllSent(log: seq<Added>)
    requires forall i :: 0 <= i < |log| ==> log[i].fate.Sent?
    ensures SentOf(log) == Payloads(log)
  {
    if log != [] {
      AllSent(log[..|log| - 1]);
    }
  }

  predicate NoneDropped(log: seq<Added>) {
    forall k :: 0 <= k < |log| ==> !log[k].fate.Dropped?
  }

  /** No sender is under way on the conversation. */
  predicate Idle(s: State, conv: string) {
    forall t :: t in s.jobs ==> s.jobs[t].conv != conv
  }

  /** In every state of every interleaving, the payloads published for a conversation are those of
      its executed ZADDs, in the order the ZADDs ran, less the ones whose PUBLISH failed or (the
      last one only) has not run yet; with no failure and no sender under way, exactly all of them. */
  lemma PublishedInZAddOrder(ss: seq<State>, ls: seq<Label>, i: nat, conv: string)
    requires Run(ss, ls) && i < |ss|
    ensures
      var log := LogAt(ss[i], ConversationMessagesKey(conv));
      var sent := ChannelAt(ss[i], ConversationPubSubKey(conv));
      && sent == SentOf(log)
      && (forall k :: 0 <= k < |log| - 1 ==> !log[k].fate.Pending?)
      && (NoneDropped(log) && Idle(ss[i], conv) ==> sent == Payloads(log))
  {
    RunKeepsInv(ss, ls, i);
    assert LogFits(ss[i], conv);
    var log := LogAt(ss[i], ConversationMessagesKey(conv));
    if NoneDropped(log) && Idle(ss[i], conv) {
      assert log != [] ==> !log[|log| - 1].fate.Pending?;
      AllSent(log);
    }
  }
}
