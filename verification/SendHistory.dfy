/**
  The senders of SendOrder against the history of their steps: what was stored and published, in
  which order, and that no sender is ever stuck, read off the steps of a run alone.
  */
module SendHistory {
  import L = KeyedLock
  import opened ChatKeys
  import opened SendOrder

  datatype Send = Send(conv: string, payload: string)

  /** The thread's last call of SendMessage. */
  function LastSend(ls: seq<Label>, t: Tid): seq<Send> {
    if ls == [] then []
    else
      var last := ls[|ls| - 1];
      if last.LSend? && last.t == t then [Send(last.conv, last.payload)] else LastSend(ls[..|ls| - 1], t)
  }

  /** The payloads of the ZADDs that ran for the conversation, in their order. */
  function Stored(ls: seq<Label>, conv: string): seq<string> {
    if ls == [] then []
    else Stored(ls[..|ls| - 1], conv) + StoredBy(ls[..|ls| - 1], ls[|ls| - 1], conv)
  }

  function StoredBy(before: seq<Label>, l: Label, conv: string): seq<string> {
    if l.LZAdd? && l.applied then Payload(LastSend(before, l.t), conv) else []
  }

  /** The payloads of the PUBLISHes that reached the conversation's channel, in their order. */
  function Published(ls: seq<Label>, conv: string): seq<string> {
    if ls == [] then []
    else Published(ls[..|ls| - 1], conv) + PublishedBy(ls[..|ls| - 1], ls[|ls| - 1], conv)
  }

  function PublishedBy(before: seq<Label>, l: Label, conv: string): seq<string> {
    if l.LPublish? && l.delivered then Payload(LastSend(before, l.t), conv) else []
  }

  function Payload(sends: seq<Send>, conv: string): seq<string> {
    if sends != [] && sends[0].conv == conv then [sends[0].payload] else []
  }

  /** No ZADD and no PUBLISH failed. */
  predicate NoFailures(ls: seq<Label>) {
    forall j :: 0 <= j < |ls| ==> (ls[j].LZAdd? ==> ls[j].ok) && (ls[j].LPublish? ==> ls[j].delivered)
  }

  /** `x` is `y` with some elements left out. */
  predicate Subsequence(x: seq<string>, y: seq<string>) {
    || x == []
    || (&& y != []
        && (|| Subsequence(x, y[..|y| - 1])
            || (x[|x| - 1] == y[|y| - 1] && Subsequence(x[..|x| - 1], y[..|y| - 1]))))
  }

  // ----- Each thread's part

  lemma RunStep(ss: seq<State>, ls: seq<Label>, i: nat)
    requires Run(ss, ls) && i < |ls|
    ensures |ss| == |ls| + 1 && Allowed(ss[i], ls[i]) && ss[i + 1] == Do(ss[i], ls[i])
  {
  }

  lemma Prefix(ls: seq<Label>, i: nat)
    requires i < |ls|
    ensures ls[..i + 1][..i] == ls[..i] && ls[..i + 1][i] == ls[i]
  {
  }

  /** In every run, a sender carries the conversation and payload it was called with. */
  lemma {:induction false} JobIsItsSend(ss: seq<State>, ls: seq<Label>, i: nat, t: Tid)
    requires Run(ss, ls) && i < |ss| && t in ss[i].jobs
    ensures LastSend(ls[..i], t) == [Send(ss[i].jobs[t].conv, ss[i].jobs[t].payload)]
  {
    if i > 0 {
      RunStep(ss, ls, i - 1);
      Prefix(ls, i - 1);
      if t in ss[i - 1].jobs {
        JobIsItsSend(ss, ls, i - 1, t);
      }
      hide Run, AddTo, Settle;
    }
  }

  /** The thread's last step on its own account, leaving the lock's steps aside. */
  function LastMove(ls: seq<Label>, t: Tid): seq<Label> {
    if ls == [] then []
    else
      var last := ls[|ls| - 1];
      if !last.LLock? && last.t == t then [last] else LastMove(ls[..|ls| - 1], t)
  }

  /** Called: in the lock.  After a ZADD: on to PUBLISH if it was answered, else out.  After a PUBLISH: out. */
  ghost predicate Stands(s: State, move: seq<Label>, t: Tid) {
    && (t in s.jobs <==> move != [] && !move[0].LUnlock?)
    && (t in s.jobs ==>
          match move[0]
          case LSend(_, _, _) => s.jobs[t].phase.Locking? || s.jobs[t].phase.Storing?
          case LZAdd(_, _, ok) => if ok then s.jobs[t].phase.Publishing? else s.jobs[t].phase.Unlocking?
          case LPublish(_, _) => s.jobs[t].phase.Unlocking?
          case _ => false)
  }

  lemma StepStands(s: State, l: Label, move: seq<Label>, t: Tid)
    requires Allowed(s, l) && Stands(s, move, t)
    ensures Stands(Do(s, l), if !l.LLock? && l.t == t then [l] else move, t)
  {
    hide AddTo, Settle, L.Do, L.Allowed;
  }

  /** In every run, each sender goes through ZADD, PUBLISH and unlock as SendMessage does. */
  lemma {:induction false} SendersFollowSendMessage(ss: seq<State>, ls: seq<Label>, i: nat, t: Tid)
    requires Run(ss, ls) && i < |ss|
    ensures Stands(ss[i], LastMove(ls[..i], t), t)
  {
    if i > 0 {
      hide Stands, Do, Allowed;
      SendersFollowSendMessage(ss, ls, i - 1, t);
      RunStep(ss, ls, i - 1);
      Prefix(ls, i - 1);
      StepStands(ss[i - 1], ls[i - 1], LastMove(ls[..i - 1], t), t);
      hide Run;
    }
  }

  // ----- What was stored and published

  ghost predicate JobsAreSends(s: State, before: seq<Label>) {
    forall t :: t in s.jobs ==> JobIsSend(s, before, t)
  }

  ghost predicate JobIsSend(s: State, before: seq<Label>, t: Tid)
    requires t in s.jobs
  {
    LastSend(before, t) == [Send(s.jobs[t].conv, s.jobs[t].payload)]
  }

  lemma StepStores(s: State, l: Label, before: seq<Label>, conv: string)
    requires Allowed(s, l)
    requires JobsAreSends(s, before)
    ensures
      var key := ConversationMessagesKey(conv);
      Payloads(LogAt(Do(s, l), key)) == Payloads(LogAt(s, key)) + StoredBy(before, l, conv)
  {
    hide LastSend;
    assert l.LZAdd? ==> JobIsSend(s, before, l.t);
    if l.LZAdd? || l.LPublish? {
      KeysAreInjective(s.jobs[l.t].conv, conv);
    }
  }

  lemma StepPublishes(s: State, l: Label, before: seq<Label>, conv: string)
    requires Allowed(s, l)
    requires JobsAreSends(s, before)
    ensures
      var key := ConversationPubSubKey(conv);
      ChannelAt(Do(s, l), key) == ChannelAt(s, key) + PublishedBy(before, l, conv)
  {
    hide LastSend, Settle, AddTo;
    assert l.LPublish? ==> JobIsSend(s, before, l.t);
    if l.LPublish? {
      KeysAreInjective(s.jobs[l.t].conv, conv);
    }
  }

  /** In every run, the log holds the payloads of the ZADDs that ran, and the channel those of the
      PUBLISHes that were delivered, each in the order of the run. */
  lemma {:induction false} StoreIsHistory(ss: seq<State>, ls: seq<Label>, i: nat, conv: string)
    requires Run(ss, ls) && i < |ss|
    ensures Payloads(LogAt(ss[i], ConversationMessagesKey(conv))) == Stored(ls[..i], conv)
    ensures ChannelAt(ss[i], ConversationPubSubKey(conv)) == Published(ls[..i], conv)
  {
    if i > 0 {
      hide Do, Allowed, Payloads, LogAt, ChannelAt, StoredBy, PublishedBy, LastSend;
      StoreIsHistory(ss, ls, i - 1, conv);
      RunStep(ss, ls, i - 1);
      Prefix(ls, i - 1);
      var s, before := ss[i - 1], ls[..i - 1];
      forall t | t in s.jobs ensures JobIsSend(s, before, t) {
        JobIsItsSend(ss, ls, i - 1, t);
      }
      hide Run;
      StepStores(ss[i - 1], ls[i - 1], ls[..i - 1], conv);
      StepPublishes(ss[i - 1], ls[i - 1], ls[..i - 1], conv);
    }
  }

  lemma SubsequenceGrows(x: seq<string>, y: seq<string>, p: string)
    requires Subsequence(x, y)
    ensures Subsequence(x, y + [p]) && Subsequence(x + [p], y + [p])
  {
    assert (y + [p])[..|y|] == y && (x + [p])[..|x|] == x;
  }

  lemma {:induction false} SentIsSubsequence(log: seq<Added>)
    ensures Subsequence(SentOf(log), Payloads(log))
  {
    if log != [] {
      var front, last := log[..|log| - 1], log[|log| - 1];
      SentIsSubsequence(front);
      assert Payloads(log) == Payloads(front) + [last.payload];
      hide Subsequence;
      SubsequenceGrows(SentOf(front), Payloads(front), last.payload);
      assert SentOf(log) == if last.fate.Sent? then SentOf(front) + [last.payload] else SentOf(front);
    }
  }

  lemma StepDropsNone(s: State, l: Label, conv: string)
    requires Allowed(s, l) && (l.LZAdd? ==> l.ok) && (l.LPublish? ==> l.delivered)
    requires NoneDropped(LogAt(s, ConversationMessagesKey(conv)))
    ensures NoneDropped(LogAt(Do(s, l), ConversationMessagesKey(conv)))
  {
  }

  /** Only failures drop anything. */
  lemma {:induction false} NoFailuresDropNone(ss: seq<State>, ls: seq<Label>, i: nat, conv: string)
    requires Run(ss, ls) && i < |ss| && NoFailures(ls[..i])
    ensures NoneDropped(LogAt(ss[i], ConversationMessagesKey(conv)))
  {
    if i > 0 {
      assert forall j :: 0 <= j < i ==> ls[..i][j] == ls[j];
      assert forall j :: 0 <= j < i - 1 ==> ls[..i - 1][j] == ls[j];
      hide NoneDropped, Do, Allowed, LogAt;
      NoFailuresDropNone(ss, ls, i - 1, conv);
      RunStep(ss, ls, i - 1);
      hide Run;
      StepDropsNone(ss[i - 1], ls[i - 1], conv);
    }
  }

  /** In every run of any number of senders: what was published to a conversation's channel is, in that
      order, part of what was stored for it; without a failure it lacks at most the last; and without a
      failure and with no sender under way it is all of it. */
  lemma PublishedAsStored(ss: seq<State>, ls: seq<Label>, i: nat, conv: string)
    requires Run(ss, ls) && i < |ss|
    ensures
      var stored, published := Stored(ls[..i], conv), Published(ls[..i], conv);
      && Subsequence(published, stored)
      && (NoFailures(ls[..i]) ==> published <= stored && |stored| <= |published| + 1)
      && (NoFailures(ls[..i]) && Idle(ss[i], conv) ==> published == stored)
  {
    var log := LogAt(ss[i], ConversationMessagesKey(conv));
    hide Stored, Published, Subsequence, SentOf, Payloads;
    StoreIsHistory(ss, ls, i, conv);
    PublishedInZAddOrder(ss, ls, i, conv);
    SentIsSubsequence(log);
    if NoFailures(ls[..i]) {
      NoFailuresDropNone(ss, ls, i, conv);
      hide Run, LogAt;
      AllButLastSent(log);
    }
  }

  lemma AllButLastSent(log: seq<Added>)
    requires NoneDropped(log) && forall k :: 0 <= k < |log| - 1 ==> !log[k].fate.Pending?
    ensures SentOf(log) <= Payloads(log) && |Payloads(log)| <= |SentOf(log)| + 1
  {
    if log != [] {
      var front := log[..|log| - 1];
      AllSent(front);
      assert Payloads(log) == Payloads(front) + [log[|log| - 1].payload];
    }
  }

  // ----- No sender is ever stuck

  /** Only senders lock for writing, so none leaves the lock behind. */
  ghost predicate OthersOnlyRead(s: State) {
    forall t :: t in s.lock.ops && t !in s.jobs ==> !s.lock.ops[t].Claimed? && s.lock.ops[t].mode.Read?
  }

  lemma StepKeepsOthersReading(s: State, l: Label)
    requires OthersOnlyRead(s) && Allowed(s, l)
    ensures OthersOnlyRead(Do(s, l))
  {
    hide AddTo, Settle;
  }

  lemma {:induction false} RunKeepsOthersReading(ss: seq<State>, ls: seq<Label>, i: nat)
    requires Run(ss, ls) && i < |ss|
    ensures OthersOnlyRead(ss[i])
  {
    if i > 0 {
      hide OthersOnlyRead, Do, Allowed;
      RunKeepsOthersReading(ss, ls, i - 1);
      RunStep(ss, ls, i - 1);
      hide Run;
      StepKeepsOthersReading(ss[i - 1], ls[i - 1]);
    }
  }

  /** In every run, while a message is being sent, some step of a sender or of a holder of the lock is
      possible; a sender past the lock is never kept waiting. */
  lemma NeverStuck(ss: seq<State>, ls: seq<Label>, i: nat, t: Tid) returns (l: Label)
    requires Run(ss, ls) && i < |ss| && t in ss[i].jobs
    ensures Allowed(ss[i], l) && !l.LSend? && !(l.LLock? && l.l.LCall?)
    ensures ss[i].jobs[t].phase.Storing? ==> Allowed(ss[i], LZAdd(t, true, true))
    ensures ss[i].jobs[t].phase.Publishing? ==> Allowed(ss[i], LPublish(t, true))
    ensures ss[i].jobs[t].phase.Unlocking? ==> Allowed(ss[i], LUnlock(t))
  {
    hide LogFits, Do, L.Inv, L.Do;
    var s := ss[i];
    RunKeepsInv(ss, ls, i);
    hide Run;
    SenderGoesOn(s, t);
    assert JobFits(s, t);
    var m := L.NeverStuck(s.lock, t);
    if m.t in s.jobs {
      SenderGoesOn(s, m.t);
      match s.jobs[m.t].phase
      case Locking => l := LLock(m);
      case Storing => l := LZAdd(m.t, true, true);
      case Publishing => l := LPublish(m.t, true);
      case Unlocking => l := LUnlock(m.t);
    } else {
      l := LLock(m);
    }
  }

  lemma SenderGoesOn(s: State, t: Tid)
    requires Inv(s) && t in s.jobs
    ensures s.jobs[t].phase.Storing? ==> Allowed(s, LZAdd(t, true, true))
    ensures s.jobs[t].phase.Publishing? ==> Allowed(s, LPublish(t, true))
    ensures s.jobs[t].phase.Unlocking? ==> Allowed(s, LUnlock(t))
  {
    hide L.Inv, LogFits;
    assert JobFits(s, t);
    L.CallsAndLeavesNeverWait(s.lock, t, "", L.Read);
  }

  /** In every run, a sender that has to wait waits for someone who locked the messages of the very
      conversation it sends to; if that is a sender, it sends there too. */
  lemma WaitsForItsConversation(ss: seq<State>, ls: seq<Label>, i: nat, t: Tid) returns (t': Tid)
    requires Run(ss, ls) && i < |ss| && t in ss[i].jobs && ss[i].jobs[t].phase.Locking?
    requires t in ss[i].lock.ops && (ss[i].lock.ops[t].Loaded? || ss[i].lock.ops[t].Claimed?)
    requires !L.Allowed(ss[i].lock, L.LEnter(t))
    ensures t' != t && t' in ss[i].lock.ops && L.InTheWay(ss[i].lock, t, t')
    ensures ss[i].lock.ops[t'].key == "conversations:" + ss[i].jobs[t].conv + ":messages"
    ensures t' in ss[i].jobs ==> ss[i].jobs[t'].conv == ss[i].jobs[t].conv
  {
    hide LogFits, L.Inv, L.Do;
    var s := ss[i];
    RunKeepsInv(ss, ls, i);
    hide Run;
    assert JobFits(s, t);
    L.BlockedBySameKeyOnly(s.lock, t);
    t' :| t' in s.lock.ops && t' != t && L.InTheWay(s.lock, t, t');
    if t' in s.jobs {
      assert JobFits(s, t');
      KeysAreInjective(s.jobs[t].conv, s.jobs[t'].conv);
    }
  }
}
