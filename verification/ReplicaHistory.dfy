/**
  The replicas of Replicas against the history of the steps that made them: which exist, what they
  hold and what they count, read off the steps of a run alone.
  */
module ReplicaHistory {
  import opened Wrappers
  import opened Chat
  import R = Replicas

  type Tid = R.Tid
  type Key = R.Key
  type Label = R.Label

  /** What a thread is doing, by its own steps. */
  datatype Doing = Idle | Creating(conv: Conversation, filed: set<string>) | Counting(key: Key) | Reading(key: Key)

  function DoingOf(ls: seq<Label>, t: Tid): Doing {
    if ls == [] then Idle
    else
      var last, before := ls[|ls| - 1], DoingOf(ls[..|ls| - 1], t);
      if last.t != t then before else After(before, last)
  }

  function After(before: Doing, l: Label): Doing {
    match l
    case LCreate(_, conv) => Creating(conv, {})
    case LFile(_, p) => if before.Creating? then Creating(before.conv, before.filed + {p}) else Idle
    case LFetchToCount(_, key) => Counting(key)
    case LFetchToRead(_, key) => Reading(key)
    case LWriteBack(_) => Idle
    case LStop(_) => Idle
  }

  /** The increments of the replica that were completed. */
  function Completed(ls: seq<Label>, k: Key): nat {
    if ls == [] then 0
    else
      var last, front := ls[|ls| - 1], ls[..|ls| - 1];
      Completed(front, k) + if last.LWriteBack? && DoingOf(front, last.t) == Counting(k) then 1 else 0
  }

  /** Those completed since the last completed read of the replica. */
  function SinceRead(ls: seq<Label>, k: Key): nat {
    if ls == [] then 0
    else
      var last, front := ls[|ls| - 1], ls[..|ls| - 1];
      if last.LWriteBack? && DoingOf(front, last.t) == Reading(k) then 0
      else SinceRead(front, k) + if last.LWriteBack? && DoingOf(front, last.t) == Counting(k) then 1 else 0
  }

  /** The step files the replica for its user. */
  predicate Files(before: seq<Label>, l: Label, k: Key) {
    && l.LFile? && l.participant == k.0
    && DoingOf(before, l.t).Creating? && DoingOf(before, l.t).conv.id == k.1
  }

  predicate Filed(ls: seq<Label>, k: Key) {
    ls != [] && (Filed(ls[..|ls| - 1], k) || Files(ls[..|ls| - 1], ls[|ls| - 1], k))
  }

  /** The conversations created. */
  function Created(ls: seq<Label>): set<Conversation> {
    set j | 0 <= j < |ls| && ls[j].LCreate? :: ls[j].conv
  }

  // ----- The state tells the history

  ghost predicate Matches(s: R.State, doing: Doing, t: Tid) {
    match doing
    case Idle => t !in s.ops
    case Creating(conv, filed) =>
      t in s.ops && s.ops[t] == R.Filing(conv, conv.participants.Keys - filed)
    case Counting(k) => t in s.ops && s.ops[t].Counting? && s.ops[t].key == k
    case Reading(k) => t in s.ops && s.ops[t].Reading? && s.ops[t].key == k
  }

  lemma StepMatches(s: R.State, l: Label, doing: Doing, t: Tid)
    requires R.Allowed(s, l) && Matches(s, doing, t)
    ensures Matches(R.Do(s, l), if l.t != t then doing else After(doing, l), t)
  {
    if l.t == t && l.LFile? {
      assert s.ops[t].rest - {l.participant} == doing.conv.participants.Keys - (doing.filed + {l.participant});
    }
  }

  lemma RunStep(ss: seq<R.State>, ls: seq<Label>, i: nat)
    requires R.Run(ss, ls) && i < |ls|
    ensures |ss| == |ls| + 1 && R.Allowed(ss[i], ls[i]) && ss[i + 1] == R.Do(ss[i], ls[i])
    ensures ls[..i + 1][..i] == ls[..i] && ls[..i + 1][i] == ls[i] && ls[..i + 1] == ls[..i] + [ls[i]]
  {
  }

  /** In every run, each thread is doing what its own steps say. */
  lemma {:induction false} ThreadsDoAsTheyBegan(ss: seq<R.State>, ls: seq<Label>, i: nat, t: Tid)
    requires R.Run(ss, ls) && i < |ss|
    ensures Matches(ss[i], DoingOf(ls[..i], t), t)
  {
    if i > 0 {
      hide Matches, After, R.Do, R.Allowed;
      ThreadsDoAsTheyBegan(ss, ls, i - 1, t);
      RunStep(ss, ls, i - 1);
      hide R.Run;
      StepMatches(ss[i - 1], ls[i - 1], DoingOf(ls[..i - 1], t), t);
    }
  }

  ghost predicate Tells(s: R.State, ls: seq<Label>, k: Key) {
    && TellsCounts(s, ls, k)
    && (k in s.convs <==> Filed(ls, k))
    && (k.1 in s.created ==> s.created[k.1] in Created(ls))
  }

  ghost predicate TellsCounts(s: R.State, ls: seq<Label>, k: Key) {
    R.DoneAt(s, k) == Completed(ls, k) && R.SinceAt(s, k) == SinceRead(ls, k)
  }

  lemma CreatedGrows(ls: seq<Label>, l: Label)
    ensures Created(ls + [l]) == Created(ls) + if l.LCreate? then {l.conv} else {}
  {
    var all := ls + [l];
    assert all[|ls|] == l && forall j :: 0 <= j < |ls| ==> all[j] == ls[j];
    forall conv ensures conv in Created(all) <==> conv in Created(ls) || (l.LCreate? && conv == l.conv) {
      if conv in Created(ls) {
        var j :| 0 <= j < |ls| && ls[j].LCreate? && ls[j].conv == conv;
        assert all[j].conv == conv;
      }
      if l.LCreate? && conv == l.conv {
        assert all[|ls|].conv == conv;
      }
    }
  }

  lemma StepTells(s: R.State, l: Label, ls: seq<Label>, k: Key)
    requires R.Inv(s) && R.Allowed(s, l) && Tells(s, ls, k) && Matches(s, DoingOf(ls, l.t), l.t)
    ensures Tells(R.Do(s, l), ls + [l], k)
  {
    StepTellsCounts(s, l, ls, k);
    CreatedGrows(ls, l);
    hide Created, DoingOf, TellsCounts;
    assert (ls + [l])[..|ls|] == ls && (ls + [l])[|ls|] == l;
    if l.LWriteBack? {
      assert R.PcFits(s, s.ops[l.t]);
      var x := s.ops[l.t].key;
      assert x == (x.0, s.ops[l.t].conv.id);
    }
    assert k == (k.0, k.1);
    hide R.IsCopy, R.Inv;
  }

  lemma StepTellsCounts(s: R.State, l: Label, ls: seq<Label>, k: Key)
    requires R.Allowed(s, l) && TellsCounts(s, ls, k) && Matches(s, DoingOf(ls, l.t), l.t)
    ensures TellsCounts(R.Do(s, l), ls + [l], k)
  {
    hide DoingOf;
    assert (ls + [l])[..|ls|] == ls && (ls + [l])[|ls|] == l;
  }

  /** In every run: a replica exists exactly if it was filed, `done` and `since` count what was completed,
      and every conversation is as some creation made it. */
  lemma {:induction false} StateIsHistory(ss: seq<R.State>, ls: seq<Label>, i: nat, k: Key)
    requires R.Run(ss, ls) && i < |ss|
    ensures Tells(ss[i], ls[..i], k)
  {
    if i > 0 {
      hide Tells, Matches, DoingOf, R.Do, R.Allowed, R.Inv;
      StateIsHistory(ss, ls, i - 1, k);
      RunStep(ss, ls, i - 1);
      R.RunKeepsInv(ss, ls, i - 1);
      ThreadsDoAsTheyBegan(ss, ls, i - 1, ls[i - 1].t);
      hide R.Run;
      StepTells(ss[i - 1], ls[i - 1], ls[..i - 1], k);
    }
  }

  /** In every run, a replica exists exactly if it was filed; it is as a creation made it but for its
      count, and the count is at most the number of increments completed. */
  lemma ReplicasAreAsFiled(ss: seq<R.State>, ls: seq<Label>, i: nat, u: string, c: string)
    requires R.Run(ss, ls) && i < |ss|
    ensures (u, c) in ss[i].convs <==> Filed(ls[..i], (u, c))
    ensures (u, c) in ss[i].convs ==>
      && ss[i].convs[(u, c)].(unread := 0) in Created(ls[..i])
      && 0 <= ss[i].convs[(u, c)].unread <= Completed(ls[..i], (u, c))
  {
    R.RunKeepsInv(ss, ls, i);
    StateIsHistory(ss, ls, i, (u, c));
    if (u, c) in ss[i].convs {
      assert R.IsCopy(ss[i], (u, c), ss[i].convs[(u, c)]);
    }
  }

  /** In every run in which the replica is fetched by one operation at a time, its count is the number
      of increments completed since the last completed read. */
  lemma OneAtATimeCountsHistory(ss: seq<R.State>, ls: seq<Label>, i: nat, k: Key)
    requires R.Run(ss, ls) && R.OneAtATime(ss, ls, i, k) && k in ss[i].convs
    ensures ss[i].convs[k].unread == SinceRead(ls[..i], k)
  {
    R.OneAtATimeCountsExactly(ss, ls, i, k);
    StateIsHistory(ss, ls, i, k);
  }

  /** As conversation.New makes it. */
  predicate IsNew(conv: Conversation) {
    && conv.unread == 0 && conv.lastMessage == None
    && (forall p :: p in conv.participants ==> conv.participants[p].userId == p)
  }

  /** Nothing ever waits: an idle thread can create a conversation with a new id and fetch any replica,
      a creation can file any participant left, and whoever holds a copy can write it back. */
  lemma NothingWaits(s: R.State, t: Tid, conv: Conversation, k: Key, p: string)
    ensures t !in s.ops && k in s.convs ==> R.Allowed(s, R.LFetchToCount(t, k)) && R.Allowed(s, R.LFetchToRead(t, k))
    ensures t !in s.ops && conv.id !in s.created && IsNew(conv) ==> R.Allowed(s, R.LCreate(t, conv))
    ensures t in s.ops && s.ops[t].Filing? && p in s.ops[t].rest ==> R.Allowed(s, R.LFile(t, p))
    ensures t in s.ops && !s.ops[t].Filing? ==> R.Allowed(s, R.LWriteBack(t))
  {
  }
}
