/** Unread counts over whole sequential runs of the chat operations. */
module ChatRuns {
  import opened Wrappers
  import opened Chat
  import opened ChatUsecase

  datatype Op =
    | Create(conv: Conversation)
    | Send(c: string, msg: Message)
    | Read(u: string, c: string)
    | Activate(u: string, c: string)
    | Deactivate(u: string)

  /** The operation succeeds: new ids for new conversations, participants as senders and readers. */
  ghost predicate Succeeds(s: Store, op: Op) {
    match op
    case Create(conv) =>
      WellFormed(conv) && conv.unread == 0 && conv.lastMessage == None && forall k :: k in s.convs ==> k.1 != conv.id
    case Send(c, msg) => (msg.userId, c) in s.convs
    case Read(u, c) => (u, c) in s.convs
    case Activate(_, _) => true
    case Deactivate(_) => true
  }

  /** The stores the methods of Usecase and Controller leave. */
  function Step(s: Store, op: Op): Store
    requires op.Send? ==> (op.msg.userId, op.c) in s.convs
    requires op.Read? ==> (op.u, op.c) in s.convs
  {
    match op
    case Create(conv) => Created(s, conv)
    case Send(c, msg) => Sent(s, c, msg)
    case Read(u, c) => MarkedRead(s, u, c)
    case Activate(u, c) => s.(active := s.active[u := c])
    case Deactivate(u) => s.(active := s.active - {u})
  }

  /** `ss[i]` is the store after the first `i` operations. */
  ghost predicate Run(ops: seq<Op>, ss: seq<Store>) {
    && |ss| == |ops| + 1
    && ss[0] == Empty
    && forall i :: 0 <= i < |ops| ==> Succeeds(ss[i], ops[i]) && ss[i + 1] == Step(ss[i], ops[i])
  }

  // ----- What the history says

  /** The conversation the user has open after these operations. */
  function OpenAfter(ops: seq<Op>, u: string): Option<string> {
    if ops == [] then None
    else
      var op := ops[|ops| - 1];
      if op.Activate? && op.u == u then Some(op.c)
      else if op.Deactivate? && op.u == u then None
      else OpenAfter(ops[..|ops| - 1], u)
  }

  /** The operation starts the user's count for the conversation anew. */
  predicate Restarts(op: Op, u: string, c: string) {
    (op.Read? && op.u == u && op.c == c) || (op.Create? && op.conv.id == c)
  }

  /** The sends to `c` since u's last read of it or its creation during which u had it not open. */
  function Missed(ops: seq<Op>, u: string, c: string): set<nat> {
    set i: nat | i < |ops| && MissedAt(ops, i, u, c)
  }

  predicate MissedAt(ops: seq<Op>, i: nat, u: string, c: string)
    requires i < |ops|
  {
    && ops[i].Send? && ops[i].c == c && (OpenAfter(ops[..i], u) != Some(c) || c == "")
    && (forall j :: i < j < |ops| ==> !Restarts(ops[j], u, c))
  }

  predicate IsParticipant(ops: seq<Op>, u: string, c: string) {
    exists i :: 0 <= i < |ops| && ops[i].Create? && ops[i].conv.id == c && u in ops[i].conv.participants
  }

  lemma MissedGrows(ops: seq<Op>, op: Op, u: string, c: string)
    ensures Missed(ops + [op], u, c)
         == if Restarts(op, u, c) then {}
            else if op.Send? && op.c == c && Away(OpenAfter(ops, u), c) then Missed(ops, u, c) + {|ops|}
            else Missed(ops, u, c)
  {
    var all := ops + [op];
    forall i: nat | i < |ops|
      ensures MissedAt(all, i, u, c) <==> MissedAt(ops, i, u, c) && !Restarts(op, u, c)
    {
      assert all[..i] == ops[..i];
      assert all[|ops|] == op;
      assert forall j :: i < j < |ops| ==> all[j] == ops[j];
    }
    assert all[..|ops|] == ops;
    assert MissedAt(all, |ops|, u, c) <==> op.Send? && op.c == c && Away(OpenAfter(ops, u), c);
  }

  lemma ParticipantGrows(ops: seq<Op>, op: Op, u: string, c: string)
    ensures IsParticipant(ops + [op], u, c)
       <==> IsParticipant(ops, u, c) || (op.Create? && op.conv.id == c && u in op.conv.participants)
  {
    var all := ops + [op];
    assert all[|ops|] == op;
    if i :| 0 <= i < |ops| && ops[i].Create? && ops[i].conv.id == c && u in ops[i].conv.participants {
      assert all[i] == ops[i];
    }
  }

  ghost predicate Opens(ops: seq<Op>, s: Store) {
    forall u :: ActiveOf(s, u) == OpenAfter(ops, u)
  }

  ghost predicate Counts(ops: seq<Op>, s: Store) {
    forall k :: k in s.convs ==> s.convs[k].unread == |Missed(ops, k.0, k.1)| && s.convs[k].lastMessage == None
  }

  ghost predicate Belongs(ops: seq<Op>, s: Store) {
    forall k :: k in s.convs <==> IsParticipant(ops, k.0, k.1)
  }

  /** The store tells what the history tells. */
  ghost predicate Tells(ops: seq<Op>, s: Store) {
    Fits(s) && Opens(ops, s) && Counts(ops, s) && Belongs(ops, s)
  }

  lemma StepFits(s: Store, op: Op)
    requires Fits(s) && Succeeds(s, op)
    ensures Fits(Step(s, op))
  {
    hide Fits;
    match op
    case Create(conv) => CreatedFits(s, conv);
    case Send(c, msg) => SentFits(s, c, msg);
    case Read(u, c) => ReadFits(s, u, c);
    case _ => ActiveFits(s, Step(s, op));
  }

  /** A send reaches every participant's replica. */
  lemma SendCounts(s: Store, c: string, msg: Message, k: (string, string))
    requires Fits(s) && (msg.userId, c) in s.convs && k in Sent(s, c, msg).convs
    ensures Sent(s, c, msg).convs.Keys == s.convs.Keys
    ensures Sent(s, c, msg).convs[k].lastMessage == s.convs[k].lastMessage
    ensures Sent(s, c, msg).convs[k].unread
         == s.convs[k].unread + if k.1 == c && Away(ActiveOf(s, k.0), c) then 1 else 0
  {
    hide Away, ActiveOf;
    if k.1 == c {
      SameParticipants(s, (msg.userId, c), k);
    }
    hide Fits;
  }

  lemma StepTells(ops: seq<Op>, op: Op, s: Store)
    requires Tells(ops, s) && Succeeds(s, op)
    ensures Tells(ops + [op], Step(s, op))
  {
    hide Fits, Opens, Counts, Belongs, Step, Succeeds;
    StepFits(s, op);
    OpensTold(ops, op, s);
    CountsTold(ops, op, s);
    BelongsTold(ops, op, s);
  }

  lemma OpensTold(ops: seq<Op>, op: Op, s: Store)
    requires Opens(ops, s) && Succeeds(s, op)
    ensures Opens(ops + [op], Step(s, op))
  {
    hide Step, OpenAfter, ActiveOf;
    forall u ensures ActiveOf(Step(s, op), u) == OpenAfter(ops + [op], u) {
      ActiveTold(ops, op, s, u);
    }
  }

  lemma CountsTold(ops: seq<Op>, op: Op, s: Store)
    requires Tells(ops, s) && Succeeds(s, op)
    ensures Counts(ops + [op], Step(s, op))
  {
    hide Tells, Step, Missed;
    forall k | k in Step(s, op).convs
      ensures Step(s, op).convs[k].unread == |Missed(ops + [op], k.0, k.1)| && Step(s, op).convs[k].lastMessage == None
    {
      CountTold(ops, op, s, k);
    }
  }

  lemma BelongsTold(ops: seq<Op>, op: Op, s: Store)
    requires Belongs(ops, s) && Succeeds(s, op)
    ensures Belongs(ops + [op], Step(s, op))
  {
    hide Step, IsParticipant;
    forall k ensures k in Step(s, op).convs <==> IsParticipant(ops + [op], k.0, k.1) {
      ParticipantTold(ops, op, s, k);
    }
  }

  lemma ActiveTold(ops: seq<Op>, op: Op, s: Store, u: string)
    requires Succeeds(s, op) && ActiveOf(s, u) == OpenAfter(ops, u)
    ensures ActiveOf(Step(s, op), u) == OpenAfter(ops + [op], u)
  {
    assert (ops + [op])[..|ops|] == ops;
  }

  lemma ParticipantTold(ops: seq<Op>, op: Op, s: Store, k: (string, string))
    requires Succeeds(s, op) && (k in s.convs <==> IsParticipant(ops, k.0, k.1))
    ensures k in Step(s, op).convs <==> IsParticipant(ops + [op], k.0, k.1)
  {
    ParticipantGrows(ops, op, k.0, k.1);
    assert k == (k.0, k.1);
  }

  lemma CountTold(ops: seq<Op>, op: Op, s: Store, k: (string, string))
    requires Tells(ops, s) && Succeeds(s, op) && k in Step(s, op).convs
    ensures Step(s, op).convs[k].unread == |Missed(ops + [op], k.0, k.1)| && Step(s, op).convs[k].lastMessage == None
  {
    hide Fits, Missed, OpenAfter, IsParticipant, ActiveOf, Away, Step, Succeeds, Restarts;
    MissedGrows(ops, op, k.0, k.1);
    MissedAreOld(ops, k.0, k.1);
    StepCounts(s, op, k);
    assert ActiveOf(s, k.0) == OpenAfter(ops, k.0);
  }

  lemma MissedAreOld(ops: seq<Op>, u: string, c: string)
    ensures |ops| !in Missed(ops, u, c)
  {
  }

  /** What one operation does to a replica. */
  lemma StepCounts(s: Store, op: Op, k: (string, string))
    requires Fits(s) && Succeeds(s, op) && k in Step(s, op).convs
    ensures !Restarts(op, k.0, k.1) ==> k in s.convs
    ensures
      var conv := Step(s, op).convs[k];
      if Restarts(op, k.0, k.1) then
        conv.unread == 0 && (conv.lastMessage == None || (k in s.convs && conv.lastMessage == s.convs[k].lastMessage))
      else
        && conv.lastMessage == s.convs[k].lastMessage
        && conv.unread == s.convs[k].unread
                          + if op.Send? && op.c == k.1 && Away(ActiveOf(s, k.0), op.c) then 1 else 0
  {
    assert k == (k.0, k.1);
    if op.Send? {
      hide Fits, Sent, Away;
      SendCounts(s, op.c, op.msg, k);
    } else {
      hide Fits, Sent, Away;
    }
  }

  lemma {:induction false} RunTells(ops: seq<Op>, ss: seq<Store>, i: nat)
    requires Run(ops, ss) && i < |ss|
    ensures Tells(ops[..i], ss[i])
  {
    if i == 0 {
      assert forall k: (string, string) :: !IsParticipant(ops[..0], k.0, k.1);
    } else {
      RunTells(ops, ss, i - 1);
      StepTells(ops[..i - 1], ops[i - 1], ss[i - 1]);
      assert ops[..i] == ops[..i - 1] + [ops[i - 1]];
    }
  }

  /** After any sequential run, exactly the participants of the created conversations hold
      replicas, each replica counts exactly the sends its user missed, and the replicas of a
      conversation agree on everything else, with no newest message stored. */
  lemma UnreadCountsMissedSends(ops: seq<Op>, ss: seq<Store>, u: string, c: string)
    requires Run(ops, ss)
    ensures (u, c) in ss[|ops|].convs <==> IsParticipant(ops, u, c)
    ensures (u, c) in ss[|ops|].convs ==>
      && ss[|ops|].convs[(u, c)].unread == |Missed(ops, u, c)|
      && ss[|ops|].convs[(u, c)].lastMessage == None
      && (forall p :: p in ss[|ops|].convs[(u, c)].participants ==>
            (p, c) in ss[|ops|].convs
            && ss[|ops|].convs[(p, c)].(unread := 0) == ss[|ops|].convs[(u, c)].(unread := 0))
  {
    RunTells(ops, ss, |ops|);
    assert ops[..|ops|] == ops;
    var s, k := ss[|ops|], (u, c);
    assert k in s.convs <==> IsParticipant(ops, k.0, k.1);
    if k in s.convs {
      assert Agrees(s, (u, c));
    }
  }

  /** The message set of a conversation stays sorted, so once any message is visible to a
      participant, the newest message handed out with the conversation ends the last page. */
  lemma LastMessageEndsLastPage(ops: seq<Op>, ss: seq<Store>, u: string, c: string, offset: nat)
    requires Run(ops, ss) && (u, c) in ss[|ops|].convs
    ensures u in ss[|ops|].convs[(u, c)].participants
    ensures
      var s := ss[|ops|];
      var conv := s.convs[(u, c)];
      var page := PageOf(LogOf(s, c), conv.participants[u].joinedAt, offset);
      (page.messages != [] && !page.hasMore ==>
         WithLast(s, conv).lastMessage == Some(page.messages[|page.messages| - 1]))
  {
    hide PageOf, Counts, Belongs, Opens;
    RunTells(ops, ss, |ops|);
    var s := ss[|ops|];
    ReplicaFits(s, (u, c));
    LastOfPage(LogOf(s, c), s.convs[(u, c)].participants[u].joinedAt, offset);
  }

  /** After any sequential run, paging gives a participant no message twice. */
  lemma PagesRepeatNothing(ops: seq<Op>, ss: seq<Store>, u: string, c: string)
    requires Run(ops, ss) && (u, c) in ss[|ops|].convs
    ensures u in ss[|ops|].convs[(u, c)].participants
    ensures
      var s := ss[|ops|];
      Distinct(AllPages(LogOf(s, c), s.convs[(u, c)].participants[u].joinedAt, 0))
  {
    hide Counts, Belongs, Opens, Distinct, AllPages;
    RunTells(ops, ss, |ops|);
    var s := ss[|ops|];
    ReplicaFits(s, (u, c));
    PagingIsComplete(LogOf(s, c), s.convs[(u, c)].participants[u].joinedAt);
  }

  lemma LastOfPage(z: seq<Entry>, joinedAt: int, offset: nat)
    requires Sorted(z)
    ensures
      var page := PageOf(z, joinedAt, offset);
      (page.messages != [] && !page.hasMore ==> ZLast(z) == Some(page.messages[|page.messages| - 1]))
  {
    PageShows(z, joinedAt, offset);
    var page := PageOf(z, joinedAt, offset);
    if page.messages != [] && !page.hasMore {
      LastPageEndsWithNewest(z, joinedAt, offset);
    }
  }

  // ----- What a run leaves in the store, operation by operation

  /** Operation `i` is the last send of this text to `c`, and `e` is its entry. */
  predicate LastSend(ops: seq<Op>, i: nat, c: string, e: Entry) {
    && i < |ops| && ops[i].Send? && ops[i].c == c
    && e == Entry(ops[i].msg.createdAt / 1_000_000_000, ops[i].msg.encoded)
    && (forall j :: i < j < |ops| && ops[j].Send? && ops[j].c == c ==> ops[j].msg.encoded != e.member)
  }

  ghost predicate WasSent(ops: seq<Op>, c: string, e: Entry) {
    exists i :: LastSend(ops, i, c, e)
  }

  lemma SentGrows(ops: seq<Op>, op: Op, c: string, e: Entry)
    ensures WasSent(ops + [op], c, e) <==>
      if op.Send? && op.c == c && op.msg.encoded == e.member then e.score == op.msg.createdAt / 1_000_000_000
      else WasSent(ops, c, e)
  {
    var all := ops + [op];
    assert all[|ops|] == op && forall i :: 0 <= i < |ops| ==> all[i] == ops[i];
    if op.Send? && op.c == c && op.msg.encoded == e.member {
      assert LastSend(all, |ops|, c, e) <==> e.score == op.msg.createdAt / 1_000_000_000;
      assert forall i: nat :: LastSend(all, i, c, e) ==> i == |ops|;
    } else {
      forall i: nat ensures LastSend(all, i, c, e) <==> LastSend(ops, i, c, e) {
      }
    }
  }

  lemma StepLogs(ops: seq<Op>, op: Op, s: Store, c: string, e: Entry)
    requires Fits(s) && Succeeds(s, op) && (e in LogOf(s, c) <==> WasSent(ops, c, e))
    ensures e in LogOf(Step(s, op), c) <==> WasSent(ops + [op], c, e)
  {
    SentGrows(ops, op, c, e);
    if op.Send? {
      StoredSays(s, op.c, op.msg);
      SentSays(s, op.c, op.msg);
    }
    hide Fits, WasSent, Sent, Stored;
  }

  /** After every run, a conversation's messages are exactly the texts sent to it, each with the second
      of its last sending. */
  lemma {:induction false} LogIsWhatWasSent(ops: seq<Op>, ss: seq<Store>, i: nat, c: string, e: Entry)
    requires Run(ops, ss) && i < |ss|
    ensures e in LogOf(ss[i], c) <==> WasSent(ops[..i], c, e)
  {
    if i > 0 {
      hide Fits, Opens, Counts, Belongs, Step, Succeeds, WasSent, LogOf;
      LogIsWhatWasSent(ops, ss, i - 1, c, e);
      RunTells(ops, ss, i - 1);
      RunStep(ops, ss, i - 1);
      StepLogs(ops[..i - 1], ops[i - 1], ss[i - 1], c, e);
      assert ops[..i] == ops[..i - 1] + [ops[i - 1]];
      hide Run;
    }
  }

  /** A text is on the pages of `u` if it was last sent to `c` in the second u joined or later. */
  ghost predicate Due(ops: seq<Op>, c: string, joinedAt: int, m: string) {
    exists e: Entry :: e.member == m && e.score >= joinedAt / 1_000_000_000 && WasSent(ops, c, e)
  }

  /** After every run, paging from 0 gives a participant exactly the texts sent to the conversation
      from the second of joining on. */
  lemma PagesShowWhatWasSent(ops: seq<Op>, ss: seq<Store>, u: string, c: string, m: string)
    requires Run(ops, ss) && (u, c) in ss[|ops|].convs
    ensures u in ss[|ops|].convs[(u, c)].participants
    ensures
      var joinedAt := ss[|ops|].convs[(u, c)].participants[u].joinedAt;
      m in AllPages(LogOf(ss[|ops|], c), joinedAt, 0) <==> Due(ops, c, joinedAt, m)
  {
    hide AllPages, Fits, WasSent, Opens, Counts, Belongs, WellFormed;
    RunTells(ops, ss, |ops|);
    var s := ss[|ops|];
    ReplicaFits(s, (u, c));
    var joinedAt := s.convs[(u, c)].participants[u].joinedAt;
    LogIsSorted(s, c);
    PagedIffEntry(LogOf(s, c), joinedAt, m);
    assert ops[..|ops|] == ops;
    forall e: Entry ensures e in LogOf(s, c) <==> WasSent(ops, c, e) {
      LogIsWhatWasSent(ops, ss, |ops|, c, e);
    }
    hide Run, Tells, LogOf;
  }

  lemma LogIsSorted(s: Store, c: string)
    requires Fits(s)
    ensures Sorted(LogOf(s, c)) && OneEntryEach(LogOf(s, c))
  {
  }

  lemma PagedIffEntry(z: seq<Entry>, joinedAt: int, m: string)
    requires Sorted(z)
    ensures m in AllPages(z, joinedAt, 0)
      <==> exists e: Entry :: e in z && e.member == m && e.score >= joinedAt / 1_000_000_000
  {
    PagingIsComplete(z, joinedAt);
    var k :| 0 <= k <= |z| && AllPages(z, joinedAt, 0) == MembersOf(z[k..])
      && (forall i :: 0 <= i < |z| ==> (i < k <==> z[i].score < Unix(joinedAt)));
    hide AllPages, Sorted;
    InSuffix(z, k, Unix(joinedAt), m);
  }

  lemma InSuffix(z: seq<Entry>, k: nat, min: int, m: string)
    requires k <= |z| && forall i :: 0 <= i < |z| ==> (i < k <==> z[i].score < min)
    ensures m in MembersOf(z[k..]) <==> exists e: Entry :: e in z && e.member == m && e.score >= min
  {
    var shown := MembersOf(z[k..]);
    if m in shown {
      var i :| 0 <= i < |shown| && shown[i] == m;
      assert z[k + i] in z && z[k + i].member == m;
    }
    if e: Entry :| e in z && e.member == m && e.score >= min {
      var i :| 0 <= i < |z| && z[i] == e;
      assert shown[i - k] == m;
    }
  }

  /** Operation `i` created the conversation for `u`. */
  predicate CreatedFor(ops: seq<Op>, i: nat, u: string, c: string) {
    i < |ops| && ops[i].Create? && ops[i].conv.id == c && u in ops[i].conv.participants
  }

  /** After every run, a replica is the conversation as it was created for the user, with every
      participant's name and time of joining, but for the count. */
  lemma {:induction false} ReplicaIsAsCreated(ops: seq<Op>, ss: seq<Store>, i: nat, k: (string, string))
    requires Run(ops, ss) && i < |ss| && k in ss[i].convs
    ensures exists j: nat :: j < i && CreatedFor(ops, j, k.0, k.1) && ss[i].convs[k].(unread := 0) == ops[j].conv
  {
    hide Fits, Opens, Counts, Belongs, Step, Succeeds;
    if i > 0 {
      var s, op := ss[i - 1], ops[i - 1];
      RunTells(ops, ss, i - 1);
      RunStep(ops, ss, i - 1);
      hide Run;
      if op.Create? && k.0 in op.conv.participants && k.1 == op.conv.id {
        CreateMakesReplica(s, op.conv, k);
        assert CreatedFor(ops, i - 1, k.0, k.1);
      } else {
        StepKeepsReplica(s, op, k);
        ReplicaIsAsCreated(ops, ss, i - 1, k);
      }
    }
  }

  lemma RunStep(ops: seq<Op>, ss: seq<Store>, i: nat)
    requires Run(ops, ss) && i < |ops|
    ensures Succeeds(ss[i], ops[i]) && ss[i + 1] == Step(ss[i], ops[i])
  {
  }

  lemma CreateMakesReplica(s: Store, conv: Conversation, k: (string, string))
    requires Succeeds(s, Create(conv)) && k.0 in conv.participants && k.1 == conv.id
    ensures k in Step(s, Create(conv)).convs && Step(s, Create(conv)).convs[k].(unread := 0) == conv
  {
    CreatedSays(s, conv);
  }

  lemma StepKeepsReplica(s: Store, op: Op, k: (string, string))
    requires Fits(s) && Succeeds(s, op) && k in Step(s, op).convs
    requires !(op.Create? && k.0 in op.conv.participants && k.1 == op.conv.id)
    ensures k in s.convs && Step(s, op).convs[k].(unread := 0) == s.convs[k].(unread := 0)
  {
    match op
    case Create(conv) => CreatedSays(s, conv);
    case Send(c, msg) => SentSays(s, c, msg);
    case Read(u, c) => MarkedReadSays(s, u, c);
    case _ =>
  }

  /** Whoever was made a participant can send to the conversation and read it, everyone can change the
      active conversation, and a well-formed conversation with a new id can be created. */
  lemma ParticipantsSucceed(ops: seq<Op>, ss: seq<Store>, u: string, c: string, msg: Message)
    requires Run(ops, ss) && IsParticipant(ops, u, c) && msg.userId == u
    ensures Succeeds(ss[|ops|], Send(c, msg)) && Succeeds(ss[|ops|], Read(u, c))
    ensures Succeeds(ss[|ops|], Activate(u, c)) && Succeeds(ss[|ops|], Deactivate(u))
  {
    UnreadCountsMissedSends(ops, ss, u, c);
  }

  lemma NewIdsSucceed(ops: seq<Op>, ss: seq<Store>, conv: Conversation)
    requires Run(ops, ss) && WellFormed(conv) && conv.unread == 0 && conv.lastMessage == None
    requires forall u :: !IsParticipant(ops, u, conv.id)
    ensures Succeeds(ss[|ops|], Create(conv))
  {
    forall k | k in ss[|ops|].convs ensures k.1 != conv.id {
      assert k == (k.0, k.1);
      UnreadCountsMissedSends(ops, ss, k.0, k.1);
    }
  }
}
