/**
  backend/pkg/chat/usecase/usecase.go and controller/controller.go over one in-memory store,
  operation after operation, with every command answered; and getConversationWithUser of
  backend/pkg/service/v1/chat.go.
  */
module ChatUsecase {
  import opened Wrappers
  import opened Chat
  import SameSlice

  /** Conversations by (user, conversation id), each user's active conversation, and messages. */
  datatype Store = Store(
    convs: map<(string, string), Conversation>,
    active: map<string, string>,
    zsets: map<string, seq<Entry>>)

  const Empty := Store(map[], map[], map[])

  function LogOf(s: Store, c: string): seq<Entry> {
    if c in s.zsets then s.zsets[c] else []
  }

  function ActiveOf(s: Store, u: string): Option<string> {
    if u in s.active then Some(s.active[u]) else None
  }

  /** The user has no active conversation, or another one. */
  predicate Away(active: Option<string>, c: string) {
    active.None? || active.value == "" || active.value != c
  }

  predicate WellFormed(conv: Conversation) {
    forall p :: p in conv.participants ==> conv.participants[p].userId == p
  }

  /** The replica is filed under its own id, for a participant; every participant has one, and
      the replicas of a conversation differ in nothing but the unread count. */
  ghost predicate Agrees(s: Store, k: (string, string))
    requires k in s.convs
  {
    var conv := s.convs[k];
    && WellFormed(conv) && conv.id == k.1 && k.0 in conv.participants
    && (forall p :: p in conv.participants ==> (p, k.1) in s.convs)
    && (forall k' :: k' in s.convs && k'.1 == k.1 ==> s.convs[k'].(unread := 0) == conv.(unread := 0))
  }

  ghost predicate Fits(s: Store) {
    && (forall k :: k in s.convs ==> Agrees(s, k))
    && (forall c :: c in s.zsets ==> Sorted(s.zsets[c]) && OneEntryEach(s.zsets[c]))
  }

  // ----- What the operations do to the store

  function Filed(users: set<string>, conv: Conversation): map<(string, string), Conversation> {
    map p | p in users :: (p, conv.id) := conv
  }

  function Created(s: Store, conv: Conversation): Store {
    s.(convs := s.convs + Filed(conv.participants.Keys, conv))
  }

  function Stored(s: Store, c: string, msg: Message): Store {
    s.(zsets := s.zsets[c := ZAdd(LogOf(s, c), Entry(Unix(msg.createdAt), msg.encoded))])
  }

  /** One more unread message in the replicas of these users. */
  function Counted(s: Store, us: set<string>, c: string): Store {
    s.(convs := map k | k in s.convs ::
                  if k.1 == c && k.0 in us then s.convs[k].(unread := s.convs[k].unread + 1) else s.convs[k])
  }

  function AwayUsers(s: Store, conv: Conversation): set<string> {
    set p | p in conv.participants && Away(ActiveOf(s, p), conv.id)
  }

  /** Sending: store the message, then count it for every participant who is away. */
  function Sent(s: Store, c: string, msg: Message): Store
    requires (msg.userId, c) in s.convs
  {
    Counted(Stored(s, c, msg), AwayUsers(s, s.convs[(msg.userId, c)]), c)
  }

  function MarkedRead(s: Store, u: string, c: string): Store
    requires (u, c) in s.convs
  {
    s.(convs := s.convs[(u, c) := s.convs[(u, c)].(unread := 0)])
  }

  /** A replica as it is handed out, with the newest message of its conversation. */
  function WithLast(s: Store, conv: Conversation): Conversation {
    var last := ZLast(LogOf(s, conv.id));
    if last.None? then conv else conv.(lastMessage := last)
  }

  // ----- The same, key by key

  /** Storing a message gives its text one entry, at its second, and touches nothing else. */
  lemma StoredSays(s: Store, c: string, msg: Message)
    requires Fits(s)
    ensures
      var s' := Stored(s, c, msg);
      && s'.convs == s.convs && s'.active == s.active
      && (forall d :: d != c ==> LogOf(s', d) == LogOf(s, d))
      && (forall e :: e in LogOf(s', c) <==>
            e == Entry(msg.createdAt / 1_000_000_000, msg.encoded) || (e in LogOf(s, c) && e.member != msg.encoded))
  {
    ZAddKeeps(LogOf(s, c), Entry(Unix(msg.createdAt), msg.encoded));
  }

  /** Sending counts one for each participant whose active conversation is not this one. */
  lemma SentSays(s: Store, c: string, msg: Message)
    requires Fits(s) && (msg.userId, c) in s.convs
    ensures
      var s' := Sent(s, c, msg);
      && s'.active == s.active && s'.zsets == Stored(s, c, msg).zsets && s'.convs.Keys == s.convs.Keys
      && (forall k :: k in s.convs && k.1 == c && !(k.0 in s.active && s.active[k.0] == c && c != "") ==>
            s'.convs[k] == s.convs[k].(unread := s.convs[k].unread + 1))
      && (forall k :: k in s.convs && !(k.1 == c && !(k.0 in s.active && s.active[k.0] == c && c != "")) ==>
            s'.convs[k] == s.convs[k])
  {
    StoredSays(s, c, msg);
    forall k | k in s.convs && k.1 == c
      ensures s.convs[(msg.userId, c)].id == c && k.0 in s.convs[(msg.userId, c)].participants
    {
      SameParticipants(s, (msg.userId, c), k);
    }
    hide Fits;
  }

  lemma SameParticipants(s: Store, k: (string, string), k': (string, string))
    requires Fits(s) && k in s.convs && k' in s.convs && k.1 == k'.1
    ensures s.convs[k].id == k.1 && s.convs[k].participants == s.convs[k'].participants && k'.0 in s.convs[k].participants
  {
    assert Agrees(s, k) && Agrees(s, k');
    assert s.convs[k].(unread := 0).participants == s.convs[k'].(unread := 0).participants;
  }

  /** Creating files the very conversation with each participant, and nothing else. */
  lemma CreatedSays(s: Store, conv: Conversation)
    ensures
      var s' := Created(s, conv);
      && s'.active == s.active && s'.zsets == s.zsets
      && (forall k :: k in s'.convs <==> k in s.convs || (k.0 in conv.participants && k.1 == conv.id))
      && (forall k :: k in s'.convs ==>
            s'.convs[k] == if k.0 in conv.participants && k.1 == conv.id then conv else s.convs[k])
  {
    assert forall k: (string, string) :: k.1 == conv.id ==> k == (k.0, conv.id);
  }

  /** Reading empties the one count. */
  lemma MarkedReadSays(s: Store, u: string, c: string)
    requires (u, c) in s.convs
    ensures
      var s' := MarkedRead(s, u, c);
      && s'.active == s.active && s'.zsets == s.zsets && s'.convs.Keys == s.convs.Keys
      && s'.convs[(u, c)].unread == 0
      && (forall k :: k in s.convs ==> s'.convs[k] == if k == (u, c) then s.convs[k].(unread := 0) else s.convs[k])
  {
  }

  /** What is handed out is the replica with the last entry of the conversation's messages, if any. */
  lemma WithLastSays(s: Store, conv: Conversation)
    ensures
      var log, shown := LogOf(s, conv.id), WithLast(s, conv);
      && shown.id == conv.id && shown.participants == conv.participants
      && shown.createdAt == conv.createdAt && shown.unread == conv.unread
      && shown.lastMessage == if log == [] then conv.lastMessage else Some(log[|log| - 1].member)
  {
  }

  lemma SentFits(s: Store, c: string, msg: Message)
    requires Fits(s) && (msg.userId, c) in s.convs
    ensures Fits(Stored(s, c, msg)) && Fits(Sent(s, c, msg))
  {
    ZAddKeeps(LogOf(s, c), Entry(Unix(msg.createdAt), msg.encoded));
    CountedFits(Stored(s, c, msg), AwayUsers(s, s.convs[(msg.userId, c)]), c);
  }

  lemma ReadFits(s: Store, u: string, c: string)
    requires Fits(s) && (u, c) in s.convs
    ensures Fits(MarkedRead(s, u, c))
  {
    var s' := MarkedRead(s, u, c);
    forall k | k in s'.convs ensures Agrees(s', k) {
      assert Agrees(s, k);
    }
  }

  /** Active conversations play no part in it. */
  lemma ActiveFits(s: Store, s': Store)
    requires Fits(s) && s'.convs == s.convs && s'.zsets == s.zsets
    ensures Fits(s')
  {
    forall k | k in s'.convs ensures Agrees(s', k) {
      assert Agrees(s, k);
    }
  }

  lemma FiledMore(base: map<(string, string), Conversation>, users: set<string>, p: string, conv: Conversation)
    ensures base + Filed(users + {p}, conv) == (base + Filed(users, conv))[(p, conv.id) := conv]
    ensures base + Filed({}, conv) == base
  {
  }

  lemma CreatedFits(s: Store, conv: Conversation)
    requires Fits(s) && WellFormed(conv) && forall k :: k in s.convs ==> k.1 != conv.id
    ensures Fits(Created(s, conv))
  {
    var s' := Created(s, conv);
    forall k | k in s'.convs ensures Agrees(s', k) {
      if k in s.convs {
        assert Agrees(s, k);
      }
    }
  }

  lemma AwayUsersAreFiled(s: Store, sender: string, c: string)
    requires Fits(s) && (sender, c) in s.convs
    ensures forall u :: u in AwayUsers(s, s.convs[(sender, c)]) ==> (u, c) in s.convs
  {
    assert Agrees(s, (sender, c));
  }

  lemma ReplicaFits(s: Store, k: (string, string))
    requires Fits(s) && k in s.convs
    ensures WellFormed(s.convs[k]) && s.convs[k].id == k.1 && k.0 in s.convs[k].participants
  {
    assert Agrees(s, k);
  }

  lemma CountedFits(s: Store, us: set<string>, c: string)
    requires Fits(s)
    ensures Fits(Counted(s, us, c))
  {
    var s' := Counted(s, us, c);
    forall k | k in s'.convs ensures Agrees(s', k) {
      assert Agrees(s, k);
    }
  }

  lemma CountedTwice(s: Store, us: set<string>, u: string, c: string)
    requires u !in us
    ensures Counted(Counted(s, us, c), {u}, c) == Counted(s, us + {u}, c)
    ensures Counted(s, us, c).convs.Keys == s.convs.Keys
  {
  }

  lemma CountedOne(s: Store, u: string, c: string)
    ensures (u, c) in s.convs ==>
      Counted(s, {u}, c) == s.(convs := s.convs[(u, c) := s.convs[(u, c)].(unread := s.convs[(u, c)].unread + 1)])
    ensures (u, c) !in s.convs ==> Counted(s, {u}, c) == s
  {
    assert forall k: (string, string) :: k.0 == u && k.1 == c ==> k == (u, c);
  }

  lemma CountedNobody(s: Store, c: string)
    ensures Counted(s, {}, c) == s
  {
  }

  lemma SameAway(s: Store, s': Store, conv: Conversation)
    requires s.active == s'.active
    ensures AwayUsers(s, conv) == AwayUsers(s', conv)
  {
  }

  /** The replica filed under `k`, as it is listed for a target participant ("" for any). */
  ghost predicate Shown(s: Store, k: (string, string), target: string, conv: Conversation)
    requires k in s.convs
  {
    conv == WithLast(s, s.convs[k]) && (target == "" || target in s.convs[k].participants)
  }

  /** Keys of u's replicas, each once, which are filed under their own ids. */
  ghost predicate KeysOf(s: Store, u: string, ks: seq<(string, string)>) {
    && (forall i :: 0 <= i < |ks| ==> ks[i] in s.convs && ks[i].0 == u && s.convs[ks[i]].id == ks[i].1)
    && (forall i, j :: 0 <= i < j < |ks| ==> ks[i] != ks[j])
  }

  lemma KeysAreFiled(s: Store, u: string, ks: seq<(string, string)>)
    requires Fits(s) && forall k :: k in ks ==> k in s.convs && k.0 == u
    requires forall i, j :: 0 <= i < j < |ks| ==> ks[i] != ks[j]
    ensures KeysOf(s, u, ks)
  {
    forall i | 0 <= i < |ks| ensures s.convs[ks[i]].id == ks[i].1 {
      assert ks[i] in ks;
      ReplicaFits(s, ks[i]);
    }
  }

  /** The list shows the first `n` of these replicas, each once, and no other. */
  ghost predicate Lists(s: Store, list: seq<Conversation>, ks: seq<(string, string)>, n: nat, target: string) {
    && n <= |ks|
    && (forall conv :: conv in list
          <==> exists i :: 0 <= i < n && ks[i] in s.convs && Shown(s, ks[i], target, conv))
    && (forall i, j :: 0 <= i < j < |list| ==> list[i].id != list[j].id)
  }

  lemma ShownOnce(s: Store, u: string, list: seq<Conversation>, ks: seq<(string, string)>, n: nat,
                  target: string, decoded: Option<Conversation>)
    requires KeysOf(s, u, ks) && n < |ks| && Lists(s, list, ks, n, target)
    requires decoded == if target != "" && target !in s.convs[ks[n]].participants then None
                        else Some(WithLast(s, s.convs[ks[n]]))
    ensures Lists(s, if decoded.Some? then list + [decoded.value] else list, ks, n + 1, target)
  {
    if decoded.Some? {
      assert Shown(s, ks[n], target, decoded.value);
      forall i | 0 <= i < |list| ensures list[i].id != decoded.value.id {
        assert list[i] in list;
        var j :| 0 <= j < n && ks[j] in s.convs && Shown(s, ks[j], target, list[i]);
        assert ks[j] != ks[n] && ks[j].0 == ks[n].0;
      }
    }
    var list' := if decoded.Some? then list + [decoded.value] else list;
    forall conv ensures conv in list'
      <==> exists i :: 0 <= i < n + 1 && ks[i] in s.convs && Shown(s, ks[i], target, conv)
    {
    }
  }

  lemma ListsAll(s: Store, u: string, list: seq<Conversation>, ks: seq<(string, string)>, target: string)
    requires (forall k :: k in ks <==> k in s.convs && k.0 == u) && Lists(s, list, ks, |ks|, target)
    ensures forall conv :: conv in list <==> exists k :: k in s.convs && k.0 == u && Shown(s, k, target, conv)
    ensures forall i, j :: 0 <= i < j < |list| ==> list[i].id != list[j].id
  {
    forall conv | exists k :: k in s.convs && k.0 == u && Shown(s, k, target, conv) ensures conv in list {
      var k :| k in s.convs && k.0 == u && Shown(s, k, target, conv);
      var i :| 0 <= i < |ks| && ks[i] == k;
    }
    forall conv | conv in list ensures exists k :: k in s.convs && k.0 == u && Shown(s, k, target, conv) {
      var i :| 0 <= i < |ks| && ks[i] in s.convs && Shown(s, ks[i], target, conv);
      assert ks[i] in ks;
    }
  }

  class Usecase {
    var convs: map<(string, string), Conversation>
    var active: map<string, string>
    var zsets: map<string, seq<Entry>>

    constructor ()
      ensures M() == Empty && Valid()
    {
      convs, active, zsets := map[], map[], map[];
    }

    ghost function M(): Store
      reads this
    {
      Store(convs, active, zsets)
    }

    ghost predicate Valid()
      reads this
    {
      Fits(M())
    }

    method SendMessage(c: string, msg: Message)
      requires Valid()
      modifies `zsets
      ensures Valid() && M() == Stored(old(M()), c, msg)
    {
      ZAddKeeps(LogOf(M(), c), Entry(Unix(msg.createdAt), msg.encoded));
      zsets := zsets[c := ZAdd(if c in zsets then zsets[c] else [], Entry(Unix(msg.createdAt), msg.encoded))];
    }

    /** The entries from the user's joining on, one more than a page holds. */
    method GetMessages(u: string, c: string, offset: int) returns (r: Result<seq<string>, string>)
      ensures r.Ok? <==> (u, c) in convs && u in convs[(u, c)].participants
      ensures r.Ok? ==> r.value == MembersOf(ZRangeByScore(
        LogOf(M(), c), Unix(convs[(u, c)].participants[u].joinedAt), offset, MESSAGES_LIMIT + 1))
    {
      var conv := GetStored(u, c);
      if conv.Err? {
        return Err(conv.error);
      }
      if u !in conv.value.participants {
        return Err("participant not found");
      }
      var min := Unix(conv.value.participants[u].joinedAt);
      var entries := ZRangeByScore(if c in zsets then zsets[c] else [], min, offset, MESSAGES_LIMIT + 1);
      var messages: seq<string> := [];
      for i := 0 to |entries|
        invariant messages == MembersOf(entries[..i])
      {
        messages := messages + [entries[i].member];
      }
      assert entries[..|entries|] == entries;
      return Ok(messages);
    }

    /** Files a replica with every participant, over what was filed there; a well-formed conversation
        with a new id leaves the store in order. */
    method CreateConversation(conv: Conversation)
      modifies `convs
      ensures M() == Created(old(M()), conv)
      ensures old(Valid()) && WellFormed(conv) && (forall k :: k in old(convs) ==> k.1 != conv.id) ==> Valid()
    {
      if Fits(M()) && WellFormed(conv) && forall k :: k in convs ==> k.1 != conv.id {
        CreatedFits(M(), conv);
      }
      hide Fits, Filed, WellFormed;
      FiledMore(convs, {}, "", conv);
      ghost var was, done := convs, {};
      var rest := conv.participants.Keys;
      while rest != {}
        invariant done + rest == conv.participants.Keys
        invariant convs == was + Filed(done, conv)
        decreases rest
      {
        var p :| p in rest;
        FiledMore(was, done, p, conv);
        rest, done := rest - {p}, done + {p};
        HSet(p, conv.id, conv);
      }
    }

    method SetActiveConversation(u: string, c: string)
      requires Valid()
      modifies `active
      ensures Valid() && M() == old(M()).(active := old(active)[u := c])
    {
      ActiveFits(M(), M().(active := active[u := c]));
      hide Fits;
      active := active[u := c];
    }

    /** Fails, changing nothing, when the user has no active conversation. */
    method DeleteActiveConversation(u: string) returns (ok: bool)
      requires Valid()
      modifies `active
      ensures Valid() && M() == old(M()).(active := old(active) - {u})
      ensures ok <==> u in old(active)
    {
      ActiveFits(M(), M().(active := active - {u}));
      hide Fits;
      ok := u in active;
      active := active - {u};
    }

    method GetStored(u: string, c: string) returns (r: Result<Conversation, string>)
      ensures r == if (u, c) in convs then Ok(convs[(u, c)]) else Err("redis: nil")
    {
      r := if (u, c) in convs then Ok(convs[(u, c)]) else Err("redis: nil");
    }

    method GetConversation(u: string, c: string) returns (r: Result<Conversation, string>)
      requires Valid()
      ensures r == if (u, c) in convs then Ok(WithLast(M(), convs[(u, c)])) else Err("redis: nil")
    {
      r := GetStored(u, c);
      if r.Ok? {
        var last := ZLast(if c in zsets then zsets[c] else []);
        if last.Some? {
          r := Ok(r.value.(lastMessage := last));
        }
      }
    }

    method ReadConversationMessages(u: string, c: string) returns (r: Result<Conversation, string>)
      requires Valid()
      modifies `convs
      ensures Valid()
      ensures r.Ok? <==> (u, c) in old(convs)
      ensures r.Err? ==> M() == old(M())
      ensures r.Ok? ==> M() == MarkedRead(old(M()), u, c) && r.value == convs[(u, c)]
    {
      r := GetStored(u, c);
      if r.Ok? {
        ReplicaFits(M(), (u, c));
        ReadFits(M(), u, c);
        hide Fits;
        var conv := r.value.(unread := 0);
        HSet(u, conv.id, conv);
        r := Ok(conv);
      }
    }

    /** The user's conversations, or those with a given participant when `target` is not empty,
        in whatever order the hash yields them, each once. */
    method GetConversationsWithUser(u: string, target: string) returns (list: seq<Conversation>)
      requires Valid()
      ensures forall conv :: conv in list <==>
        exists k :: k in convs && k.0 == u && Shown(M(), k, target, conv)
      ensures forall i, j :: 0 <= i < j < |list| ==> list[i].id != list[j].id
    {
      var ks := HGetAll(u);
      ghost var s := M();
      KeysAreFiled(s, u, ks);
      list := [];
      assert Lists(s, [], ks, 0, target);
      hide Fits, Shown, Lists, WithLast;
      for i := 0 to |ks|
        invariant Lists(s, list, ks, i, target)
      {
        var decoded := Decode(convs[ks[i]], target);
        ShownOnce(s, u, list, ks, i, target, decoded);
        if decoded.Some? {
          list := list + [decoded.value];
        }
      }
      ListsAll(s, u, list, ks, target);
    }

    /** The keys of the user's replicas, in some order. */
    method HGetAll(u: string) returns (ks: seq<(string, string)>)
      ensures forall k :: k in ks <==> k in convs && k.0 == u
      ensures forall i, j :: 0 <= i < j < |ks| ==> ks[i] != ks[j]
    {
      ks := [];
      var rest := set k | k in convs && k.0 == u;
      while rest != {}
        invariant forall k :: k in ks || k in rest <==> k in convs && k.0 == u
        invariant forall k :: k in ks ==> k !in rest
        invariant forall i, j :: 0 <= i < j < |ks| ==> ks[i] != ks[j]
        decreases rest
      {
        var k :| k in rest;
        ks, rest := ks + [k], rest - {k};
      }
    }

    /** A replica with its newest message; None when the required participant is missing. */
    method Decode(conv: Conversation, target: string) returns (r: Option<Conversation>)
      ensures r == if target != "" && target !in conv.participants then None else Some(WithLast(M(), conv))
    {
      if target != "" && target !in conv.participants {
        return None;
      }
      var last := ZLast(if conv.id in zsets then zsets[conv.id] else []);
      return Some(if last.None? then conv else conv.(lastMessage := last));
    }

    method GetConversationInactiveUsers(sender: string, c: string) returns (r: Result<seq<string>, string>)
      requires Valid()
      ensures r.Ok? <==> (sender, c) in convs
      ensures r.Ok? ==>
        && (forall u :: u in r.value <==> u in AwayUsers(M(), convs[(sender, c)]))
        && (forall u :: u in r.value <==>
              u in convs[(sender, c)].participants && !(u in active && active[u] == c && c != ""))
        && (forall i, j :: 0 <= i < j < |r.value| ==> r.value[i] != r.value[j])
    {
      hide Fits;
      var conv := GetStored(sender, c);
      if conv.Err? {
        return Err(conv.error);
      }
      ReplicaFits(M(), (sender, c));
      var participants := conv.value.participants;
      var users: seq<string> := [];
      var rest := participants.Keys;
      while rest != {}
        invariant rest <= participants.Keys
        invariant forall u :: u in users <==> u in participants.Keys - rest && Away(ActiveOf(M(), u), c)
        invariant forall i, j :: 0 <= i < j < |users| ==> users[i] != users[j]
        decreases rest
      {
        var key :| key in rest;
        rest := rest - {key};
        var u := participants[key].userId;
        assert u == key && u !in users;
        if u !in active || active[u] == "" {
          users := users + [u];
        } else if active[u] != c {
          users := users + [u];
        }
      }
      return Ok(users);
    }

    method IncrementInactiveUserMsgsCount(u: string, c: string) returns (ok: bool)
      requires Valid()
      modifies `convs
      ensures Valid()
      ensures ok <==> (u, c) in old(convs)
      ensures M() == Counted(old(M()), {u}, c)
    {
      hide Fits, Counted, WellFormed;
      CountedFits(M(), {u}, c);
      CountedOne(M(), u, c);
      var conv := GetStored(u, c);
      if conv.Err? {
        return false;
      }
      ReplicaFits(M(), (u, c));
      HSet(u, conv.value.id, conv.value.(unread := conv.value.unread + 1));
      return true;
    }

    method HSet(u: string, c: string, conv: Conversation)
      modifies `convs
      ensures convs == old(convs)[(u, c) := conv]
    {
      convs := convs[(u, c) := conv];
    }
  }

  function Elements(us: seq<string>): set<string> {
    set u | u in us
  }

  class Controller {
    const ucs: Usecase

    constructor (ucs: Usecase)
      ensures this.ucs == ucs
    {
      this.ucs := ucs;
    }

    /** Fails for a sender without a replica, after the message has been stored. */
    method SendMessage(c: string, msg: Message) returns (ok: bool)
      requires ucs.Valid()
      modifies ucs
      ensures ucs.Valid()
      ensures ok <==> (msg.userId, c) in old(ucs.convs)
      ensures ok ==> ucs.M() == Sent(old(ucs.M()), c, msg)
      ensures !ok ==> ucs.M() == Stored(old(ucs.M()), c, msg)
    {
      hide Fits, Counted, AwayUsers;
      ghost var was := ucs.M();
      ucs.SendMessage(c, msg);
      ghost var s := ucs.M();
      var inactive := ucs.GetConversationInactiveUsers(msg.userId, c);
      if inactive.Err? {
        return false;
      }
      AwayUsersAreFiled(s, msg.userId, c);
      SameAway(was, s, s.convs[(msg.userId, c)]);
      CountedNobody(s, c);
      assert Elements([]) == {};
      var users := inactive.value;
      for i := 0 to |users|
        invariant ucs.Valid()
        invariant ucs.M() == Counted(s, Elements(users[..i]), c)
      {
        CountedTwice(s, Elements(users[..i]), users[i], c);
        assert Elements(users[..i + 1]) == Elements(users[..i]) + {users[i]};
        assert users[i] in users;
        var counted := ucs.IncrementInactiveUserMsgsCount(users[i], c);
        if !counted {
          return false;
        }
      }
      assert Elements(users[..|users|]) == AwayUsers(s, s.convs[(msg.userId, c)]);
      return true;
    }

    method GetMessages(u: string, c: string, offset: int) returns (r: Result<Page, string>)
      requires ucs.Valid()
      ensures r.Ok? <==> (u, c) in ucs.convs
      ensures r.Ok? ==> r.value == PageOf(LogOf(ucs.M(), c), ucs.convs[(u, c)].participants[u].joinedAt, offset)
    {
      var fetched := ucs.GetMessages(u, c, offset);
      if fetched.Err? {
        return Err(fetched.error);
      }
      var messages := fetched.value;
      var hasMore := |messages| > MESSAGES_LIMIT;
      if hasMore && |messages| != 0 {
        return Ok(Page(messages[..|messages| - 1], true));
      }
      return Ok(Page(messages, hasMore));
    }
  }

  // ----- Finding the conversation of two users

  /** A conversation of exactly these two, who are different users. */
  ghost predicate IsBetween(conv: Conversation, u: string, receiver: string) {
    u != receiver && conv.participants.Keys == {u, receiver}
  }

  class Service {
    const ucs: Usecase

    constructor (ucs: Usecase)
      ensures this.ucs == ucs
    {
      this.ucs := ucs;
    }

    /** Finds a conversation exactly when one of the user's is between the two, whatever the
        order in which the hash and the participant maps are walked. */
    method GetConversationWithUser(u: string, receiver: string) returns (r: Option<Conversation>)
      requires ucs.Valid()
      ensures r.Some? <==> exists c :: (u, c) in ucs.convs && IsBetween(ucs.convs[(u, c)], u, receiver)
      ensures r.Some? ==>
        exists c :: (u, c) in ucs.convs && IsBetween(ucs.convs[(u, c)], u, receiver)
                 && r.value == WithLast(ucs.M(), ucs.convs[(u, c)])
    {
      var prev := ucs.GetConversationsWithUser(u, receiver);
      for n := 0 to |prev|
        invariant forall m :: 0 <= m < n ==> !IsBetween(prev[m], u, receiver)
      {
        var conv := prev[n];
        if |conv.participants| != 2 {
          PairHasTwo(conv, u, receiver);
          continue;
        }
        var names := KeysInSomeOrder(conv.participants);
        var same := SameSlice.SameStringSlice(names, [u, receiver]);
        SameNames(conv, names, u, receiver);
        if same {
          assert conv in prev;
          ghost var k :| k in ucs.convs && k.0 == u && Shown(ucs.M(), k, receiver, conv);
          assert k == (u, k.1);
          return Some(conv);
        }
      }
      forall c | (u, c) in ucs.convs ensures !IsBetween(ucs.convs[(u, c)], u, receiver) {
        var conv := WithLast(ucs.M(), ucs.convs[(u, c)]);
        assert receiver in conv.participants ==> Shown(ucs.M(), (u, c), receiver, conv);
        assert receiver in conv.participants ==> conv in prev;
        assert IsBetween(conv, u, receiver) <==> IsBetween(ucs.convs[(u, c)], u, receiver);
      }
      return None;
    }

    method KeysInSomeOrder(participants: map<string, Participant>) returns (names: seq<string>)
      ensures |names| == |participants| && multiset(names) == multiset(participants.Keys)
    {
      names := [];
      var rest := participants.Keys;
      while rest != {}
        invariant rest <= participants.Keys
        invariant multiset(names) == multiset(participants.Keys - rest)
        invariant |names| + |rest| == |participants|
        decreases rest
      {
        var k :| k in rest;
        assert participants.Keys - (rest - {k}) == participants.Keys - rest + {k};
        rest := rest - {k};
        names := names + [k];
      }
      assert participants.Keys - {} == participants.Keys;
    }
  }

  lemma PairHasTwo(conv: Conversation, u: string, receiver: string)
    ensures IsBetween(conv, u, receiver) ==> |conv.participants| == 2
  {
    assert |conv.participants| == |conv.participants.Keys|;
  }

  lemma SameNames(conv: Conversation, names: seq<string>, u: string, receiver: string)
    requires |conv.participants| == 2 && multiset(names) == multiset(conv.participants.Keys)
    ensures multiset(names) == multiset([u, receiver]) <==> IsBetween(conv, u, receiver)
  {
    var keys := conv.participants.Keys;
    assert multiset([u, receiver]) == multiset{u, receiver};
    if multiset(names) == multiset([u, receiver]) {
      assert forall x :: x in keys <==> x in multiset(keys);
      assert multiset(keys)[u] <= 1;
      assert keys == {u, receiver};
    }
  }
}
