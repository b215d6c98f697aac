/** The store keys of backend/pkg/chat/conversation/conversation.go. */
module ChatKeys {
  const MESSAGES := ":messages"

  function UserConversationsKey(userId: string): string {
    "user:" + userId + "conversations"
  }

  function ConversationMessagesKey(conversationId: string): string {
    "conversations:" + conversationId + MESSAGES
  }

  function ConversationPubSubKey(conversationId: string): string {
    "conversation:pubsub:" + conversationId
  }

  function UserConversationsLastReadKey(userId: string): string {
    "conversations:last_read:" + userId
  }

  function ActiveUserConversationIdKey(userId: string): string {
    "conversations:active" + userId
  }

  lemma Between(pre: string, x: string, post: string)
    ensures (pre + x + post)[|pre|..|pre| + |x|] == x
  {
  }

  /** Each family gives different ids different keys. */
  lemma KeysAreInjective(x: string, y: string)
    ensures UserConversationsKey(x) == UserConversationsKey(y) ==> x == y
    ensures ConversationMessagesKey(x) == ConversationMessagesKey(y) ==> x == y
    ensures ConversationPubSubKey(x) == ConversationPubSubKey(y) ==> x == y
    ensures UserConversationsLastReadKey(x) == UserConversationsLastReadKey(y) ==> x == y
    ensures ActiveUserConversationIdKey(x) == ActiveUserConversationIdKey(y) ==> x == y
  {
    Between("user:", x, "conversations");
    Between("user:", y, "conversations");
    Between("conversations:", x, ":messages");
    Between("conversations:", y, ":messages");
    After("conversation:pubsub:", x);
    After("conversation:pubsub:", y);
    After("conversations:last_read:", x);
    After("conversations:last_read:", y);
    After("conversations:active", x);
    After("conversations:active", y);
  }

  lemma After(pre: string, x: string)
    ensures (pre + x)[|pre|..] == x
  {
  }

  lemma CommonPrefix(pre: string, x: string, y: string)
    ensures pre + x == pre + y <==> x == y
  {
    After(pre, x);
    After(pre, y);
  }

  /** Keys of different families differ, whatever the ids, except that a messages key can be a user's
      active-conversation or last-read key: see ActiveCollides and LastReadCollides for exactly when. */
  lemma KeyFamiliesMeet(user: string, other: string, conv: string, conv': string)
    ensures UserConversationsKey(user) !in {ConversationMessagesKey(conv), ConversationPubSubKey(conv'),
                                            UserConversationsLastReadKey(other), ActiveUserConversationIdKey(other)}
    ensures ConversationPubSubKey(conv') !in {ConversationMessagesKey(conv), UserConversationsLastReadKey(other),
                                              ActiveUserConversationIdKey(other)}
    ensures ActiveUserConversationIdKey(user) != UserConversationsLastReadKey(other)
  {
    assert UserConversationsKey(user)[0] == 'u';
    assert ConversationPubSubKey(conv')[12] == ':' && ConversationMessagesKey(conv)[12] == 's';
    assert UserConversationsLastReadKey(other)[14] == 'l' && ActiveUserConversationIdKey(user)[14] == 'a';
  }

  /** For texts `a` without a colon: a + user is conv + ":messages" exactly when the user ends in
      ":messages" and the conversation is `a` with the rest of the user. */
  lemma TailOf(a: string, user: string, conv: string)
    requires ':' !in a
    ensures a + user == conv + MESSAGES
      <==> |user| >= 9 && user[|user| - 9..] == MESSAGES && conv == a + user[..|user| - 9]
  {
    if a + user == conv + MESSAGES {
      assert (conv + MESSAGES)[|conv|] == ':';
      assert forall i :: 0 <= i < |a| ==> (a + user)[i] == a[i] && a[i] in a;
      assert (a + user)[|conv|..] == MESSAGES && (a + user)[..|conv|] == conv;
      assert user[|conv| - |a|..] == MESSAGES && user[..|conv| - |a|] == user[..|user| - 9];
    }
    if |user| >= 9 && user[|user| - 9..] == MESSAGES && conv == a + user[..|user| - 9] {
      assert user == user[..|user| - 9] + MESSAGES;
      assert a + user == a + user[..|user| - 9] + MESSAGES;
    }
  }

  /** A user's active-conversation key is a conversation's messages key exactly when the user's id is
      some x followed by ":messages" and the conversation's is "active" followed by that x. */
  lemma ActiveCollides(user: string, conv: string)
    ensures ActiveUserConversationIdKey(user) == ConversationMessagesKey(conv)
      <==> |user| >= 9 && user[|user| - 9..] == MESSAGES && conv == "active" + user[..|user| - 9]
  {
    var p := "conversations:";
    assert "conversations:active" == p + "active";
    assert ActiveUserConversationIdKey(user) == p + ("active" + user);
    assert ConversationMessagesKey(conv) == p + (conv + MESSAGES);
    CommonPrefix(p, "active" + user, conv + MESSAGES);
    TailOf("active", user, conv);
  }

  lemma Headed(c: char, x: string, k: nat)
    requires k <= |x|
    ensures ([c] + x)[k + 1..] == x[k..] && ([c] + x)[..k + 1] == [c] + x[..k]
  {
  }

  lemma LastReadText(x: string)
    ensures "last_read" + ([':'] + x) == "last_read:" + x
  {
  }

  /** The tail of a user's id behind a colon. */
  lemma ColonTail(user: string, conv: string)
    ensures var x := [':'] + user;
      |x| >= 9 && x[|x| - 9..] == MESSAGES && conv == "last_read" + x[..|x| - 9]
      <==> || (user == "messages" && conv == "last_read")
           || (|user| >= 9 && user[|user| - 9..] == MESSAGES && conv == "last_read:" + user[..|user| - 9])
  {
    var x := [':'] + user;
    if |user| >= 9 {
      Headed(':', user, |user| - 9);
      LastReadText(user[..|user| - 9]);
    } else if |user| == 8 {
      assert x[0..] == x && x[..0] == "" && "last_read" + "" == "last_read";
      assert [':'] + "messages" == MESSAGES;
      CommonPrefix([':'], user, "messages");
    }
  }

  /** A last-read key collides likewise, and also for user "messages" and conversation "last_read". */
  lemma LastReadCollides(user: string, conv: string)
    ensures UserConversationsLastReadKey(user) == ConversationMessagesKey(conv)
      <==> || (user == "messages" && conv == "last_read")
           || (|user| >= 9 && user[|user| - 9..] == MESSAGES && conv == "last_read:" + user[..|user| - 9])
  {
    var p := "conversations:";
    LastReadText(user);
    assert UserConversationsLastReadKey(user) == p + ("last_read" + ([':'] + user)) by {
      assert "conversations:last_read:" == p + "last_read:";
    }
    assert ConversationMessagesKey(conv) == p + (conv + MESSAGES);
    CommonPrefix(p, "last_read" + ([':'] + user), conv + MESSAGES);
    TailOf("last_read", [':'] + user, conv);
    ColonTail(user, conv);
  }

  lemma TailHasColon(user: string)
    ensures |user| >= 9 && user[|user| - 9..] == MESSAGES ==> ':' in user
  {
    if |user| >= 9 {
      assert user[|user| - 9] == user[|user| - 9..][0] && user[|user| - 9] in user;
    }
  }

  /** A user's id without a colon, as a UUID is, collides only as "messages" with "last_read", which
      is not of the length of a UUID. */
  lemma UuidKeysDiffer(user: string, conv: string)
    requires |conv| == 36 && ':' !in user
    ensures ActiveUserConversationIdKey(user) != ConversationMessagesKey(conv)
    ensures UserConversationsLastReadKey(user) != ConversationMessagesKey(conv)
  {
    ActiveCollides(user, conv);
    LastReadCollides(user, conv);
    TailHasColon(user);
  }

  /** Ids whose keys collide. */
  lemma KeysCollide()
    ensures ActiveUserConversationIdKey("u:messages") == ConversationMessagesKey("activeu")
    ensures UserConversationsLastReadKey("u:messages") == ConversationMessagesKey("last_read:u")
    ensures UserConversationsLastReadKey("messages") == ConversationMessagesKey("last_read")
  {
    ActiveCollides("u:messages", "activeu");
    LastReadCollides("u:messages", "last_read:u");
    LastReadCollides("messages", "last_read");
  }
}
