/**
  The chat store of backend/pkg/chat: every participant holds a replica of each conversation,
  and a conversation's messages sit in one set sorted by (score, member).
  */
module Chat {
  import opened Wrappers

  const MESSAGES_LIMIT := 10
  const NS := 1_000_000_000

  /** time.Time.Unix: whole seconds, rounded down, of an instant in ns. */
  function Unix(ns: int): int {
    ns / NS
  }

  datatype Participant = Participant(userId: string, username: string, joinedAt: int)

  /** A message stands for its encoded form, which is what the store holds and what it decodes from. */
  datatype Message = Message(userId: string, createdAt: int, encoded: string)

  datatype Conversation = Conversation(
    id: string,
    participants: map<string, Participant>,
    createdAt: int,
    unread: int,
    lastMessage: Option<string>)

  // ----- Sorted sets

  datatype Entry = Entry(score: int, member: string)

  /** Byte-wise order of members. */
  predicate Less(a: string, b: string) {
    b != "" && (a == "" || a[0] < b[0] || (a[0] == b[0] && Less(a[1..], b[1..])))
  }

  predicate Before(x: Entry, y: Entry) {
    x.score < y.score || (x.score == y.score && Less(x.member, y.member))
  }

  predicate Sorted(z: seq<Entry>) {
    forall i, j :: 0 <= i < j < |z| ==> Before(z[i], z[j])
  }

  /** A member has one score. */
  ghost predicate OneEntryEach(z: seq<Entry>) {
    forall x, y :: x in z && y in z && x.member == y.member ==> x == y
  }

  ghost predicate Distinct(messages: seq<string>) {
    forall i, j :: 0 <= i < j < |messages| ==> messages[i] != messages[j]
  }

  function Remove(z: seq<Entry>, member: string): seq<Entry> {
    if z == [] then [] else (if z[0].member == member then [] else [z[0]]) + Remove(z[1..], member)
  }

  function Insert(z: seq<Entry>, e: Entry): seq<Entry> {
    if z == [] || Before(e, z[0]) then [e] + z else [z[0]] + Insert(z[1..], e)
  }

  /** ZADD of one member: it keeps a single entry, with the new score. */
  function ZAdd(z: seq<Entry>, e: Entry): seq<Entry> {
    Insert(Remove(z, e.member), e)
  }

  /** ZREVRANGE 0 0. */
  function ZLast(z: seq<Entry>): Option<string> {
    if z == [] then None else Some(z[|z| - 1].member)
  }

  function FromScore(z: seq<Entry>, min: int): seq<Entry> {
    if z == [] then [] else (if z[0].score >= min then [z[0]] else []) + FromScore(z[1..], min)
  }

  /** ZRANGEBYSCORE min +inf LIMIT offset count: a negative offset selects nothing. */
  function ZRangeByScore(z: seq<Entry>, min: int, offset: int, count: nat): seq<Entry> {
    var all := FromScore(z, min);
    if offset < 0 || offset >= |all| then []
    else all[offset..if offset + count <= |all| then offset + count else |all|]
  }

  lemma {:induction a} LessIsTotal(a: string, b: string)
    ensures a == b || Less(a, b) || Less(b, a)
    ensures !(Less(a, b) && Less(b, a)) && !Less(a, a)
  {
    if a != "" && b != "" && a[0] == b[0] {
      LessIsTotal(a[1..], b[1..]);
      assert a == [a[0]] + a[1..] && b == [b[0]] + b[1..];
    }
  }

  lemma {:induction false} LessIsTransitive(a: string, b: string, c: string)
    requires Less(a, b) && Less(b, c)
    ensures Less(a, c)
  {
    if a != "" && a[0] == b[0] == c[0] {
      LessIsTransitive(a[1..], b[1..], c[1..]);
    }
  }

  /** The strings agree up to `k`, where the first ends or has the smaller character. */
  predicate LessAt(a: string, b: string, k: int) {
    0 <= k <= |a| && k < |b| && a[..k] == b[..k] && (k == |a| || a[k] < b[k])
  }

  lemma LessAtNext(a: string, b: string, k: int)
    requires a != "" && b != "" && k > 0
    ensures LessAt(a, b, k) <==> a[0] == b[0] && LessAt(a[1..], b[1..], k - 1)
  {
    if k <= |a| && k < |b| {
      assert a[..k] == [a[0]] + a[1..][..k - 1] && b[..k] == [b[0]] + b[1..][..k - 1];
      assert a[..k][0] == a[0] && a[..k][1..] == a[1..][..k - 1];
      assert b[..k][0] == b[0] && b[..k][1..] == b[1..][..k - 1];
      assert k < |a| ==> a[1..][k - 1] == a[k] && b[1..][k - 1] == b[k];
    }
  }

  /** The order of members is the lexicographic one. */
  lemma {:induction false} LessIsLexicographic(a: string, b: string)
    ensures Less(a, b) <==> exists k :: LessAt(a, b, k)
  {
    if a == "" || b == "" {
      assert b != "" ==> LessAt(a, b, 0);
    } else {
      LessIsLexicographic(a[1..], b[1..]);
      forall k: int | k > 0 ensures LessAt(a, b, k) <==> a[0] == b[0] && LessAt(a[1..], b[1..], k - 1) {
        LessAtNext(a, b, k);
      }
      assert LessAt(a, b, 0) <==> a[0] < b[0];
      if j :| LessAt(a[1..], b[1..], j) {
        assert LessAt(a, b, j + 1) <==> a[0] == b[0];
      }
    }
  }

  /** Whole seconds, rounded down. */
  lemma UnixRoundsDown(ns: int)
    ensures Unix(ns) * 1_000_000_000 <= ns < (Unix(ns) + 1) * 1_000_000_000
  {
  }

  lemma BeforeIsTransitive(x: Entry, y: Entry, w: Entry)
    requires Before(x, y) && Before(y, w)
    ensures Before(x, w)
  {
    if x.score == y.score == w.score {
      LessIsTransitive(x.member, y.member, w.member);
    }
  }

  lemma {:induction false} RemoveKeeps(z: seq<Entry>, member: string)
    requires Sorted(z)
    ensures Sorted(Remove(z, member))
    ensures forall e :: e in Remove(z, member) <==> e in z && e.member != member
  {
    if z != [] {
      RemoveKeeps(z[1..], member);
      assert forall e :: e in z <==> e == z[0] || e in z[1..];
      assert forall e :: e in z[1..] ==> Before(z[0], e);
      var rest := Remove(z[1..], member);
      assert forall i :: 0 <= i < |rest| ==> rest[i] in rest;
    }
  }

  lemma {:induction false} InsertKeeps(z: seq<Entry>, e: Entry)
    requires Sorted(z) && forall x :: x in z ==> x.member != e.member
    ensures Sorted(Insert(z, e))
    ensures forall x :: x in Insert(z, e) <==> x == e || x in z
  {
    if z == [] {
    } else if Before(e, z[0]) {
      forall i | 0 <= i < |z| ensures Before(e, z[i]) {
        if i > 0 {
          BeforeIsTransitive(e, z[0], z[i]);
        }
      }
    } else {
      InsertKeeps(z[1..], e);
      LessIsTotal(e.member, z[0].member);
      assert z[0] in z && Before(z[0], e);
      assert forall x :: x in z <==> x == z[0] || x in z[1..];
      assert forall x :: x in z[1..] ==> Before(z[0], x);
      var rest := Insert(z[1..], e);
      assert forall i :: 0 <= i < |rest| ==> rest[i] in rest;
    }
  }

  /** ZADD keeps the set sorted, gives the member its one new entry and touches no other. */
  lemma ZAddKeeps(z: seq<Entry>, e: Entry)
    requires Sorted(z)
    ensures Sorted(ZAdd(z, e))
    ensures forall x :: x in ZAdd(z, e) <==> x == e || (x in z && x.member != e.member)
    ensures OneEntryEach(z) ==> OneEntryEach(ZAdd(z, e))
  {
    RemoveKeeps(z, e.member);
    InsertKeeps(Remove(z, e.member), e);
  }

  // ----- Messages visible to a participant

  /** The entries from a score on are a suffix of the sorted set. */
  lemma {:induction false} VisibleIsSuffix(z: seq<Entry>, min: int) returns (k: nat)
    requires Sorted(z)
    ensures k <= |z| && FromScore(z, min) == z[k..]
    ensures forall i :: 0 <= i < |z| ==> (i < k <==> z[i].score < min)
  {
    hide Less;
    if z == [] {
      k := 0;
    } else {
      k := VisibleIsSuffix(z[1..], min);
      assert forall i :: 0 <= i < |z| - 1 ==> z[1..][i] == z[i + 1];
      if z[0].score >= min {
        assert |z| > 1 ==> Before(z[0], z[1]) && z[1] == z[1..][0];
        assert k == 0;
      } else {
        k := k + 1;
      }
      assert forall i :: 0 < i < |z| ==> z[i] == z[1..][i - 1];
    }
  }

  /** If any message is visible, the newest visible one is the newest of all. */
  lemma NewestVisibleIsLast(z: seq<Entry>, min: int)
    requires Sorted(z) && FromScore(z, min) != []
    ensures ZLast(z) == Some(FromScore(z, min)[|FromScore(z, min)| - 1].member)
  {
    var k := VisibleIsSuffix(z, min);
  }

  // ----- One page

  datatype Page = Page(messages: seq<string>, hasMore: bool)

  function MembersOf(es: seq<Entry>): seq<string> {
    seq(|es|, i requires 0 <= i < |es| => es[i].member)
  }

  /** The controller's page: one entry more than the limit is fetched and dropped. */
  function PageOf(z: seq<Entry>, joinedAt: int, offset: int): Page {
    var fetched := MembersOf(ZRangeByScore(z, Unix(joinedAt), offset, MESSAGES_LIMIT + 1));
    var hasMore := |fetched| > MESSAGES_LIMIT;
    Page(if hasMore then fetched[..|fetched| - 1] else fetched, hasMore)
  }

  /** What a page is, for every offset. */
  lemma PageShows(z: seq<Entry>, joinedAt: int, offset: int)
    ensures
      var visible, page := MembersOf(FromScore(z, Unix(joinedAt))), PageOf(z, joinedAt, offset);
      && (page.hasMore <==> 0 <= offset && offset + 10 < |visible|)
      && (0 <= offset <= |visible| ==> page.messages == visible[offset..offset + |page.messages|])
      && (0 <= offset && !page.hasMore && offset <= |visible| ==> offset + |page.messages| == |visible|)
      && (page.hasMore ==> |page.messages| == 10)
      && (offset < 0 || |visible| <= offset ==> page.messages == [])
  {
    hide FromScore;
    var all := FromScore(z, Unix(joinedAt));
    var visible := MembersOf(all);
    if 0 <= offset < |all| {
      var end := if offset + MESSAGES_LIMIT + 1 <= |all| then offset + MESSAGES_LIMIT + 1 else |all|;
      assert MembersOf(all[offset..end]) == visible[offset..end];
    }
  }

  /** A client that starts at `offset` and advances by what it got until HasMore is false. */
  function AllPages(z: seq<Entry>, joinedAt: int, offset: nat): seq<string>
    decreases |FromScore(z, Unix(joinedAt))| - offset
  {
    PageShows(z, joinedAt, offset);
    var page := PageOf(z, joinedAt, offset);
    if page.hasMore then page.messages + AllPages(z, joinedAt, offset + |page.messages|) else page.messages
  }

  lemma {:induction false} PagesFrom(z: seq<Entry>, joinedAt: int, offset: nat)
    requires offset <= |FromScore(z, Unix(joinedAt))|
    ensures AllPages(z, joinedAt, offset) == MembersOf(FromScore(z, Unix(joinedAt)))[offset..]
    decreases |FromScore(z, Unix(joinedAt))| - offset
  {
    PageShows(z, joinedAt, offset);
    var visible, page := MembersOf(FromScore(z, Unix(joinedAt))), PageOf(z, joinedAt, offset);
    if page.hasMore {
      PagesFrom(z, joinedAt, offset + |page.messages|);
      assert visible[offset..] == page.messages + visible[offset + |page.messages|..];
    }
  }

  /** A page that is not followed by another one ends with the newest message of all. */
  lemma LastPageEndsWithNewest(z: seq<Entry>, joinedAt: int, offset: nat)
    requires Sorted(z) && offset < |FromScore(z, Unix(joinedAt))| && !PageOf(z, joinedAt, offset).hasMore
    ensures
      var messages := PageOf(z, joinedAt, offset).messages;
      messages != [] && ZLast(z) == Some(messages[|messages| - 1])
  {
    PageShows(z, joinedAt, offset);
    NewestVisibleIsLast(z, Unix(joinedAt));
  }

  /** A strictly sorted stretch of a set with one entry each names nobody twice. */
  lemma SuffixIsDistinct(z: seq<Entry>, k: nat)
    requires Sorted(z) && OneEntryEach(z) && k <= |z|
    ensures Distinct(MembersOf(z[k..]))
  {
    forall i, j | k <= i < j < |z| ensures z[i].member != z[j].member {
      assert z[i] in z && z[j] in z && Before(z[i], z[j]);
      LessIsTotal(z[i].member, z[j].member);
    }
  }

  /** Paging from 0 ends and yields exactly the messages with a score from the user's joining on,
      in order and none missed; none is repeated, since ZADD gives each member one entry. */
  lemma PagingIsComplete(z: seq<Entry>, joinedAt: int)
    requires Sorted(z)
    ensures exists k ::
      && 0 <= k <= |z| && AllPages(z, joinedAt, 0) == MembersOf(z[k..])
      && (forall i :: 0 <= i < |z| ==> (i < k <==> z[i].score < Unix(joinedAt)))
    ensures OneEntryEach(z) ==> Distinct(AllPages(z, joinedAt, 0))
  {
    PagesFrom(z, joinedAt, 0);
    var k := VisibleIsSuffix(z, Unix(joinedAt));
    var visible := MembersOf(FromScore(z, Unix(joinedAt)));
    assert visible[0..] == visible;
    if OneEntryEach(z) {
      SuffixIsDistinct(z, k);
    }
  }
}
