/** Post likes: backend/pkg/service/v1/posts.go over the posts table of backend/posts/queries.sql.go. */
module Likes {
  import opened Wrappers

  /** The columns a like touches; `likes` is a 32-bit integer. */
  datatype Post = Post(likes: int, userIdsWhoLikes: seq<string>)

  const MAX_INT4 := 0x7fff_ffff
  const MIN_INT4 := -0x8000_0000
  const NewPost := Post(0, [])

  /** array_remove drops every occurrence. */
  function ArrayRemove(a: seq<string>, u: string): seq<string> {
    if a == [] then [] else (if a[0] == u then [] else [a[0]]) + ArrayRemove(a[1..], u)
  }

  predicate HasLiked(p: Post, u: string) {
    u in p.userIdsWhoLikes
  }

  /** An update that would leave the column's range is refused. */
  predicate CanToggle(p: Post, u: string) {
    if HasLiked(p, u) then MIN_INT4 < p.likes else p.likes < MAX_INT4
  }

  /** The row after removing or adding a like. */
  function Updated(p: Post, u: string, remove: bool): Post {
    if remove then Post(p.likes - 1, ArrayRemove(p.userIdsWhoLikes, u))
    else Post(p.likes + 1, p.userIdsWhoLikes + [u])
  }

  function Toggled(p: Post, u: string): Post {
    Updated(p, u, HasLiked(p, u))
  }

  class PostsTable {
    var rows: map<string, Post>

    constructor ()
      ensures rows == map[]
    {
      rows := map[];
    }

    method HasUserLikedPost(id: string, u: string) returns (liked: bool)
      ensures liked <==> id in rows && HasLiked(rows[id], u)
    {
      liked := id in rows && u in rows[id].userIdsWhoLikes;
    }

    /** LikePost query: no row, or an overflow, is an error. */
    method AddLike(id: string, u: string) returns (ok: bool)
      modifies this
      ensures ok <==> id in old(rows) && old(rows)[id].likes < MAX_INT4
      ensures rows == if ok then
          old(rows)[id := Post(old(rows)[id].likes + 1, old(rows)[id].userIdsWhoLikes + [u])]
        else old(rows)
    {
      if id !in rows || MAX_INT4 <= rows[id].likes {
        return false;
      }
      var p := rows[id];
      rows := rows[id := Post(p.likes + 1, p.userIdsWhoLikes + [u])];
      return true;
    }

    /** RemoveLikeFromPost query. */
    method RemoveLike(id: string, u: string) returns (ok: bool)
      modifies this
      ensures ok <==> id in old(rows) && MIN_INT4 < old(rows)[id].likes
      ensures rows == if ok then
          old(rows)[id := Post(old(rows)[id].likes - 1, ArrayRemove(old(rows)[id].userIdsWhoLikes, u))]
        else old(rows)
    {
      if id !in rows || rows[id].likes <= MIN_INT4 {
        return false;
      }
      var p := rows[id];
      rows := rows[id := Post(p.likes - 1, ArrayRemove(p.userIdsWhoLikes, u))];
      return true;
    }

    /** The service's LikePost: checks, then toggles; a failed call changes nothing.  The answer
        says whether the user likes the post now. */
    method LikePost(id: string, u: string) returns (r: Result<bool, string>)
      modifies this
      ensures r.Ok? <==> id in old(rows) && CanToggle(old(rows)[id], u)
      ensures rows == if r.Ok? then old(rows)[id := Toggled(old(rows)[id], u)] else old(rows)
      ensures r.Ok? ==> r.value == !HasLiked(old(rows)[id], u)
    {
      var hasAlreadyLiked := HasUserLikedPost(id, u);
      var ok := LikeOrDislikePost(id, u, hasAlreadyLiked);
      if !ok {
        return Err("could not toggle like post");
      }
      ArrayRemoveRemoves(old(rows)[id].userIdsWhoLikes, u);
      var liked := HasUserLikedPost(id, u);
      return Ok(liked);
    }

    /** Follows the flag, whatever the row says; a flag that agrees with the row toggles it. */
    method LikeOrDislikePost(id: string, u: string, hasAlreadyLiked: bool) returns (ok: bool)
      modifies this
      ensures ok <==> (
        && id in old(rows)
        && if hasAlreadyLiked then MIN_INT4 < old(rows)[id].likes else old(rows)[id].likes < MAX_INT4)
      ensures rows == if ok then old(rows)[id := Updated(old(rows)[id], u, hasAlreadyLiked)] else old(rows)
      ensures ok && hasAlreadyLiked == HasLiked(old(rows)[id], u)
        ==> rows == old(rows)[id := Toggled(old(rows)[id], u)]
      ensures ok ==> HasLiked(rows[id], u) == !hasAlreadyLiked
    {
      if id in rows {
        ArrayRemoveRemoves(rows[id].userIdsWhoLikes, u);
      }
      if hasAlreadyLiked {
        ok := RemoveLike(id, u);
      } else {
        ok := AddLike(id, u);
      }
    }
  }

  lemma {:induction false} ArrayRemoveRemoves(a: seq<string>, u: string)
    ensures forall x :: multiset(ArrayRemove(a, u))[x] == if x == u then 0 else multiset(a)[x]
    ensures |ArrayRemove(a, u)| + multiset(a)[u] == |a|
    ensures forall x :: x in ArrayRemove(a, u) <==> x in a && x != u
  {
    if a != [] {
      ArrayRemoveRemoves(a[1..], u);
      assert a == [a[0]] + a[1..];
    }
  }

  lemma AppendCounts(a: seq<string>, u: string)
    ensures forall x :: multiset(a + [u])[x] == multiset(a)[x] + if x == u then 1 else 0
  {
    assert multiset(a + [u]) == multiset(a) + multiset{u};
  }

  /** `ps[i]` is the row after the first `i` successful calls on a new post. */
  ghost predicate Run(us: seq<string>, ps: seq<Post>) {
    && |ps| == |us| + 1
    && ps[0] == NewPost
    && forall i :: 0 <= i < |us| ==> CanToggle(ps[i], us[i]) && ps[i + 1] == Toggled(ps[i], us[i])
  }

  ghost predicate Tells(us: seq<string>, p: Post) {
    && p.likes == |p.userIdsWhoLikes|
    && (forall u :: multiset(p.userIdsWhoLikes)[u] == multiset(us)[u] % 2)
  }

  lemma ToggleTells(us: seq<string>, u: string, p: Post)
    requires Tells(us, p)
    ensures Tells(us + [u], Toggled(p, u))
  {
    hide ArrayRemove;
    var a := p.userIdsWhoLikes;
    AppendCounts(us, u);
    assert HasLiked(p, u) <==> multiset(a)[u] == 1;
    if HasLiked(p, u) {
      ArrayRemoveRemoves(a, u);
    } else {
      AppendCounts(a, u);
    }
  }

  lemma {:induction false} RunTells(us: seq<string>, ps: seq<Post>, i: nat)
    requires Run(us, ps) && i < |ps|
    ensures Tells(us[..i], ps[i])
  {
    if i > 0 {
      RunTells(us, ps, i - 1);
      ToggleTells(us[..i - 1], us[i - 1], ps[i - 1]);
      assert us[..i] == us[..i - 1] + [us[i - 1]];
    }
  }

  /** After any run the counter is the length of the array, the array lists without repetition
      exactly the users who toggled an odd number of times. */
  lemma LikesCountOddTogglers(us: seq<string>, ps: seq<Post>)
    requires Run(us, ps)
    ensures
      var p := ps[|us|];
      && p.likes == |p.userIdsWhoLikes|
      && (forall u :: HasLiked(p, u) <==> multiset(us)[u] % 2 == 1)
      && (forall i, j :: 0 <= i < j < |p.userIdsWhoLikes| ==> p.userIdsWhoLikes[i] != p.userIdsWhoLikes[j])
  {
    RunTells(us, ps, |us|);
    assert us[..|us|] == us;
    var a := ps[|us|].userIdsWhoLikes;
    forall i, j | 0 <= i < j < |a| ensures a[i] != a[j] {
      assert multiset(a)[a[i]] <= 1;
      assert a == a[..j] + [a[j]] + a[j + 1..];
      assert a[i] in a[..j];
    }
  }

  lemma {:induction false} LikesAreFew(us: seq<string>, ps: seq<Post>, i: nat)
    requires Run(us, ps) && i < |ps|
    ensures 0 <= ps[i].likes <= i
  {
    RunTells(us, ps, i);
    if i > 0 {
      LikesAreFew(us, ps, i - 1);
    }
  }

  /** A post is never refused a like, or its withdrawal, in its first 2_147_483_647 calls. */
  lemma NoneRefused(us: seq<string>, ps: seq<Post>, u: string)
    requires Run(us, ps) && |us| < 2_147_483_647
    ensures CanToggle(ps[|us|], u)
  {
    LikesAreFew(us, ps, |us|);
  }

  /** Two toggles by one user restore the count and who likes the post; they restore the array, up
      to order, exactly when it lists the user at most once. */
  lemma TwoTogglesRestore(p: Post, u: string)
    ensures
      var p' := Toggled(Toggled(p, u), u);
      && p'.likes == p.likes
      && (forall x :: HasLiked(p', x) <==> HasLiked(p, x))
      && (multiset(p'.userIdsWhoLikes) == multiset(p.userIdsWhoLikes) <==> multiset(p.userIdsWhoLikes)[u] <= 1)
  {
    hide ArrayRemove;
    var a := p.userIdsWhoLikes;
    if u in a {
      ArrayRemoveRemoves(a, u);
      AppendCounts(ArrayRemove(a, u), u);
    } else {
      AppendCounts(a, u);
      ArrayRemoveRemoves(a + [u], u);
    }
  }
}
