/**
  Follows: FollowUser of backend/pkg/service/v1/auth.go over the follows table of
  backend/follows/queries.sql.go, and isFollowed of backend/follows/helpers.go.
  */
module Follows {
  import opened Wrappers

  /** Instants are in the microseconds the table keeps. */
  datatype Row = Row(follower: string, following: string, followDate: int, unfollowDate: Option<int>)

  predicate IsRowOf(r: Row, u: string, v: string) {
    r.follower == u && r.following == v
  }

  /** The SQL condition of IsFollowingUser on one row. */
  predicate Follows(r: Row) {
    r.unfollowDate.None? || r.followDate > r.unfollowDate.value
  }

  predicate IsFollowing(rows: seq<Row>, u: string, v: string) {
    exists i :: 0 <= i < |rows| && IsRowOf(rows[i], u, v) && Follows(rows[i])
  }

  /** helpers.go's isFollowed on the returned dates. */
  function IsFollowed(followDate: int, unfollowDate: Option<int>): bool {
    if unfollowDate.None? then true else followDate > unfollowDate.value
  }

  /** INSERT ... ON CONFLICT DO UPDATE SET follow_date. */
  function Upsert(rows: seq<Row>, u: string, v: string, now: int): seq<Row> {
    if rows == [] then [Row(u, v, now, None)]
    else if IsRowOf(rows[0], u, v) then [rows[0].(followDate := now)] + rows[1..]
    else [rows[0]] + Upsert(rows[1..], u, v, now)
  }

  /** UPDATE ... SET unfollow_date for the pair's row. */
  function SetUnfollow(rows: seq<Row>, u: string, v: string, now: int): seq<Row> {
    seq(|rows|, i requires 0 <= i < |rows| =>
      if IsRowOf(rows[i], u, v) then rows[i].(unfollowDate := Some(now)) else rows[i])
  }

  predicate OneRowPerPair(rows: seq<Row>) {
    forall i, j :: 0 <= i < j < |rows| ==> !IsRowOf(rows[j], rows[i].follower, rows[i].following)
  }

  function Toggled(rows: seq<Row>, u: string, v: string, now: int): seq<Row> {
    if IsFollowing(rows, u, v) then SetUnfollow(rows, u, v, now) else Upsert(rows, u, v, now)
  }

  /** The pair's row, if any. */
  function RowOf(rows: seq<Row>, u: string, v: string): (r: Option<Row>)
    ensures r.Some? ==> IsRowOf(r.value, u, v)
  {
    if rows == [] then None
    else if IsRowOf(rows[0], u, v) then Some(rows[0])
    else RowOf(rows[1..], u, v)
  }

  lemma {:induction false} RowOfIsTheRow(rows: seq<Row>, u: string, v: string)
    requires OneRowPerPair(rows)
    ensures forall i :: 0 <= i < |rows| && IsRowOf(rows[i], u, v) ==> RowOf(rows, u, v) == Some(rows[i])
    ensures RowOf(rows, u, v).Some? ==> exists i :: 0 <= i < |rows| && rows[i] == RowOf(rows, u, v).value
    ensures IsFollowing(rows, u, v) <==> RowOf(rows, u, v).Some? && Follows(RowOf(rows, u, v).value)
  {
    if rows != [] {
      RowOfIsTheRow(rows[1..], u, v);
      forall i | 0 <= i < |rows| && IsRowOf(rows[i], u, v) ensures RowOf(rows, u, v) == Some(rows[i]) {
        if i > 0 {
          assert rows[1..][i - 1] == rows[i];
        }
      }
      if RowOf(rows, u, v).Some? && !IsRowOf(rows[0], u, v) {
        var i :| 0 <= i < |rows[1..]| && rows[1..][i] == RowOf(rows[1..], u, v).value;
        assert rows[i + 1] == RowOf(rows, u, v).value;
      }
    }
  }

  lemma {:induction false} UpsertKeeps(rows: seq<Row>, u: string, v: string, now: int)
    requires OneRowPerPair(rows)
    ensures OneRowPerPair(Upsert(rows, u, v, now))
    ensures RowOf(Upsert(rows, u, v, now), u, v)
         == Some(Row(u, v, now, if RowOf(rows, u, v).Some? then RowOf(rows, u, v).value.unfollowDate else None))
    ensures forall x, y :: (x, y) != (u, v) ==> RowOf(Upsert(rows, u, v, now), x, y) == RowOf(rows, x, y)
    ensures forall r :: r in Upsert(rows, u, v, now) ==> IsRowOf(r, u, v) || r in rows
  {
    if rows == [] {
    } else if IsRowOf(rows[0], u, v) {
      assert Upsert(rows, u, v, now)[1..] == rows[1..];
    } else {
      UpsertKeeps(rows[1..], u, v, now);
      var rest := Upsert(rows[1..], u, v, now);
      assert Upsert(rows, u, v, now)[1..] == rest;
      forall j | 0 <= j < |rest| ensures !IsRowOf(rest[j], rows[0].follower, rows[0].following) {
        assert rest[j] in rest;
        if rest[j] in rows[1..] {
          var k :| 0 <= k < |rows[1..]| && rows[1..][k] == rest[j];
          assert rows[k + 1] == rest[j];
        }
      }
    }
  }

  lemma {:induction false} SetUnfollowKeeps(rows: seq<Row>, u: string, v: string, now: int)
    requires OneRowPerPair(rows)
    ensures OneRowPerPair(SetUnfollow(rows, u, v, now))
    ensures RowOf(SetUnfollow(rows, u, v, now), u, v)
         == if RowOf(rows, u, v).Some? then Some(RowOf(rows, u, v).value.(unfollowDate := Some(now))) else None
    ensures forall x, y :: (x, y) != (u, v) ==> RowOf(SetUnfollow(rows, u, v, now), x, y) == RowOf(rows, x, y)
  {
    if rows != [] {
      SetUnfollowKeeps(rows[1..], u, v, now);
      assert SetUnfollow(rows, u, v, now)[1..] == SetUnfollow(rows[1..], u, v, now);
    }
  }

  class FollowsTable {
    var users: set<string>
    var rows: seq<Row>

    constructor (users: set<string>)
      ensures this.users == users && rows == [] && Valid()
    {
      this.users, rows := users, [];
    }

    /** The primary key of the table, and its references to the users table. */
    ghost predicate Valid()
      reads this
    {
      OneRowPerPair(rows) && forall i :: 0 <= i < |rows| ==> rows[i].follower in users && rows[i].following in users
    }

    method IsFollowingUser(u: string, v: string) returns (b: bool)
      ensures b <==> IsFollowing(rows, u, v)
    {
      for i := 0 to |rows|
        invariant forall j :: 0 <= j < i ==> !(IsRowOf(rows[j], u, v) && Follows(rows[j]))
      {
        if IsRowOf(rows[i], u, v) && Follows(rows[i]) {
          return true;
        }
      }
      return false;
    }

    /** Fails, changing nothing, for a user or target that does not exist.  The answer, computed
        from the returned row, is what IsFollowingUser would say about the new table. */
    method FollowUser(u: string, v: string, now: int) returns (r: Result<bool, string>)
      requires Valid()
      modifies `rows
      ensures Valid()
      ensures r.Ok? <==> u in users && v in users
      ensures rows == if r.Ok? then Toggled(old(rows), u, v, now) else old(rows)
      ensures r.Ok? ==> r.value == IsFollowing(rows, u, v)
    {
      RowOfIsTheRow(rows, u, v);
      if u !in users {
        return Err("failed to retrieve sender user");
      }
      var isFollowing := IsFollowingUser(u, v);
      if isFollowing {
        SetUnfollowKeeps(rows, u, v, now);
        rows := SetUnfollow(rows, u, v, now);
      } else {
        if v !in users {
          return Err("failure occurred while following user");
        }
        UpsertKeeps(rows, u, v, now);
        UpsertUsers(rows, u, v, now, users);
        rows := Upsert(rows, u, v, now);
      }
      RowOfIsTheRow(rows, u, v);
      var row := RowOf(rows, u, v).value;
      return Ok(IsFollowed(row.followDate, row.unfollowDate));
    }
  }

  lemma UpsertUsers(rows: seq<Row>, u: string, v: string, now: int, users: set<string>)
    requires OneRowPerPair(rows) && u in users && v in users
    requires forall i :: 0 <= i < |rows| ==> rows[i].follower in users && rows[i].following in users
    ensures
      var rows' := Upsert(rows, u, v, now);
      forall i :: 0 <= i < |rows'| ==> rows'[i].follower in users && rows'[i].following in users
  {
    UpsertKeeps(rows, u, v, now);
    var rows' := Upsert(rows, u, v, now);
    forall i | 0 <= i < |rows'| ensures rows'[i].follower in users && rows'[i].following in users {
      assert rows'[i] in rows';
    }
  }

  /** One toggle flips the relation if and only if it comes not before the follow it ends, and
      after the unfollow it overrides; it leaves every other pair alone. */
  lemma ToggleFlipsIff(rows: seq<Row>, u: string, v: string, now: int)
    requires OneRowPerPair(rows)
    ensures OneRowPerPair(Toggled(rows, u, v, now))
    ensures (IsFollowing(Toggled(rows, u, v, now), u, v) <==> !IsFollowing(rows, u, v))
      <==> (var r := RowOf(rows, u, v);
            r.None? || (if Follows(r.value) then r.value.followDate <= now else r.value.unfollowDate.value < now))
    ensures forall x, y :: (x, y) != (u, v) ==>
              (IsFollowing(Toggled(rows, u, v, now), x, y) <==> IsFollowing(rows, x, y))
  {
    RowOfIsTheRow(rows, u, v);
    UpsertKeeps(rows, u, v, now);
    SetUnfollowKeeps(rows, u, v, now);
    var rows' := Toggled(rows, u, v, now);
    RowOfIsTheRow(rows', u, v);
    forall x, y | (x, y) != (u, v) ensures IsFollowing(rows', x, y) <==> IsFollowing(rows, x, y) {
      RowOfIsTheRow(rows, x, y);
      RowOfIsTheRow(rows', x, y);
    }
  }

  datatype Call = Call(u: string, v: string, now: int)

  /** `ts[i]` is the table after the first `i` successful calls, each at a later instant. */
  ghost predicate Run(calls: seq<Call>, ts: seq<seq<Row>>) {
    && |ts| == |calls| + 1
    && ts[0] == []
    && (forall i :: 0 <= i < |calls| ==> ts[i + 1] == Toggled(ts[i], calls[i].u, calls[i].v, calls[i].now))
    && (forall i, j :: 0 <= i < j < |calls| ==> calls[i].now < calls[j].now)
  }

  /** How often the pair was toggled. */
  function Toggles(calls: seq<Call>, u: string, v: string): nat {
    if calls == [] then 0
    else
      var last := calls[|calls| - 1];
      Toggles(calls[..|calls| - 1], u, v) + if last.u == u && last.v == v then 1 else 0
  }

  lemma TogglesNext(calls: seq<Call>, i: nat, u: string, v: string)
    requires i < |calls|
    ensures Toggles(calls[..i + 1], u, v)
         == Toggles(calls[..i], u, v) + if calls[i].u == u && calls[i].v == v then 1 else 0
  {
    assert calls[..i + 1][..i] == calls[..i];
  }

  ghost predicate DatedBefore(rows: seq<Row>, u: string, v: string, now: int) {
    var r := RowOf(rows, u, v);
    r.Some? ==> r.value.followDate < now && (r.value.unfollowDate.Some? ==> r.value.unfollowDate.value < now)
  }

  lemma DatesStayPast(rows: seq<Row>, c: Call, u: string, v: string, now: int)
    requires OneRowPerPair(rows) && DatedBefore(rows, u, v, now) && c.now < now
    ensures DatedBefore(Toggled(rows, c.u, c.v, c.now), u, v, now)
  {
    UpsertKeeps(rows, c.u, c.v, c.now);
    SetUnfollowKeeps(rows, c.u, c.v, c.now);
    assert (u, v) == (c.u, c.v) || RowOf(Toggled(rows, c.u, c.v, c.now), u, v) == RowOf(rows, u, v);
  }

  lemma LaterToggleFlips(rows: seq<Row>, c: Call, u: string, v: string)
    requires OneRowPerPair(rows) && DatedBefore(rows, u, v, c.now)
    ensures OneRowPerPair(Toggled(rows, c.u, c.v, c.now))
    ensures IsFollowing(Toggled(rows, c.u, c.v, c.now), u, v) <==> IsFollowing(rows, u, v) != (c.u == u && c.v == v)
  {
    ToggleFlipsIff(rows, c.u, c.v, c.now);
    RowOfIsTheRow(rows, u, v);
    hide OneRowPerPair, Toggled, IsFollowing, RowOf;
  }

  lemma RunStarts(calls: seq<Call>, ts: seq<seq<Row>>, u: string, v: string)
    requires Run(calls, ts)
    ensures |ts| == |calls| + 1 && OneRowPerPair(ts[0]) && !IsFollowing(ts[0], u, v) && Toggles(calls[..0], u, v) == 0
    ensures forall now :: DatedBefore(ts[0], u, v, now)
  {
    hide Toggled;
  }

  lemma RunNext(calls: seq<Call>, ts: seq<seq<Row>>, i: nat)
    requires Run(calls, ts) && i < |calls|
    ensures |ts| == |calls| + 1 && ts[i + 1] == Toggled(ts[i], calls[i].u, calls[i].v, calls[i].now)
    ensures forall j :: i < j < |calls| ==> calls[i].now < calls[j].now
  {
    hide Toggled;
  }

  lemma {:induction false} RunTells(calls: seq<Call>, ts: seq<seq<Row>>, i: nat, u: string, v: string)
    requires Run(calls, ts) && i < |ts|
    ensures OneRowPerPair(ts[i])
    ensures IsFollowing(ts[i], u, v) <==> Toggles(calls[..i], u, v) % 2 == 1
    ensures forall j :: i <= j < |calls| ==> DatedBefore(ts[i], u, v, calls[j].now)
  {
    hide OneRowPerPair, Toggled, IsFollowing, DatedBefore, Toggles;
    RunStarts(calls, ts, u, v);
    hide Run;
    if i > 0 {
      var c := calls[i - 1];
      RunNext(calls, ts, i - 1);
      RunTells(calls, ts, i - 1, u, v);
      LaterToggleFlips(ts[i - 1], c, u, v);
      TogglesNext(calls, i - 1, u, v);
      forall j | i <= j < |calls| ensures DatedBefore(ts[i], u, v, calls[j].now) {
        DatesStayPast(ts[i - 1], c, u, v, calls[j].now);
      }
    }
  }

  /** After any run of successful calls at increasing instants, each ordered pair has at most one
      row, and follows exactly when it was toggled an odd number of times. */
  lemma FollowsIffToggledOddly(calls: seq<Call>, ts: seq<seq<Row>>, u: string, v: string)
    requires Run(calls, ts)
    ensures OneRowPerPair(ts[|calls|])
    ensures IsFollowing(ts[|calls|], u, v) <==> Toggles(calls, u, v) % 2 == 1
  {
    RunTells(calls, ts, |calls|, u, v);
    assert calls[..|calls|] == calls;
  }

  /** Increasing instants are needed: at one instant, the third toggle of a pair does not take. */
  lemma SameInstantDoesNotTake(u: string, v: string, now: int)
    ensures
      var once := Toggled([], u, v, now);
      var twice := Toggled(once, u, v, now);
      var thrice := Toggled(twice, u, v, now);
      IsFollowing(once, u, v) && !IsFollowing(twice, u, v) && !IsFollowing(thrice, u, v)
  {
    var once := Toggled([], u, v, now);
    var twice := Toggled(once, u, v, now);
    ToggleFlipsIff([], u, v, now);
    assert once == [Row(u, v, now, None)];
    ToggleFlipsIff(once, u, v, now);
    assert twice == [Row(u, v, now, Some(now))];
    ToggleFlipsIff(twice, u, v, now);
  }
}
