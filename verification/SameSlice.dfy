/** SameStringSlice of backend/helpers/testing.go. */
module SameSlice {
  /** The map holds the multiplicities of `m`, with no entry for what does not occur. */
  ghost predicate Tallies(diff: map<string, int>, m: multiset<string>) {
    && (forall s :: s in diff <==> s in m)
    && (forall s :: s in diff ==> diff[s] == m[s])
  }

  lemma CountUp(diff: map<string, int>, s: seq<string>, i: nat)
    requires i < |s| && Tallies(diff, multiset(s[..i]))
    ensures Tallies(diff[s[i] := (if s[i] in diff then diff[s[i]] else 0) + 1], multiset(s[..i + 1]))
  {
    assert s[..i + 1] == s[..i] + [s[i]];
  }

  /** Taking y[j] off the tally of what x has and y[..j] has not. */
  lemma CountDown(diff: map<string, int>, x: multiset<string>, y: seq<string>, j: nat)
    requires j < |y| && multiset(y[..j]) <= x && Tallies(diff, x - multiset(y[..j]))
    ensures y[j] !in diff ==> x != multiset(y)
    ensures y[j] in diff ==>
      && multiset(y[..j + 1]) <= x
      && Tallies(if diff[y[j]] == 1 then diff - {y[j]} else diff[y[j] := diff[y[j]] - 1], x - multiset(y[..j + 1]))
  {
    assert y[..j + 1] == y[..j] + [y[j]];
    assert y == y[..j + 1] + y[j + 1..];
    if y[j] !in diff {
      assert multiset(y)[y[j]] >= multiset(y[..j + 1])[y[j]] > x[y[j]];
    }
  }

  lemma Settled(diff: map<string, int>, x: multiset<string>, y: multiset<string>)
    requires y <= x && Tallies(diff, x - y)
    ensures |diff| == 0 <==> x == y
  {
    if |diff| == 0 {
      assert diff == map[];
      forall s ensures x[s] == y[s] {
        assert s !in x - y;
      }
    } else {
      var s :| s in diff;
      assert s in x - y;
    }
  }

  /** Counting up over one slice and down over the other decides multiset equality. */
  method SameStringSlice(x: seq<string>, y: seq<string>) returns (same: bool)
    ensures same <==> multiset(x) == multiset(y)
  {
    if |x| != |y| {
      assert |multiset(x)| != |multiset(y)|;
      return false;
    }
    var diff: map<string, int> := map[];
    assert Tallies(diff, multiset(x[..0]));
    hide Tallies;
    for i := 0 to |x|
      invariant Tallies(diff, multiset(x[..i]))
    {
      CountUp(diff, x, i);
      diff := diff[x[i] := (if x[i] in diff then diff[x[i]] else 0) + 1];
    }
    assert x[..|x|] == x && y[..|y|] == y;
    assert multiset(x) - multiset(y[..0]) == multiset(x);
    for j := 0 to |y|
      invariant multiset(y[..j]) <= multiset(x) && Tallies(diff, multiset(x) - multiset(y[..j]))
    {
      CountDown(diff, multiset(x), y, j);
      if y[j] !in diff {
        return false;
      }
      ghost var was := diff;
      diff := diff[y[j] := diff[y[j]] - 1];
      if diff[y[j]] == 0 {
        diff := diff - {y[j]};
        assert diff == was - {y[j]};
      }
    }
    Settled(diff, multiset(x), multiset(y));
    same := |diff| == 0;
  }
}
