/**
 * The recent-question list both next-question routes keep: the id just served goes to
 * the front, any older copy of it is dropped, and only the ten newest ids are kept.
 */
module RecentList {
  import opened Records

  /** `xs.filter((x) => x !== id)`. */
  function Without(xs: seq<string>, id: string): (r: seq<string>)
    ensures |r| <= |xs|
    ensures id !in r
  {
    if xs == [] then [] else (if xs[0] == id then [] else [xs[0]]) + Without(xs[1..], id)
  }

  /** Filtering keeps exactly the other ids. */
  lemma {:induction false} WithoutMembership(xs: seq<string>, id: string, x: string)
    ensures x in Without(xs, id) <==> x in xs && x != id
  {
    if xs != [] {
      WithoutMembership(xs[1..], id, x);
      assert xs == [xs[0]] + xs[1..];
    }
  }

  /** Filtering distributes over concatenation, so the ids it keeps stay in their order. */
  lemma {:induction false} WithoutAppend(xs: seq<string>, ys: seq<string>, id: string)
    ensures Without(xs + ys, id) == Without(xs, id) + Without(ys, id)
  {
    if xs == [] {
      assert xs + ys == ys;
    } else {
      assert (xs + ys)[1..] == xs[1..] + ys;
      WithoutAppend(xs[1..], ys, id);
    }
  }

  /** Filtering out an id that is not there changes nothing. */
  lemma {:induction false} WithoutAbsent(xs: seq<string>, id: string)
    requires id !in xs
    ensures Without(xs, id) == xs
  {
    if xs != [] {
      WithoutAbsent(xs[1..], id);
      assert xs == [xs[0]] + xs[1..];
    }
  }

  /** Filtering keeps a list without repeats free of repeats. */
  lemma {:induction false} WithoutKeepsDistinct(xs: seq<string>, id: string)
    requires Distinct(xs)
    ensures Distinct(Without(xs, id))
  {
    if xs != [] {
      var tail := xs[1..];
      assert Distinct(tail) by {
        forall i, j | 0 <= i < j < |tail| ensures tail[i] != tail[j] {
          assert tail[i] == xs[i + 1] && tail[j] == xs[j + 1];
        }
      }
      WithoutKeepsDistinct(tail, id);
      if xs[0] != id {
        assert xs[0] !in tail by {
          forall j | 0 <= j < |tail| ensures tail[j] != xs[0] {
            assert tail[j] == xs[j + 1];
          }
        }
        WithoutMembership(tail, id, xs[0]);
        var r := [xs[0]] + Without(tail, id);
        forall i, j | 0 <= i < j < |r| ensures r[i] != r[j] {
          if i == 0 {
            assert r[j] == Without(tail, id)[j - 1];
          } else {
            assert r[i] == Without(tail, id)[i - 1] && r[j] == Without(tail, id)[j - 1];
          }
        }
      } else {
        assert Without(xs, id) == Without(tail, id);
      }
    }
  }

  /** `[id, ...recent.filter((x) => x !== id)].slice(0, 10)`. */
  function NewRecent(id: string, recent: seq<string>): (r: seq<string>)
    ensures 1 <= |r| <= RecentLimit
  {
    var all := [id] + Without(recent, id);
    all[..if |all| < RecentLimit then |all| else RecentLimit]
  }

  /** The new list starts with the id just served and holds no other copy of it; the
      rest is the newest part of the old list with that id filtered out, in its old
      order, so every id in it was served now or listed before. */
  lemma NewRecentShape(id: string, recent: seq<string>)
    ensures var r := NewRecent(id, recent); var rest := Without(recent, id);
      && r[0] == id
      && id !in r[1..]
      && r[1..] <= rest
      && |r| == (if 1 + |rest| < RecentLimit then 1 + |rest| else RecentLimit)
      && (forall x | x in r :: x == id || x in recent)
  {
    var r := NewRecent(id, recent);
    var rest := Without(recent, id);
    assert r[1..] == rest[..|r| - 1];
    forall x | x in r ensures x == id || x in recent {
      if x != id {
        assert x in r[1..];
        WithoutMembership(recent, id, x);
      }
    }
  }

  /** Serving an id keeps a list without repeats free of repeats. */
  lemma NewRecentDistinct(id: string, recent: seq<string>)
    requires Distinct(recent)
    ensures Distinct(NewRecent(id, recent))
  {
    var rest := Without(recent, id);
    WithoutKeepsDistinct(recent, id);
    var all := [id] + rest;
    forall i, j | 0 <= i < j < |all| ensures all[i] != all[j] {
      if i == 0 {
        assert all[j] == rest[j - 1];
      } else {
        assert all[i] == rest[i - 1] && all[j] == rest[j - 1];
      }
    }
    var r := NewRecent(id, recent);
    assert forall i | 0 <= i < |r| :: r[i] == all[i];
  }

  /** Serving an id that is already at the head of the list leaves the list as it was,
      up to the length bound. */
  lemma NewRecentOfHead(id: string, recent: seq<string>)
    requires Distinct(recent) && |recent| <= RecentLimit && recent != [] && recent[0] == id
    ensures NewRecent(id, recent) == recent
  {
    var tail := recent[1..];
    assert id !in tail by {
      forall j | 0 <= j < |tail| ensures tail[j] != id {
        assert tail[j] == recent[j + 1];
      }
    }
    assert recent == [id] + tail;
    WithoutAppend([id], tail, id);
    WithoutAbsent(tail, id);
    assert Without([id], id) == [];
  }
}
