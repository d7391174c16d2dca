/** The search filter over the user list: a case-insensitive substring match
    of the search term against first name, last name or e-mail. */
module Search {
  import opened Text
  import opened Users

  /** The filter's test for one user. */
  predicate Matches(u: User, term: string) {
    var t := Lower(term);
    Includes(Lower(u.firstName), t) || Includes(Lower(u.lastName), t) || Includes(Lower(u.email), t)
  }

  /** `users.filter(u => Matches(u, term))`, scanning from the front. */
  function Filter(users: seq<User>, term: string): (r: seq<User>)
    ensures |r| <= |users|
    ensures forall u :: u in r ==> u in users && Matches(u, term)
  {
    if users == [] then []
    else
      var rest := Filter(users[1..], term);
      if Matches(users[0], term) then [users[0]] + rest else rest
  }

  /** `idx` lists positions of `b`, in increasing order, at which the elements of `a` stand. */
  ghost predicate Embeds(idx: seq<nat>, a: seq<User>, b: seq<User>) {
    && |idx| == |a|
    && (forall k :: 0 <= k < |idx| ==> idx[k] < |b| && a[k] == b[idx[k]])
    && (forall k, l :: 0 <= k < l < |idx| ==> idx[k] < idx[l])
  }

  /** `a` is `b` with some elements dropped and the rest kept in order. */
  ghost predicate IsSubsequence(a: seq<User>, b: seq<User>) {
    exists idx: seq<nat> :: Embeds(idx, a, b)
  }

  /** Matches, stated without the helper that computes `includes`. */
  lemma MatchesMeaning(u: User, term: string)
    ensures Matches(u, term) <==>
      || Contains(Lower(u.firstName), Lower(term))
      || Contains(Lower(u.lastName), Lower(term))
      || Contains(Lower(u.email), Lower(term))
  {
    IncludesIsContains(Lower(u.firstName), Lower(term));
    IncludesIsContains(Lower(u.lastName), Lower(term));
    IncludesIsContains(Lower(u.email), Lower(term));
  }

  /** A user is in the filtered list exactly when it is in the list and matches. */
  lemma {:induction false} FilterMembership(users: seq<User>, term: string)
    ensures forall u :: u in Filter(users, term) <==> u in users && Matches(u, term)
  {
    if users != [] {
      FilterMembership(users[1..], term);
      assert users == [users[0]] + users[1..];
    }
  }

  /** Each matching user keeps all of its copies; each other user keeps none. */
  lemma {:induction false} FilterCount(users: seq<User>, term: string, u: User)
    ensures multiset(Filter(users, term))[u] == if Matches(u, term) then multiset(users)[u] else 0
  {
    if users != [] {
      FilterCount(users[1..], term, u);
      assert users == [users[0]] + users[1..];
    }
  }

  /** FilterCount for every user at once. */
  lemma FilterCounts(users: seq<User>, term: string)
    ensures forall u :: multiset(Filter(users, term))[u] == if Matches(u, term) then multiset(users)[u] else 0
  {
    forall u ensures multiset(Filter(users, term))[u] == if Matches(u, term) then multiset(users)[u] else 0 {
      FilterCount(users, term, u);
    }
  }

  /** Positions in `users` (offset by `base`) of the users the filter keeps. */
  ghost function KeptPositions(users: seq<User>, term: string, base: nat): seq<nat>
  {
    if users == [] then []
    else (if Matches(users[0], term) then [base] else []) + KeptPositions(users[1..], term, base + 1)
  }

  /** `idx` lists, increasingly, the positions of `r`'s elements in `users`, counting from `base`. */
  ghost predicate EmbedsFrom(idx: seq<nat>, r: seq<User>, users: seq<User>, base: nat) {
    && |idx| == |r|
    && (forall k :: 0 <= k < |idx| ==> base <= idx[k] < base + |users| && r[k] == users[idx[k] - base])
    && (forall k, l :: 0 <= k < l < |idx| ==> idx[k] < idx[l])
  }

  /** Keeping the head in front of an embedding of the tail embeds the whole list. */
  lemma ConsEmbeds(idx: seq<nat>, r: seq<User>, users: seq<User>, base: nat)
    requires users != []
    requires EmbedsFrom(idx, r, users[1..], base + 1)
    ensures EmbedsFrom([base] + idx, [users[0]] + r, users, base)
  {
    var idx2, r2 := [base] + idx, [users[0]] + r;
    forall k | 0 < k < |idx2|
      ensures base <= idx2[k] < base + |users| && r2[k] == users[idx2[k] - base]
    {
      assert idx2[k] == idx[k - 1] && r2[k] == r[k - 1];
    }
  }

  /** Skipping the head keeps an embedding of the tail valid for the whole list. */
  lemma SkipEmbeds(idx: seq<nat>, r: seq<User>, users: seq<User>, base: nat)
    requires users != []
    requires EmbedsFrom(idx, r, users[1..], base + 1)
    ensures EmbedsFrom(idx, r, users, base)
  {
  }

  lemma {:induction false} KeptPositionsEmbed(users: seq<User>, term: string, base: nat)
    ensures EmbedsFrom(KeptPositions(users, term, base), Filter(users, term), users, base)
  {
    if users != [] {
      KeptPositionsEmbed(users[1..], term, base + 1);
      var idx, r := KeptPositions(users[1..], term, base + 1), Filter(users[1..], term);
      if Matches(users[0], term) {
        ConsEmbeds(idx, r, users, base);
      } else {
        SkipEmbeds(idx, r, users, base);
      }
    }
  }

  /** The filter keeps users in their original order: its result is a subsequence of the list. */
  lemma FilterIsSubsequence(users: seq<User>, term: string)
    ensures IsSubsequence(Filter(users, term), users)
  {
    KeptPositionsEmbed(users, term, 0);
    assert Embeds(KeptPositions(users, term, 0), Filter(users, term), users);
  }

  /** Concatenated lists filter piecewise. */
  lemma {:induction false} FilterAppend(a: seq<User>, b: seq<User>, term: string)
    ensures Filter(a + b, term) == Filter(a, term) + Filter(b, term)
  {
    if a == [] {
      assert a + b == b;
    } else {
      var c := a + b;
      assert c[0] == a[0] && c[1..] == a[1..] + b;
      FilterAppend(a[1..], b, term);
      if Matches(a[0], term) {
        assert Filter(c, term) == [a[0]] + (Filter(a[1..], term) + Filter(b, term));
      } else {
        assert Filter(c, term) == Filter(a[1..], term) + Filter(b, term);
      }
    }
  }

  /** When every user matches, the filter returns the list unchanged. */
  lemma {:induction false} FilterAllMatch(users: seq<User>, term: string)
    requires forall u :: u in users ==> Matches(u, term)
    ensures Filter(users, term) == users
  {
    if users != [] {
      FilterAllMatch(users[1..], term);
    }
  }

  /** When no user matches, the filtered list is empty. */
  lemma {:induction false} FilterNoneMatch(users: seq<User>, term: string)
    requires forall u :: u in users ==> !Matches(u, term)
    ensures Filter(users, term) == []
  {
    if users != [] {
      FilterNoneMatch(users[1..], term);
    }
  }

  /** An empty search term shows the whole list, in its order. */
  lemma FilterEmptyTerm(users: seq<User>)
    ensures Filter(users, "") == users
  {
    forall u | u in users ensures Matches(u, "") {
      assert Lower("") == "";
      IncludesEmpty(Lower(u.firstName));
    }
    FilterAllMatch(users, "");
  }

  /** Filtering an already filtered list by the same term changes nothing. */
  lemma FilterIdempotent(users: seq<User>, term: string)
    ensures Filter(Filter(users, term), term) == Filter(users, term)
  {
    FilterAllMatch(Filter(users, term), term);
  }

  /** Two search terms that differ only in letter case select the same users. */
  lemma {:induction false} FilterIgnoresCase(users: seq<User>, a: string, b: string)
    requires Lower(a) == Lower(b)
    ensures Filter(users, a) == Filter(users, b)
  {
    if users != [] {
      FilterIgnoresCase(users[1..], a, b);
      assert Matches(users[0], a) == Matches(users[0], b);
    }
  }

  /** Typing the term in lower case makes no difference. */
  lemma FilterLowerTerm(users: seq<User>, term: string)
    ensures Filter(users, Lower(term)) == Filter(users, term)
  {
    LowerIdempotent(term);
    FilterIgnoresCase(users, Lower(term), term);
  }
}
