/** The groups that a request in group "auto" may be relayed through, in order. */
module AutoGroups {
  import opened OrderedLists
  import opened Strings

  /** The token's own preferences first, then the configured groups: those the user may use, once each. */
  function AutoGroupsOf(preferred: seq<string>, configured: seq<string>, usable: set<string>): seq<string> {
    Collected(preferred + configured, TrimSpace, "", usable - {"auto"})
  }

  lemma AutoGroupsAreUsable(preferred: seq<string>, configured: seq<string>, usable: set<string>)
    ensures Distinct(AutoGroupsOf(preferred, configured, usable))
    ensures forall g | g in AutoGroupsOf(preferred, configured, usable) :: g != "" && g != "auto" && g in usable
  {
    CollectedAreCollected(preferred + configured, TrimSpace, "", usable - {"auto"});
  }

  /**
    Exactly the groups that either list mentions, up to white space, and the user
    may use; preferences before configured groups, each list in its order.
   */
  lemma AutoGroupsExactly(preferred: seq<string>, configured: seq<string>, usable: set<string>)
    ensures AreCollected(preferred + configured, TrimSpace, "", usable - {"auto"}, AutoGroupsOf(preferred, configured, usable))
  {
    CollectedAreCollected(preferred + configured, TrimSpace, "", usable - {"auto"});
  }

  lemma FilterMapGrows<T(!new)>(xs: seq<T>, f: T -> T, empty: T, n: nat)
    requires n < |xs|
    ensures FilterMap(xs[..n + 1], f, empty) == FilterMap(xs[..n], f, empty) + if f(xs[n]) != empty then [f(xs[n])] else []
  {
    assert xs[..n + 1][..n] == xs[..n];
  }

  /** The loop of GetUserAutoGroupWithPriority. */
  method Collect<T(==, !new)>(xs: seq<T>, f: T -> T, empty: T, usable: set<T>) returns (r: seq<T>)
    ensures r == Collected(xs, f, empty, usable)
  {
    r := [];
    for i := 0 to |xs|
      invariant r == Keep(Uniq(FilterMap(xs[..i], f, empty)), usable)
    {
      FilterMapGrows(xs, f, empty, i);
      if f(xs[i]) != empty {
        UniqAppend(FilterMap(xs[..i], f, empty), f(xs[i]), usable);
        if f(xs[i]) in usable && f(xs[i]) !in r {
          r := r + [f(xs[i])];
        }
      } else {
        assert FilterMap(xs[..i], f, empty) + [] == FilterMap(xs[..i], f, empty);
      }
    }
    assert xs[..|xs|] == xs;
  }

  /** GetUserAutoGroupWithPriority */
  method GetAutoGroups(preferred: seq<string>, configured: seq<string>, usable: set<string>) returns (groups: seq<string>)
    ensures groups == AutoGroupsOf(preferred, configured, usable)
    ensures Distinct(groups) && forall g | g in groups :: g != "" && g != "auto" && g in usable
    ensures AreCollected(preferred + configured, TrimSpace, "", usable - {"auto"}, groups)
  {
    groups := Collect(preferred + configured, TrimSpace, "", usable - {"auto"});
    AutoGroupsAreUsable(preferred, configured, usable);
    AutoGroupsExactly(preferred, configured, usable);
  }
}
