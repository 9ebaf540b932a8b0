/** Filtering and merging lists without disturbing their order. */
module OrderedLists {

  function Elements<T(==)>(xs: seq<T>): set<T> {
    set x | x in xs
  }

  predicate Distinct<T(==)>(xs: seq<T>) {
    forall i, j | 0 <= i < j < |xs| :: xs[i] != xs[j]
  }

  /** The entries in `keep`, in order. */
  function Keep<T(==, !new)>(xs: seq<T>, keep: set<T>): (r: seq<T>)
    ensures forall x :: x in r <==> x in xs && x in keep
  {
    if xs == [] then []
    else
      var r := Keep(xs[..|xs| - 1], keep);
      var last := xs[|xs| - 1];
      if last in keep then r + [last] else r
  }

  /** The first occurrence of each entry. */
  function Uniq<T(==, !new)>(xs: seq<T>): (r: seq<T>)
    ensures forall x :: x in r <==> x in xs
    ensures Distinct(r)
  {
    if xs == [] then []
    else
      var r := Uniq(xs[..|xs| - 1]);
      var last := xs[|xs| - 1];
      if last in r then r else r + [last]
  }

  /** The images of the entries, leaving out those that come out empty. */
  function FilterMap<T(==, !new)>(xs: seq<T>, f: T -> T, empty: T): seq<T> {
    if xs == [] then []
    else
      var r := FilterMap(xs[..|xs| - 1], f, empty);
      var last := f(xs[|xs| - 1]);
      if last != empty then r + [last] else r
  }

  lemma {:induction false} FilterMapIsStable<T(!new)>(xs: seq<T>, f: T -> T, empty: T)
    requires forall x :: f(f(x)) == f(x)
    ensures forall x | x in FilterMap(xs, f, empty) :: x != empty && f(x) == x
  {
    if xs != [] {
      FilterMapIsStable(xs[..|xs| - 1], f, empty);
    }
  }

  lemma {:induction false} FilterMapOfStable<T(!new)>(xs: seq<T>, f: T -> T, empty: T)
    requires forall i | 0 <= i < |xs| :: xs[i] != empty && f(xs[i]) == xs[i]
    ensures FilterMap(xs, f, empty) == xs
  {
    if xs != [] {
      FilterMapOfStable(xs[..|xs| - 1], f, empty);
      assert xs == xs[..|xs| - 1] + [xs[|xs| - 1]];
    }
  }

  lemma {:induction false} UniqOfDistinct<T(!new)>(xs: seq<T>)
    requires Distinct(xs)
    ensures Uniq(xs) == xs
  {
    if xs != [] {
      UniqOfDistinct(xs[..|xs| - 1]);
      assert xs == xs[..|xs| - 1] + [xs[|xs| - 1]];
    }
  }

  lemma {:induction false} KeepIsDistinct<T(!new)>(xs: seq<T>, keep: set<T>)
    requires Distinct(xs)
    ensures Distinct(Keep(xs, keep))
  {
    if xs != [] {
      KeepIsDistinct(xs[..|xs| - 1], keep);
    }
  }

  /** Keeping depends only on which entries of the list are kept. */
  lemma {:induction false} KeepSame<T(!new)>(xs: seq<T>, a: set<T>, b: set<T>)
    requires forall x | x in xs :: x in a <==> x in b
    ensures Keep(xs, a) == Keep(xs, b)
  {
    if xs != [] {
      KeepSame(xs[..|xs| - 1], a, b);
      assert xs[|xs| - 1] in xs;
    }
  }

  lemma {:induction false} KeepTwice<T(!new)>(xs: seq<T>, a: set<T>, b: set<T>)
    ensures Keep(Keep(xs, a), b) == Keep(xs, a * b)
  {
    if xs != [] {
      KeepTwice(xs[..|xs| - 1], a, b);
      var r, last := Keep(xs[..|xs| - 1], a), xs[|xs| - 1];
      assert (r + [last])[..|r|] == r;
    }
  }

  /** Leaving out two sets, in either order. */
  lemma KeepSwap<T(!new)>(xs: seq<T>, a: set<T>, b: set<T>)
    ensures var withoutA, withoutB := Keep(xs, Elements(xs) - a), Keep(xs, Elements(xs) - b);
            Keep(withoutA, Elements(withoutA) - b) == Keep(withoutB, Elements(withoutB) - a)
  {
    var withoutA, withoutB := Keep(xs, Elements(xs) - a), Keep(xs, Elements(xs) - b);
    KeepTwice(xs, Elements(xs) - a, Elements(withoutA) - b);
    KeepTwice(xs, Elements(xs) - b, Elements(withoutB) - a);
    KeepSame(xs, (Elements(xs) - a) * (Elements(withoutA) - b), (Elements(xs) - b) * (Elements(withoutB) - a));
  }

  lemma AppendThenDrop<T(!new)>(base: seq<T>, appended: seq<T>, dropped: seq<T>)
    requires forall x | x in appended :: x !in dropped
    ensures Keep(base + appended, Elements(base + appended) - Elements(dropped))
            == Keep(base, Elements(base) - Elements(dropped)) + appended
  {
    var keep := Elements(base + appended) - Elements(dropped);
    KeepConcat(base, appended, keep);
    KeepAll(appended, keep);
    KeepSame(base, keep, Elements(base) - Elements(dropped));
  }

  lemma KeepEmptyExactly<T(!new)>(xs: seq<T>, keep: set<T>)
    ensures Keep(xs, keep) == [] <==> forall x | x in xs :: x !in keep
  {
    if forall x | x in xs :: x !in keep {
      KeepNone(xs, keep);
    }
  }

  lemma KeptWithout<T(!new)>(xs: seq<T>, a: seq<T>, b: seq<T>, x: T)
    ensures x in Keep(xs, Elements(xs) - Elements(a) - Elements(b)) <==> x in xs && x !in a && x !in b
  {
  }

  /** Two selections from one list, one inside the other. */
  lemma KeepFromKept<T(!new)>(xs: seq<T>, kept: seq<T>, again: seq<T>, left: set<T>)
    requires kept == Keep(xs, Elements(kept)) && again == Keep(xs, Elements(again))
    requires left <= Elements(kept) && forall x :: x in again <==> x in left
    ensures again == Keep(kept, left)
  {
    KeepTwice(xs, Elements(kept), left);
    KeepSame(xs, Elements(again), Elements(kept) * left);
  }

  lemma {:induction false} KeepAll<T(!new)>(xs: seq<T>, keep: set<T>)
    requires forall x | x in xs :: x in keep
    ensures Keep(xs, keep) == xs
  {
    if xs != [] {
      KeepAll(xs[..|xs| - 1], keep);
      assert xs[|xs| - 1] in xs;
      assert xs == xs[..|xs| - 1] + [xs[|xs| - 1]];
    }
  }

  lemma {:induction false} KeepNone<T(!new)>(xs: seq<T>, keep: set<T>)
    requires forall x | x in xs :: x !in keep
    ensures Keep(xs, keep) == []
  {
    if xs != [] {
      KeepNone(xs[..|xs| - 1], keep);
      assert xs[|xs| - 1] in xs;
    }
  }

  lemma {:induction false} KeepConcat<T(!new)>(xs: seq<T>, ys: seq<T>, keep: set<T>)
    ensures Keep(xs + ys, keep) == Keep(xs, keep) + Keep(ys, keep)
  {
    if ys == [] {
      assert xs + ys == xs;
    } else {
      KeepConcat(xs, ys[..|ys| - 1], keep);
      assert (xs + ys)[..|xs + ys| - 1] == xs + ys[..|ys| - 1];
    }
  }

  /** The entries of `base`, then those of `appended` that `base` lacks. */
  function Union<T(==, !new)>(base: seq<T>, appended: seq<T>): seq<T> {
    base + Keep(appended, Elements(appended) - Elements(base))
  }

  lemma UnionIsDistinct<T(!new)>(base: seq<T>, appended: seq<T>)
    requires Distinct(base) && Distinct(appended)
    ensures Distinct(Union(base, appended))
    ensures forall x :: x in Union(base, appended) <==> x in base || x in appended
  {
    var more := Keep(appended, Elements(appended) - Elements(base));
    KeepIsDistinct(appended, Elements(appended) - Elements(base));
    forall i, j | 0 <= i < j < |base + more| ensures (base + more)[i] != (base + more)[j] {
      if i < |base| <= j {
        assert more[j - |base|] in more;
      }
    }
  }

  /** The loop that appends what has not been seen. */
  method AppendUnseen<T(==, !new)>(base: seq<T>, appended: seq<T>) returns (merged: seq<T>)
    requires Distinct(appended)
    ensures merged == Union(base, appended)
  {
    merged := base;
    var seen := Elements(merged);
    ghost var unseen := Elements(appended) - Elements(base);
    for i := 0 to |appended|
      invariant merged == base + Keep(appended[..i], unseen)
      invariant forall x :: x in seen <==> x in base || x in appended[..i]
    {
      assert appended[..i + 1][..i] == appended[..i];
      if appended[i] !in seen {
        seen := seen + {appended[i]};
        merged := merged + [appended[i]];
      }
    }
    assert appended[..|appended|] == appended;
  }

  lemma {:induction false} FilterMapHas<T(!new)>(xs: seq<T>, f: T -> T, empty: T, y: T)
    requires y != empty
    ensures y in FilterMap(xs, f, empty) <==> exists x | x in xs :: f(x) == y
  {
    if xs != [] {
      var before, last := xs[..|xs| - 1], xs[|xs| - 1];
      FilterMapHas(before, f, empty, y);
      assert xs == before + [last];
    }
  }

  lemma KeepOneMore<T(!new)>(xs: seq<T>, x: T, keep: set<T>)
    ensures Keep(xs + [x], keep) == if x in keep then Keep(xs, keep) + [x] else Keep(xs, keep)
  {
    var all := xs + [x];
    assert all[..|all| - 1] == xs && all[|all| - 1] == x;
  }

  lemma UniqOneMore<T(!new)>(xs: seq<T>, x: T)
    ensures Uniq(xs + [x]) == if x in xs then Uniq(xs) else Uniq(xs) + [x]
  {
    var all := xs + [x];
    assert all[..|all| - 1] == xs && all[|all| - 1] == x;
  }

  lemma UniqAppend<T(!new)>(xs: seq<T>, x: T, keep: set<T>)
    ensures Keep(Uniq(xs + [x]), keep)
            == if x in keep && x !in xs then Keep(Uniq(xs), keep) + [x] else Keep(Uniq(xs), keep)
  {
    UniqOneMore(xs, x);
    KeepOneMore(Uniq(xs), x, keep);
  }

  lemma {:induction false} FilterMapConcat<T(!new)>(xs: seq<T>, ys: seq<T>, f: T -> T, empty: T)
    ensures FilterMap(xs + ys, f, empty) == FilterMap(xs, f, empty) + FilterMap(ys, f, empty)
  {
    if ys == [] {
      assert xs + ys == xs;
    } else {
      FilterMapConcat(xs, ys[..|ys| - 1], f, empty);
      assert (xs + ys)[..|xs + ys| - 1] == xs + ys[..|ys| - 1];
    }
  }

  lemma UniqConcatStep<T(!new)>(xs: seq<T>, ys: seq<T>, y: T, keep: set<T>)
    requires Uniq(xs + ys) == Uniq(xs) + Keep(Uniq(ys), keep) && (y in keep <==> y !in xs)
    ensures Uniq((xs + ys) + [y]) == Uniq(xs) + Keep(Uniq(ys + [y]), keep)
  {
    var first, second := Uniq(xs), Keep(Uniq(ys), keep);
    assert first + second + [y] == first + (second + [y]);
    assert Uniq((xs + ys) + [y]) == if y in xs + ys then first + second else first + second + [y] by {
      UniqOneMore(xs + ys, y);
    }
    assert Keep(Uniq(ys + [y]), keep) == if y in keep && y !in ys then second + [y] else second by {
      UniqAppend(ys, y, keep);
    }
  }

  /** The first occurrences in two lists: those in the first, then those in the second that the first lacks. */
  lemma {:induction false} UniqConcat<T(!new)>(xs: seq<T>, ys: seq<T>, keep: set<T>)
    requires forall i | 0 <= i < |ys| :: ys[i] in keep <==> ys[i] !in xs
    ensures Uniq(xs + ys) == Uniq(xs) + Keep(Uniq(ys), keep)
  {
    if ys == [] {
      assert xs + ys == xs;
    } else {
      var before, y := ys[..|ys| - 1], ys[|ys| - 1];
      UniqConcat(xs, before, keep);
      UniqConcatStep(xs, before, y, keep);
      assert ys == before + [y];
      assert xs + ys == (xs + before) + [y];
    }
  }

  /** What the entries are mapped to, except the empty value, once each in order of first mention, and those in `keep` only. */
  function Collected<T(==, !new)>(xs: seq<T>, f: T -> T, empty: T, keep: set<T>): seq<T> {
    Keep(Uniq(FilterMap(xs, f, empty)), keep)
  }

  lemma CollectedStep<T(!new)>(xs: seq<T>, n: nat, f: T -> T, empty: T, keep: set<T>)
    requires n + 1 == |xs|
    ensures var y := f(xs[n]);
            Collected(xs, f, empty, keep)
            == if y != empty && y in keep && y !in FilterMap(xs[..n], f, empty) then Collected(xs[..n], f, empty, keep) + [y]
               else Collected(xs[..n], f, empty, keep)
  {
    UniqAppend(FilterMap(xs[..n], f, empty), f(xs[n]), keep);
  }

  lemma {:induction false} FilterMapHasNoEmpty<T(!new)>(xs: seq<T>, f: T -> T, empty: T)
    ensures empty !in FilterMap(xs, f, empty)
  {
    if xs != [] {
      FilterMapHasNoEmpty(xs[..|xs| - 1], f, empty);
    }
  }

  /** Some entry is mapped to this value. */
  lemma {:induction false} Mention<T(!new)>(xs: seq<T>, f: T -> T, empty: T, y: T) returns (i: nat)
    requires y in FilterMap(xs, f, empty)
    ensures i < |xs| && f(xs[i]) == y
  {
    i := |xs| - 1;
    if f(xs[i]) != y {
      i := Mention(xs[..i], f, empty, y);
    }
  }

  /** A value is collected exactly if it is not the empty one, is to be kept, and some entry is mapped to it. */
  lemma CollectedExactly<T(!new)>(xs: seq<T>, f: T -> T, empty: T, keep: set<T>, y: T)
    ensures y in Collected(xs, f, empty, keep) <==> y != empty && y in keep && exists i | 0 <= i < |xs| :: f(xs[i]) == y
    ensures Distinct(Collected(xs, f, empty, keep))
  {
    KeepIsDistinct(Uniq(FilterMap(xs, f, empty)), keep);
    FilterMapHasNoEmpty(xs, f, empty);
    if y != empty {
      FilterMapHas(xs, f, empty, y);
      if x :| x in xs && f(x) == y {
        var i :| 0 <= i < |xs| && xs[i] == x;
        assert f(xs[i]) == y;
      }
    }
  }

  /** The collected values come in the order of their first mention: every mention of a later one has one of an earlier one before it. */
  lemma {:induction false} MentionedBefore<T(!new)>(xs: seq<T>, f: T -> T, empty: T, keep: set<T>, a: nat, b: nat, j: nat) returns (i: nat)
    requires a < b < |Collected(xs, f, empty, keep)| && j < |xs| && f(xs[j]) == Collected(xs, f, empty, keep)[b]
    ensures i < j && f(xs[i]) == Collected(xs, f, empty, keep)[a]
    decreases |xs|
  {
    var n := |xs| - 1;
    var before, r := xs[..n], Collected(xs[..n], f, empty, keep);
    CollectedStep(xs, n, f, empty, keep);
    if b < |r| {
      var k := j;
      if j == n {
        assert r[b] in r;
        k := Mention(before, f, empty, r[b]);
      }
      i := MentionedBefore(before, f, empty, keep, a, b, k);
    } else {
      FilterMapHas(before, f, empty, f(xs[n]));
      assert r[a] in r;
      i := Mention(before, f, empty, r[a]);
    }
  }

  /** Everything about them: which they are, once each, and that they come in order of first mention. */
  ghost predicate AreCollected<T(!new)>(xs: seq<T>, f: T -> T, empty: T, keep: set<T>, r: seq<T>) {
    && Distinct(r)
    && (forall y :: y in r <==> y != empty && y in keep && exists i | 0 <= i < |xs| :: f(xs[i]) == y)
    && (forall a, b, j | 0 <= a < b < |r| && 0 <= j < |xs| && f(xs[j]) == r[b] :: exists i | 0 <= i < j :: f(xs[i]) == r[a])
  }

  lemma CollectedAreCollected<T(!new)>(xs: seq<T>, f: T -> T, empty: T, keep: set<T>)
    ensures AreCollected(xs, f, empty, keep, Collected(xs, f, empty, keep))
  {
    var r := Collected(xs, f, empty, keep);
    CollectedExactly(xs, f, empty, keep, empty);
    forall y ensures y in r <==> y != empty && y in keep && exists i | 0 <= i < |xs| :: f(xs[i]) == y {
      CollectedExactly(xs, f, empty, keep, y);
    }
    forall a, b, j | 0 <= a < b < |r| && 0 <= j < |xs| && f(xs[j]) == r[b] ensures exists i | 0 <= i < j :: f(xs[i]) == r[a] {
      var i := MentionedBefore(xs, f, empty, keep, a, b, j);
    }
  }

  /** What the entries are mapped to that nothing known is mapped to, once each. */
  function Novel<T(==, !new)>(known: seq<T>, xs: seq<T>, f: T -> T, empty: T): seq<T> {
    Collected(xs, f, empty, Elements(FilterMap(xs, f, empty)) - Elements(FilterMap(known, f, empty)))
  }

  lemma HasMention<T(!new)>(xs: seq<T>, f: T -> T, empty: T, y: T)
    requires y != empty
    ensures y in FilterMap(xs, f, empty) <==> exists i | 0 <= i < |xs| :: f(xs[i]) == y
  {
    FilterMapHas(xs, f, empty, y);
    if i :| 0 <= i < |xs| && f(xs[i]) == y {
      assert xs[i] in xs;
    }
    if y in FilterMap(xs, f, empty) {
      var i := Mention(xs, f, empty, y);
    }
  }

  lemma NovelExactly<T(!new)>(known: seq<T>, xs: seq<T>, f: T -> T, empty: T, y: T)
    ensures y in Novel(known, xs, f, empty) <==>
              y != empty && (exists i | 0 <= i < |xs| :: f(xs[i]) == y) && forall k | k in known :: f(k) != y
    ensures Distinct(Novel(known, xs, f, empty))
  {
    var all, taken := FilterMap(xs, f, empty), FilterMap(known, f, empty);
    CollectedExactly(xs, f, empty, Elements(all) - Elements(taken), y);
    if y != empty {
      HasMention(xs, f, empty, y);
      FilterMapHas(known, f, empty, y);
    }
  }

  /** Everything about them: which they are, and that they come in order of first mention. */
  ghost predicate AreNovel<T(!new)>(known: seq<T>, xs: seq<T>, f: T -> T, empty: T, r: seq<T>) {
    && Distinct(r)
    && (forall y :: y in r <==> y != empty && (exists i | 0 <= i < |xs| :: f(xs[i]) == y) && forall k | k in known :: f(k) != y)
    && (forall a, b, j | 0 <= a < b < |r| && 0 <= j < |xs| && f(xs[j]) == r[b] :: exists i | 0 <= i < j :: f(xs[i]) == r[a])
  }

  lemma NovelAreNovel<T(!new)>(known: seq<T>, xs: seq<T>, f: T -> T, empty: T)
    ensures AreNovel(known, xs, f, empty, Novel(known, xs, f, empty))
  {
    var r, keep := Novel(known, xs, f, empty), Elements(FilterMap(xs, f, empty)) - Elements(FilterMap(known, f, empty));
    NovelExactly(known, xs, f, empty, empty);
    forall y ensures y in r <==> y != empty && (exists i | 0 <= i < |xs| :: f(xs[i]) == y) && forall k | k in known :: f(k) != y {
      NovelExactly(known, xs, f, empty, y);
    }
    forall a, b, j | 0 <= a < b < |r| && 0 <= j < |xs| && f(xs[j]) == r[b] ensures exists i | 0 <= i < j :: f(xs[i]) == r[a] {
      var i := MentionedBefore(xs, f, empty, keep, a, b, j);
    }
  }

  lemma OneMore<T>(xs: seq<T>, n: nat)
    requires n < |xs|
    ensures xs[..n + 1] == xs[..n] + [xs[n]]
  {
  }

  /** The loop that collects what is new, once each. */
  method Unseen<T(==, !new)>(known: set<T>, xs: seq<T>) returns (added: seq<T>)
    ensures added == Keep(Uniq(xs), Elements(xs) - known)
  {
    added := [];
    var seen := known;
    ghost var unseen, done := Elements(xs) - known, [];
    for i := 0 to |xs|
      invariant done == xs[..i] && added == Keep(Uniq(done), unseen)
      invariant forall x :: x in seen <==> x in known || x in done
    {
      var x := xs[i];
      assert x in xs;
      UniqAppend(done, x, unseen);
      OneMore(xs, i);
      done := done + [x];
      if x !in seen {
        seen := seen + {x};
        added := added + [x];
      }
    }
    assert xs[..|xs|] == xs;
  }
}
