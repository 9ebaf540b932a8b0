/** The list operations of the upstream model check: ordered, duplicate-free lists of trimmed names. */
module ModelLists {
  import opened OrderedLists
  import opened Strings

  type Names = seq<string>

  /** What normalizing leaves of a name: not empty, no white space at the ends. */
  predicate IsName(x: string) {
    x != "" && TrimSpace(x) == x
  }

  lemma TrimSpaceTwice(x: string)
    ensures TrimSpace(TrimSpace(x)) == TrimSpace(x)
  {
  }

  /** A list that normalizing does not change. */
  predicate Normal(xs: Names) {
    Distinct(xs) && forall x | x in xs :: IsName(x)
  }

  /** normalizeModelNames */
  function Normalize(xs: Names): (r: Names)
    ensures Normal(r)
  {
    NormalizeIsNormal(xs);
    Uniq(FilterMap(xs, TrimSpace, ""))
  }

  lemma NormalizeIsNormal(xs: Names)
    ensures Normal(Uniq(FilterMap(xs, TrimSpace, "")))
  {
    forall x {
      TrimSpaceTwice(x);
    }
    FilterMapIsStable(xs, TrimSpace, "");
  }

  lemma NormalizeNormal(xs: Names)
    requires Normal(xs)
    ensures Normalize(xs) == xs
  {
    forall i | 0 <= i < |xs| ensures xs[i] != "" && TrimSpace(xs[i]) == xs[i] {
      assert xs[i] in xs;
    }
    FilterMapOfStable(xs, TrimSpace, "");
    UniqOfDistinct(xs);
  }

  /** The normal form of two normal lists side by side has the names of both. */
  lemma NamesOfConcat(xs: Names, ys: Names)
    requires Normal(xs) && Normal(ys)
    ensures forall x :: x in Normalize(xs + ys) <==> x in xs || x in ys
  {
    forall i | 0 <= i < |xs + ys| ensures (xs + ys)[i] != "" && TrimSpace((xs + ys)[i]) == (xs + ys)[i] {
      assert (xs + ys)[i] in xs || (xs + ys)[i] in ys;
    }
    FilterMapOfStable(xs + ys, TrimSpace, "");
  }

  lemma {:induction false} FilterMapChars(xs: Names, c: char)
    requires forall i | 0 <= i < |xs| :: c !in xs[i]
    ensures forall x | x in FilterMap(xs, TrimSpace, "") :: c !in x
  {
    if xs != [] {
      FilterMapChars(xs[..|xs| - 1], c);
      TrimSpaceChars(xs[|xs| - 1], c);
    }
  }

  /** A character no entry has, no normalized entry has. */
  lemma NormalizeChars(xs: Names, c: char)
    requires forall i | 0 <= i < |xs| :: c !in xs[i]
    ensures forall x | x in Normalize(xs) :: c !in x
  {
    FilterMapChars(xs, c);
  }

  /** Normalizing one more list after a normal one. */
  lemma NormalizeConcat(xs: Names, ys: Names)
    requires Normal(xs)
    ensures Normalize(xs + ys) == Union(xs, Normalize(ys))
  {
    var more := FilterMap(ys, TrimSpace, "");
    FilterMapConcat(xs, ys, TrimSpace, "");
    forall i | 0 <= i < |xs| ensures xs[i] != "" && TrimSpace(xs[i]) == xs[i] {
      assert xs[i] in xs;
    }
    FilterMapOfStable(xs, TrimSpace, "");
    UniqConcat(xs, more, Elements(Uniq(more)) - Elements(xs));
    UniqOfDistinct(xs);
  }

  lemma NormalizeAfterEmpty(xs: Names)
    ensures Normalize([""] + xs) == Normalize(xs) == Normalize(xs + [""])
  {
    FilterMapConcat([""], xs, TrimSpace, "");
    FilterMapConcat(xs, [""], TrimSpace, "");
    assert [""][..0] == [] && FilterMap([""], TrimSpace, "") == [];
    assert [] + FilterMap(xs, TrimSpace, "") == FilterMap(xs, TrimSpace, "");
  }

  /** Separators at the ends add empty parts, which normalizing drops. */
  lemma {:induction false} NormalizeTrimLeft(s: string, sep: char)
    ensures Normalize(Split(TrimLeft(s, sep), sep)) == Normalize(Split(s, sep))
  {
    if s != "" && s[0] == sep {
      NormalizeTrimLeft(s[1..], sep);
      NormalizeAfterEmpty(Split(s[1..], sep));
    }
  }

  lemma NormalizeTrailing(s: string, t: string, sep: char)
    requires s == t + [sep]
    ensures Normalize(Split(s, sep)) == Normalize(Split(t, sep))
  {
    SplitTrailing(t, sep);
    NormalizeAfterEmpty(Split(t, sep));
  }

  lemma NormalizeDropLast(s: string, sep: char)
    requires s != "" && s[|s| - 1] == sep
    ensures Normalize(Split(s, sep)) == Normalize(Split(s[..|s| - 1], sep))
  {
    NormalizeTrailing(s, s[..|s| - 1], sep);
  }

  lemma {:induction false} NormalizeTrimRight(s: string, sep: char)
    ensures Normalize(Split(TrimRight(s, sep), sep)) == Normalize(Split(s, sep))
  {
    if s != "" && s[|s| - 1] == sep {
      NormalizeTrimRight(s[..|s| - 1], sep);
      NormalizeDropLast(s, sep);
    }
  }

  /** A stored list, read back and normalized, is that of all parts of its entries. */
  lemma NormalizeStored(entries: Names, sep: char)
    ensures Normalize(Fields(Join(entries, sep), sep)) == Normalize(AllParts(entries, sep))
  {
    var text := Join(entries, sep);
    if entries != [] {
      SplitOfJoinIsAllParts(entries, sep);
      if text == "" {
        NormalizeAfterEmpty([]);
      } else {
        NormalizeTrimLeft(text, sep);
        NormalizeTrimRight(TrimLeft(text, sep), sep);
      }
    }
  }

  lemma KeepIsNormal(xs: Names, keep: set<string>)
    requires Normal(xs)
    ensures Normal(Keep(xs, keep))
  {
    KeepIsDistinct(xs, keep);
  }

  /** mergeModelNames, as a value */
  function Merge(base: Names, appended: Names): Names {
    Union(Normalize(base), Normalize(appended))
  }

  /** mergeModelNames */
  method MergeModelNames(base: Names, appended: Names) returns (merged: Names)
    ensures merged == Merge(base, appended)
  {
    merged := AppendUnseen(Normalize(base), Normalize(appended));
  }

  /** subtractModelNames */
  function Subtract(base: Names, removed: Names): Names {
    var b := Normalize(base);
    Keep(b, Elements(b) - Elements(Normalize(removed)))
  }

  /** intersectModelNames */
  function Intersect(base: Names, allowed: Names): Names {
    Keep(Normalize(base), Elements(Normalize(allowed)))
  }

  /** applySelectedModelChanges */
  function ApplySelected(origin: Names, add: Names, remove: Names): Names {
    var normalizedAdd := Normalize(add);
    var normalizedRemove := Subtract(Normalize(remove), normalizedAdd);
    Subtract(Merge(origin, normalizedAdd), normalizedRemove)
  }

  lemma MergeIsNormal(base: Names, appended: Names)
    ensures Normal(Merge(base, appended))
    ensures forall x :: x in Merge(base, appended) <==> x in Normalize(base) || x in Normalize(appended)
  {
    UnionIsDistinct(Normalize(base), Normalize(appended));
  }

  lemma SubtractIsNormal(base: Names, removed: Names)
    ensures Normal(Subtract(base, removed))
    ensures forall x :: x in Subtract(base, removed) <==> x in Normalize(base) && x !in Normalize(removed)
  {
    var b := Normalize(base);
    KeepIsNormal(b, Elements(b) - Elements(Normalize(removed)));
  }

  lemma IntersectIsNormal(base: Names, allowed: Names)
    ensures Normal(Intersect(base, allowed))
    ensures forall x :: x in Intersect(base, allowed) <==> x in Normalize(base) && x in Normalize(allowed)
  {
    KeepIsNormal(Normalize(base), Elements(Normalize(allowed)));
  }

  /** Add wins when the same model is selected both ways; otherwise the choice is applied exactly. */
  lemma ApplySelectedIsExact(origin: Names, add: Names, remove: Names)
    ensures Normal(ApplySelected(origin, add, remove))
    ensures forall x :: x in ApplySelected(origin, add, remove) <==>
              x in Normalize(add) || (x in Normalize(origin) && x !in Normalize(remove))
  {
    var a := Normalize(add);
    var r := Subtract(Normalize(remove), a);
    NormalizeNormal(a);
    NormalizeNormal(Normalize(remove));
    SubtractIsNormal(Normalize(remove), a);
    NormalizeNormal(r);
    MergeIsNormal(origin, a);
    NormalizeNormal(Merge(origin, a));
    SubtractIsNormal(Merge(origin, a), r);
  }

  lemma SubtractOfNormal(base: Names, removed: Names)
    requires Normal(base) && Normal(removed)
    ensures Subtract(base, removed) == Keep(base, Elements(base) - Elements(removed))
  {
    NormalizeNormal(base);
    NormalizeNormal(removed);
  }

  lemma SubtractNothing(base: Names, removed: Names)
    requires Normal(base) && Normal(removed) && forall x | x in base :: x !in removed
    ensures Subtract(base, removed) == base
  {
    SubtractOfNormal(base, removed);
    KeepAll(base, Elements(base) - Elements(removed));
  }

  lemma MergeOfDisjoint(base: Names, appended: Names)
    requires Normal(base) && Normal(appended) && forall x | x in appended :: x !in base
    ensures Merge(base, appended) == base + appended && Normal(base + appended)
  {
    NormalizeNormal(base);
    NormalizeNormal(appended);
    KeepAll(appended, Elements(appended) - Elements(base));
    MergeIsNormal(base, appended);
  }

  /** As sequences: the origin without the removed names, then the added ones. */
  lemma ApplySelectedInOrder(origin: Names, add: Names, remove: Names)
    requires Normal(origin) && Normal(add) && Normal(remove)
    requires forall x | x in add :: x !in origin && x !in remove
    ensures ApplySelected(origin, add, remove) == Keep(origin, Elements(origin) - Elements(remove)) + add
  {
    NormalizeNormal(add);
    NormalizeNormal(remove);
    SubtractNothing(remove, add);
    MergeOfDisjoint(origin, add);
    SubtractOfNormal(origin + add, remove);
    AppendThenDrop(origin, add, remove);
  }
}
