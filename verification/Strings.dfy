/** The string operations of Go's standard library that the gateway stores its lists with. */
module Strings {

  /** Go's unicode.IsSpace. */
  predicate IsSpace(c: char) {
    || '\t' <= c <= '\r' || c == ' ' || c == '\U{85}' || c == '\U{a0}' || c == '\U{1680}' || '\U{2000}' <= c <= '\U{200a}'
    || c == '\U{2028}' || c == '\U{2029}' || c == '\U{202f}' || c == '\U{205f}' || c == '\U{3000}'
  }

  function TrimSpaceLeft(s: string): (r: string)
    ensures r == "" || !IsSpace(r[0])
    ensures |r| <= |s| && r == s[|s| - |r|..]
    ensures s != "" && !IsSpace(s[0]) ==> r == s
  {
    if s == "" || !IsSpace(s[0]) then s else TrimSpaceLeft(s[1..])
  }

  function TrimSpaceRight(s: string): (r: string)
    ensures r == "" || !IsSpace(r[|r| - 1])
    ensures |r| <= |s| && r == s[..|r|]
    ensures s != "" && !IsSpace(s[|s| - 1]) ==> r == s
  {
    if s == "" || !IsSpace(s[|s| - 1]) then s else TrimSpaceRight(s[..|s| - 1])
  }

  /** strings.TrimSpace */
  function TrimSpace(s: string): (r: string)
    ensures r == "" || (!IsSpace(r[0]) && !IsSpace(r[|r| - 1]))
    ensures Trimmed(s) ==> r == s
    ensures Trimmed(r)
  {
    var left := TrimSpaceLeft(s);
    var r := TrimSpaceRight(left);
    assert r != "" ==> r[0] == left[0];
    r
  }

  /** Only white space is cut off, on either side. */
  lemma {:induction false} TrimSpaceLeftCuts(s: string, j: nat)
    requires j < |s| - |TrimSpaceLeft(s)|
    ensures IsSpace(s[j])
  {
    if j > 0 {
      TrimSpaceLeftCuts(s[1..], j - 1);
    }
  }

  lemma {:induction false} TrimSpaceRightCuts(s: string, j: nat)
    requires |TrimSpaceRight(s)| <= j < |s|
    ensures IsSpace(s[j])
  {
    if j < |s| - 1 {
      TrimSpaceRightCuts(s[..|s| - 1], j);
    }
  }

  /** Trimming introduces no character. */
  lemma TrimSpaceChars(s: string, c: char)
    requires c !in s
    ensures c !in TrimSpace(s)
  {
    var left := TrimSpaceLeft(s);
    assert c !in left;
  }

  /** No white space at either end. */
  predicate Trimmed(s: string) {
    s == "" || (!IsSpace(s[0]) && !IsSpace(s[|s| - 1]))
  }

  predicate HasPrefix(s: string, prefix: string) {
    |prefix| <= |s| && s[..|prefix|] == prefix
  }

  function TrimLeft(s: string, c: char): (r: string)
    ensures r == "" || r[0] != c
    ensures |r| <= |s| && r == s[|s| - |r|..]
    ensures s != "" && s[0] != c ==> r == s
  {
    if s == "" || s[0] != c then s else TrimLeft(s[1..], c)
  }

  function TrimRight(s: string, c: char): (r: string)
    ensures r == "" || r[|r| - 1] != c
    ensures |r| <= |s| && r == s[..|r|]
    ensures s != "" && s[|s| - 1] != c ==> r == s
  {
    if s == "" || s[|s| - 1] != c then s else TrimRight(s[..|s| - 1], c)
  }

  /** strings.Trim with a one-character cutset */
  function Trim(s: string, c: char): (r: string)
    ensures r == "" || (r[0] != c && r[|r| - 1] != c)
    ensures s != "" && s[0] != c && s[|s| - 1] != c ==> r == s
  {
    TrimRight(TrimLeft(s, c), c)
  }

  /** strings.Join with a one-character separator */
  function Join(parts: seq<string>, sep: char): string {
    if parts == [] then ""
    else if |parts| == 1 then parts[0]
    else parts[0] + [sep] + Join(parts[1..], sep)
  }

  /** strings.Split with a one-character separator */
  function Split(s: string, sep: char): (parts: seq<string>)
    ensures parts != []
  {
    if s == "" then [""]
    else
      WithFirst(s[0], Split(s[1..], sep), sep)
  }

  /** Joining the parts gives the text back. */
  lemma {:induction false} JoinOfSplit(s: string, sep: char)
    ensures Join(Split(s, sep), sep) == s
  {
    if s != "" {
      var rest := Split(s[1..], sep);
      JoinOfSplit(s[1..], sep);
      JoinWithFirst(s[0], rest, sep);
      assert [s[0]] + s[1..] == s;
    }
  }

  lemma JoinWithFirst(c: char, rest: seq<string>, sep: char)
    requires rest != []
    ensures Join(WithFirst(c, rest, sep), sep) == [c] + Join(rest, sep)
  {
    var parts := WithFirst(c, rest, sep);
    if c == sep {
      assert parts[1..] == rest && "" + [sep] == [c];
    } else if |rest| > 1 {
      assert parts[1..] == rest[1..];
      assert [c] + rest[0] + [sep] + Join(rest[1..], sep) == [c] + (rest[0] + [sep] + Join(rest[1..], sep));
    }
  }

  lemma {:induction false} SplitPartsHaveNoSeparator(s: string, sep: char)
    ensures forall i | 0 <= i < |Split(s, sep)| :: sep !in Split(s, sep)[i]
  {
    if s != "" {
      SplitPartsHaveNoSeparator(s[1..], sep);
    }
  }

  /** Splitting at the first separator. */
  lemma {:induction false} SplitAfterPart(part: string, rest: string, sep: char)
    requires sep !in part
    ensures Split(part + [sep] + rest, sep) == [part] + Split(rest, sep)
  {
    var s := part + [sep] + rest;
    if part == "" {
      assert s[1..] == rest;
    } else {
      SplitAfterPart(part[1..], rest, sep);
      assert s[1..] == part[1..] + [sep] + rest;
      assert part == [part[0]] + part[1..];
    }
  }

  lemma {:induction false} SplitWithoutSeparator(part: string, sep: char)
    requires sep !in part
    ensures Split(part, sep) == [part]
  {
    if part != "" {
      SplitWithoutSeparator(part[1..], sep);
      assert part == [part[0]] + part[1..];
    }
  }

  lemma {:induction false} SplitOfJoin(parts: seq<string>, sep: char)
    requires parts != [] && forall i | 0 <= i < |parts| :: sep !in parts[i]
    ensures Split(Join(parts, sep), sep) == parts
  {
    if |parts| == 1 {
      SplitWithoutSeparator(parts[0], sep);
    } else {
      SplitOfJoin(parts[1..], sep);
      SplitAfterPart(parts[0], Join(parts[1..], sep), sep);
      assert parts == [parts[0]] + parts[1..];
    }
  }

  lemma {:induction false} SplitConcat(a: string, b: string, sep: char)
    ensures Split(a + [sep] + b, sep) == Split(a, sep) + Split(b, sep)
  {
    var s := a + [sep] + b;
    if a == "" {
      assert s[1..] == b && s[0] == sep;
    } else {
      SplitConcat(a[1..], b, sep);
      assert s[1..] == a[1..] + [sep] + b && s[0] == a[0];
      OnePartMore(s[0], Split(a[1..], sep), Split(b, sep), sep);
    }
  }

  /** What the first character does to the parts of the rest. */
  function WithFirst(c: char, rest: seq<string>, sep: char): seq<string>
    requires rest != []
  {
    if c == sep then [""] + rest else [[c] + rest[0]] + rest[1..]
  }

  lemma OnePartMore(c: char, rest: seq<string>, more: seq<string>, sep: char)
    requires rest != []
    ensures WithFirst(c, rest + more, sep) == WithFirst(c, rest, sep) + more
  {
    assert (rest + more)[0] == rest[0] && (rest + more)[1..] == rest[1..] + more;
  }

  lemma SplitTrailing(s: string, sep: char)
    ensures Split(s + [sep], sep) == Split(s, sep) + [""]
  {
    SplitConcat(s, "", sep);
    assert s + [sep] + "" == s + [sep];
  }

  /** The parts of all entries, one after the other. */
  function AllParts(entries: seq<string>, sep: char): seq<string> {
    if entries == [] then [] else Split(entries[0], sep) + AllParts(entries[1..], sep)
  }

  /** Splitting joined entries gives the parts of all of them. */
  lemma {:induction false} SplitOfJoinIsAllParts(entries: seq<string>, sep: char)
    requires entries != []
    ensures Split(Join(entries, sep), sep) == AllParts(entries, sep)
  {
    if |entries| == 1 {
      assert entries[1..] == [];
    } else {
      SplitOfJoinIsAllParts(entries[1..], sep);
      SplitConcat(entries[0], Join(entries[1..], sep), sep);
    }
  }

  lemma Associate<T>(a: seq<T>, b: seq<T>, c: seq<T>)
    ensures a + (b + c) == a + b + c
  {
  }

  lemma {:induction false} AllPartsConcat(a: seq<string>, b: seq<string>, sep: char)
    ensures AllParts(a + b, sep) == AllParts(a, sep) + AllParts(b, sep)
  {
    if a == [] {
      assert a + b == b;
    } else {
      AllPartsConcat(a[1..], b, sep);
      assert (a + b)[1..] == a[1..] + b && (a + b)[0] == a[0];
      Associate(Split(a[0], sep), AllParts(a[1..], sep), AllParts(b, sep));
    }
  }

  lemma {:induction false} AllPartsWithoutSeparator(entries: seq<string>, sep: char)
    requires forall i | 0 <= i < |entries| :: sep !in entries[i]
    ensures AllParts(entries, sep) == entries
  {
    if entries != [] {
      AllPartsWithoutSeparator(entries[1..], sep);
      SplitWithoutSeparator(entries[0], sep);
    }
  }

  lemma {:induction false} JoinEnds(parts: seq<string>, sep: char)
    requires parts != [] && parts[|parts| - 1] != ""
    ensures Join(parts, sep) != ""
    ensures var last := parts[|parts| - 1];
            Join(parts, sep)[|Join(parts, sep)| - 1] == last[|last| - 1]
  {
    if |parts| > 1 {
      JoinEnds(parts[1..], sep);
    }
  }

  lemma {:induction false} SplitEnds(s: string, sep: char)
    requires s != "" && s[|s| - 1] != sep
    ensures Split(s, sep)[|Split(s, sep)| - 1] != ""
  {
    if |s| == 1 {
      assert s[1..] == "";
    } else {
      SplitEnds(s[1..], sep);
      LastStays(s[0], Split(s[1..], sep), sep);
    }
  }

  lemma LastStays(c: char, rest: seq<string>, sep: char)
    requires rest != [] && rest[|rest| - 1] != ""
    ensures var parts := WithFirst(c, rest, sep); parts != [] && parts[|parts| - 1] != ""
  {
  }

  /** How the gateway reads back a stored list: Split(Trim(s, sep), sep), and the empty string is the empty list. */
  function Fields(s: string, sep: char): seq<string> {
    if s == "" then [] else Split(Trim(s, sep), sep)
  }

  /** Only separators are cut off, on either side. */
  lemma {:induction false} TrimLeftCuts(s: string, c: char, j: nat)
    requires j < |s| - |TrimLeft(s, c)|
    ensures s[j] == c
  {
    if j > 0 {
      TrimLeftCuts(s[1..], c, j - 1);
    }
  }

  lemma {:induction false} TrimRightCuts(s: string, c: char, j: nat)
    requires |TrimRight(s, c)| <= j < |s|
    ensures s[j] == c
  {
    if j < |s| - 1 {
      TrimRightCuts(s[..|s| - 1], c, j);
    }
  }

  /** The lists that survive being stored with Join and read back. */
  predicate Storable(parts: seq<string>, sep: char) {
    parts == []
    || (parts[0] != "" && parts[|parts| - 1] != "" && forall i | 0 <= i < |parts| :: sep !in parts[i])
  }

  lemma StorableReadsBack(parts: seq<string>, sep: char)
    requires Storable(parts, sep)
    ensures Fields(Join(parts, sep), sep) == parts
  {
    if parts != [] {
      JoinEnds(parts, sep);
      SplitOfJoin(parts, sep);
    }
  }

  /** Every list that is read back is storable, or it is the single empty entry. */
  lemma FieldsAreStorable(s: string, sep: char)
    ensures Storable(Fields(s, sep), sep) || Fields(s, sep) == [""]
  {
    if s != "" {
      TrimmedIsStorable(Trim(s, sep), sep);
    }
  }

  lemma TrimmedIsStorable(t: string, sep: char)
    requires t == "" || (t[0] != sep && t[|t| - 1] != sep)
    ensures Storable(Split(t, sep), sep) || Split(t, sep) == [""]
  {
    SplitPartsHaveNoSeparator(t, sep);
    if t != "" {
      SplitEnds(t, sep);
    }
  }

  /**
    A list written with Join and read back is unchanged exactly when no part
    contains the separator and neither the first nor the last part is empty.
   */
  lemma StoredListRoundTrips(parts: seq<string>, sep: char)
    ensures Fields(Join(parts, sep), sep) == parts <==> Storable(parts, sep)
  {
    if Storable(parts, sep) {
      StorableReadsBack(parts, sep);
    } else {
      FieldsAreStorable(Join(parts, sep), sep);
    }
  }
}
