/**
  A channel that holds several keys: one text column with all keys, and maps
  from key index to the state of that key.  Deleting and appending keys rewrites
  the text and re-indexes the maps.
*/
module MultiKey {
  import opened Wrappers
  import opened Strings
  import opened OrderedLists

  const ENABLED := 1
  const MANUALLY_DISABLED := 2
  const AUTO_DISABLED := 3

  /** Reads a JSON array as its elements' text, or fails. */
  type Parser = string -> Option<seq<string>>

  function TotalLength(parts: seq<string>): nat {
    if parts == [] then 0 else |parts[0]| + TotalLength(parts[1..])
  }

  /** A JSON array is longer than its elements: it has brackets, and commas between them. */
  ghost predicate ReadsArrays(parse: Parser) {
    forall text :: parse(text).Some? ==> TotalLength(parse(text).value) + |parse(text).value| < |text|
  }

  predicate LooksLikeArray(key: string) {
    HasPrefix(TrimSpace(key), "[")
  }

  predicate IsArray(key: string, parse: Parser) {
    LooksLikeArray(key) && parse(TrimSpace(key)).Some?
  }

  /** GetKeys: the keys stored in the text column */
  function GetKeys(key: string, parse: Parser): seq<string> {
    if key == "" then []
    else if IsArray(key, parse) then parse(TrimSpace(key)).value
    else Fields(key, '\n')
  }

  /** Text that is not an array holds the lines that are left when line breaks are cut off at its ends. */
  lemma KeysAreLines(key: string, parse: Parser)
    requires key != "" && !IsArray(key, parse)
    ensures var keys := GetKeys(key, parse);
            && keys != [] && Join(keys, '\n') == Trim(key, '\n')
            && forall i | 0 <= i < |keys| :: '\n' !in keys[i]
  {
    JoinOfSplit(Trim(key, '\n'), '\n');
    SplitPartsHaveNoSeparator(Trim(key, '\n'), '\n');
  }

  /** The number of keys that Update records. */
  function CountKeys(key: string, parse: Parser): nat {
    if key == "" then 0
    else if IsArray(key, parse) && parse(TrimSpace(key)).value != [] then |parse(TrimSpace(key)).value|
    else |Fields(key, '\n')|
  }

  function TextOf(keys: seq<string>): string {
    Join(keys, '\n')
  }

  /** The key lists that come back unchanged from the text column. */
  predicate Survives(keys: seq<string>, parse: Parser) {
    Storable(keys, '\n') && (TextOf(keys) != "" ==> !IsArray(TextOf(keys), parse))
  }

  lemma {:induction false} LengthOfJoin(keys: seq<string>)
    ensures |TextOf(keys)| <= TotalLength(keys) + |keys|
  {
    if |keys| > 1 {
      LengthOfJoin(keys[1..]);
    }
  }

  lemma {:induction false} LengthOfConcat(xs: seq<string>, ys: seq<string>)
    ensures TotalLength(xs + ys) == TotalLength(xs) + TotalLength(ys)
  {
    if xs == [] {
      assert xs + ys == ys;
    } else {
      LengthOfConcat(xs[1..], ys);
      assert (xs + ys)[1..] == xs[1..] + ys;
    }
  }

  /** Text that reads as an array never holds the keys it was joined from, nor more than those. */
  lemma ArrayIsShorter(before: seq<string>, keys: seq<string>, parse: Parser)
    requires ReadsArrays(parse) && IsArray(TextOf(keys), parse)
    ensures parse(TrimSpace(TextOf(keys))).value != before + keys
  {
    LengthOfJoin(keys);
    LengthOfConcat(before, keys);
    var text := TextOf(keys);
    assert |TrimSpace(text)| <= |text|;
  }

  lemma KeysReadBack(keys: seq<string>, parse: Parser)
    requires ReadsArrays(parse)
    ensures GetKeys(TextOf(keys), parse) == keys <==> Survives(keys, parse)
  {
    var text := TextOf(keys);
    if text != "" && IsArray(text, parse) {
      ArrayDoesNotReadBack(keys, text, parse);
    } else {
      assert GetKeys(text, parse) == Fields(text, '\n');
      assert Fields(text, '\n') == keys <==> Storable(keys, '\n') by {
        StoredListRoundTrips(keys, '\n');
      }
    }
  }

  lemma ArrayDoesNotReadBack(keys: seq<string>, text: string, parse: Parser)
    requires ReadsArrays(parse) && text == TextOf(keys) != "" && IsArray(text, parse)
    ensures GetKeys(text, parse) != keys
  {
    ArrayIsShorter([], keys, parse);
    assert [] + keys == keys;
  }

  lemma EmptyText(keys: seq<string>)
    ensures TextOf(keys) == "" <==> keys == [] || keys == [""]
  {
    if |keys| > 1 {
      assert |TextOf(keys)| >= 1;
    }
  }

  /** What the management page shows of one key. */
  datatype KeyState = KeyState(key: string, status: int, disabledTime: int, reason: string)

  function StatusAt(status: map<int, int>, i: int): int {
    if i in status then status[i] else ENABLED
  }

  datatype Info = Info(status: map<int, int>, time: map<int, int>, reason: map<int, string>) {
    function At(key: string, i: int): (r: KeyState)
      ensures r.key == key && (i !in status ==> r.status == 1)
      ensures (i !in time ==> r.disabledTime == 0) && (i !in reason ==> r.reason == "")
    {
      var s := StatusAt(status, i);
      if s == ENABLED then KeyState(key, s, 0, "")
      else KeyState(key, s, if i in time then time[i] else 0, if i in reason then reason[i] else "")
    }

    /** Entries for keys below `n` only. */
    predicate Below(n: nat) {
      && (forall i | i in status :: 0 <= i < n)
      && (forall i | i in time :: 0 <= i < n)
      && (forall i | i in reason :: 0 <= i < n)
    }
  }

  function View(keys: seq<string>, info: Info): (v: seq<KeyState>)
    ensures |v| == |keys|
    ensures forall i | 0 <= i < |keys| :: v[i] == info.At(keys[i], i)
  {
    seq(|keys|, i requires 0 <= i < |keys| => info.At(keys[i], i))
  }

  function KeyTexts(v: seq<KeyState>): (keys: seq<string>)
    ensures |keys| == |v|
    ensures forall i | 0 <= i < |v| :: keys[i] == v[i].key
  {
    seq(|v|, i requires 0 <= i < |v| => v[i].key)
  }

  lemma KeysOfView(keys: seq<string>, info: Info)
    ensures KeyTexts(View(keys, info)) == keys
  {
  }

  function RemoveAt<T>(xs: seq<T>, i: nat): (r: seq<T>)
    ensures i < |xs| ==> |r| == |xs| - 1 && forall j | 0 <= j < |r| :: r[j] == xs[if j < i then j else j + 1]
  {
    if i < |xs| then xs[..i] + xs[i + 1..] else xs
  }

  /** The same, from left to right. */
  function Except<T>(xs: seq<T>, i: nat): seq<T> {
    if xs == [] then []
    else
      var r := Except(xs[..|xs| - 1], i);
      if |xs| - 1 == i then r else r + [xs[|xs| - 1]]
  }

  lemma {:induction false} ExceptIsRemoveAt<T>(xs: seq<T>, i: nat)
    ensures Except(xs, i) == RemoveAt(xs, i)
  {
    if xs != [] {
      var n := |xs| - 1;
      ExceptIsRemoveAt(xs[..n], i);
      if i < n {
        assert xs[..n][..i] == xs[..i] && xs[..n][i + 1..] == xs[i + 1..n];
        assert xs[i + 1..] == xs[i + 1..n] + [xs[n]];
      } else if i == n {
        assert xs[i + 1..] == [];
      } else {
        assert xs == xs[..n] + [xs[n]];
      }
    }
  }

  function NotAutoDisabled(v: seq<KeyState>): (r: seq<KeyState>)
    ensures |r| <= |v|
  {
    if v == [] then []
    else
      var r := NotAutoDisabled(v[..|v| - 1]);
      if v[|v| - 1].status != 3 then r + [v[|v| - 1]] else r
  }

  predicate SomeAutoDisabled(v: seq<KeyState>) {
    exists i | 0 <= i < |v| :: v[i].status == 3
  }

  lemma {:induction false} NotAutoDisabledExactly(v: seq<KeyState>, k: KeyState)
    ensures k in NotAutoDisabled(v) <==> k in v && k.status != 3
    ensures |NotAutoDisabled(v)| < |v| <==> SomeAutoDisabled(v)
  {
    if v != [] {
      NotAutoDisabledExactly(v[..|v| - 1], k);
      assert v == v[..|v| - 1] + [v[|v| - 1]];
    }
  }

  /** Adding one more key with its state at the end of a compacted list. */
  lemma AppendState(keys: seq<string>, info: Info, key: string, state: KeyState, info': Info)
    requires info.Below(|keys|)
    requires forall i | 0 <= i < |keys| :: info'.At(keys[i], i) == info.At(keys[i], i)
    requires info'.At(key, |keys|) == state
    ensures View(keys + [key], info') == View(keys, info) + [state]
  {
  }

  function Enabled(keys: seq<string>): (v: seq<KeyState>)
    ensures |v| == |keys| && forall i | 0 <= i < |keys| :: v[i] == KeyState(keys[i], 1, 0, "")
  {
    View(keys, Info(map[], map[], map[]))
  }

  /** The states of keys below `n`. */
  function Cut(status: map<int, int>, n: nat): map<int, int> {
    map i | i in status && i < n :: status[i]
  }

  predicate Bounded(status: map<int, int>, n: nat) {
    forall i | i in status :: i < n
  }

  predicate InRange(status: map<int, int>, n: nat) {
    forall i | i in status :: 0 <= i < n
  }

  predicate NonNegative(status: map<int, int>) {
    forall i | i in status :: 0 <= i
  }

  lemma CutIsBounded(status: map<int, int>, n: nat)
    ensures Bounded(Cut(status, n), n)
    ensures NonNegative(status) ==> InRange(Cut(status, n), n)
  {
  }

  lemma SetStaysNonNegative(status: map<int, int>, n: nat, k: nat, v: int)
    requires InRange(status, n)
    ensures NonNegative(status[k := v])
  {
  }

  method DropFrom(status: map<int, int>, n: nat) returns (kept: map<int, int>)
    ensures kept == Cut(status, n)
  {
    kept := status;
    var todo := status.Keys;
    while todo != {}
      invariant todo <= kept.Keys <= status.Keys
      invariant forall i | i in status :: i in kept <==> i in todo || i < n
      invariant forall i | i in kept :: kept[i] == status[i]
      decreases |todo|
    {
      var i := AnyOf(todo);
      todo := todo - {i};
      if i >= n {
        kept := kept - {i};
      }
    }
    assert kept.Keys == Cut(status, n).Keys;
  }

  /** The loop of disable_all_keys. */
  method DisableEnabled(status: map<int, int>, n: nat) returns (status': map<int, int>, disabledCount: nat)
    ensures forall j | 0 <= j < n :: j in status'
    ensures forall j | 0 <= j < n :: status'[j] == if StatusAt(status, j) == ENABLED then MANUALLY_DISABLED else status[j]
    ensures forall j | !(0 <= j < n) :: StatusAt(status', j) == StatusAt(status, j)
    ensures forall j | j in status' :: j in status || 0 <= j < n
    ensures disabledCount == 0 <==> NoneEnabled(status, n)
  {
    status', disabledCount := status, 0;
    for i := 0 to n
      invariant forall j | 0 <= j < i :: j in status'
      invariant forall j | 0 <= j < i :: status'[j] == if StatusAt(status, j) == ENABLED then MANUALLY_DISABLED else status[j]
      invariant forall j | !(0 <= j < i) :: (j in status' <==> j in status) && StatusAt(status', j) == StatusAt(status, j)
      invariant disabledCount == 0 <==> forall j | 0 <= j < i :: StatusAt(status, j) != ENABLED
    {
      assert StatusAt(status', i) == StatusAt(status, i);
      if StatusAt(status', i) == ENABLED {
        status' := status'[i := MANUALLY_DISABLED];
        disabledCount := disabledCount + 1;
      }
    }
  }

  /** One key is disabled, whatever it was, and the others are as before. */
  predicate DisabledOnly(before: seq<KeyState>, after: seq<KeyState>, k: int) {
    |after| == |before|
    && forall i | 0 <= i < |before| ::
         if i == k then after[i].key == before[i].key && after[i].status == 2 else after[i] == before[i]
  }

  lemma DisablingShows(keys: seq<string>, info: Info, k: int, n: nat)
    requires |keys| <= n
    ensures DisabledOnly(View(keys, info), View(keys, info.(status := Cut(info.status[k := MANUALLY_DISABLED], n))), k)
  {
  }

  /** One key is enabled with its record cleared, and the others are as before. */
  predicate EnabledOnly(before: seq<KeyState>, after: seq<KeyState>, k: int) {
    |after| == |before|
    && forall i | 0 <= i < |before| ::
         after[i] == if i == k then KeyState(before[i].key, 1, 0, "") else before[i]
  }

  lemma EnablingShows(keys: seq<string>, info: Info, k: int, n: nat)
    requires |keys| <= n
    ensures EnabledOnly(View(keys, info),
                        View(keys, Info(Cut(info.status - {k}, n), info.time - {k}, info.reason - {k})), k)
  {
  }

  /** Every key comes out disabled, and those that were keep their states. */
  predicate NowDisabled(before: seq<KeyState>, after: seq<KeyState>) {
    |after| == |before|
    && forall i | 0 <= i < |before| ::
         if before[i].status == 1 then after[i].key == before[i].key && after[i].status == 2 else after[i] == before[i]
  }

  predicate NoneEnabled(status: map<int, int>, n: nat) {
    forall i | 0 <= i < n :: StatusAt(status, i) != 1
  }

  lemma DisabledShows(keys: seq<string>, info: Info, status: map<int, int>, n: nat)
    requires |keys| <= n
    requires forall j | 0 <= j < n :: j in status
    requires forall j | 0 <= j < n ::
               status[j] == if StatusAt(info.status, j) == ENABLED then MANUALLY_DISABLED else info.status[j]
    ensures NowDisabled(View(keys, info), View(keys, info.(status := Cut(status, n))))
  {
    var before, after := View(keys, info), View(keys, info.(status := Cut(status, n)));
    forall i | 0 <= i < |keys|
      ensures if before[i].status == 1 then after[i].key == before[i].key && after[i].status == 2 else after[i] == before[i]
    {
      assert Cut(status, n)[i] == status[i];
    }
  }

  method DisableListed(keys: seq<string>, info: Info, n: nat) returns (status: map<int, int>, disabledCount: nat)
    ensures disabledCount == 0 <==> NoneEnabled(info.status, n)
    ensures forall j | j in status :: j in info.status || 0 <= j < n
    ensures |keys| <= n ==> NowDisabled(View(keys, info), View(keys, info.(status := Cut(status, n))))
  {
    status, disabledCount := DisableEnabled(info.status, n);
    if |keys| <= n {
      DisabledShows(keys, info, status, n);
    }
  }

  /** The loop of delete_key: the other keys, with their states under their new indices. */
  method Without(keys: seq<string>, info: Info, keyIndex: nat) returns (remaining: seq<string>, newInfo: Info)
    ensures newInfo.Below(|remaining|)
    ensures remaining == RemoveAt(keys, keyIndex)
    ensures View(remaining, newInfo) == RemoveAt(View(keys, info), keyIndex)
  {
    var newIndex := 0;
    remaining, newInfo := [], Info(map[], map[], map[]);
    ghost var report := View(keys, info);
    for i := 0 to |keys|
      invariant newIndex == |remaining| && newInfo.Below(newIndex)
      invariant View(remaining, newInfo) == Except(report[..i], keyIndex)
    {
      assert report[..i + 1][..i] == report[..i];
      if i != keyIndex {
        ghost var before := newInfo;
        newInfo := CopyState(info, i, newInfo, newIndex, keys[i]);
        AppendState(remaining, before, keys[i], report[i], newInfo);
        remaining := remaining + [keys[i]];
        newIndex := newIndex + 1;
      }
    }
    assert report[..|keys|] == report;
    ExceptIsRemoveAt(report, keyIndex);
    KeysOfView(remaining, newInfo);
    TextsWithout(keys, info, keyIndex);
  }

  lemma TextsWithout(keys: seq<string>, info: Info, i: nat)
    ensures KeyTexts(RemoveAt(View(keys, info), i)) == RemoveAt(keys, i)
  {
  }

  method CopyState(info: Info, i: int, newInfo: Info, newIndex: nat, ghost key: string) returns (r: Info)
    requires newInfo.Below(newIndex)
    ensures r.Below(newIndex + 1)
    ensures r.At(key, newIndex) == info.At(key, i)
    ensures forall j, k | j < newIndex :: r.At(k, j) == newInfo.At(k, j)
  {
    r := newInfo;
    if i in info.status && info.status[i] != ENABLED {
      r := r.(status := r.status[newIndex := info.status[i]]);
    }
    if i in info.time {
      r := r.(time := r.time[newIndex := info.time[i]]);
    }
    if i in info.reason {
      r := r.(reason := r.reason[newIndex := info.reason[i]]);
    }
  }

  /** The loop of delete_disabled_keys. */
  method WithoutAutoDisabled(keys: seq<string>, info: Info)
    returns (remaining: seq<string>, newInfo: Info, deletedCount: nat)
    ensures newInfo.Below(|remaining|)
    ensures View(remaining, newInfo) == NotAutoDisabled(View(keys, info))
    ensures deletedCount == |keys| - |remaining|
    ensures deletedCount > 0 <==> SomeAutoDisabled(View(keys, info))
    ensures remaining == KeyTexts(NotAutoDisabled(View(keys, info)))
    ensures remaining == [] ==> newInfo == Info(map[], map[], map[])
  {
    remaining, newInfo, deletedCount := [], Info(map[], map[], map[]), 0;
    ghost var report := View(keys, info);
    for i := 0 to |keys|
      invariant newInfo.Below(|remaining|)
      invariant View(remaining, newInfo) == NotAutoDisabled(report[..i])
      invariant deletedCount == i - |remaining|
      invariant remaining == [] ==> newInfo == Info(map[], map[], map[])
    {
      assert report[..i + 1][..i] == report[..i];
      var status := StatusAt(info.status, i);
      if status == AUTO_DISABLED {
        deletedCount := deletedCount + 1;
      } else {
        ghost var before := newInfo;
        if status != ENABLED {
          newInfo := CopyState(info, i, newInfo, |remaining|, keys[i]);
        }
        AppendState(remaining, before, keys[i], report[i], newInfo);
        remaining := remaining + [keys[i]];
      }
    }
    assert report[..|keys|] == report;
    NotAutoDisabledExactly(report, KeyState("", ENABLED, 0, ""));
    KeysOfView(remaining, newInfo);
  }

  lemma CutNothing(info: Info, n: nat, m: nat)
    requires info.Below(n) && n <= m
    ensures Cut(info.status, m) == info.status
  {
  }

  lemma SameView(keys: seq<string>, info: Info, keys': seq<string>, info': Info)
    requires View(keys, info) == View(keys', info')
    ensures keys == keys'
  {
    KeysOfView(keys, info);
    KeysOfView(keys', info');
  }

  /** What a save of these keys and states shows afterwards. */
  lemma RewriteShows(keys: seq<string>, info: Info, text: string, parse: Parser)
    requires info.Below(|keys|) && ReadsArrays(parse) && text == TextOf(keys) != ""
    ensures View(GetKeys(text, parse), info.(status := Cut(info.status, CountKeys(text, parse)))) == View(keys, info)
            <==> Survives(keys, parse)
  {
    var n, keys' := CountKeys(text, parse), GetKeys(text, parse);
    KeysReadBack(keys, parse);
    KeysFit(text, parse);
    if keys' == keys {
      CutNothing(info, |keys|, n);
    } else if View(keys', info.(status := Cut(info.status, n))) == View(keys, info) {
      SameView(keys', info.(status := Cut(info.status, n)), keys, info);
    }
  }

  /** The keys that append mode takes from the stored text: none if it looks like an array and is not. */
  function ExistingKeys(key: string, parse: Parser): (r: seq<string>)
    ensures key != "" ==> r == if LooksLikeArray(key) && parse(TrimSpace(key)).None? then [] else GetKeys(key, parse)
  {
    if LooksLikeArray(key) then
      if parse(TrimSpace(key)).Some? then parse(TrimSpace(key)).value else []
    else Fields(key, '\n')
  }

  /** The trimmed, non-empty lines of a request. */
  function Lines(request: string): seq<string> {
    FilterMap(Split(request, '\n'), TrimSpace, "")
  }

  /** What a request adds: its lines, once each, that are not there yet. */
  function Added(existing: seq<string>, request: string): seq<string> {
    Novel(existing, Split(request, '\n'), TrimSpace, "")
  }

  /** The text between line breaks, part by part. */
  ghost predicate AreLines(parts: seq<string>, text: string) {
    parts != [] && (forall i | 0 <= i < |parts| :: '\n' !in parts[i]) && Join(parts, '\n') == text
  }

  /** Every text has its lines, and only one list of them. */
  lemma LinesExist(text: string)
    ensures AreLines(Split(text, '\n'), text)
    ensures forall parts | AreLines(parts, text) :: parts == Split(text, '\n')
  {
    SplitPartsHaveNoSeparator(text, '\n');
    JoinOfSplit(text, '\n');
    forall parts | AreLines(parts, text) ensures parts == Split(text, '\n') {
      SplitOfJoin(parts, '\n');
    }
  }

  /**
    A key is added exactly if it is a trimmed, non-empty line of the request that
    no existing key equals up to white space.  Each is added once, and in order of
    its first line: every line of a later key has one of an earlier key before it.
   */
  lemma AddedAreKeys(existing: seq<string>, request: string, parts: seq<string>)
    requires AreLines(parts, request)
    ensures AreNovel(existing, parts, TrimSpace, "", Added(existing, request))
  {
    LinesExist(request);
    NovelAreNovel(existing, parts, TrimSpace, "");
  }

  lemma AddedAreStorable(existing: seq<string>, request: string)
    ensures Storable(Added(existing, request), '\n')
  {
    LinesAreKeys(Split(request, '\n')) by {
      SplitPartsHaveNoSeparator(request, '\n');
    }
    AllStorable(Added(existing, request));
  }

  lemma AllStorable(keys: seq<string>)
    requires forall k | k in keys :: k != "" && '\n' !in k
    ensures Storable(keys, '\n')
  {
    if keys != [] {
      assert keys[0] in keys && keys[|keys| - 1] in keys;
    }
  }

  lemma {:induction false} LinesAreKeys(parts: seq<string>)
    requires forall i | 0 <= i < |parts| :: '\n' !in parts[i]
    ensures forall k | k in FilterMap(parts, TrimSpace, "") :: k != "" && '\n' !in k && Trimmed(k)
  {
    if parts != [] {
      LinesAreKeys(parts[..|parts| - 1]);
      TrimSpaceChars(parts[|parts| - 1], '\n');
    }
  }

  /** No state is recorded under an index that a new key would take. */
  predicate Vacant(info: Info, from: nat, to: nat) {
    forall i | from <= i < to :: StatusAt(info.status, i) == 1
  }

  lemma AppendedView(oldKeys: seq<string>, info: Info, added: seq<string>, n: nat)
    requires n >= |oldKeys + added|
    ensures View(oldKeys + added, info.(status := Cut(info.status, n))) == View(oldKeys, info) + Enabled(added)
            <==> Vacant(info, |oldKeys|, |oldKeys + added|)
  {
    var all, info' := oldKeys + added, info.(status := Cut(info.status, n));
    var left, right := View(all, info'), View(oldKeys, info) + Enabled(added);
    forall i | 0 <= i < |all| ensures left[i] == right[i] <==> i < |oldKeys| || StatusAt(info.status, i) == ENABLED {
      assert StatusAt(info'.status, i) == StatusAt(info.status, i);
    }
    if left == right {
      forall i | |oldKeys| <= i < |all| ensures StatusAt(info.status, i) == ENABLED {
        assert left[i] == right[i];
      }
    }
  }

  lemma AppendedKeys(oldKeys: seq<string>, info: Info, added: seq<string>, keys': seq<string>, info': Info)
    requires View(keys', info') == View(oldKeys, info) + Enabled(added)
    ensures keys' == oldKeys + added
  {
    KeysOfView(keys', info');
    KeysOfView(oldKeys, info);
    KeysOfView(added, Info(map[], map[], map[]));
  }

  /** Appending to text that only looks like an array loses the old keys. */
  lemma OldKeysLost(key: string, added: seq<string>, parse: Parser)
    requires ReadsArrays(parse) && key != "" && Storable(added, '\n') && TextOf(added) != ""
    requires ExistingKeys(key, parse) != GetKeys(key, parse)
    ensures ExistingKeys(key, parse) == [] && GetKeys(TextOf(added), parse) != GetKeys(key, parse) + added
  {
    var text := TextOf(added);
    if IsArray(text, parse) {
      ArrayIsShorter(GetKeys(key, parse), added, parse);
    } else {
      StorableReadsBack(added, '\n');
    }
  }

  /** What a save shows after keys were appended. */
  lemma AppendShows(key: string, info: Info, added: seq<string>, text: string, parse: Parser)
    requires ReadsArrays(parse) && key != "" && Storable(added, '\n')
    requires text == TextOf(ExistingKeys(key, parse) + added) != ""
    ensures var existing, oldKeys := ExistingKeys(key, parse), GetKeys(key, parse);
            View(GetKeys(text, parse), info.(status := Cut(info.status, CountKeys(text, parse))))
              == View(oldKeys, info) + Enabled(added)
            <==> existing == oldKeys && Survives(existing + added, parse) && Vacant(info, |oldKeys|, |oldKeys + added|)
  {
    var existing, oldKeys := ExistingKeys(key, parse), GetKeys(key, parse);
    var n, keys' := CountKeys(text, parse), GetKeys(text, parse);
    var info' := info.(status := Cut(info.status, n));
    KeysReadBack(existing + added, parse);
    KeysFit(text, parse);
    if View(keys', info') == View(oldKeys, info) + Enabled(added) {
      AppendedKeys(oldKeys, info, added, keys', info');
      if existing != oldKeys {
        assert [] + added == added;
        OldKeysLost(key, added, parse);
        assert false;
      }
      AppendedView(oldKeys, info, added, n);
    } else if existing == oldKeys && Survives(existing + added, parse) {
      AppendedView(oldKeys, info, added, n);
    }
  }

  lemma NothingAdded(existing: seq<string>, added: seq<string>)
    requires Storable(added, '\n') && TextOf(existing + added) == ""
    ensures added == []
  {
    EmptyText(existing + added);
  }

  lemma SameStates(keys: seq<string>, info: Info, n: nat)
    requires |keys| <= n
    ensures View(keys, info.(status := Cut(info.status, n))) == View(keys, info) + Enabled([])
  {
    AppendedView(keys, info, [], n);
    assert keys + [] == keys;
  }

  /** The same, when the longer list may be empty text and the old text stays. */
  lemma AppendSaved(key: string, info: Info, added: seq<string>, text: string, parse: Parser)
    requires ReadsArrays(parse) && key != "" && Storable(added, '\n') && text == TextOf(ExistingKeys(key, parse) + added)
    ensures var existing, oldKeys, saved := ExistingKeys(key, parse), GetKeys(key, parse), if text == "" then key else text;
            View(GetKeys(saved, parse), info.(status := Cut(info.status, CountKeys(saved, parse))))
              == View(oldKeys, info) + Enabled(added)
            <==> text == "" || (existing == oldKeys && Survives(existing + added, parse)
                                && Vacant(info, |existing|, |existing + added|))
  {
    if text == "" {
      NothingAdded(ExistingKeys(key, parse), added);
      KeysFit(key, parse);
      SameStates(GetKeys(key, parse), info, CountKeys(key, parse));
    } else {
      AppendShows(key, info, added, text, parse);
    }
  }

  datatype Outcome = Done | Refused

  datatype Action =
    | Disable(index: Option<int>)
    | Enable(index: Option<int>)
    | EnableAll
    | DisableAll
    | Delete(index: Option<int>)
    | DeleteDisabled
    | Append(request: string)
  {
    predicate ChangesStates() {
      Disable? || Enable? || EnableAll? || DisableAll?
    }
  }

  /** A channel's row. */
  datatype Row = Row(key: string, size: nat, info: Info) {
    function Keys(parse: Parser): seq<string> {
      GetKeys(key, parse)
    }

    function Report(parse: Parser): seq<KeyState> {
      View(Keys(parse), info)
    }

    predicate Settled(parse: Parser) {
      size == CountKeys(key, parse) && InRange(info.status, size)
    }
  }

  predicate Addresses(index: Option<int>, row: Row) {
    index.Some? && 0 <= index.value < row.size
  }

  /** The other keys keep their order and their states exactly when the remaining list survives its text form. */
  predicate DeletesKey(parse: Parser, row: Row, i: nat, row': Row) {
    row'.Report(parse) == RemoveAt(row.Report(parse), i) <==> Survives(RemoveAt(row.Keys(parse), i), parse)
  }

  /**
    The keys that are not auto-disabled keep their order and states exactly when
    their list survives its text form; when there are none, every key is back, and
    enabled.
   */
  predicate DeletesDisabled(parse: Parser, row: Row, row': Row) {
    var kept := NotAutoDisabled(row.Report(parse));
    if kept == [] then row'.key == row.key && row'.Report(parse) == Enabled(row.Keys(parse))
    else row'.Report(parse) == kept <==> Survives(KeyTexts(kept), parse)
  }

  /**
    The old keys keep their places and states and the new ones follow them,
    enabled, exactly when the stored text was readable, the longer list survives
    its text form and no stale state waits for the new indices.
   */
  predicate AppendsKeys(parse: Parser, row: Row, request: string, row': Row) {
    var existing := ExistingKeys(row.key, parse);
    var added := Added(existing, request);
    row'.Report(parse) == row.Report(parse) + Enabled(added)
    <==> TextOf(existing + added) == ""
         || (existing == row.Keys(parse) && Survives(existing + added, parse)
             && Vacant(row.info, |existing|, |existing + added|))
  }

  /** What an action promises about the row before and after it; a refused one changes nothing. */
  predicate Takes(parse: Parser, row: Row, a: Action, row': Row) {
    match a
    case Disable(index) =>
      if Addresses(index, row) then row'.key == row.key && DisabledOnly(row.Report(parse), row'.Report(parse), index.value)
      else row' == row
    case Enable(index) =>
      if Addresses(index, row) then row'.key == row.key && EnabledOnly(row.Report(parse), row'.Report(parse), index.value)
      else row' == row
    case EnableAll => row'.key == row.key && row'.Report(parse) == Enabled(row.Keys(parse))
    case DisableAll =>
      if NoneEnabled(row.info.status, row.size) then row' == row
      else row'.key == row.key && NowDisabled(row.Report(parse), row'.Report(parse))
    case Delete(index) =>
      if Addresses(index, row) && |row.Keys(parse)| > 1 then DeletesKey(parse, row, index.value, row') else row' == row
    case DeleteDisabled =>
      if SomeAutoDisabled(row.Report(parse)) then DeletesDisabled(parse, row, row') else row' == row
    case Append(request) =>
      if row.key == "" then row'.key == request else AppendsKeys(parse, row, request, row')
  }

  /** The rows a channel goes through, and the actions that take it from each to the next. */
  datatype History = Initially(row: Row) | Then(before: History, action: Action, row: Row) {
    function First(): Row {
      if Initially? then row else before.First()
    }

    function Actions(): seq<Action> {
      if Initially? then [] else before.Actions() + [action]
    }

    /** Every row is settled, and every action did what it promises. */
    predicate Holds(parse: Parser) {
      row.Settled(parse) && (Then? ==> before.Holds(parse) && Takes(parse, before.row, action, row))
    }
  }

  /** The history of these actions between two rows. */
  predicate Recounts(h: History, parse: Parser, first: Row, actions: seq<Action>, last: Row) {
    h.Holds(parse) && h.First() == first && h.Actions() == actions && h.row == last
  }

  lemma OneActionMore(h: History, parse: Parser, first: Row, actions: seq<Action>, a: Action, row: Row)
    requires Recounts(h, parse, first, actions, h.row) && Takes(parse, h.row, a, row) && row.Settled(parse)
    ensures Recounts(Then(h, a, row), parse, first, actions + [a], row)
  {
  }

  class Channel {
    const parse: Parser
    var key: string
    var size: nat
    var info: Info

    constructor (key: string, size: nat, info: Info, parse: Parser)
      ensures this.key == key && this.size == size && this.info == info && this.parse == parse
    {
      this.key, this.size, this.info, this.parse := key, size, info, parse;
    }

    function Keys(): seq<string>
      reads this
    {
      GetKeys(key, parse)
    }

    function Value(): Row
      reads this
    {
      Row(key, size, info)
    }

    /** get_key_status, before paging */
    function Report(): seq<KeyState>
      reads this
    {
      View(Keys(), info)
    }

    /** What every save establishes: the size is counted and no state lies beyond it. */
    predicate Counted()
      reads this
    {
      size == CountKeys(key, parse) && Bounded(info.status, size)
    }

    /** What every action keeps: besides, every state is that of a key. */
    predicate Settled()
      reads this
    {
      size == CountKeys(key, parse) && InRange(info.status, size)
    }

    /** Update: recount the keys, drop states beyond them, and write every non-empty column. */
    method Update(stored: string)
      modifies `key, `size, `info
      ensures key == if old(key) == "" then stored else old(key)
      ensures Counted() && (NonNegative(old(info).status) ==> Settled())
      ensures info == old(info).(status := Cut(old(info).status, size))
    {
      key := if key == "" then stored else key;
      size := CountKeys(key, parse);
      CutIsBounded(info.status, size);
      var status := DropFrom(info.status, size);
      info := info.(status := status);
    }

    /** disable_key */
    method DisableKey(index: Option<int>) returns (r: Outcome)
      modifies this
      ensures r == Done <==> index.Some? && 0 <= index.value < old(size)
      ensures r == Refused ==> unchanged(this)
      ensures r == Done ==> Counted() && key == old(key)
      ensures old(Settled()) ==> Settled()
      ensures r == Done ==> DisabledOnly(old(Report()), Report(), index.value)
    {
      if index.None? || index.value < 0 || index.value >= size {
        return Refused;
      }
      KeysFit(key, parse);
      DisablingShows(Keys(), info, index.value, CountKeys(key, parse));
      if Settled() {
        SetStaysNonNegative(info.status, size, index.value, MANUALLY_DISABLED);
      }
      info := info.(status := info.status[index.value := MANUALLY_DISABLED]);
      Update(key);
      r := Done;
    }

    /** enable_key */
    method EnableKey(index: Option<int>) returns (r: Outcome)
      modifies this
      ensures r == Done <==> index.Some? && 0 <= index.value < old(size)
      ensures r == Refused ==> unchanged(this)
      ensures r == Done ==> Counted() && key == old(key)
      ensures old(Settled()) ==> Settled()
      ensures r == Done ==> EnabledOnly(old(Report()), Report(), index.value)
    {
      if index.None? || index.value < 0 || index.value >= size {
        return Refused;
      }
      KeysFit(key, parse);
      EnablingShows(Keys(), info, index.value, CountKeys(key, parse));
      info := Info(info.status - {index.value}, info.time - {index.value}, info.reason - {index.value});
      Update(key);
      r := Done;
    }

    /** enable_all_keys */
    method EnableAllKeys()
      modifies this
      ensures Settled() && key == old(key)
      ensures Report() == Enabled(old(Keys()))
    {
      info := Info(map[], map[], map[]);
      Update(key);
    }

    /** disable_all_keys */
    method DisableAllKeys() returns (r: Outcome)
      modifies this
      ensures r == Refused <==> NoneEnabled(old(info).status, old(size))
      ensures r == Refused ==> unchanged(this)
      ensures r == Done ==> Counted() && key == old(key)
      ensures old(Settled()) ==> Settled()
      ensures r == Done && old(Counted()) ==> NowDisabled(old(Report()), Report())
    {
      var status, disabledCount := DisableListed(Keys(), info, size);
      if disabledCount == 0 {
        return Refused;
      }
      KeysFit(key, parse);
      info := info.(status := status);
      Update(key);
      r := Done;
    }

    /** Writes the compacted keys and their states. */
    method Rewrite(remaining: seq<string>, newInfo: Info)
      requires newInfo.Below(|remaining|) && ReadsArrays(parse)
      modifies this
      ensures Settled()
      ensures key == if TextOf(remaining) == "" then old(key) else TextOf(remaining)
      ensures TextOf(remaining) != "" ==> (Report() == View(remaining, newInfo) <==> Survives(remaining, parse))
      ensures TextOf(remaining) == "" ==> Keys() == old(Keys())
      ensures TextOf(remaining) == "" && newInfo == Info(map[], map[], map[]) ==> Report() == Enabled(old(Keys()))
    {
      var stored := key;
      key, size, info := TextOf(remaining), |remaining|, newInfo;
      Update(stored);
      if TextOf(remaining) != "" {
        RewriteShows(remaining, newInfo, key, parse);
      }
    }

    /** delete_key */
    method DeleteKey(index: Option<int>) returns (r: Outcome)
      requires Settled() && ReadsArrays(parse)
      modifies this
      ensures r == Done <==> index.Some? && 0 <= index.value < old(size) && |old(Keys())| > 1
      ensures r == Refused ==> unchanged(this)
      ensures r == Done ==> Settled() && index.value < |old(Keys())|
      ensures r == Done ==> DeletesKey(parse, old(Value()), index.value, Value())
    {
      if index.None? || index.value < 0 || index.value >= size {
        return Refused;
      }
      var keyIndex, keys := index.value, Keys();
      KeysFit(key, parse);
      var remaining, newInfo := Without(keys, info, keyIndex);
      if |remaining| == 0 {
        return Refused;
      }
      Rewrite(remaining, newInfo);
      EmptyText(remaining);
      r := Done;
    }

    /** delete_disabled_keys */
    method DeleteDisabledKeys() returns (r: Outcome)
      requires ReadsArrays(parse)
      modifies this
      ensures r == Done <==> SomeAutoDisabled(old(Report()))
      ensures r == Refused ==> unchanged(this)
      ensures r == Done ==> Settled()
      ensures r == Done ==> DeletesDisabled(parse, old(Value()), Value())
    {
      var keys := Keys();
      var remaining, newInfo, deletedCount := WithoutAutoDisabled(keys, info);
      if deletedCount == 0 {
        return Refused;
      }
      Rewrite(remaining, newInfo);
      EmptyText(remaining);
      r := Done;
    }

    /** Append mode */
    method AppendKeys(request: string)
      requires ReadsArrays(parse)
      modifies this
      ensures Counted() && (old(Settled()) ==> Settled())
      ensures old(key) == "" ==> key == request
      ensures old(key) != "" ==> AppendsKeys(parse, old(Value()), request, Value())
    {
      var stored := key;
      if key != "" {
        var existing, lines := ExistingKeys(key, parse), Lines(request);
        var added := Unseen(Elements(FilterMap(existing, TrimSpace, "")), lines);
        AddedAreStorable(existing, request);
        key := TextOf(existing + added);
        AppendSaved(stored, info, added, key, parse);
        Update(stored);
      } else {
        key := request;
        Update(stored);
      }
    }

    /** The actions of ManageMultiKeys that change states only. */
    method ManageStates(a: Action)
      requires Settled() && a.ChangesStates()
      modifies this
      ensures Settled() && Takes(parse, old(Value()), a, Value())
    {
      match a {
        case Disable(i) => var r := DisableKey(i);
        case Enable(i) => var r := EnableKey(i);
        case EnableAll => EnableAllKeys();
        case DisableAll => var r := DisableAllKeys();
      }
    }

    /** The actions of ManageMultiKeys that delete keys, and the append mode of UpdateChannel. */
    method ManageKeys(a: Action)
      requires Settled() && ReadsArrays(parse) && !a.ChangesStates()
      modifies this
      ensures Settled() && Takes(parse, old(Value()), a, Value())
    {
      match a {
        case Delete(i) => var r := DeleteKey(i);
        case DeleteDisabled => var r := DeleteDisabledKeys();
        case Append(request) => AppendKeys(request);
      }
    }

    /** One administrative action. */
    method Manage(a: Action)
      requires Settled() && ReadsArrays(parse)
      modifies this
      ensures Settled() && Takes(parse, old(Value()), a, Value())
    {
      if a.ChangesStates() {
        ManageStates(a);
      } else {
        ManageKeys(a);
      }
    }

    /**
      Every sequence of actions goes through settled rows, each of which its action
      takes to the next as promised; the size is the number of keys unless the text
      is an empty array.
     */
    method ManageAll(actions: seq<Action>) returns (ghost h: History)
      requires Settled() && ReadsArrays(parse)
      modifies this
      ensures Recounts(h, parse, old(Value()), actions, Value())
      ensures Settled() && (size == |Keys()| <==> !IsEmptyArray(key, parse))
    {
      ghost var first, done := Value(), [];
      h := Initially(first);
      for n := 0 to |actions|
        invariant done == actions[..n] && Settled() && Recounts(h, parse, first, done, Value())
      {
        Manage(actions[n]);
        OneActionMore(h, parse, first, done, actions[n], Value());
        OneMore(actions, n);
        h, done := Then(h, actions[n], Value()), done + [actions[n]];
      }
      assert done == actions;
      KeysFit(key, parse);
    }
  }

  lemma JoinTwo(keys: seq<string>)
    requires |keys| == 2
    ensures TextOf(keys) == keys[0] + ['\n'] + keys[1]
  {
    assert |keys[1..]| == 1 && Join(keys[1..], '\n') == keys[1];
  }

  lemma BlankIsStorable(keys: seq<string>)
    requires |keys| == 3 && keys[0] != "" && keys[1] == "" && keys[2] != "" && '\n' !in keys[0] && '\n' !in keys[2]
    ensures Storable(keys, '\n')
  {
  }

  /** A blank line between two keys is a key of its own; deleting the key before it loses its place. */
  lemma BlankKeyVanishes(a: string, b: string, parse: Parser)
    requires a != "" && b != "" && '\n' !in a && '\n' !in b
    ensures Storable([a, "", b], '\n') && RemoveAt([a, "", b], 0) == ["", b] && !Survives(["", b], parse)
    ensures !IsArray(TextOf(["", b]), parse) ==> GetKeys(TextOf(["", b]), parse) == [b]
  {
    BlankIsStorable([a, "", b]);
    LeadingBreakIsLost(TextOf(["", b]), b) by {
      JoinTwo(["", b]);
      assert "" + ['\n'] + b == ['\n'] + b;
    }
  }

  lemma LeadingBreakIsLost(text: string, b: string)
    requires b != "" && '\n' !in b && text == ['\n'] + b
    ensures text != "" && Fields(text, '\n') == [b]
  {
    assert text[1..] == b;
    SplitWithoutSeparator(b, '\n');
  }

  /** An array key that spans several lines becomes as many keys when another key is deleted. */
  lemma MultiLineKeyFalls(lines: seq<string>, parse: Parser)
    requires |lines| > 1 && Storable(lines, '\n')
    ensures !Survives([TextOf(lines)], parse)
    ensures !IsArray(TextOf(lines), parse) ==> GetKeys(TextOf([TextOf(lines)]), parse) == lines
  {
    var key := TextOf(lines);
    EmptyText(lines);
    StorableReadsBack(lines, '\n');
    StoredListRoundTrips([key], '\n');
    assert TextOf([key]) == key;
  }

  /** The text is an array without elements. */
  predicate IsEmptyArray(key: string, parse: Parser) {
    key != "" && IsArray(key, parse) && parse(TrimSpace(key)).value == []
  }

  /** Never more keys than Update counts, and as many if and only if the text is not an empty array. */
  lemma KeysFit(key: string, parse: Parser)
    ensures |GetKeys(key, parse)| <= CountKeys(key, parse)
    ensures |GetKeys(key, parse)| == CountKeys(key, parse) <==> !IsEmptyArray(key, parse)
    ensures GetKeys(key, parse) != [] ==> !IsEmptyArray(key, parse)
  {
  }

  /** An empty array on one line has no key, and Update counts one. */
  lemma EmptyArrayCountsOne(key: string, parse: Parser)
    requires IsEmptyArray(key, parse) && '\n' !in key
    ensures GetKeys(key, parse) == [] && CountKeys(key, parse) == 1
  {
    assert Trim(key, '\n') == key;
    SplitWithoutSeparator(key, '\n');
  }
}
