/**
  Keeping a channel's model list in step with its upstream: detect what is
  pending, let an administrator apply, ignore or remove some of it, detect again.
*/
module ModelSync {
  import opened OrderedLists
  import opened Strings
  import opened ModelLists
  import opened Wrappers

  /** Whether a regular expression matches a name; an expression that does not compile matches nothing. */
  type Matcher = (string, string) -> bool

  const REGEX := "regex:"

  /** Whether one entry of the ignore list covers a name. */
  predicate IgnoredBy(entry: string, name: string, matches: Matcher) {
    if HasPrefix(entry, REGEX) then matches(TrimSpace(entry[|REGEX|..]), name) else entry == name
  }

  predicate Ignored(ignored: Names, name: string, matches: Matcher) {
    exists entry | entry in ignored :: IgnoredBy(entry, name, matches)
  }

  /** What does not change while a channel is being synchronised. */
  datatype Context = Context(upstream: Names, mapping: map<string, string>, matches: Matcher)

  /** The names pending addition: upstream, not covered by a local model or a redirect target, not ignored. */
  function PendingAdd(local: Names, ignored: Names, cx: Context): Names {
    var up := Normalize(cx.upstream);
    var covered := Elements(Normalize(local)) + cx.mapping.Values;
    var ign := Normalize(ignored);
    Normalize(Keep(up, set name | name in up && name !in covered && !Ignored(ign, name, cx.matches)))
  }

  /** The names pending removal: local, not a redirect source, not upstream. */
  function PendingRemove(local: Names, cx: Context): Names {
    var loc := Normalize(local);
    Normalize(Keep(loc, Elements(loc) - cx.mapping.Keys - Elements(Normalize(cx.upstream))))
  }

  // ---- Applying a selection ------------------------------------------------

  /** What the administrator ticked, as received. */
  datatype Selection = Selection(add: Names, ignore: Names, remove: Names)

  /** The part of a channel that synchronisation reads and writes; the model list is stored as one comma-joined string. */
  datatype Record = Record(models: string, detected: Names, removed: Names, ignored: Names)

  function GetModels(models: string): Names {
    Fields(models, ',')
  }

  function Detect(r: Record, cx: Context): Record {
    r.(detected := PendingAdd(GetModels(r.models), r.ignored, cx), removed := PendingRemove(GetModels(r.models), cx))
  }

  function Added(r: Record, s: Selection): Names {
    Intersect(s.add, Normalize(r.detected))
  }

  function NewlyIgnored(r: Record, s: Selection): Names {
    Intersect(s.ignore, Normalize(r.detected))
  }

  function Removed(r: Record, s: Selection): Names {
    Subtract(Intersect(s.remove, Normalize(r.removed)), Added(r, s))
  }

  function NextModels(r: Record, s: Selection): Names {
    ApplySelected(Normalize(GetModels(r.models)), Added(r, s), Removed(r, s))
  }

  function NextIgnored(r: Record, s: Selection): Names {
    var merged := Merge(r.ignored, NewlyIgnored(r, s));
    if |Added(r, s)| > 0 then Subtract(merged, Added(r, s)) else merged
  }

  /** Whether a selection changes the model list. */
  predicate Changes(r: Record, s: Selection) {
    Normalize(GetModels(r.models)) != NextModels(r, s)
  }

  /** applyChannelUpstreamModelUpdates, as a value */
  function Apply(r: Record, s: Selection): Record {
    Record(
      if Changes(r, s) then Join(NextModels(r, s), ',') else r.models,
      Subtract(Normalize(r.detected), Added(r, s) + NewlyIgnored(r, s)),
      Subtract(Normalize(r.removed), Removed(r, s)),
      NextIgnored(r, s))
  }

  // ---- Detecting again -----------------------------------------------------

  predicate Plain(names: Names) {
    forall name | name in names :: !HasPrefix(name, REGEX)
  }

  predicate NoComma(names: Names) {
    forall name | name in names :: ',' !in name
  }

  lemma PendingAddMembers(local: Names, ignored: Names, cx: Context)
    ensures Normal(PendingAdd(local, ignored, cx))
    ensures forall name :: name in PendingAdd(local, ignored, cx) <==>
              && name in Normalize(cx.upstream) && name !in Normalize(local) && name !in cx.mapping.Values
              && !Ignored(Normalize(ignored), name, cx.matches)
    ensures PendingAdd(local, ignored, cx) == Keep(Normalize(cx.upstream), Elements(PendingAdd(local, ignored, cx)))
  {
    var up := Normalize(cx.upstream);
    var covered := Elements(Normalize(local)) + cx.mapping.Values;
    var keep := set name | name in up && name !in covered && !Ignored(Normalize(ignored), name, cx.matches);
    KeepIsNormal(up, keep);
    NormalizeNormal(Keep(up, keep));
    KeepSame(up, keep, Elements(Keep(up, keep)));
  }

  lemma PendingRemoveMembers(local: Names, cx: Context)
    ensures Normal(PendingRemove(local, cx))
    ensures forall name :: name in PendingRemove(local, cx) <==>
              name in Normalize(local) && name !in cx.mapping.Keys && name !in Normalize(cx.upstream)
    ensures PendingRemove(local, cx) == Keep(Normalize(local), Elements(PendingRemove(local, cx)))
  {
    var loc := Normalize(local);
    var keep := Elements(loc) - cx.mapping.Keys - Elements(Normalize(cx.upstream));
    KeepIsNormal(loc, keep);
    NormalizeNormal(Keep(loc, keep));
    KeepSame(loc, keep, Elements(Keep(loc, keep)));
  }

  /** What a selection picks from the pending lists. */
  lemma SelectionMembers(r: Record, s: Selection)
    requires Normal(r.detected) && Normal(r.removed)
    requires forall name | name in r.removed :: name !in r.detected
    ensures Normal(Added(r, s)) && Normal(NewlyIgnored(r, s)) && Normal(Removed(r, s))
    ensures forall name :: name in Added(r, s) <==> name in Normalize(s.add) && name in r.detected
    ensures forall name :: name in NewlyIgnored(r, s) <==> name in Normalize(s.ignore) && name in r.detected
    ensures forall name :: name in Removed(r, s) <==> name in Normalize(s.remove) && name in r.removed
  {
    NormalizeNormal(r.detected);
    NormalizeNormal(r.removed);
    IntersectIsNormal(s.add, r.detected);
    IntersectIsNormal(s.ignore, r.detected);
    IntersectIsNormal(s.remove, r.removed);
    NormalizeNormal(Added(r, s));
    NormalizeNormal(Intersect(s.remove, r.removed));
    SubtractIsNormal(Intersect(s.remove, r.removed), Added(r, s));
  }

  /** No name read back from a stored model list contains a comma. */
  lemma StoredNamesHaveNoComma(models: string)
    ensures NoComma(Normalize(GetModels(models)))
  {
    if models != "" {
      SplitPartsHaveNoSeparator(Trim(models, ','), ',');
    }
    NormalizeChars(GetModels(models), ',');
  }

  /** What names become when they are stored in one comma-joined string and read back. */
  function Stored(names: Names): (r: Names)
    ensures Normal(r)
  {
    Normalize(AllParts(names, ','))
  }

  lemma StoredReadsBack(names: Names)
    ensures Normalize(GetModels(Join(names, ','))) == Stored(names)
  {
    NormalizeStored(names, ',');
  }

  lemma StoredHasNoComma(names: Names)
    ensures NoComma(Stored(names))
  {
    StoredReadsBack(names);
    StoredNamesHaveNoComma(Join(names, ','));
  }

  /** A normal list without commas survives being stored. */
  lemma StoredIsSame(names: Names)
    requires Normal(names) && NoComma(names)
    ensures Stored(names) == names
  {
    forall i | 0 <= i < |names| ensures ',' !in names[i] {
      assert names[i] in names;
    }
    AllPartsWithoutSeparator(names, ',');
    NormalizeNormal(names);
  }

  lemma StoredModelsReadBack(names: Names)
    requires Normal(names) && NoComma(names)
    ensures Normalize(GetModels(Join(names, ','))) == names
  {
    StoredReadsBack(names);
    StoredIsSame(names);
  }

  /** Names stored after a normal list without commas. */
  lemma StoredAfter(kept: Names, added: Names)
    requires Normal(kept) && NoComma(kept)
    ensures Stored(kept + added) == Union(kept, Stored(added))
  {
    forall i | 0 <= i < |kept| ensures ',' !in kept[i] {
      assert kept[i] in kept;
    }
    AllPartsConcat(kept, added, ',');
    AllPartsWithoutSeparator(kept, ',');
    NormalizeConcat(kept, AllParts(added, ','));
  }

  lemma NextIgnoredMembers(r: Record, s: Selection)
    requires Normal(Added(r, s)) && Normal(NewlyIgnored(r, s))
    ensures Normal(NextIgnored(r, s))
    ensures forall name :: name in NextIgnored(r, s) <==>
              (name in Normalize(r.ignored) || name in NewlyIgnored(r, s)) && name !in Added(r, s)
  {
    var merged := Merge(r.ignored, NewlyIgnored(r, s));
    NormalizeNormal(NewlyIgnored(r, s));
    NormalizeNormal(Added(r, s));
    MergeIsNormal(r.ignored, NewlyIgnored(r, s));
    NormalizeNormal(merged);
    SubtractIsNormal(merged, Added(r, s));
  }

  lemma IgnoredByEntry(ignored: Names, entry: string, name: string, matches: Matcher)
    requires entry in ignored && IgnoredBy(entry, name, matches)
    ensures Ignored(ignored, name, matches)
  {
  }

  /** A list put together from two lists without some entries, each of the latter plain and not `name`. */
  lemma IgnoredByParts(next: Names, old': Names, chosen: Names, dropped: Names, name: string, matches: Matcher)
    requires forall entry :: entry in next <==> (entry in old' || entry in chosen) && entry !in dropped
    requires Plain(chosen) && Plain(dropped) && name !in dropped
    ensures Ignored(next, name, matches) <==> Ignored(old', name, matches) || name in chosen
  {
    if Ignored(next, name, matches) {
      var entry :| entry in next && IgnoredBy(entry, name, matches);
      if entry in old' {
        IgnoredByEntry(old', entry, name, matches);
      }
    }
    if Ignored(old', name, matches) {
      var entry :| entry in old' && IgnoredBy(entry, name, matches);
      IgnoredByEntry(next, entry, name, matches);
    }
    if name in chosen {
      IgnoredByEntry(next, name, name, matches);
    }
  }

  /** With plain names, the new ignore list covers what the old one covered and what was chosen, no more. */
  lemma IgnoreListGrowsByChoice(r: Record, s: Selection, name: string, matches: Matcher)
    requires Normal(Added(r, s)) && Normal(NewlyIgnored(r, s))
    requires Plain(Added(r, s)) && Plain(NewlyIgnored(r, s)) && name !in Added(r, s)
    ensures Ignored(NextIgnored(r, s), name, matches)
            <==> Ignored(Normalize(r.ignored), name, matches) || name in NewlyIgnored(r, s)
  {
    NextIgnoredMembers(r, s);
    IgnoredByParts(NextIgnored(r, s), Normalize(r.ignored), NewlyIgnored(r, s), Added(r, s), name, matches);
  }

  /** A record whose pending lists are those just detected. */
  ghost predicate Fresh(r: Record, cx: Context) {
    r == Detect(r, cx)
  }

  lemma FreshPending(r: Record, cx: Context)
    requires Fresh(r, cx)
    ensures Normal(r.detected) && Normal(r.removed)
    ensures forall name | name in r.removed :: name !in r.detected
    ensures forall name :: name in r.detected <==>
              && name in Normalize(cx.upstream) && name !in Normalize(GetModels(r.models)) && name !in cx.mapping.Values
              && !Ignored(Normalize(r.ignored), name, cx.matches)
    ensures forall name :: name in r.removed <==>
              name in Normalize(GetModels(r.models)) && name !in cx.mapping.Keys && name !in Normalize(cx.upstream)
  {
    PendingAddMembers(GetModels(r.models), r.ignored, cx);
    PendingRemoveMembers(GetModels(r.models), cx);
  }

  lemma FreshSelection(r: Record, s: Selection, cx: Context)
    requires Fresh(r, cx)
    ensures Normal(r.detected) && Normal(r.removed)
    ensures Normal(Added(r, s)) && Normal(NewlyIgnored(r, s)) && Normal(Removed(r, s))
  {
    FreshPending(r, cx);
    SelectionMembers(r, s);
  }

  /** The local models that a selection does not remove. */
  function KeptModels(r: Record, s: Selection): Names {
    var local := Normalize(GetModels(r.models));
    Keep(local, Elements(local) - Elements(Removed(r, s)))
  }

  lemma AddedIsNew(r: Record, s: Selection, cx: Context)
    requires Fresh(r, cx)
    ensures forall name | name in Added(r, s) ::
              && name in r.detected && name !in Normalize(GetModels(r.models)) && name !in Removed(r, s)
              && name in Normalize(cx.upstream) && name !in cx.mapping.Values
  {
    FreshPending(r, cx);
    SelectionMembers(r, s);
  }

  /** As sequences: the local list after a selection is the old one without the removed names, then the added ones. */
  lemma NextModelsOrder(r: Record, s: Selection, cx: Context)
    requires Fresh(r, cx)
    ensures NextModels(r, s) == KeptModels(r, s) + Added(r, s)
  {
    var local, add, remove := Normalize(GetModels(r.models)), Added(r, s), Removed(r, s);
    FreshSelection(r, s, cx);
    AddedIsNew(r, s, cx);
    ApplySelectedInOrder(local, add, remove);
  }

  /** The local list read back after a selection: the kept models, then what the added ones are stored as. */
  lemma ModelsAgain(r: Record, s: Selection, cx: Context)
    requires Fresh(r, cx)
    ensures Normalize(GetModels(Apply(r, s).models)) == Union(KeptModels(r, s), Stored(Added(r, s)))
  {
    var local, kept, add := Normalize(GetModels(r.models)), KeptModels(r, s), Added(r, s);
    NextModelsOrder(r, s, cx);
    KeepIsNormal(local, Elements(local) - Elements(Removed(r, s)));
    StoredNamesHaveNoComma(r.models);
    StoredAfter(kept, add);
    if Changes(r, s) {
      StoredReadsBack(kept + add);
    } else {
      StoredIsSame(local);
    }
  }

  // ---- What is pending again

  /** An upstream name that neither a local model nor a redirect covers. */
  predicate Uncovered(r: Record, cx: Context, name: string) {
    name in Normalize(cx.upstream) && name !in Normalize(GetModels(r.models)) && name !in cx.mapping.Values
  }

  /** About an uncovered name, what is stored and what is ignored say what the administrator chose. */
  predicate AsChosen(r: Record, s: Selection, cx: Context, name: string) {
    Uncovered(r, cx, name) ==>
      (name in Stored(Added(r, s)) || Ignored(NextIgnored(r, s), name, cx.matches)
       <==> name in Added(r, s) || name in NewlyIgnored(r, s) || Ignored(Normalize(r.ignored), name, cx.matches))
  }

  ghost predicate AllAsChosen(r: Record, s: Selection, cx: Context) {
    forall name :: AsChosen(r, s, cx, name)
  }

  /** What an added name is stored as is no stranger: upstream, a redirect source, or a local model that stays. */
  predicate Known(r: Record, s: Selection, cx: Context, part: string) {
    part in Normalize(cx.upstream) || part in cx.mapping.Keys || part in KeptModels(r, s)
  }

  ghost predicate AllKnown(r: Record, s: Selection, cx: Context) {
    forall part | part in Stored(Added(r, s)) :: Known(r, s, cx, part)
  }

  /** The list that is detected as pending addition after a selection has been applied. */
  function DetectedAgain(r: Record, s: Selection, cx: Context): Names {
    PendingAdd(GetModels(Apply(r, s).models), Apply(r, s).ignored, cx)
  }

  /** An upstream name is local after a selection exactly when it was, or an added name is stored as it. */
  lemma LocalAgain(r: Record, s: Selection, cx: Context, name: string)
    requires Fresh(r, cx) && name in Normalize(cx.upstream)
    ensures name in Normalize(GetModels(Apply(r, s).models))
            <==> name in Normalize(GetModels(r.models)) || name in Stored(Added(r, s))
  {
    ModelsAgain(r, s, cx);
    FreshPending(r, cx);
    SelectionMembers(r, s);
  }

  /** Which names are pending again. */
  lemma PendingAgain(r: Record, s: Selection, cx: Context, name: string)
    requires Fresh(r, cx)
    ensures name in DetectedAgain(r, s, cx) <==>
              && Uncovered(r, cx, name) && name !in Stored(Added(r, s)) && !Ignored(NextIgnored(r, s), name, cx.matches)
  {
    FreshSelection(r, s, cx);
    NextIgnoredMembers(r, s);
    NormalizeNormal(NextIgnored(r, s));
    PendingAddMembers(GetModels(Apply(r, s).models), Apply(r, s).ignored, cx);
    if name in Normalize(cx.upstream) {
      LocalAgain(r, s, cx, name);
    }
  }

  /** The name is recorded as pending after the selection. */
  predicate Left(r: Record, s: Selection, name: string) {
    name in r.detected && name !in Added(r, s) && name !in NewlyIgnored(r, s)
  }

  lemma DetectedIsUncovered(r: Record, cx: Context, name: string)
    requires Fresh(r, cx)
    ensures name in r.detected <==> Uncovered(r, cx, name) && !Ignored(Normalize(r.ignored), name, cx.matches)
  {
    FreshPending(r, cx);
  }

  /** On one name: pending again as recorded exactly when it is as chosen. */
  lemma PendingAgainExactly(r: Record, s: Selection, cx: Context, name: string)
    requires Fresh(r, cx)
    ensures (name in DetectedAgain(r, s, cx) <==> Left(r, s, name)) <==> AsChosen(r, s, cx, name)
  {
    PendingAgain(r, s, cx, name);
    DetectedIsUncovered(r, cx, name);
  }

  lemma RemainingMembers(r: Record, s: Selection)
    requires Normal(r.detected) && Normal(r.removed)
    requires Normal(Added(r, s)) && Normal(NewlyIgnored(r, s)) && Normal(Removed(r, s))
    ensures Apply(r, s).detected
            == Keep(r.detected, Elements(r.detected) - Elements(Added(r, s)) - Elements(NewlyIgnored(r, s)))
    ensures Apply(r, s).removed == Keep(r.removed, Elements(r.removed) - Elements(Removed(r, s)))
  {
    var both := Added(r, s) + NewlyIgnored(r, s);
    NormalizeNormal(r.detected);
    NormalizeNormal(r.removed);
    NormalizeNormal(Removed(r, s));
    NamesOfConcat(Added(r, s), NewlyIgnored(r, s));
    assert Elements(r.detected) - Elements(Normalize(both))
        == Elements(r.detected) - Elements(Added(r, s)) - Elements(NewlyIgnored(r, s));
  }

  lemma PendingAddKeepsOrder(local: Names, ignored: Names, cx: Context)
    ensures PendingAdd(local, ignored, cx) == Keep(Normalize(cx.upstream), Elements(PendingAdd(local, ignored, cx)))
  {
    PendingAddMembers(local, ignored, cx);
  }

  /** The right names come in upstream order, so the list is the recorded one. */
  lemma RemainingInOrder(r: Record, s: Selection, up: Names, again: Names)
    requires Normal(r.detected) && Normal(r.removed)
    requires Normal(Added(r, s)) && Normal(NewlyIgnored(r, s)) && Normal(Removed(r, s))
    requires r.detected == Keep(up, Elements(r.detected)) && again == Keep(up, Elements(again))
    requires forall name :: name in again <==> Left(r, s, name)
    ensures again == Apply(r, s).detected
  {
    RemainingMembers(r, s);
    KeepFromKept(up, r.detected, again, Elements(r.detected) - Elements(Added(r, s)) - Elements(NewlyIgnored(r, s)));
  }

  lemma RecordedMember(r: Record, s: Selection, cx: Context, name: string)
    requires Fresh(r, cx)
    ensures name in Apply(r, s).detected <==> Left(r, s, name)
  {
    FreshSelection(r, s, cx);
    RemainingMembers(r, s);
    KeptWithout(r.detected, Added(r, s), NewlyIgnored(r, s), name);
  }

  lemma RightNamesInOrder(r: Record, s: Selection, cx: Context)
    requires Fresh(r, cx) && forall name :: name in DetectedAgain(r, s, cx) <==> Left(r, s, name)
    ensures DetectedAgain(r, s, cx) == Apply(r, s).detected
  {
    var up, again := Normalize(cx.upstream), DetectedAgain(r, s, cx);
    FreshSelection(r, s, cx);
    assert r.detected == Keep(up, Elements(r.detected)) by {
      PendingAddKeepsOrder(GetModels(r.models), r.ignored, cx);
    }
    assert again == Keep(up, Elements(again)) by {
      PendingAddKeepsOrder(GetModels(Apply(r, s).models), Apply(r, s).ignored, cx);
    }
    RemainingInOrder(r, s, up, again);
  }

  /** Detecting again yields the recorded additions, in order, exactly when every uncovered name is as chosen. */
  lemma AddCommutes(r: Record, s: Selection, cx: Context)
    requires Fresh(r, cx)
    ensures DetectedAgain(r, s, cx) == Apply(r, s).detected <==> AllAsChosen(r, s, cx)
  {
    if AllAsChosen(r, s, cx) {
      forall name ensures name in DetectedAgain(r, s, cx) <==> Left(r, s, name) {
        PendingAgainExactly(r, s, cx, name);
      }
      RightNamesInOrder(r, s, cx);
    }
    if DetectedAgain(r, s, cx) == Apply(r, s).detected {
      forall name ensures AsChosen(r, s, cx, name) {
        RecordedMember(r, s, cx, name);
        PendingAgainExactly(r, s, cx, name);
      }
    }
  }

  /** The names that detection does not remove, wherever they are. */
  function Staying(cx: Context): set<string> {
    cx.mapping.Keys + Elements(Normalize(cx.upstream))
  }

  lemma PendingRemoveIs(local: Names, cx: Context)
    ensures PendingRemove(local, cx) == Keep(Normalize(local), Elements(Normalize(local)) - Staying(cx))
  {
    var loc := Normalize(local);
    assert Elements(loc) - cx.mapping.Keys - Elements(Normalize(cx.upstream)) == Elements(loc) - Staying(cx);
    KeepIsNormal(loc, Elements(loc) - Staying(cx));
    NormalizeNormal(Keep(loc, Elements(loc) - Staying(cx)));
  }

  /** The recorded removals are what would be removed from the kept models. */
  lemma RecordedRemovals(r: Record, s: Selection, cx: Context)
    requires Fresh(r, cx)
    ensures Apply(r, s).removed == Keep(KeptModels(r, s), Elements(KeptModels(r, s)) - Staying(cx))
  {
    FreshSelection(r, s, cx);
    RemainingMembers(r, s);
    PendingRemoveIs(GetModels(r.models), cx);
    KeepSwap(Normalize(GetModels(r.models)), Staying(cx), Elements(Removed(r, s)));
  }

  /** What the added names are stored as, other than kept models. */
  function NewParts(r: Record, s: Selection): Names {
    Keep(Stored(Added(r, s)), Elements(Stored(Added(r, s))) - Elements(KeptModels(r, s)))
  }

  /** Detecting again yields the recorded removals, and then the strangers among what added names are stored as. */
  lemma RemovedAgain(r: Record, s: Selection, cx: Context)
    requires Fresh(r, cx)
    ensures PendingRemove(GetModels(Apply(r, s).models), cx)
            == Apply(r, s).removed + Keep(NewParts(r, s), Elements(NewParts(r, s)) - Staying(cx))
  {
    var kept, parts := KeptModels(r, s), NewParts(r, s);
    ModelsAgain(r, s, cx);
    PendingRemoveIs(GetModels(Apply(r, s).models), cx);
    RecordedRemovals(r, s, cx);
    RemovedFromBoth(kept, parts, Staying(cx));
  }

  lemma RemovedFromBoth(kept: Names, parts: Names, staying: set<string>)
    ensures Keep(kept + parts, Elements(kept + parts) - staying)
            == Keep(kept, Elements(kept) - staying) + Keep(parts, Elements(parts) - staying)
  {
    var all := Elements(kept + parts) - staying;
    KeepConcat(kept, parts, all);
    KeepSame(kept, all, Elements(kept) - staying);
    KeepSame(parts, all, Elements(parts) - staying);
  }

  lemma AllKnownExactly(r: Record, s: Selection, cx: Context)
    ensures AllKnown(r, s, cx) <==> forall part | part in NewParts(r, s) :: part in Staying(cx)
  {
    forall part ensures part in NewParts(r, s) <==> part in Stored(Added(r, s)) && part !in KeptModels(r, s) {
    }
  }

  /** Detecting again yields the recorded removals exactly when everything the added names are stored as is known. */
  lemma RemoveCommutes(r: Record, s: Selection, cx: Context)
    requires Fresh(r, cx)
    ensures PendingRemove(GetModels(Apply(r, s).models), cx) == Apply(r, s).removed <==> AllKnown(r, s, cx)
  {
    RemovedAgain(r, s, cx);
    AllKnownExactly(r, s, cx);
    KeepEmptyExactly(NewParts(r, s), Elements(NewParts(r, s)) - Staying(cx));
  }

  /**
    Detect and apply commute.  After any selection has been applied to freshly
    detected lists, detecting again against the same upstream and mapping finds
    exactly the recorded remaining lists, in order, if and only if every uncovered
    name is stored and ignored as chosen, and no added name is stored as a
    stranger.
   */
  lemma DetectAfterApply(r: Record, s: Selection, cx: Context)
    requires Fresh(r, cx)
    ensures Fresh(Apply(r, s), cx) <==> AllAsChosen(r, s, cx) && AllKnown(r, s, cx)
  {
    AddCommutes(r, s, cx);
    RemoveCommutes(r, s, cx);
  }

  // ---- Commas and expressions in names

  /** With plain names, every uncovered name is ignored as chosen. */
  lemma PlainIgnoresAsChosen(r: Record, s: Selection, cx: Context, name: string)
    requires Fresh(r, cx) && Plain(Added(r, s)) && Plain(NewlyIgnored(r, s)) && name !in Added(r, s)
    ensures Ignored(NextIgnored(r, s), name, cx.matches)
            <==> Ignored(Normalize(r.ignored), name, cx.matches) || name in NewlyIgnored(r, s)
  {
    FreshSelection(r, s, cx);
    IgnoreListGrowsByChoice(r, s, name, cx.matches);
  }

  /** Names without commas are stored as themselves, and all known. */
  lemma NoCommaIsKnown(r: Record, s: Selection, cx: Context)
    requires Fresh(r, cx) && NoComma(Added(r, s))
    ensures Stored(Added(r, s)) == Added(r, s) && AllKnown(r, s, cx)
  {
    FreshSelection(r, s, cx);
    StoredIsSame(Added(r, s));
    AddedIsNew(r, s, cx);
  }

  /** About an uncovered name that is not added, the new ignore list says what was chosen. */
  predicate IgnoredAsChosen(r: Record, s: Selection, cx: Context, name: string) {
    Uncovered(r, cx, name) && name !in Added(r, s) ==>
      (Ignored(NextIgnored(r, s), name, cx.matches)
       <==> Ignored(Normalize(r.ignored), name, cx.matches) || name in NewlyIgnored(r, s))
  }

  ghost predicate AllIgnoredAsChosen(r: Record, s: Selection, cx: Context) {
    forall name :: IgnoredAsChosen(r, s, cx, name)
  }

  /** The two conditions on one name agree when it is stored exactly if it is added. */
  lemma SameCondition(uncovered: bool, stored: bool, added: bool, ignored: bool, wasIgnored: bool, chosen: bool)
    requires stored == added
    ensures (uncovered ==> (stored || ignored <==> added || chosen || wasIgnored))
            <==> (uncovered && !added ==> (ignored <==> wasIgnored || chosen))
  {
  }

  lemma StoredAsIsAsChosen(r: Record, s: Selection, cx: Context, name: string)
    requires Stored(Added(r, s)) == Added(r, s)
    ensures AsChosen(r, s, cx, name) <==> IgnoredAsChosen(r, s, cx, name)
  {
    SameCondition(Uncovered(r, cx, name), name in Stored(Added(r, s)), name in Added(r, s),
                  Ignored(NextIgnored(r, s), name, cx.matches), Ignored(Normalize(r.ignored), name, cx.matches), name in NewlyIgnored(r, s));
  }

  lemma CommaFreeAsChosen(r: Record, s: Selection, cx: Context)
    requires Stored(Added(r, s)) == Added(r, s)
    ensures AllAsChosen(r, s, cx) <==> AllIgnoredAsChosen(r, s, cx)
  {
    forall name ensures AsChosen(r, s, cx, name) <==> IgnoredAsChosen(r, s, cx, name) {
      StoredAsIsAsChosen(r, s, cx, name);
    }
  }

  /** Without commas in added names, they commute if and only if the new ignore list says what was chosen. */
  lemma DetectAfterCommaFreeApply(r: Record, s: Selection, cx: Context)
    requires Fresh(r, cx) && NoComma(Added(r, s))
    ensures Fresh(Apply(r, s), cx) <==> AllIgnoredAsChosen(r, s, cx)
  {
    NoCommaIsKnown(r, s, cx);
    CommaFreeAsChosen(r, s, cx);
    DetectAfterApply(r, s, cx);
  }

  /** A name added with a comma in it is stored as others, and so is pending again unless the new ignore list covers it. */
  lemma CommaReappears(r: Record, s: Selection, cx: Context, name: string)
    requires Fresh(r, cx) && name in Added(r, s) && ',' in name
    ensures name in DetectedAgain(r, s, cx) <==> !Ignored(NextIgnored(r, s), name, cx.matches)
    ensures name !in Apply(r, s).detected
  {
    AddedIsNew(r, s, cx);
    StoredHasNoComma(Added(r, s));
    PendingAgain(r, s, cx, name);
    RecordedMember(r, s, cx, name);
  }

  /** With plain names the new ignore list covers no added name. */
  lemma AddedIsNotIgnored(r: Record, s: Selection, cx: Context, name: string)
    requires Fresh(r, cx) && Plain(NewlyIgnored(r, s)) && name in Added(r, s)
    ensures !Ignored(NextIgnored(r, s), name, cx.matches)
  {
    FreshPending(r, cx);
    SelectionMembers(r, s);
    NextIgnoredMembers(r, s);
    forall entry | entry in NextIgnored(r, s) ensures !IgnoredBy(entry, name, cx.matches) {
      assert entry in NewlyIgnored(r, s) ==> entry != name;
    }
  }

  /**
    When no selected name is written like an expression, they commute if and only
    if no added name contains a comma, whatever else the upstream lists.
   */
  lemma DetectAfterPlainApply(r: Record, s: Selection, cx: Context)
    requires Fresh(r, cx) && Plain(Added(r, s)) && Plain(NewlyIgnored(r, s))
    ensures Fresh(Apply(r, s), cx) <==> NoComma(Added(r, s))
  {
    if NoComma(Added(r, s)) {
      DetectAfterCommaFreeApply(r, s, cx);
      forall name ensures IgnoredAsChosen(r, s, cx, name) {
        if name !in Added(r, s) {
          PlainIgnoresAsChosen(r, s, cx, name);
        }
      }
    } else {
      var name :| name in Added(r, s) && ',' in name;
      AddedIsNotIgnored(r, s, cx, name);
      CommaReappears(r, s, cx, name);
    }
  }

  /** The selection adds nothing and ignores the one name. */
  ghost predicate IgnoresOnly(r: Record, s: Selection, name: string) {
    && Added(r, s) == [] && NewlyIgnored(r, s) == [name]
    && forall entry :: entry in NextIgnored(r, s) <==> entry in Normalize(r.ignored) || entry == name
  }

  /** Ignoring one detected name adds nothing and extends the ignore list by that name. */
  lemma IgnoringOne(r: Record, s: Selection, cx: Context, name: string)
    requires Fresh(r, cx) && name in r.detected && s == Selection([], [name], [])
    ensures IgnoresOnly(r, s, name)
  {
    FreshPending(r, cx);
    assert IsName(name);
    NormalizeNormal(s.ignore);
    NormalizeNormal(s.add);
    NormalizeNormal(r.detected);
    KeepAll(s.ignore, Elements(r.detected));
    NextIgnoredMembers(r, s);
  }

  /** If `other` is detected, the expression that `name` spells matches it exactly when it is `name`. */
  predicate MatchesAsName(r: Record, cx: Context, name: string, other: string)
    requires HasPrefix(name, REGEX)
  {
    other in r.detected ==> (cx.matches(TrimSpace(name[|REGEX|..]), other) <==> other == name)
  }

  /** The expression that the name of a detected model spells matches that model and no other detected one. */
  ghost predicate MatchesOnlyItself(r: Record, cx: Context, name: string)
    requires HasPrefix(name, REGEX)
  {
    forall other :: MatchesAsName(r, cx, name, other)
  }

  lemma OneMoreEntry(next: Names, old': Names, entry: string, name: string, matches: Matcher)
    requires forall e :: e in next <==> e in old' || e == entry
    ensures Ignored(next, name, matches) <==> Ignored(old', name, matches) || IgnoredBy(entry, name, matches)
  {
    if Ignored(old', name, matches) {
      var e :| e in old' && IgnoredBy(e, name, matches);
      IgnoredByEntry(next, e, name, matches);
    }
    if IgnoredBy(entry, name, matches) {
      IgnoredByEntry(next, entry, name, matches);
    }
  }

  lemma OneEntryAsChosen(next: Names, old': Names, entry: string, name: string, matches: Matcher)
    requires HasPrefix(entry, REGEX) && forall e :: e in next <==> e in old' || e == entry
    ensures (Ignored(next, name, matches) <==> Ignored(old', name, matches) || name == entry)
            <==> (!Ignored(old', name, matches) ==> (matches(TrimSpace(entry[|REGEX|..]), name) <==> name == entry))
  {
    OneMoreEntry(next, old', entry, name, matches);
  }

  lemma IgnoringOneAsChosen(r: Record, s: Selection, cx: Context, name: string, other: string)
    requires Fresh(r, cx) && HasPrefix(name, REGEX) && IgnoresOnly(r, s, name) && Stored(Added(r, s)) == []
    ensures AsChosen(r, s, cx, other) <==> MatchesAsName(r, cx, name, other)
  {
    DetectedIsUncovered(r, cx, other);
    OneEntryAsChosen(NextIgnored(r, s), Normalize(r.ignored), name, other, cx.matches);
  }

  lemma RegexAsChosen(r: Record, s: Selection, cx: Context, name: string)
    requires Fresh(r, cx) && HasPrefix(name, REGEX) && IgnoresOnly(r, s, name) && Stored(Added(r, s)) == []
    ensures AllAsChosen(r, s, cx) <==> MatchesOnlyItself(r, cx, name)
  {
    forall other ensures AsChosen(r, s, cx, other) <==> MatchesAsName(r, cx, name, other) {
      IgnoringOneAsChosen(r, s, cx, name, other);
    }
  }

  /** A detected model called "regex:..." can be ignored alone if and only if the expression it spells matches it and nothing else that is pending. */
  lemma RegexNameIgnoredExactly(r: Record, cx: Context, name: string)
    requires Fresh(r, cx) && name in r.detected && HasPrefix(name, REGEX)
    ensures Fresh(Apply(r, Selection([], [name], [])), cx) <==> MatchesOnlyItself(r, cx, name)
  {
    var s := Selection([], [name], []);
    IgnoringOne(r, s, cx, name);
    NoCommaIsKnown(r, s, cx);
    RegexAsChosen(r, s, cx, name);
    DetectAfterApply(r, s, cx);
  }

  /** In particular, a name that its own expression does not match cannot be ignored. */
  lemma RegexNameCannotBeIgnored(r: Record, cx: Context, name: string)
    requires Fresh(r, cx) && name in r.detected && HasPrefix(name, REGEX)
    requires !cx.matches(TrimSpace(name[|REGEX|..]), name)
    ensures !Fresh(Apply(r, Selection([], [name], [])), cx)
  {
    assert !MatchesAsName(r, cx, name, name);
    RegexNameIgnoredExactly(r, cx, name);
  }

  /** Selecting everything that is pending. */
  function Everything(r: Record): Selection {
    Selection(r.detected, [], r.removed)
  }

  /** Applying everything leaves nothing recorded as pending. */
  lemma ApplyEverything(r: Record, cx: Context)
    requires Fresh(r, cx)
    ensures Apply(r, Everything(r)).detected == [] && Apply(r, Everything(r)).removed == []
    ensures Added(r, Everything(r)) == r.detected && NewlyIgnored(r, Everything(r)) == []
  {
    var s := Everything(r);
    FreshPending(r, cx);
    NormalizeNormal(r.detected);
    NormalizeNormal(r.removed);
    NormalizeNormal(s.ignore);
    KeepAll(r.detected, Elements(r.detected));
    SelectionMembers(r, s);
    RemainingMembers(r, s);
    KeepNone(r.detected, Elements(r.detected) - Elements(Added(r, s)) - Elements(NewlyIgnored(r, s)));
    KeepNone(r.removed, Elements(r.removed) - Elements(Removed(r, s)));
  }

  /** Nothing is found when a record is checked. */
  predicate NothingFound(r: Record, cx: Context) {
    PendingAdd(GetModels(r.models), r.ignored, cx) == [] && PendingRemove(GetModels(r.models), cx) == []
  }

  /**
    After everything has been applied, detecting again finds nothing, if and only
    if every uncovered name is as chosen and no added name is stored as a stranger;
    with plain names, if and only if no added name contains a comma.
   */
  lemma NothingFoundAfterEverything(r: Record, cx: Context)
    requires Fresh(r, cx)
    ensures NothingFound(Apply(r, Everything(r)), cx)
            <==> AllAsChosen(r, Everything(r), cx) && AllKnown(r, Everything(r), cx)
    ensures Plain(r.detected) ==> (NothingFound(Apply(r, Everything(r)), cx) <==> NoComma(r.detected))
  {
    var s := Everything(r);
    ApplyEverything(r, cx);
    assert NothingFound(Apply(r, s), cx) <==> Fresh(Apply(r, s), cx);
    DetectAfterApply(r, s, cx);
    if Plain(r.detected) {
      DetectAfterPlainApply(r, s, cx);
    }
  }

  // ---- Automatic synchronisation -------------------------------------------

  /** The background check with automatic synchronisation on and additions pending. */
  function AutoSync(r: Record, cx: Context): Record {
    var origin := Normalize(GetModels(r.models));
    var merged := Merge(origin, PendingAdd(GetModels(r.models), r.ignored, cx));
    r.(models := if |merged| > |origin| then Join(merged, ',') else r.models,
       detected := [],
       removed := PendingRemove(GetModels(r.models), cx))
  }

  /** What one check makes of a channel, given whether it may apply additions by itself. */
  function Checked(r: Record, cx: Context, auto: bool): Record {
    if auto && PendingAdd(GetModels(r.models), r.ignored, cx) != [] then AutoSync(r, cx) else Detect(r, cx)
  }

  function AutoAdded(r: Record, cx: Context, auto: bool): nat {
    if auto then |PendingAdd(GetModels(r.models), r.ignored, cx)| else 0
  }

  /** The merged list is longer by exactly the pending names. */
  lemma AutoSyncAddsAll(r: Record, cx: Context)
    ensures var origin := Normalize(GetModels(r.models));
            var pending := PendingAdd(GetModels(r.models), r.ignored, cx);
            Merge(origin, pending) == origin + pending
  {
    var origin := Normalize(GetModels(r.models));
    var pending := PendingAdd(GetModels(r.models), r.ignored, cx);
    PendingAddMembers(GetModels(r.models), r.ignored, cx);
    NormalizeNormal(origin);
    NormalizeNormal(pending);
    KeepAll(pending, Elements(pending) - Elements(origin));
  }

  lemma LocalAfterAutoSync(r: Record, cx: Context)
    requires PendingAdd(GetModels(r.models), r.ignored, cx) != []
    requires NoComma(PendingAdd(GetModels(r.models), r.ignored, cx))
    ensures Normalize(GetModels(AutoSync(r, cx).models))
            == Normalize(GetModels(r.models)) + PendingAdd(GetModels(r.models), r.ignored, cx)
  {
    var origin := Normalize(GetModels(r.models));
    var pending := PendingAdd(GetModels(r.models), r.ignored, cx);
    AutoSyncAddsAll(r, cx);
    MergeIsNormal(origin, pending);
    StoredNamesHaveNoComma(r.models);
    StoredModelsReadBack(origin + pending);
  }

  lemma AutoSyncNothingToAdd(r: Record, cx: Context, next: Names)
    requires Normalize(next) == Normalize(GetModels(r.models)) + PendingAdd(GetModels(r.models), r.ignored, cx)
    ensures PendingAdd(next, r.ignored, cx) == []
  {
    PendingAddMembers(GetModels(r.models), r.ignored, cx);
    PendingAddMembers(next, r.ignored, cx);
    KeepNone(Normalize(cx.upstream), Elements(PendingAdd(next, r.ignored, cx)));
  }

  lemma AutoSyncSameToRemove(r: Record, cx: Context, next: Names)
    requires Normalize(next) == Normalize(GetModels(r.models)) + PendingAdd(GetModels(r.models), r.ignored, cx)
    ensures PendingRemove(next, cx) == PendingRemove(GetModels(r.models), cx)
  {
    var origin := Normalize(GetModels(r.models));
    var pending := PendingAdd(GetModels(r.models), r.ignored, cx);
    assert forall name | name in pending :: name in Normalize(cx.upstream) by {
      PendingAddMembers(GetModels(r.models), r.ignored, cx);
    }
    PendingRemoveMembers(GetModels(r.models), cx);
    PendingRemoveMembers(next, cx);
    KeepConcat(origin, pending, Elements(PendingRemove(next, cx)));
    KeepNone(pending, Elements(PendingRemove(next, cx)));
    KeepSame(origin, Elements(PendingRemove(next, cx)), Elements(PendingRemove(GetModels(r.models), cx)));
  }

  /**
    After automatic synchronisation, detecting again finds nothing to add and the
    same names to remove, if and only if no pending name contains a comma.
   */
  lemma AutoSyncSettles(r: Record, cx: Context)
    requires PendingAdd(GetModels(r.models), r.ignored, cx) != []
    ensures Fresh(AutoSync(r, cx), cx) <==> NoComma(PendingAdd(GetModels(r.models), r.ignored, cx))
  {
    var pending := PendingAdd(GetModels(r.models), r.ignored, cx);
    if NoComma(pending) {
      LocalAfterAutoSync(r, cx);
      AutoSyncNothingToAdd(r, cx, GetModels(AutoSync(r, cx).models));
      AutoSyncSameToRemove(r, cx, GetModels(AutoSync(r, cx).models));
    } else {
      var name :| name in pending && ',' in name;
      StoredNamesHaveNoComma(AutoSync(r, cx).models);
      PendingAddMembers(GetModels(r.models), r.ignored, cx);
      PendingAddMembers(GetModels(AutoSync(r, cx).models), r.ignored, cx);
      assert name in PendingAdd(GetModels(AutoSync(r, cx).models), r.ignored, cx);
    }
  }

  lemma CheckedAuto(r: Record, cx: Context, origin: Names, pending: Names, merged: Names)
    requires origin == Normalize(GetModels(r.models)) && pending == PendingAdd(GetModels(r.models), r.ignored, cx)
    requires merged == Merge(origin, pending) && pending != []
    ensures |merged| == |origin| + |pending|
    ensures Checked(r, cx, true) == Record(Join(merged, ','), [], PendingRemove(GetModels(r.models), cx), r.ignored)
  {
    AutoSyncAddsAll(r, cx);
  }

  /** The comparison of checkAndPersistChannelUpstreamModelUpdates, on the record. */
  method CompareRecord(r: Record, cx: Context, auto: bool) returns (r': Record, autoAdded: nat)
    ensures r' == Checked(r, cx, auto)
    ensures autoAdded == AutoAdded(r, cx, auto)
  {
    var pendingAdd := PendingAdd(GetModels(r.models), r.ignored, cx);
    var pendingRemove := PendingRemove(GetModels(r.models), cx);
    if auto && |pendingAdd| > 0 {
      var originModels := Normalize(GetModels(r.models));
      var mergedModels := MergeModelNames(originModels, pendingAdd);
      CheckedAuto(r, cx, originModels, pendingAdd, mergedModels);
      r', autoAdded := r.(detected := [], removed := pendingRemove), 0;
      if |mergedModels| > |originModels| {
        r' := r'.(models := Join(mergedModels, ','));
        autoAdded := |mergedModels| - |originModels|;
      }
    } else {
      r', autoAdded := r.(detected := pendingAdd, removed := pendingRemove), 0;
    }
  }

  // ---- The channel ---------------------------------------------------------

  datatype SyncError = FetchFailed | SaveFailed | AbilitiesFailed

  /** What an administrator is told about an applied selection. */
  datatype Outcome = Outcome(added: Names, removed: Names, remaining: Names, remainingRemove: Names, modelsChanged: bool)

  class Channel {
    var record: Record
    var lastCheckTime: int
    var autoSyncEnabled: bool

    /** The selection applied to the channel in memory. */
    method Select(s: Selection) returns (outcome: Outcome)
      modifies this`record
      ensures record == Apply(old(record), s)
      ensures outcome == Outcome(Added(old(record), s), Removed(old(record), s), record.detected, record.removed, Changes(old(record), s))
    {
      var before := record;
      var pendingAdd := Normalize(before.detected);
      var pendingRemove := Normalize(before.removed);
      var addModels := Intersect(s.add, pendingAdd);
      var ignoreModels := Intersect(s.ignore, pendingAdd);
      var removeModels := Intersect(s.remove, pendingRemove);
      removeModels := Subtract(removeModels, addModels);
      assert addModels == Added(before, s) && ignoreModels == NewlyIgnored(before, s) && removeModels == Removed(before, s);

      var originModels := Normalize(GetModels(before.models));
      var nextModels := ApplySelected(originModels, addModels, removeModels);
      assert nextModels == NextModels(before, s);
      var modelsChanged := originModels != nextModels;
      if modelsChanged {
        record := record.(models := Join(nextModels, ','));
      }

      var ignored := MergeModelNames(before.ignored, ignoreModels);
      if |addModels| > 0 {
        ignored := Subtract(ignored, addModels);
      }
      assert ignored == NextIgnored(before, s);
      record := record.(ignored := ignored, detected := Subtract(pendingAdd, addModels + ignoreModels),
                        removed := Subtract(pendingRemove, removeModels));
      outcome := Outcome(addModels, removeModels, record.detected, record.removed, modelsChanged);
    }

    /** `saved` and `abilitiesUpdated` say whether the two database writes succeed. */
    method ApplyUpdates(s: Selection, now: int, saved: bool, abilitiesUpdated: bool)
      returns (outcome: Outcome, err: Option<SyncError>)
      modifies this
      ensures record == Apply(old(record), s)
      ensures lastCheckTime == now && autoSyncEnabled == old(autoSyncEnabled)
      ensures err == if !saved then Some(SaveFailed)
                     else if Changes(old(record), s) && !abilitiesUpdated then Some(AbilitiesFailed)
                     else None
      ensures !saved ==> outcome == Outcome([], [], [], [], false)
      ensures saved ==>
                outcome == Outcome(Added(old(record), s), Removed(old(record), s), record.detected, record.removed, Changes(old(record), s))
    {
      outcome := Select(s);
      lastCheckTime := now;
      if !saved {
        return Outcome([], [], [], [], false), Some(SaveFailed);
      }
      err := if outcome.modelsChanged && !abilitiesUpdated then Some(AbilitiesFailed) else None;
    }

    /** The fetched upstream list compared with the channel in memory. */
    method Compare(cx: Context, allowAutoApply: bool) returns (autoAdded: nat)
      modifies this`record
      ensures record == Checked(old(record), cx, allowAutoApply && autoSyncEnabled)
      ensures autoAdded == AutoAdded(old(record), cx, allowAutoApply && autoSyncEnabled)
    {
      record, autoAdded := CompareRecord(record, cx, allowAutoApply && autoSyncEnabled);
    }

    /** Checked too recently. */
    predicate TooSoon(force: bool, now: int, minInterval: int)
      reads this
    {
      !force && lastCheckTime > 0 && now - lastCheckTime < minInterval
    }

    /** The periodic check; `upstream` is None when fetching the upstream list fails. */
    method CheckAndPersist(upstream: Option<Names>, mapping: map<string, string>, matches: Matcher,
                           force: bool, allowAutoApply: bool, now: int, minInterval: int, saved: bool, abilitiesUpdated: bool)
      returns (modelsChanged: bool, autoAdded: nat, err: Option<SyncError>)
      modifies this
      ensures autoSyncEnabled == old(autoSyncEnabled)
      ensures lastCheckTime ==
                if !force && 0 < old(lastCheckTime) && now < old(lastCheckTime) + minInterval then old(lastCheckTime) else now
      ensures !force && 0 < old(lastCheckTime) && now < old(lastCheckTime) + minInterval <==> old(TooSoon(force, now, minInterval))
      ensures old(TooSoon(force, now, minInterval)) || upstream.None? ==> record == old(record) && autoAdded == 0
      ensures !old(TooSoon(force, now, minInterval)) && upstream.Some? ==>
                var cx := Context(upstream.value, mapping, matches);
                && record == Checked(old(record), cx, allowAutoApply && autoSyncEnabled)
                && autoAdded == AutoAdded(old(record), cx, allowAutoApply && autoSyncEnabled)
      ensures modelsChanged == (autoAdded > 0 && saved)
      ensures err == if old(TooSoon(force, now, minInterval)) then None
                     else if !saved then Some(SaveFailed)
                     else if upstream.None? then Some(FetchFailed)
                     else if autoAdded > 0 && !abilitiesUpdated then Some(AbilitiesFailed)
                     else None
    {
      if !force {
        if lastCheckTime > 0 && now - lastCheckTime < minInterval {
          return false, 0, None;
        }
      }
      lastCheckTime := now;
      if upstream.None? {
        return false, 0, Some(if saved then FetchFailed else SaveFailed);
      }
      autoAdded := Compare(Context(upstream.value, mapping, matches), allowAutoApply);
      if !saved {
        return false, autoAdded, Some(SaveFailed);
      }
      modelsChanged := autoAdded > 0;
      err := if modelsChanged && !abilitiesUpdated then Some(AbilitiesFailed) else None;
    }
  }
}
