/**
  Comparing the gateway's prices with what upstream channels report: which
  (model, field) pairs are shown to the administrator, with which values.
*/
module RatioSync {
  import opened Wrappers

  /** A JSON value of a price table; numbers have been normalised. */
  datatype Value = Null | Number(n: real) | Text(t: string)

  const SAME := Text("same")
  const EPSILON := 0.000000001

  predicate NearlyEqual(a: real, b: real) {
    if a > b then a - b < EPSILON else b - a < EPSILON
  }

  /** valuesEqual */
  predicate ValuesEqual(a: Value, b: Value): (r: bool)
    ensures a.Number? && b.Number? ==> (r <==> -0.000000001 < a.n - b.n < 0.000000001)
    ensures !(a.Number? && b.Number?) ==> (r <==> a == b)
  {
    if a.Number? && b.Number? then NearlyEqual(a.n, b.n) else a == b
  }

  /** field name to model name to value */
  type Table = map<string, map<string, Value>>

  datatype Channel = Channel(name: string, data: Table)

  datatype Item = Item(current: Value, upstreams: map<string, Value>, confidence: map<string, bool>)

  type Key = (string, string)

  function Stated(t: Table, k: Key): Option<Value> {
    if k.1 in t && k.0 in t[k.1] then Some(t[k.1][k.0]) else None
  }

  function Current(local: Table, k: Key): Value {
    match Stated(local, k)
    case None => Null
    case Some(v) => v
  }

  /** What an item records for one channel. */
  function Shown(current: Value, stated: Option<Value>): (r: Value)
    ensures stated.None? ==> r == if current == Null then Text("same") else Null
    ensures stated.Some? ==> r == if ValuesEqual(current, stated.value) then Text("same") else stated.value
  {
    match stated
    case None => if current == Null then SAME else Null
    case Some(v) => if ValuesEqual(current, v) then SAME else v
  }

  /** A value of its own: neither missing nor the local one. */
  predicate Real(v: Value) {
    v != Null && v != SAME
  }

  predicate Near(v: Value, x: real) {
    v.Number? && -0.000000001 < v.n - x < 0.000000001
  }

  /** The price is unreliable when the model ratio is 37.5 and the completion ratio 1. */
  predicate Trusted(data: Table, m: string): (r: bool)
    ensures !r <==>
              && "model_ratio" in data && m in data["model_ratio"] && Near(data["model_ratio"][m], 37.5)
              && "completion_ratio" in data && m in data["completion_ratio"] && Near(data["completion_ratio"][m], 1.0)
  {
    var ratio, completion := Stated(data, (m, "model_ratio")), Stated(data, (m, "completion_ratio"));
    !(ratio.Some? && completion.Some? && ratio.value.Number? && completion.value.Number?
      && NearlyEqual(ratio.value.n, 37.5) && NearlyEqual(completion.value.n, 1.0))
  }

  /** The data kept under each channel name: the last channel of that name. */
  function Latest(channels: seq<Channel>): map<string, Table> {
    if channels == [] then map[]
    else Latest(channels[..|channels| - 1])[channels[|channels| - 1].name := channels[|channels| - 1].data]
  }

  /** Every name belongs to some channel. */
  lemma {:induction false} LatestHasSource(channels: seq<Channel>, name: string) returns (i: nat)
    requires name in Latest(channels)
    ensures i < |channels| && channels[i].name == name && channels[i].data == Latest(channels)[name]
  {
    i := |channels| - 1;
    if channels[i].name != name {
      i := LatestHasSource(channels[..i], name);
    }
  }

  lemma {:induction false} LatestOfDistinct(channels: seq<Channel>, i: nat)
    requires i < |channels| && forall j, k | 0 <= j < k < |channels| :: channels[j].name != channels[k].name
    ensures channels[i].name in Latest(channels) && Latest(channels)[channels[i].name] == channels[i].data
  {
    if i < |channels| - 1 {
      LatestOfDistinct(channels[..|channels| - 1], i);
    }
  }

  /** What an item records, by channel name. */
  function RowOf(tables: map<string, Table>, current: Value, k: Key): map<string, Value> {
    map name | name in tables :: Shown(current, Stated(tables[name], k))
  }

  /** A stated value that is not the local one. */
  predicate Departs(current: Value, stated: Option<Value>) {
    stated.Some? && !ValuesEqual(current, stated.value)
  }

  predicate AnyStated(channels: seq<Channel>, k: Key) {
    exists i | 0 <= i < |channels| :: Stated(channels[i].data, k).Some?
  }

  predicate AnyDeparts(channels: seq<Channel>, current: Value, k: Key) {
    exists i | 0 <= i < |channels| :: Departs(current, Stated(channels[i].data, k))
  }

  lemma RowGrows(tables: map<string, Table>, name: string, data: Table, current: Value, k: Key)
    ensures RowOf(tables[name := data], current, k) == RowOf(tables, current, k)[name := Shown(current, Stated(data, k))]
  {
  }

  lemma OneMore(channels: seq<Channel>, n: nat, current: Value, k: Key)
    requires n < |channels|
    ensures AnyStated(channels[..n + 1], k) == (AnyStated(channels[..n], k) || Stated(channels[n].data, k).Some?)
    ensures AnyDeparts(channels[..n + 1], current, k)
            == (AnyDeparts(channels[..n], current, k) || Departs(current, Stated(channels[n].data, k)))
    ensures RowOf(Latest(channels[..n + 1]), current, k)
            == RowOf(Latest(channels[..n]), current, k)[channels[n].name := Shown(current, Stated(channels[n].data, k))]
  {
    var before, after := channels[..n], channels[..n + 1];
    assert after[n] == channels[n] && after[..n] == before;
    forall i | 0 <= i < n ensures after[i] == before[i] {
    }
    RowGrows(Latest(before), channels[n].name, channels[n].data, current, k);
  }

  datatype Input = Input(local: Table, channels: seq<Channel>, fields: seq<string>) {

    /** Some channel states a value that is not the local one. */
    predicate Differs(k: Key) {
      AnyDeparts(channels, Current(local, k), k)
    }

    /** The first pass keeps this pair. */
    predicate Included(k: Key) {
      k.1 in fields && if Current(local, k) != Null then Differs(k) else AnyStated(channels, k)
    }

    function Row(k: Key): map<string, Value> {
      RowOf(Latest(channels), Current(local, k), k)
    }

    function Confidence(m: string): map<string, bool> {
      map name | name in Latest(channels) :: Trusted(Latest(channels)[name], m)
    }

    /** The channel shows a value of its own somewhere. */
    ghost predicate HasDiff(name: string) {
      name in Latest(channels) && exists k: Key :: Included(k) && Real(Row(k)[name])
    }

    /** The pair is reported. */
    ghost predicate Present(k: Key) {
      Included(k) && exists name :: HasDiff(name) && Row(k)[name] != SAME
    }

    ghost predicate IsItem(k: Key, item: Item) {
      && item.current == Current(local, k)
      && item.upstreams.Keys == item.confidence.Keys
      && (forall name :: name in item.upstreams <==> HasDiff(name))
      && (forall name | name in item.upstreams ::
            name in Latest(channels) && item.upstreams[name] == Row(k)[name] && item.confidence[name] == Confidence(k.0)[name])
    }

    /** The result, pair by pair. */
    ghost predicate IsResult(r: map<Key, Item>) {
      && (forall k :: k in r <==> Present(k))
      && (forall k | k in r :: IsItem(k, r[k]))
    }
  }

  // ---- The passes

  method AllModels(local: Table, channels: seq<Channel>, fields: seq<string>) returns (models: set<string>)
    ensures forall f, m | f in fields && f in local && m in local[f] :: m in models
    ensures forall i, f, m | 0 <= i < |channels| && f in fields && f in channels[i].data && m in channels[i].data[f] :: m in models
  {
    models := ModelsOf(local, fields);
    for i := 0 to |channels|
      invariant forall f, m | f in fields && f in local && m in local[f] :: m in models
      invariant forall j, f, m | 0 <= j < i && f in fields && f in channels[j].data && m in channels[j].data[f] :: m in models
    {
      var more := ModelsOf(channels[i].data, fields);
      models := models + more;
    }
  }

  method ModelsOf(t: Table, fields: seq<string>) returns (models: set<string>)
    ensures forall f, m | f in fields && f in t && m in t[f] :: m in models
  {
    models := {};
    for i := 0 to |fields|
      invariant forall j, m | 0 <= j < i && fields[j] in t && m in t[fields[j]] :: m in models
    {
      if fields[i] in t {
        models := models + t[fields[i]].Keys;
      }
    }
  }

  /** One pair against one channel. */
  method CompareChannel(current: Value, stated: Option<Value>) returns (upstream: Value, hasDifference: bool)
    ensures upstream == Shown(current, stated)
    ensures current != Null ==> hasDifference == Departs(current, stated)
    ensures current == Null ==> hasDifference == Real(upstream)
  {
    upstream, hasDifference := Null, false;
    if stated.Some? {
      upstream := stated.value;
      if current != Null && !ValuesEqual(current, upstream) {
        hasDifference := true;
      } else if ValuesEqual(current, upstream) {
        upstream := SAME;
      }
    }
    if upstream == Null && current == Null {
      upstream := SAME;
    }
    if current == Null && upstream != Null && upstream != SAME {
      hasDifference := true;
    }
  }

  /** One pair against every channel. */
  method Compare(cx: Input, k: Key) returns (upstreams: map<string, Value>, included: bool)
    ensures upstreams == cx.Row(k)
    ensures k.1 in cx.fields ==> included == cx.Included(k)
  {
    var current, channels := Current(cx.local, k), cx.channels;
    var hasUpstream, hasDifference := false, false;
    upstreams := map[];
    for i := 0 to |channels|
      invariant upstreams == RowOf(Latest(channels[..i]), current, k)
      invariant hasUpstream == AnyStated(channels[..i], k)
      invariant current != Null ==> hasDifference == AnyDeparts(channels[..i], current, k)
    {
      OneMore(channels, i, current, k);
      var stated := Stated(channels[i].data, k);
      var upstream, differs := CompareChannel(current, stated);
      hasUpstream := hasUpstream || stated.Some?;
      hasDifference := hasDifference || differs;
      upstreams := upstreams[channels[i].name := upstream];
    }
    assert channels[..|channels|] == channels;
    included := if current != Null then hasDifference else hasUpstream;
  }

  /** The confidence of one channel in every model. */
  method ConfidenceOf(data: Table, models: set<string>) returns (r: map<string, bool>)
    ensures forall m | m in models :: m in r && r[m] == Trusted(data, m)
  {
    r := map[];
    var todo := models;
    var priced := "model_ratio" in data && data["model_ratio"] != map[] && "completion_ratio" in data && data["completion_ratio"] != map[];
    while todo != {}
      invariant todo <= models
      invariant forall m | m in models - todo :: m in r && r[m] == Trusted(data, m)
      decreases |todo|
    {
      var m := AnyOf(todo);
      todo := todo - {m};
      r := r[m := if priced then Trusted(data, m) else true];
    }
  }

  method Confidences(channels: seq<Channel>, models: set<string>) returns (r: map<string, map<string, bool>>)
    ensures r.Keys == Latest(channels).Keys
    ensures forall name, m | name in r && m in models :: m in r[name] && r[name][m] == Trusted(Latest(channels)[name], m)
  {
    r := map[];
    for i := 0 to |channels|
      invariant r.Keys == Latest(channels[..i]).Keys
      invariant forall name, m | name in r && m in models :: m in r[name] && r[name][m] == Trusted(Latest(channels[..i])[name], m)
    {
      assert channels[..i + 1][..i] == channels[..i];
      var c := ConfidenceOf(channels[i].data, models);
      r := r[channels[i].name := c];
    }
    assert channels[..|channels|] == channels;
  }

  /** Every included pair, before pruning. */
  ghost predicate IsFirstPass(cx: Input, d: map<Key, Item>) {
    forall k :: (k in d <==> cx.Included(k))
                && (k in d ==> d[k] == Item(Current(cx.local, k), cx.Row(k), cx.Confidence(k.0)))
  }

  method FirstPassOf(cx: Input, m: string, confidence: map<string, bool>) returns (d: map<Key, Item>)
    requires confidence == cx.Confidence(m)
    ensures forall k :: (k in d <==> k.0 == m && cx.Included(k))
                        && (k in d ==> d[k] == Item(Current(cx.local, k), cx.Row(k), confidence))
  {
    d := map[];
    for i := 0 to |cx.fields|
      invariant forall k :: (k in d <==> k.0 == m && k.1 in cx.fields[..i] && cx.Included(k))
                            && (k in d ==> d[k] == Item(Current(cx.local, k), cx.Row(k), confidence))
    {
      var k := (m, cx.fields[i]);
      var upstreams, included := Compare(cx, k);
      if included {
        d := d[k := Item(Current(cx.local, k), upstreams, confidence)];
      }
    }
  }

  /** The confidence of every channel in one model. */
  method Column(confidences: map<string, map<string, bool>>, m: string, ghost tables: map<string, Table>) returns (r: map<string, bool>)
    requires confidences.Keys == tables.Keys
    requires forall name | name in confidences :: m in confidences[name] && confidences[name][m] == Trusted(tables[name], m)
    ensures r == map name | name in tables :: Trusted(tables[name], m)
  {
    r := map name | name in confidences :: confidences[name][m];
  }

  method FirstPass(cx: Input, models: set<string>, confidences: map<string, map<string, bool>>) returns (d: map<Key, Item>)
    requires forall k | cx.Included(k) :: k.0 in models
    requires confidences.Keys == Latest(cx.channels).Keys
    requires forall name, m | name in confidences && m in models ::
               m in confidences[name] && confidences[name][m] == Trusted(Latest(cx.channels)[name], m)
    ensures IsFirstPass(cx, d)
  {
    d := map[];
    var todo := models;
    while todo != {}
      invariant todo <= models
      invariant forall k :: (k in d <==> cx.Included(k) && k.0 !in todo)
                            && (k in d ==> d[k] == Item(Current(cx.local, k), cx.Row(k), cx.Confidence(k.0)))
      decreases |todo|
    {
      var m := AnyOf(todo);
      todo := todo - {m};
      var confidence := Column(confidences, m, Latest(cx.channels));
      var more := FirstPassOf(cx, m, confidence);
      d := d + more;
    }
  }

  /** The names with a value of their own in one item. */
  method OwnValues(upstreams: map<string, Value>) returns (names: set<string>)
    ensures forall name :: name in names <==> name in upstreams && Real(upstreams[name])
  {
    names := {};
    var todo := upstreams.Keys;
    while todo != {}
      invariant todo <= upstreams.Keys
      invariant forall name :: name in names <==> name in upstreams && name !in todo && Real(upstreams[name])
      decreases |todo|
    {
      var name := AnyOf(todo);
      todo := todo - {name};
      if upstreams[name] != Null && upstreams[name] != SAME {
        names := names + {name};
      }
    }
  }

  ghost predicate ShowsOwn(d: map<Key, Item>, name: string) {
    exists k :: k in d && name in d[k].upstreams && Real(d[k].upstreams[name])
  }

  method ChannelsWithDiff(d: map<Key, Item>) returns (names: set<string>)
    ensures forall name :: name in names <==> ShowsOwn(d, name)
  {
    names := {};
    var todo := d.Keys;
    while todo != {}
      invariant todo <= d.Keys
      invariant forall name :: name in names <==>
                  exists k :: k in d && k !in todo && name in d[k].upstreams && Real(d[k].upstreams[name])
      decreases |todo|
    {
      var k := AnyOf(todo);
      todo := todo - {k};
      var own := OwnValues(d[k].upstreams);
      names := names + own;
    }
  }

  function Restrict<V>(m: map<string, V>, names: set<string>): map<string, V> {
    map name | name in m && name in names :: m[name]
  }

  /** Deletes the other channels from an item. */
  method Narrow<V>(m: map<string, V>, names: set<string>) returns (r: map<string, V>)
    ensures r == Restrict(m, names)
  {
    r := m;
    var todo := m.Keys;
    while todo != {}
      invariant todo <= r.Keys <= m.Keys
      invariant forall name | name in m :: name in r <==> name in todo || name in names
      invariant forall name | name in r :: r[name] == m[name]
      decreases |todo|
    {
      var name := AnyOf(todo);
      todo := todo - {name};
      if name !in names {
        r := r - {name};
      }
    }
    assert r.Keys == Restrict(m, names).Keys;
  }

  predicate AllSame(upstreams: map<string, Value>) {
    forall name | name in upstreams :: upstreams[name] == SAME
  }

  function Pruned(item: Item, names: set<string>): Item {
    Item(item.current, Restrict(item.upstreams, names), Restrict(item.confidence, names))
  }

  method Prune(d: map<Key, Item>, names: set<string>) returns (r: map<Key, Item>)
    ensures forall k :: k in r <==> k in d && !AllSame(Restrict(d[k].upstreams, names))
    ensures forall k | k in r :: r[k] == Pruned(d[k], names)
  {
    r := d;
    var todo := d.Keys;
    while todo != {}
      invariant todo <= d.Keys
      invariant forall k :: k in r <==> k in d && (k in todo || !AllSame(Restrict(d[k].upstreams, names)))
      invariant forall k | k in r :: r[k] == if k in todo then d[k] else Pruned(d[k], names)
      decreases |todo|
    {
      var k := AnyOf(todo);
      todo := todo - {k};
      var upstreams := Narrow(d[k].upstreams, names);
      var confidence := Narrow(d[k].confidence, names);
      if AllSame(upstreams) {
        r := r - {k};
      } else {
        r := r[k := Item(d[k].current, upstreams, confidence)];
      }
    }
  }

  /**
    buildDifferences: an item for exactly the reported pairs, listing exactly
    the channels that differ somewhere, with their values and confidence.
   */
  method BuildDifferences(cx: Input) returns (r: map<Key, Item>)
    ensures cx.IsResult(r)
  {
    var models := AllModels(cx.local, cx.channels, cx.fields);
    IncludedIsListed(cx, models);
    var confidences := Confidences(cx.channels, models);
    var d := FirstPass(cx, models, confidences);
    var names := ChannelsWithDiff(d);
    r := Prune(d, names);
    PrunedIsResult(cx, d, names, r);
  }

  lemma IncludedIsListed(cx: Input, models: set<string>)
    requires forall f, m | f in cx.fields && f in cx.local && m in cx.local[f] :: m in models
    requires forall i, f, m | 0 <= i < |cx.channels| && f in cx.fields && f in cx.channels[i].data && m in cx.channels[i].data[f] :: m in models
    ensures forall k | cx.Included(k) :: k.0 in models
  {
  }

  lemma OwnIsHasDiff(cx: Input, d: map<Key, Item>, name: string)
    requires IsFirstPass(cx, d)
    ensures ShowsOwn(d, name) <==> cx.HasDiff(name)
  {
  }

  lemma PrunedIsResult(cx: Input, d: map<Key, Item>, names: set<string>, r: map<Key, Item>)
    requires IsFirstPass(cx, d)
    requires forall name :: name in names <==> ShowsOwn(d, name)
    requires forall k :: k in r <==> k in d && !AllSame(Restrict(d[k].upstreams, names))
    requires forall k | k in r :: r[k] == Pruned(d[k], names)
    ensures cx.IsResult(r)
  {
    forall name ensures name in names <==> cx.HasDiff(name) {
      OwnIsHasDiff(cx, d, name);
    }
    forall k ensures k in r <==> cx.Present(k) {
      if cx.Included(k) {
        PresentIsKept(cx, k, names);
      }
    }
    forall k | k in r ensures cx.IsItem(k, r[k]) {
      PrunedIsItem(cx, k, names);
    }
  }

  lemma PresentIsKept(cx: Input, k: Key, names: set<string>)
    requires forall name :: name in names <==> cx.HasDiff(name)
    requires cx.Included(k)
    ensures cx.Present(k) <==> !AllSame(Restrict(cx.Row(k), names))
  {
    var shown := Restrict(cx.Row(k), names);
    if cx.Present(k) {
      var name :| cx.HasDiff(name) && cx.Row(k)[name] != SAME;
      assert name in shown;
    }
  }

  lemma PrunedIsItem(cx: Input, k: Key, names: set<string>)
    requires forall name :: name in names <==> cx.HasDiff(name)
    ensures cx.IsItem(k, Pruned(Item(Current(cx.local, k), cx.Row(k), cx.Confidence(k.0)), names))
  {
  }

  // ---- What is reported

  /**
    A pair is reported exactly when some channel states another value than the
    local one and a channel that differs anywhere does not agree on this pair.
   */
  lemma ReportedExactly(cx: Input, k: Key)
    ensures cx.Present(k) <==>
              k.1 in cx.fields && cx.Differs(k) && exists name :: cx.HasDiff(name) && cx.Row(k)[name] != SAME
  {
    if cx.Present(k) && Current(cx.local, k) == Null {
      var name :| cx.HasDiff(name) && cx.Row(k)[name] != SAME;
      var i := LatestHasSource(cx.channels, name);
      assert Departs(Null, Stated(cx.channels[i].data, k));
    }
  }

  /** No channel states null, or the text that marks agreement. */
  ghost predicate Clean(channels: seq<Channel>) {
    forall i, k: Key | 0 <= i < |channels| && Stated(channels[i].data, k).Some? :: Real(Stated(channels[i].data, k).value)
  }

  predicate NamesDiffer(channels: seq<Channel>) {
    forall j, k | 0 <= j < k < |channels| :: channels[j].name != channels[k].name
  }

  /** A channel states a price that is not the local one: not a number within a billionth of it, or not the same text. */
  predicate StatesOther(cx: Input, k: Key, i: nat)
    requires i < |cx.channels|
  {
    var data, local := cx.channels[i].data, cx.local;
    && k.1 in data && k.0 in data[k.1]
    && var v := data[k.1][k.0];
       if k.1 in local && k.0 in local[k.1] then
         if v.Number? && local[k.1][k.0].Number? then !Near(v, local[k.1][k.0].n) else v != local[k.1][k.0]
       else v != Null
  }

  lemma SomebodyStatesOther(cx: Input, k: Key)
    ensures cx.Differs(k) <==> exists i | 0 <= i < |cx.channels| :: StatesOther(cx, k, i)
  {
    forall i | 0 <= i < |cx.channels|
      ensures Departs(Current(cx.local, k), Stated(cx.channels[i].data, k)) <==> StatesOther(cx, k, i)
    {
    }
  }

  /** With clean data, a pair is reported exactly when some upstream value differs beyond the tolerance. */
  lemma CleanReport(cx: Input, k: Key)
    requires Clean(cx.channels) && NamesDiffer(cx.channels)
    ensures cx.Present(k) <==> k.1 in cx.fields && exists i | 0 <= i < |cx.channels| :: StatesOther(cx, k, i)
  {
    SomebodyStatesOther(cx, k);
    ReportedExactly(cx, k);
    if k.1 in cx.fields && cx.Differs(k) {
      var i :| 0 <= i < |cx.channels| && Departs(Current(cx.local, k), Stated(cx.channels[i].data, k));
      LatestOfDistinct(cx.channels, i);
      var name := cx.channels[i].name;
      assert Real(cx.Row(k)[name]);
      assert cx.Included(k) && cx.HasDiff(name);
    }
  }

  /** A price that an upstream sets to null differs, and is not reported. */
  lemma NullIsNotReported(name: string, k: Key, price: real)
    ensures var cx := Input(map[k.1 := map[k.0 := Number(price)]], [Channel(name, map[k.1 := map[k.0 := Null]])], [k.1]);
            cx.Differs(k) && !cx.Present(k)
  {
    var cx := Input(map[k.1 := map[k.0 := Number(price)]], [Channel(name, map[k.1 := map[k.0 := Null]])], [k.1]);
    assert Departs(Number(price), Stated(cx.channels[0].data, k));
    forall k' | cx.Included(k') ensures k' == k {
    }
    assert Latest(cx.channels) == map[name := cx.channels[0].data] by {
      assert cx.channels[..0] == [];
    }
    assert cx.Row(k)[name] == Null;
  }

  /** Whether an item offers a value of its own for this channel. */
  predicate Offers(r: map<Key, Item>, name: string, k: Key) {
    k in r && name in r[k].upstreams && Real(r[k].upstreams[name])
  }

  /** The local price after the administrator has taken over what a channel offers. */
  predicate TakenOver(local: Table, r: map<Key, Item>, name: string, k: Key, local': Table) {
    Current(local', k) == if Offers(r, name, k) then r[k].upstreams[name] else Current(local, k)
  }

  /** Takes over everything one channel offers. */
  method TakeOver(local: Table, r: map<Key, Item>, name: string) returns (local': Table)
    ensures forall k :: TakenOver(local, r, name, k, local')
  {
    local' := local;
    var todo := r.Keys;
    while todo != {}
      invariant todo <= r.Keys
      invariant forall k :: if k in todo then Current(local', k) == Current(local, k) else TakenOver(local, r, name, k, local')
      decreases |todo|
    {
      var k := AnyOf(todo);
      todo := todo - {k};
      if Offers(r, name, k) {
        local' := SetPrice(local', k, r[k].upstreams[name]);
      }
    }
  }

  method SetPrice(local: Table, k: Key, v: Value) returns (local': Table)
    ensures forall k' :: Current(local', k') == if k' == k then v else Current(local, k')
  {
    local' := local[k.1 := (if k.1 in local then local[k.1] else map[])[k.0 := v]];
  }

  /** After taking over what the only upstream offers, it has nothing left to offer: the next report is empty. */
  lemma TakingOverSettles(local: Table, c: Channel, fields: seq<string>, r: map<Key, Item>, local': Table)
    requires Input(local, [c], fields).IsResult(r)
    requires forall k :: TakenOver(local, r, c.name, k, local')
    ensures Input(local', [c], fields).IsResult(map[])
  {
    forall k ensures !Input(local', [c], fields).Present(k) {
      if name :| Input(local', [c], fields).HasDiff(name) {
        var k2 :| Input(local', [c], fields).Included(k2) && Real(Input(local', [c], fields).Row(k2)[name]);
        NothingLeft(local, c, fields, r, local', name, k2);
        assert false;
      }
    }
  }

  lemma NothingLeft(local: Table, c: Channel, fields: seq<string>, r: map<Key, Item>, local': Table, name: string, k: Key)
    requires Input(local, [c], fields).IsResult(r) && TakenOver(local, r, c.name, k, local')
    requires Input(local', [c], fields).Included(k) && name in Latest([c])
    ensures !Real(Input(local', [c], fields).Row(k)[name])
  {
    var cx := Input(local, [c], fields);
    var i := LatestHasSource([c], name);
    LatestOfDistinct([c], 0);
    var stated := Stated(c.data, k);
    if Departs(Current(local, k), stated) && Real(stated.value) {
      assert Departs(Current(local, k), Stated(cx.channels[0].data, k));
      assert cx.Included(k) && cx.Row(k)[name] == stated.value;
      assert cx.HasDiff(name) && cx.Present(k);
      assert cx.IsItem(k, r[k]);
      assert Current(local', k) == stated.value;
    }
  }
}
