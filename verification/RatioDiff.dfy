/**
 The pricing comparison of controller/ratio_sync.go: for every model and pricing
 field, the local value next to what each upstream channel says, built in one
 pass and then pruned of channels and items without a difference.
 */
module RatioDiff {

  /** A JSON scalar; Null is both an absent value and an explicit null. */
  datatype Value = Null | Num(x: real) | Str(s: string) | Bool(b: bool)

  const EPSILON: real := 0.000000001

  /** The marker that replaces an upstream value equal to the local one. */
  const SAME: Value := Str("same")

  const FIELDS: seq<string> := [
    "model_ratio", "completion_ratio", "cache_ratio", "create_cache_ratio", "image_ratio", "audio_ratio",
    "audio_completion_ratio", "model_price", "billing_mode", "billing_expr", "request_unit"]

  predicate NearlyEqual(a: real, b: real) {
    if a > b then a - b < EPSILON else b - a < EPSILON
  }

  predicate ValuesEqual(a: Value, b: Value) {
    if a.Num? && b.Num? then NearlyEqual(a.x, b.x) else a == b
  }

  /** Pricing data: field, then model, then value. */
  type Table = map<string, map<string, Value>>

  datatype Channel = Channel(name: string, data: Table)

  datatype Item = Item(current: Value, upstreams: map<string, Value>, confidence: map<string, bool>)

  type Differences = map<string, map<string, Item>>

  predicate Has(t: Table, f: string, m: string) {
    f in t && m in t[f]
  }

  function Lookup(t: Table, f: string, m: string): Value {
    if Has(t, f, m) then t[f][m] else Null
  }

  // ----- What the comparison means ---------------------------------------------

  /** The channel quotes a value for the model that is not the local one. */
  predicate Differs(local: Table, ch: Channel, f: string, m: string) {
    Has(ch.data, f, m) && !ValuesEqual(Lookup(local, f, m), Lookup(ch.data, f, m))
  }

  /** A difference an administrator can see: the quoted value is neither null nor the marker itself. */
  predicate Visible(local: Table, ch: Channel, f: string, m: string) {
    Differs(local, ch, f, m) && Lookup(ch.data, f, m) != Null && Lookup(ch.data, f, m) != SAME
  }

  /** What the item shows for the channel. */
  function Upstream(local: Table, ch: Channel, f: string, m: string): Value {
    if Has(ch.data, f, m) then
      if Differs(local, ch, f, m) then Lookup(ch.data, f, m) else SAME
    else if Lookup(local, f, m) == Null then SAME
    else Null
  }

  /** A channel quoting ratio 37.5 with completion ratio 1 returns the defaults of an unpriced model. */
  predicate Confidence(ch: Channel, m: string) {
    var ratios := if "model_ratio" in ch.data then ch.data["model_ratio"] else map[];
    var completions := if "completion_ratio" in ch.data then ch.data["completion_ratio"] else map[];
    !(m in ratios && m in completions && ratios[m].Num? && completions[m].Num?
      && NearlyEqual(ratios[m].x, 37.5) && NearlyEqual(completions[m].x, 1.0))
  }

  ghost predicate Real(local: Table, channels: seq<Channel>, f: string, m: string) {
    exists ch :: ch in channels && Visible(local, ch, f, m)
  }

  /** The channel has a visible difference in some model and field. */
  ghost predicate Active(local: Table, ch: Channel) {
    exists f, m :: f in FIELDS && Visible(local, ch, f, m)
  }

  /**
   An item kept without a visible difference: some channel quotes an explicit null, or the marker,
   against a local value, and some channel, the same or another, shows null here (it quotes null or
   nothing) and differs visibly in another item.
   */
  ghost predicate Phantom(local: Table, channels: seq<Channel>, f: string, m: string) {
    && !Real(local, channels, f, m)
    && Lookup(local, f, m) != Null
    && SomeDiffers(local, channels, f, m)
    && (exists ch :: ch in channels && Active(local, ch) && Lookup(ch.data, f, m) == Null)
  }

  ghost predicate DistinctNames(channels: seq<Channel>) {
    forall i, j :: 0 <= i < j < |channels| ==> channels[i].name != channels[j].name
  }

  // ----- First pass ------------------------------------------------------------

  function Names(channels: seq<Channel>): set<string> {
    set ch | ch in channels :: ch.name
  }

  ghost predicate SomeQuotes(channels: seq<Channel>, f: string, m: string) {
    exists ch :: ch in channels && Has(ch.data, f, m)
  }

  ghost predicate SomeDiffers(local: Table, channels: seq<Channel>, f: string, m: string) {
    exists ch :: ch in channels && Differs(local, ch, f, m)
  }

  /** First-pass inclusion: some channel differs or, without a local value, quotes anything at all. */
  ghost predicate Included(local: Table, channels: seq<Channel>, f: string, m: string) {
    if Lookup(local, f, m) == Null then SomeQuotes(channels, f, m) else SomeDiffers(local, channels, f, m)
  }

  /** The item's entry for the channel is the one the comparison defines. */
  ghost predicate EntryOf(local: Table, ch: Channel, f: string, m: string, item: Item) {
    && ch.name in item.upstreams && ch.name in item.confidence
    && item.upstreams[ch.name] == Upstream(local, ch, f, m)
    && item.confidence[ch.name] == Confidence(ch, m)
  }

  /** The item has such an entry for each of these channels, and no other. */
  ghost predicate Entries(local: Table, channels: seq<Channel>, f: string, m: string, item: Item) {
    && item.current == Lookup(local, f, m)
    && item.upstreams.Keys == Names(channels) && item.confidence.Keys == Names(channels)
    && forall i :: 0 <= i < |channels| ==> EntryOf(local, channels[i], f, m, item)
  }

  function WithEntry(local: Table, item: Item, ch: Channel, f: string, m: string): Item {
    item.(upstreams := item.upstreams[ch.name := Upstream(local, ch, f, m)],
          confidence := item.confidence[ch.name := Confidence(ch, m)])
  }

  lemma EntriesSnoc(local: Table, channels: seq<Channel>, ch: Channel, f: string, m: string, item: Item)
    requires Entries(local, channels, f, m, item) && ch.name !in Names(channels)
    ensures Entries(local, channels + [ch], f, m, WithEntry(local, item, ch, f, m))
  {
    var all := channels + [ch];
    NamesSnoc(channels, ch);
    forall i | 0 <= i < |all|
      ensures EntryOf(local, all[i], f, m, WithEntry(local, item, ch, f, m))
    {
      if i < |channels| {
        NamedIn(channels, i);
        assert EntryOf(local, channels[i], f, m, item);
        EntryKept(local, channels[i], ch, f, m, item);
      }
    }
    WithEntryNames(local, item, ch, f, m);
  }

  lemma WithEntryNames(local: Table, item: Item, ch: Channel, f: string, m: string)
    ensures WithEntry(local, item, ch, f, m).upstreams.Keys == item.upstreams.Keys + {ch.name}
    ensures WithEntry(local, item, ch, f, m).confidence.Keys == item.confidence.Keys + {ch.name}
  {
  }

  lemma NamedIn(channels: seq<Channel>, i: nat)
    requires i < |channels|
    ensures channels[i].name in Names(channels)
  {
    assert channels[i] in channels;
  }

  lemma NamesSnoc(channels: seq<Channel>, ch: Channel)
    ensures Names(channels + [ch]) == Names(channels) + {ch.name}
  {
    assert forall c :: c in channels + [ch] <==> c in channels || c == ch;
  }

  lemma EntryKept(local: Table, earlier: Channel, ch: Channel, f: string, m: string, item: Item)
    requires EntryOf(local, earlier, f, m, item) && earlier.name != ch.name
    ensures EntryOf(local, earlier, f, m, WithEntry(local, item, ch, f, m))
  {
  }

  lemma SomeSnoc(local: Table, channels: seq<Channel>, ch: Channel, f: string, m: string)
    ensures SomeQuotes(channels + [ch], f, m) <==> SomeQuotes(channels, f, m) || Has(ch.data, f, m)
    ensures SomeDiffers(local, channels + [ch], f, m)
            <==> SomeDiffers(local, channels, f, m) || Differs(local, ch, f, m)
  {
    assert ch in channels + [ch];
    assert forall c :: c in channels ==> c in channels + [ch];
  }

  lemma FreshName(channels: seq<Channel>, i: nat)
    requires DistinctNames(channels) && i < |channels|
    ensures channels[i].name !in Names(channels[..i])
  {
  }

  /** The body of the loop over channels. */
  method CompareChannel(localValue: Value, local: Table, ch: Channel, f: string, m: string)
    returns (upstreamValue: Value, quoted: bool, differs: bool)
    requires localValue == Lookup(local, f, m)
    ensures upstreamValue == Upstream(local, ch, f, m)
    ensures if f in ch.data && m in ch.data[f] then ShownQuote(local, ch, f, m, upstreamValue)
            else ShownGap(local, f, m, upstreamValue)
    ensures quoted == Has(ch.data, f, m)
    ensures localValue != Null ==> differs == Differs(local, ch, f, m)
  {
    upstreamValue := Null;
    quoted, differs := false, false;
    if Has(ch.data, f, m) {
      upstreamValue := ch.data[f][m];
      quoted := true;
      if localValue != Null && !ValuesEqual(localValue, upstreamValue) {
        differs := true;
      } else if ValuesEqual(localValue, upstreamValue) {
        upstreamValue := SAME;
      }
    }
    if upstreamValue == Null && localValue == Null {
      upstreamValue := SAME;
    }
    if localValue == Null && upstreamValue != Null && upstreamValue != SAME {
      differs := true;
    }
  }

  /** The loop over channels for one model and field. */
  method CompareOne(local: Table, channels: seq<Channel>, f: string, m: string)
    returns (shouldInclude: bool, item: Item)
    requires DistinctNames(channels)
    ensures shouldInclude <==> Included(local, channels, f, m)
    ensures Entries(local, channels, f, m, item)
  {
    var localValue := Lookup(local, f, m);
    item := Item(localValue, map[], map[]);
    var hasUpstreamValue, hasDifference := false, false;
    for i := 0 to |channels|
      invariant Entries(local, channels[..i], f, m, item)
      invariant hasUpstreamValue <==> SomeQuotes(channels[..i], f, m)
      invariant localValue != Null ==> (hasDifference <==> SomeDiffers(local, channels[..i], f, m))
    {
      var ch := channels[i];
      assert channels[..i + 1] == channels[..i] + [ch];
      var upstreamValue, quoted, differs := CompareChannel(localValue, local, ch, f, m);
      hasUpstreamValue := hasUpstreamValue || quoted;
      hasDifference := hasDifference || differs;
      SomeSnoc(local, channels[..i], ch, f, m);
      FreshName(channels, i);
      EntriesSnoc(local, channels[..i], ch, f, m, item);
      item := item.(upstreams := item.upstreams[ch.name := upstreamValue],
                    confidence := item.confidence[ch.name := Confidence(ch, m)]);
    }
    assert channels[..|channels|] == channels;
    shouldInclude := if localValue != Null then hasDifference else hasUpstreamValue;
  }

  predicate At(d: Differences, m: string, f: string) {
    m in d && f in d[m]
  }

  /** One model's items: one for every field with something to compare. */
  ghost predicate RowOf(local: Table, channels: seq<Channel>, m: string, row: map<string, Item>) {
    && (forall f :: f in row <==> f in FIELDS && Included(local, channels, f, m))
    && (forall f :: f in row ==> Entries(local, channels, f, m, row[f]))
  }

  function RowAt(d: Differences, m: string): map<string, Item> {
    if m in d then d[m] else map[]
  }

  /** All fields of one model. */
  method CompareModel(local: Table, channels: seq<Channel>, m: string) returns (row: map<string, Item>)
    requires DistinctNames(channels)
    ensures RowOf(local, channels, m, row)
  {
    row := map[];
    for i := 0 to |FIELDS|
      invariant forall f :: f in row <==> f in FIELDS[..i] && Included(local, channels, f, m)
      invariant forall f :: f in row ==> Entries(local, channels, f, m, row[f])
    {
      assert FIELDS[..i + 1] == FIELDS[..i] + [FIELDS[i]];
      var shouldInclude, item := CompareOne(local, channels, FIELDS[i], m);
      if shouldInclude {
        row := row[FIELDS[i] := item];
      }
    }
    assert FIELDS[..|FIELDS|] == FIELDS;
  }

  function ModelsIn(t: Table): set<string> {
    set f, m | f in FIELDS && f in t && m in t[f] :: m
  }

  /** Every model named locally or by a channel. */
  method CollectModels(local: Table, channels: seq<Channel>) returns (models: set<string>)
    ensures ModelsIn(local) <= models
    ensures forall ch :: ch in channels ==> ModelsIn(ch.data) <= models
  {
    models := ModelsIn(local);
    for i := 0 to |channels|
      invariant ModelsIn(local) <= models
      invariant forall ch :: ch in channels[..i] ==> ModelsIn(ch.data) <= models
    {
      assert channels[..i + 1] == channels[..i] + [channels[i]];
      models := models + ModelsIn(channels[i].data);
    }
    assert channels[..|channels|] == channels;
  }

  ghost predicate FirstPassOf(local: Table, channels: seq<Channel>, d: Differences) {
    forall m :: RowOf(local, channels, m, RowAt(d, m))
  }

  /** A model no channel mentions has nothing to compare. */
  lemma NothingToCompare(local: Table, channels: seq<Channel>, models: set<string>, m: string)
    requires (forall ch :: ch in channels ==> ModelsIn(ch.data) <= models) && m !in models
    ensures RowOf(local, channels, m, map[])
  {
    forall f, ch | f in FIELDS && ch in channels
      ensures !Has(ch.data, f, m)
    {
      assert m !in ModelsIn(ch.data);
    }
  }

  /** A finished row is entered unless it is empty; the other rows stay. */
  function Entered(d: Differences, m: string, row: map<string, Item>): Differences {
    if row.Keys != {} then d[m := row] else d
  }

  lemma EnteredRows(d: Differences, m: string, row: map<string, Item>, k: string)
    requires m !in d
    ensures RowAt(Entered(d, m, row), k) == if k == m then row else RowAt(d, k)
  {
  }

  /** All models. */
  method CompareModels(local: Table, channels: seq<Channel>, models: set<string>) returns (d: Differences)
    requires DistinctNames(channels)
    ensures d.Keys <= models && forall m :: m in models ==> RowOf(local, channels, m, RowAt(d, m))
  {
    var rest := models;
    d := map[];
    while rest != {}
      invariant rest <= models && d.Keys <= models - rest
      invariant forall k :: k in models && k !in rest ==> RowOf(local, channels, k, RowAt(d, k))
      decreases |rest|
    {
      var m :| m in rest;
      rest := rest - {m};
      var row := CompareModel(local, channels, m);
      forall k | k in models && k !in rest
        ensures RowOf(local, channels, k, RowAt(Entered(d, m, row), k))
      {
        EnteredRows(d, m, row, k);
      }
      d := Entered(d, m, row);
    }
  }

  method FirstPass(local: Table, channels: seq<Channel>) returns (d: Differences)
    requires DistinctNames(channels)
    ensures FirstPassOf(local, channels, d)
  {
    var models := CollectModels(local, channels);
    d := CompareModels(local, channels, models);
    forall m
      ensures RowOf(local, channels, m, RowAt(d, m))
    {
      if m !in models {
        NothingToCompare(local, channels, models, m);
      }
    }
  }

  // ----- Second pass: channels with a difference -------------------------------

  predicate Shows(v: Value) {
    v != Null && v != SAME
  }

  ghost predicate Flagged(d: Differences, name: string) {
    exists m, f :: At(d, m, f) && name in d[m][f].upstreams && Shows(d[m][f].upstreams[name])
  }

  method FlagChannels(d: Differences) returns (names: set<string>)
    ensures forall n :: n in names <==> Flagged(d, n)
  {
    names := {};
    var models := d.Keys;
    while models != {}
      invariant models <= d.Keys
      invariant forall n :: n in names <==>
                  exists m, f :: At(d, m, f) && m !in models && n in d[m][f].upstreams && Shows(d[m][f].upstreams[n])
      decreases |models|
    {
      var m :| m in models;
      var shown := set f, n | f in d[m] && n in d[m][f].upstreams && Shows(d[m][f].upstreams[n]) :: n;
      models := models - {m};
      names := names + shown;
    }
  }

  // ----- Third pass: pruning ---------------------------------------------------

  function Restrict(item: Item, names: set<string>): Item {
    Item(item.current,
         map n | n in item.upstreams && n in names :: item.upstreams[n],
         map n | n in item.confidence && n in names :: item.confidence[n])
  }

  /** After restriction something other than the marker is left to show. */
  predicate Survives(item: Item, names: set<string>) {
    exists n :: n in item.upstreams && n in names && item.upstreams[n] != SAME
  }

  method PruneRow(row: map<string, Item>, names: set<string>) returns (r: map<string, Item>)
    ensures forall f :: f in r <==> f in row && Survives(row[f], names)
    ensures forall f :: f in r ==> r[f] == Restrict(row[f], names)
  {
    r := map[];
    var fields := row.Keys;
    while fields != {}
      invariant fields <= row.Keys
      invariant forall f :: f in r <==> f in row && f !in fields && Survives(row[f], names)
      invariant forall f :: f in r ==> r[f] == Restrict(row[f], names)
      decreases |fields|
    {
      var f :| f in fields;
      fields := fields - {f};
      if Survives(row[f], names) {
        r := r[f := Restrict(row[f], names)];
      }
    }
  }

  method Prune(d: Differences, names: set<string>) returns (r: Differences)
    ensures forall m, f :: At(r, m, f) <==> At(d, m, f) && Survives(d[m][f], names)
    ensures forall m, f :: At(r, m, f) ==> At(d, m, f) && r[m][f] == Restrict(d[m][f], names)
    ensures forall m :: m in r ==> r[m] != map[]
  {
    r := map[];
    var models := d.Keys;
    while models != {}
      invariant models <= d.Keys
      invariant r.Keys <= d.Keys - models
      invariant forall m, f :: At(r, m, f) <==> At(d, m, f) && m !in models && Survives(d[m][f], names)
      invariant forall m, f :: At(r, m, f) ==> At(d, m, f) && r[m][f] == Restrict(d[m][f], names)
      invariant forall m :: m in r ==> r[m] != map[]
      decreases |models|
    {
      var m :| m in models;
      models := models - {m};
      var row := PruneRow(d[m], names);
      if row != map[] {
        r := r[m := row];
      }
    }
  }

  // ----- The whole comparison --------------------------------------------------

  lemma ItemFacts(local: Table, channels: seq<Channel>, d: Differences, m: string, f: string)
    requires FirstPassOf(local, channels, d)
    ensures At(d, m, f) <==> f in FIELDS && Included(local, channels, f, m)
    ensures At(d, m, f) ==> Entries(local, channels, f, m, d[m][f])
  {
    assert RowOf(local, channels, m, RowAt(d, m));
  }

  /** The flagged names are the names of the active channels. */
  lemma FlaggedIsActive(local: Table, channels: seq<Channel>, d: Differences, i: nat)
    requires FirstPassOf(local, channels, d) && i < |channels|
    ensures Flagged(d, channels[i].name) <==> Active(local, channels[i])
  {
    var ch := channels[i];
    if Active(local, ch) {
      var f, m :| f in FIELDS && Visible(local, ch, f, m);
      assert ch in channels && Has(ch.data, f, m);
      ItemFacts(local, channels, d, m, f);
    }
    if Flagged(d, ch.name) {
      var m, f :| At(d, m, f) && ch.name in d[m][f].upstreams && Shows(d[m][f].upstreams[ch.name]);
      ItemFacts(local, channels, d, m, f);
      assert Visible(local, ch, f, m);
    }
  }

  /** The names of exactly the active channels. */
  ghost predicate ActiveNames(local: Table, channels: seq<Channel>, names: set<string>) {
    forall i :: 0 <= i < |channels| ==> (channels[i].name in names <==> Active(local, channels[i]))
  }

  lemma FlaggedNames(local: Table, channels: seq<Channel>, d: Differences, names: set<string>)
    requires FirstPassOf(local, channels, d) && forall n :: n in names <==> Flagged(d, n)
    ensures ActiveNames(local, channels, names)
  {
    forall i: nat | i < |channels|
      ensures channels[i].name in names <==> Active(local, channels[i])
    {
      FlaggedIsActive(local, channels, d, i);
    }
  }

  lemma SurvivorIsRealOrPhantom(local: Table, channels: seq<Channel>, item: Item, names: set<string>, f: string,
                                m: string)
    requires Entries(local, channels, f, m, item) && Included(local, channels, f, m)
    requires ActiveNames(local, channels, names) && Survives(item, names)
    ensures Real(local, channels, f, m) || Phantom(local, channels, f, m)
  {
    var n :| n in item.upstreams && n in names && item.upstreams[n] != SAME;
    assert n in Names(channels);
    var i :| 0 <= i < |channels| && channels[i].name == n;
    var ch := channels[i];
    assert ch in channels && Upstream(local, ch, f, m) == item.upstreams[n];
    if Upstream(local, ch, f, m) != Null {
      assert Visible(local, ch, f, m);
    }
  }

  lemma KeptByChannel(local: Table, channels: seq<Channel>, item: Item, names: set<string>, f: string, m: string,
                      ch: Channel)
    requires Entries(local, channels, f, m, item) && ActiveNames(local, channels, names)
    requires ch in channels && Active(local, ch) && Upstream(local, ch, f, m) != SAME
    ensures Survives(item, names)
  {
    var i :| 0 <= i < |channels| && channels[i] == ch;
    assert ch.name in item.upstreams;
  }

  /** What survives pruning: a visible difference, or a phantom. */
  lemma SurvivesIsRealOrPhantom(local: Table, channels: seq<Channel>, d: Differences, names: set<string>, f: string,
                                m: string)
    requires FirstPassOf(local, channels, d) && f in FIELDS && ActiveNames(local, channels, names)
    ensures At(d, m, f) && Survives(d[m][f], names) <==> Real(local, channels, f, m) || Phantom(local, channels, f, m)
  {
    ItemFacts(local, channels, d, m, f);
    if At(d, m, f) && Survives(d[m][f], names) {
      SurvivorIsRealOrPhantom(local, channels, d[m][f], names, f, m);
    }
    if Real(local, channels, f, m) {
      var ch :| ch in channels && Visible(local, ch, f, m);
      KeptByChannel(local, channels, d[m][f], names, f, m, ch);
    } else if Phantom(local, channels, f, m) {
      var ch :| ch in channels && Active(local, ch) && Lookup(ch.data, f, m) == Null;
      KeptByChannel(local, channels, d[m][f], names, f, m, ch);
    }
  }

  /**
   The comparison shows a model and field exactly when some channel visibly differs there, or for
   a phantom; each item shows every active channel and no other, with the value it quotes.
   */
  method BuildDifferences(local: Table, channels: seq<Channel>) returns (r: Differences)
    requires DistinctNames(channels)
    ensures forall m, f :: At(r, m, f) <==>
              f in FIELDS && (Real(local, channels, f, m) || Phantom(local, channels, f, m))
    ensures forall m, f :: At(r, m, f) ==> ShownItem(local, channels, f, m, r[m][f])
    ensures forall m :: m in r ==> r[m] != map[]
  {
    var d := FirstPass(local, channels);
    var names := FlagChannels(d);
    r := Prune(d, names);
    FlaggedNames(local, channels, d, names);
    forall m, f
      ensures At(r, m, f) <==> f in FIELDS && (Real(local, channels, f, m) || Phantom(local, channels, f, m))
      ensures At(r, m, f) ==> ShownItem(local, channels, f, m, r[m][f])
    {
      ItemFacts(local, channels, d, m, f);
      if f in FIELDS {
        SurvivesIsRealOrPhantom(local, channels, d, names, f, m);
      }
      if At(r, m, f) {
        RestrictedIsShown(local, channels, d, names, f, m);
      }
    }
  }

  /** Two numbers are taken for equal when they differ by less than epsilon, all other values when they are the same. */
  lemma ValuesEqualMeans(a: Value, b: Value)
    ensures a.Num? && b.Num? ==> (ValuesEqual(a, b) <==> -EPSILON < a.x - b.x < EPSILON)
    ensures !(a.Num? && b.Num?) ==> (ValuesEqual(a, b) <==> a == b)
    ensures ValuesEqual(a, b) <==> ValuesEqual(b, a)
  {
  }

  /** What a channel quotes is shown as it is, unless it equals the local value. */
  ghost predicate ShownQuote(local: Table, ch: Channel, f: string, m: string, shown: Value)
    requires f in ch.data && m in ch.data[f]
  {
    var current, quoted := Lookup(local, f, m), ch.data[f][m];
    && (!ValuesEqual(current, quoted) ==> shown == quoted)
    && (ValuesEqual(current, quoted) ==> shown == Str("same"))
  }

  /** Where a channel quotes nothing, null stands against a local value. */
  ghost predicate ShownGap(local: Table, f: string, m: string, shown: Value) {
    && (f in local && m in local[f] && local[f][m] != Null ==> shown == Null)
    && (!(f in local && m in local[f] && local[f][m] != Null) ==> shown == Str("same"))
  }

  /** The ratios 37.5 and 1 are what an unpriced model gets by default. */
  ghost predicate LooksUnpriced(ch: Channel, m: string) {
    && "model_ratio" in ch.data && m in ch.data["model_ratio"] && ch.data["model_ratio"][m].Num?
    && "completion_ratio" in ch.data && m in ch.data["completion_ratio"] && ch.data["completion_ratio"][m].Num?
    && -EPSILON < ch.data["model_ratio"][m].x - 37.5 < EPSILON
    && -EPSILON < ch.data["completion_ratio"][m].x - 1.0 < EPSILON
  }

  /** The entry of one channel in an item. */
  ghost predicate ShownEntry(local: Table, ch: Channel, f: string, m: string, shown: Value, trusted: bool) {
    && (if f in ch.data && m in ch.data[f] then ShownQuote(local, ch, f, m, shown) else ShownGap(local, f, m, shown))
    && (trusted <==> !LooksUnpriced(ch, m))
  }

  lemma EntryIsShown(local: Table, ch: Channel, f: string, m: string)
    ensures ShownEntry(local, ch, f, m, Upstream(local, ch, f, m), Confidence(ch, m))
  {
  }

  /** An item lists exactly the active channels, each with the value it quotes and its confidence. */
  ghost predicate ShownItem(local: Table, channels: seq<Channel>, f: string, m: string, item: Item) {
    && item.current == (if f in local && m in local[f] then local[f][m] else Null)
    && item.confidence.Keys == item.upstreams.Keys <= Names(channels)
    && forall i :: 0 <= i < |channels| ==> ShownChannel(local, channels[i], f, m, item)
  }

  ghost predicate ShownChannel(local: Table, ch: Channel, f: string, m: string, item: Item)
    requires item.confidence.Keys == item.upstreams.Keys
  {
    && (ch.name in item.upstreams <==> Active(local, ch))
    && (ch.name in item.upstreams ==>
          ShownEntry(local, ch, f, m, item.upstreams[ch.name], item.confidence[ch.name]))
  }

  lemma RestrictedIsShown(local: Table, channels: seq<Channel>, d: Differences, names: set<string>, f: string,
                          m: string)
    requires FirstPassOf(local, channels, d) && At(d, m, f) && ActiveNames(local, channels, names)
    ensures ShownItem(local, channels, f, m, Restrict(d[m][f], names))
  {
    ItemFacts(local, channels, d, m, f);
    forall i | 0 <= i < |channels|
      ensures ShownChannel(local, channels[i], f, m, Restrict(d[m][f], names))
    {
      assert EntryOf(local, channels[i], f, m, d[m][f]);
      EntryIsShown(local, channels[i], f, m);
    }
  }

  /** A phantom needs a channel that quotes an explicit null, or the marker, against a local value. */
  lemma PhantomNeedsNullOrMarker(local: Table, channels: seq<Channel>, f: string, m: string)
    requires forall ch :: ch in channels && Has(ch.data, f, m) ==> Shows(Lookup(ch.data, f, m))
    ensures !Phantom(local, channels, f, m)
  {
  }

  /** Phantoms exist: a null quoted for one model is shown because the channel differs on another. */
  lemma PhantomExample()
    ensures var local: Table := map["model_price" := map["a" := Num(1.0), "b" := Num(1.0)]];
            var ch := Channel("c", map["model_price" := map["a" := Null, "b" := Num(2.0)]]);
            !Real(local, [ch], "model_price", "a") && Phantom(local, [ch], "model_price", "a")
  {
    var local: Table := map["model_price" := map["a" := Num(1.0), "b" := Num(1.0)]];
    var ch := Channel("c", map["model_price" := map["a" := Null, "b" := Num(2.0)]]);
    assert FIELDS[7] == "model_price";
    assert Visible(local, ch, "model_price", "b");
    assert ch in [ch] && Differs(local, ch, "model_price", "a") && Active(local, ch);
  }
}
