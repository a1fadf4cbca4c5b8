/**
 Filling in the model metadata shown to an administrator (controller/model_meta.go,
 enrichModels). Models named exactly are looked up one by one; models named by a
 prefix, substring or suffix rule are filled from one pass over the price list and
 one batched channel query. The result is the one a separate computation for each
 model would give.
 */
module EnrichModels {

  import Picks
  import Sorting
  import Text

  const NAME_RULE_EXACT := 0
  const NAME_RULE_PREFIX := 1
  const NAME_RULE_CONTAINS := 2
  const NAME_RULE_SUFFIX := 3

  datatype BoundChannel = BoundChannel(name: string, kind: int)

  /** The part of a model that is filled in. */
  datatype Info = Info(endpoints: string, boundChannels: seq<BoundChannel>, enableGroups: seq<string>,
                       quotaTypes: seq<int>, matchedModels: seq<string>, matchedCount: nat)

  class Model {
    const modelName: string
    const nameRule: int
    var info: Info

    constructor (modelName: string, nameRule: int, info: Info)
      ensures this.modelName == modelName && this.nameRule == nameRule && this.info == info
    {
      this.modelName, this.nameRule, this.info := modelName, nameRule, info;
    }
  }

  datatype Pricing = Pricing(modelName: string, endpointTypes: seq<string>, enableGroups: seq<string>, quotaType: int)

  /** One row of the join of enabled abilities with channels. */
  datatype Row = Row(model: string, channel: BoundChannel)

  /** The per-name caches, and json.Marshal on a list of endpoint types. */
  datatype Caches = Caches(endpointTypes: string -> seq<string>, enableGroups: string -> seq<string>,
                           quotaTypes: string -> seq<int>, marshal: seq<string> -> string)

  // ----- Channel keys ----------------------------------------------------------

  function Digits(n: nat): (s: string)
    ensures s != "" && forall i :: 0 <= i < |s| ==> '0' <= s[i] <= '9'
  {
    (if n < 10 then "" else Digits(n / 10)) + [(n % 10) as char + '0']
  }

  /** strconv.Itoa. */
  function Itoa(n: int): string {
    if n < 0 then "-" + Digits(-n) else Digits(n)
  }

  function ChannelKey(ch: BoundChannel): string {
    ch.name + "_" + Itoa(ch.kind)
  }

  lemma {:induction false} DigitsInjective(a: nat, b: nat)
    requires Digits(a) == Digits(b)
    ensures a == b
  {
    var s := Digits(a);
    assert s[|s| - 1] == (a % 10) as char + '0' == (b % 10) as char + '0';
    assert a % 10 == b % 10;
    if a >= 10 && b >= 10 {
      assert Digits(a / 10) == s[..|s| - 1] == Digits(b / 10);
      DigitsInjective(a / 10, b / 10);
    } else {
      assert a < 10 ==> |Digits(a)| == 1;
      assert b < 10 ==> |Digits(b)| == 1;
    }
  }

  lemma ItoaInjective(a: int, b: int)
    requires Itoa(a) == Itoa(b)
    ensures a == b
  {
    assert a < 0 <==> Itoa(a)[0] == '-';
    assert b < 0 <==> Itoa(b)[0] == '-';
    if a < 0 {
      assert Itoa(a)[1..] == Digits(-a) && Itoa(b)[1..] == Digits(-b);
      DigitsInjective(-a, -b);
    } else {
      DigitsInjective(a, b);
    }
  }

  /** The last underscore of a key separates name and type. */
  lemma LastUnderscore(ch: BoundChannel)
    ensures var k, cut := ChannelKey(ch), |ch.name|;
            && k[..cut] == ch.name && k[cut] == '_' && k[cut + 1..] == Itoa(ch.kind)
            && forall i :: cut < i < |k| ==> k[i] != '_'
  {
    var k, cut := ChannelKey(ch), |ch.name|;
    assert forall i :: cut < i < |k| ==> k[i] == Itoa(ch.kind)[i - cut - 1];
  }

  /** No two channels share a key. */
  lemma ChannelKeyInjective(a: BoundChannel, b: BoundChannel)
    requires ChannelKey(a) == ChannelKey(b)
    ensures a == b
  {
    LastUnderscore(a);
    LastUnderscore(b);
    assert |a.name| == |b.name|;
    ItoaInjective(a.kind, b.kind);
  }

  // ----- What each model should show -------------------------------------------

  predicate MatchesRule(rule: int, pattern: string, name: string) {
    if rule == NAME_RULE_PREFIX then Text.HasPrefix(name, pattern)
    else if rule == NAME_RULE_SUFFIX then Text.HasSuffix(name, pattern)
    else if rule == NAME_RULE_CONTAINS then Text.Contains(name, pattern)
    else false
  }

  /** What the three rules mean; any other rule matches nothing. */
  lemma RuleMeans(rule: int, pattern: string, name: string)
    ensures rule == NAME_RULE_PREFIX ==> (MatchesRule(rule, pattern, name) <==> exists rest :: name == pattern + rest)
    ensures rule == NAME_RULE_SUFFIX ==> (MatchesRule(rule, pattern, name) <==> exists rest :: name == rest + pattern)
    ensures rule == NAME_RULE_CONTAINS ==>
              (MatchesRule(rule, pattern, name) <==> exists a, b :: name == a + pattern + b)
    ensures MatchesRule(rule, pattern, name) ==> rule in {NAME_RULE_PREFIX, NAME_RULE_SUFFIX, NAME_RULE_CONTAINS}
  {
    Text.HasPrefixMeans(name, pattern);
    Text.HasSuffixMeans(name, pattern);
    Text.ContainsMeans(name, pattern);
  }

  predicate Matches(m: Model, p: Pricing) {
    MatchesRule(m.nameRule, m.modelName, p.modelName)
  }

  /** The matching names of the price list, in its order. */
  function MatchedNames(m: Model, pricings: seq<Pricing>): seq<string> {
    if pricings == [] then []
    else
      var p := pricings[|pricings| - 1];
      MatchedNames(m, pricings[..|pricings| - 1]) + if Matches(m, p) then [p.modelName] else []
  }

  function MatchingPrice(m: Model, pricings: seq<Pricing>): nat -> bool {
    (i: nat) => i < |pricings| && Matches(m, pricings[i])
  }

  /** They are the names at the matching positions, each where its price stands. */
  lemma {:induction false} MatchedExactly(m: Model, pricings: seq<Pricing>, n: nat) returns (at: seq<nat>)
    requires n <= |pricings|
    ensures Picks.Lists(at, n, MatchingPrice(m, pricings)) && |MatchedNames(m, pricings[..n])| == |at|
    ensures forall a :: 0 <= a < |at| ==>
              at[a] < |pricings| && MatchedNames(m, pricings[..n])[a] == pricings[at[a]].modelName
  {
    if n == 0 {
      at := [];
    } else {
      at := MatchedExactly(m, pricings, n - 1);
      Picks.OneMore(at, n - 1, MatchingPrice(m, pricings));
      at := Picks.Longer(at, n - 1, MatchingPrice(m, pricings));
      assert pricings[..n][..n - 1] == pricings[..n - 1];
    }
  }

  ghost function EndpointUnion(m: Model, pricings: seq<Pricing>): set<string> {
    set p, e | p in pricings && Matches(m, p) && e in p.endpointTypes :: e
  }

  ghost function GroupUnion(m: Model, pricings: seq<Pricing>): set<string> {
    set p, g | p in pricings && Matches(m, p) && g in p.enableGroups :: g
  }

  ghost function QuotaUnion(m: Model, pricings: seq<Pricing>): set<int> {
    set p | p in pricings && Matches(m, p) :: p.quotaType
  }

  /** The channels a query for one model name returns. */
  function ChannelsOf(rows: seq<Row>, name: string): seq<BoundChannel> {
    if rows == [] then []
    else
      var r := rows[|rows| - 1];
      ChannelsOf(rows[..|rows| - 1], name) + if r.model == name then [r.channel] else []
  }

  function RowOf(rows: seq<Row>, name: string): nat -> bool {
    (i: nat) => i < |rows| && rows[i].model == name
  }

  /** They are the channels of the rows with that name, in the order of the rows. */
  lemma {:induction false} ChannelsExactly(rows: seq<Row>, name: string, n: nat) returns (at: seq<nat>)
    requires n <= |rows|
    ensures Picks.Lists(at, n, RowOf(rows, name)) && |ChannelsOf(rows[..n], name)| == |at|
    ensures forall a :: 0 <= a < |at| ==> at[a] < |rows| && ChannelsOf(rows[..n], name)[a] == rows[at[a]].channel
  {
    if n == 0 {
      at := [];
    } else {
      at := ChannelsExactly(rows, name, n - 1);
      Picks.OneMore(at, n - 1, RowOf(rows, name));
      at := Picks.Longer(at, n - 1, RowOf(rows, name));
      assert rows[..n][..n - 1] == rows[..n - 1];
    }
  }

  function ChannelUnion(rows: seq<Row>, names: seq<string>): set<BoundChannel> {
    set n, ch | n in names && ch in ChannelsOf(rows, n) :: ch
  }

  /** `s` lists the set without repetition, in any order. */
  ghost predicate Lists<T(!new)>(s: seq<T>, members: set<T>) {
    && (forall x :: x in s <==> x in members)
    && (forall i, j :: 0 <= i < j < |s| ==> s[i] != s[j])
  }

  ghost predicate Increasing(s: seq<int>) {
    Sorting.Ascending(s, Less)
  }

  /** What a model named exactly becomes. */
  function ExactInfo(name: string, before: Info, rows: seq<Row>, caches: Caches): Info {
    before.(endpoints := if before.endpoints != "" then before.endpoints
                         else caches.marshal(caches.endpointTypes(name)),
            boundChannels := ChannelsOf(rows, name),
            enableGroups := caches.enableGroups(name),
            quotaTypes := caches.quotaTypes(name))
  }

  /** Channels, groups and quota types are looked up by name; endpoints only where none are given. */
  ghost predicate ExactShown(name: string, before: Info, after: Info, rows: seq<Row>, caches: Caches) {
    && after.boundChannels == ChannelsOf(rows, name)
    && after.enableGroups == caches.enableGroups(name) && after.quotaTypes == caches.quotaTypes(name)
    && (before.endpoints != "" ==> after.endpoints == before.endpoints)
    && (before.endpoints == "" ==> after.endpoints == caches.marshal(caches.endpointTypes(name)))
    && after.matchedModels == before.matchedModels && after.matchedCount == before.matchedCount
  }

  /** The endpoints a rule model may end up with. */
  ghost predicate RuleEndpoints(endpoints: string, before: string, union: set<string>, marshal: seq<string> -> string) {
    if before == "" then exists eps :: Lists(eps, union) && endpoints == marshal(eps) else endpoints == before
  }

  /** What a model named by a rule becomes, computed from its own matches alone. */
  ghost predicate RuleInfo(m: Model, before: Info, after: Info, pricings: seq<Pricing>, rows: seq<Row>,
                           caches: Caches) {
    var names := MatchedNames(m, pricings);
    var channels := ChannelUnion(rows, names);
    && after.matchedModels == names
    && after.matchedCount == |names|
    && (if channels == {} then after.boundChannels == before.boundChannels else Lists(after.boundChannels, channels))
    && (if names == [] then
          && after.endpoints == before.endpoints
          && after.enableGroups == before.enableGroups
          && after.quotaTypes == before.quotaTypes
        else
          && RuleEndpoints(after.endpoints, before.endpoints, EndpointUnion(m, pricings), caches.marshal)
          && Lists(after.enableGroups, GroupUnion(m, pricings))
          && Lists(after.quotaTypes, QuotaUnion(m, pricings))
          && Increasing(after.quotaTypes))
  }

  // ----- Library steps ---------------------------------------------------------

  /** Ranging over a Go map used as a set: every member once, in some order. */
  method ListOf<T(==, !new)>(members: set<T>) returns (s: seq<T>)
    ensures Lists(s, members)
  {
    s := [];
    var left := members;
    while left != {}
      invariant forall x :: x in members <==> x in left || x in s
      invariant forall x :: x in s ==> x !in left
      invariant forall i, j :: 0 <= i < j < |s| ==> s[i] != s[j]
      decreases |left|
    {
      var x :| x in left;
      left := left - {x};
      s := s + [x];
    }
  }

  predicate Less(a: int, b: int) {
    a < b
  }

  /** sort.Ints. */
  function SortInts(s: seq<int>): seq<int> {
    if s == [] then [] else Sorting.Insert(SortInts(s[..|s| - 1]), s[|s| - 1], Less)
  }

  lemma {:induction false} SortIntsLaws(s: seq<int>, members: set<int>)
    requires Lists(s, members)
    ensures Lists(SortInts(s), members) && Increasing(SortInts(s))
  {
    if s != [] {
      var init, last := s[..|s| - 1], s[|s| - 1];
      assert s == init + [last];
      SortIntsLaws(init, members - {last});
      Sorting.InsertIsAscending(SortInts(init), last, Less);
    }
  }

  // ----- The batched computation -----------------------------------------------

  function Lookup(m: map<string, seq<BoundChannel>>, name: string): seq<BoundChannel> {
    if name in m then m[name] else []
  }

  ghost predicate Answers(result: map<string, seq<BoundChannel>>, names: seq<string>, rows: seq<Row>) {
    forall n :: Lookup(result, n) == if n in names then ChannelsOf(rows, n) else []
  }

  lemma AnswersRow(result: map<string, seq<BoundChannel>>, names: seq<string>, rows: seq<Row>, r: Row)
    requires Answers(result, names, rows)
    ensures r.model in names ==>
              Answers(result[r.model := Lookup(result, r.model) + [r.channel]], names, rows + [r])
    ensures r.model !in names ==> Answers(result, names, rows + [r])
  {
    assert (rows + [r])[..|rows|] == rows;
    assert forall n :: ChannelsOf(rows + [r], n) == ChannelsOf(rows, n) + if r.model == n then [r.channel] else [];
  }

  /** One query for many names answers as many queries for one name each. */
  method GetBoundChannelsByModelsMap(names: seq<string>, rows: seq<Row>)
    returns (result: map<string, seq<BoundChannel>>)
    ensures Answers(result, names, rows)
  {
    result := map[];
    if |names| == 0 {
      return;
    }
    for i := 0 to |rows|
      invariant Answers(result, names, rows[..i])
    {
      var r := rows[i];
      assert rows[..i + 1] == rows[..i] + [r];
      AnswersRow(result, names, rows[..i], r);
      if r.model in names {
        result := result[r.model := Lookup(result, r.model) + [r.channel]];
      }
    }
    assert rows[..|rows|] == rows;
  }

  predicate IsExact(models: seq<Model?>, i: int) {
    0 <= i < |models| && models[i] != null && models[i].nameRule == NAME_RULE_EXACT
  }

  predicate IsRule(models: seq<Model?>, i: int) {
    0 <= i < |models| && models[i] != null && models[i].nameRule != NAME_RULE_EXACT
  }

  /** The places of the exact models before `n`, by name. */
  ghost predicate IndexesExact(models: seq<Model?>, exactIdx: map<string, seq<nat>>, n: nat) {
    && (forall x, t :: x in exactIdx && 0 <= t < |exactIdx[x]| ==>
          exactIdx[x][t] < n && IsExact(models, exactIdx[x][t]) && models[exactIdx[x][t]].modelName == x)
    && (forall i :: i < n && IsExact(models, i) ==>
          models[i].modelName in exactIdx && i in exactIdx[models[i].modelName])
  }

  /** The places of the rule models before `n`, in order. */
  ghost predicate IndexesRules(models: seq<Model?>, ruleIndices: seq<nat>, n: nat) {
    && Increasing(ruleIndices)
    && (forall t :: 0 <= t < |ruleIndices| ==> ruleIndices[t] < n && IsRule(models, ruleIndices[t]))
    && (forall i :: i < n && IsRule(models, i) ==> i in ruleIndices)
  }

  /** The list of places of a name. */
  function PlacesOf(exactIdx: map<string, seq<nat>>, name: string): seq<nat> {
    if name in exactIdx then exactIdx[name] else []
  }

  lemma IndexExact(models: seq<Model?>, exactIdx: map<string, seq<nat>>, i: nat)
    requires IndexesExact(models, exactIdx, i) && IsExact(models, i)
    ensures var x := models[i].modelName; IndexesExact(models, exactIdx[x := PlacesOf(exactIdx, x) + [i]], i + 1)
  {
    var x := models[i].modelName;
    var exactIdx' := exactIdx[x := PlacesOf(exactIdx, x) + [i]];
    forall y, t | y in exactIdx' && 0 <= t < |exactIdx'[y]|
      ensures exactIdx'[y][t] < i + 1 && IsExact(models, exactIdx'[y][t]) && models[exactIdx'[y][t]].modelName == y
    {
      if y == x && t == |PlacesOf(exactIdx, x)| {
        assert exactIdx'[y][t] == i;
      } else {
        assert y in exactIdx && exactIdx'[y][t] == exactIdx[y][t];
      }
    }
    forall j: nat | j < i + 1 && IsExact(models, j)
      ensures models[j].modelName in exactIdx' && j in exactIdx'[models[j].modelName]
    {
      if j == i {
        assert exactIdx'[x][|PlacesOf(exactIdx, x)|] == i;
      } else {
        assert j in exactIdx[models[j].modelName];
      }
    }
  }

  lemma IndexRule(models: seq<Model?>, ruleIndices: seq<nat>, i: nat)
    requires IndexesRules(models, ruleIndices, i) && IsRule(models, i)
    ensures IndexesRules(models, ruleIndices + [i], i + 1)
  {
    assert forall j :: j in ruleIndices ==> j in ruleIndices + [i];
  }

  /** Exact models by name, and the indices of the others. */
  method SplitModels(models: seq<Model?>)
    returns (exactNames: seq<string>, exactIdx: map<string, seq<nat>>, ruleIndices: seq<nat>)
    ensures forall n :: n in exactIdx ==> n in exactNames
    ensures IndexesExact(models, exactIdx, |models|)
    ensures IndexesRules(models, ruleIndices, |models|)
  {
    exactNames, exactIdx, ruleIndices := [], map[], [];
    for i := 0 to |models|
      invariant forall n :: n in exactIdx ==> n in exactNames
      invariant IndexesExact(models, exactIdx, i)
      invariant IndexesRules(models, ruleIndices, i)
    {
      var m := models[i];
      if m == null {
        continue;
      }
      if m.nameRule == NAME_RULE_EXACT {
        IndexExact(models, exactIdx, i);
        exactNames := exactNames + [m.modelName];
        exactIdx := exactIdx[m.modelName := PlacesOf(exactIdx, m.modelName) + [i]];
      } else {
        IndexRule(models, ruleIndices, i);
        ruleIndices := ruleIndices + [i];
      }
    }
  }

  /** The objects behind the list. */
  ghost function Live(models: seq<Model?>): set<Model> {
    set i | 0 <= i < |models| && models[i] != null :: models[i]
  }

  /** The models named exactly `name`. */
  ghost function Named(models: seq<Model?>, name: string): set<Model> {
    set m | m in Live(models) && m.nameRule == NAME_RULE_EXACT && m.modelName == name
  }

  /** `indices` are the places of the exact models of that name. */
  ghost predicate IndexesName(models: seq<Model?>, indices: seq<nat>, name: string) {
    && (forall t :: 0 <= t < |indices| ==> IsExact(models, indices[t]) && models[indices[t]] in Named(models, name))
    && (forall m :: m in Named(models, name) ==> exists t :: 0 <= t < |indices| && models[indices[t]] == m)
  }

  /** The exact models of one name; listing a model twice changes nothing more. */
  method FillName(models: seq<Model?>, indices: seq<nat>, name: string, chs: seq<BoundChannel>, caches: Caches,
                  ghost rows: seq<Row>)
    requires IndexesName(models, indices, name)
    requires chs == ChannelsOf(rows, name)
    modifies Named(models, name)
    ensures forall m :: m in Named(models, name) ==> m.info == ExactInfo(name, old(m.info), rows, caches)
  {
    for j := 0 to |indices|
      invariant forall m :: m in Named(models, name) ==>
                  m.info == old(m.info) || m.info == ExactInfo(name, old(m.info), rows, caches)
      invariant forall t :: 0 <= t < j ==>
                  models[indices[t]].info == ExactInfo(name, old(models[indices[t]].info), rows, caches)
    {
      var mm := models[indices[j]];
      var endpoints := mm.info.endpoints;
      if endpoints == "" {
        endpoints := caches.marshal(caches.endpointTypes(mm.modelName));
      }
      mm.info := mm.info.(endpoints := endpoints, boundChannels := chs,
        enableGroups := caches.enableGroups(mm.modelName), quotaTypes := caches.quotaTypes(mm.modelName));
    }
  }

  lemma NamedByIndex(models: seq<Model?>, exactIdx: map<string, seq<nat>>, name: string)
    requires IndexesExact(models, exactIdx, |models|) && name in exactIdx
    ensures IndexesName(models, exactIdx[name], name)
  {
    forall m | m in Named(models, name)
      ensures exists t :: 0 <= t < |exactIdx[name]| && models[exactIdx[name][t]] == m
    {
      var i :| 0 <= i < |models| && models[i] == m;
      assert IsExact(models, i);
    }
  }

  lemma ExactNamesIndexed(models: seq<Model?>, exactIdx: map<string, seq<nat>>)
    requires IndexesExact(models, exactIdx, |models|)
    ensures forall m :: m in Live(models) && m.nameRule == NAME_RULE_EXACT ==> m.modelName in exactIdx
  {
    forall m | m in Live(models) && m.nameRule == NAME_RULE_EXACT
      ensures m.modelName in exactIdx
    {
      var i :| 0 <= i < |models| && models[i] == m;
      assert IsExact(models, i);
    }
  }

  /** Exact models from the caches and the batched query; the others are not touched. */
  method FillExact(models: seq<Model?>, exactIdx: map<string, seq<nat>>,
                   channelsByModel: map<string, seq<BoundChannel>>,
                   caches: Caches, ghost rows: seq<Row>)
    requires IndexesExact(models, exactIdx, |models|)
    requires forall n :: n in exactIdx ==> Lookup(channelsByModel, n) == ChannelsOf(rows, n)
    modifies Live(models)
    ensures forall m :: m in Live(models) ==>
              m.info == if m.nameRule == NAME_RULE_EXACT then ExactInfo(m.modelName, old(m.info), rows, caches)
                  else old(m.info)
  {
    var names := exactIdx.Keys;
    while names != {}
      invariant names <= exactIdx.Keys
      invariant forall m :: m in Live(models) ==>
                  m.info == if m.nameRule == NAME_RULE_EXACT && m.modelName !in names
                            then ExactInfo(m.modelName, old(m.info), rows, caches) else old(m.info)
      decreases |names|
    {
      var name :| name in names;
      NamedByIndex(models, exactIdx, name);
      FillName(models, exactIdx[name], name, Lookup(channelsByModel, name), caches, rows);
      names := names - {name};
    }
    ExactNamesIndexed(models, exactIdx);
  }

  // ----- Rule models -----------------------------------------------------------

  /** What one pass over the price list collects for a model. */
  datatype Found = Found(names: seq<string>, endpoints: set<string>, groups: set<string>, quotas: set<int>)

  function Entry(found: map<nat, Found>, i: nat): Found {
    if i in found then found[i] else Found([], {}, {}, {})
  }

  function AddPricing(f: Found, p: Pricing): Found {
    Found(f.names + [p.modelName],
      f.endpoints + (set e | e in p.endpointTypes),
      f.groups + (set g | g in p.enableGroups),
      f.quotas + {p.quotaType})
  }

  ghost function FoundIn(m: Model, pricings: seq<Pricing>): Found {
    Found(MatchedNames(m, pricings), EndpointUnion(m, pricings), GroupUnion(m, pricings), QuotaUnion(m, pricings))
  }

  lemma FoundSnoc(m: Model, pricings: seq<Pricing>, p: Pricing)
    ensures FoundIn(m, pricings + [p]) ==
            if Matches(m, p) then AddPricing(FoundIn(m, pricings), p) else FoundIn(m, pricings)
  {
    assert (pricings + [p])[..|pricings|] == pricings;
    var f, g := FoundIn(m, pricings), FoundIn(m, pricings + [p]);
    if Matches(m, p) {
      assert p in pricings + [p];
      assert g.endpoints == f.endpoints + set e | e in p.endpointTypes;
      assert g.groups == f.groups + set x | x in p.enableGroups;
      assert g.quotas == f.quotas + {p.quotaType};
    } else {
      assert g.endpoints == f.endpoints && g.groups == f.groups && g.quotas == f.quotas;
    }
  }

  ghost predicate Holds(found: map<nat, Found>, i: nat, f: Found) {
    Entry(found, i) == f && (i in found <==> f.names != [])
  }

  function Matched(m: Model, f: Found, p: Pricing): Found {
    if Matches(m, p) then AddPricing(f, p) else f
  }

  /** One price against every rule model. */
  method MatchPricing(models: seq<Model?>, ruleIndices: seq<nat>, p: Pricing, found0: map<nat, Found>,
                      ghost before: seq<Found>)
    returns (found: map<nat, Found>)
    requires IndexesRules(models, ruleIndices, |models|) && |before| == |ruleIndices|
    requires forall t :: 0 <= t < |ruleIndices| ==> Holds(found0, ruleIndices[t], before[t])
    ensures forall t :: 0 <= t < |ruleIndices| ==>
              Holds(found, ruleIndices[t], Matched(models[ruleIndices[t]], before[t], p))
  {
    found := found0;
    for j := 0 to |ruleIndices|
      invariant forall t :: 0 <= t < j ==> Holds(found, ruleIndices[t], Matched(models[ruleIndices[t]], before[t], p))
      invariant forall t :: j <= t < |ruleIndices| ==> Holds(found, ruleIndices[t], before[t])
    {
      var idx := ruleIndices[j];
      var mm := models[idx];
      if Matches(mm, p) {
        found := found[idx := AddPricing(Entry(found, idx), p)];
      }
    }
  }

  /** The nested loops over prices and rule models. */
  method CollectMatches(models: seq<Model?>, ruleIndices: seq<nat>, pricings: seq<Pricing>)
    returns (found: map<nat, Found>)
    requires IndexesRules(models, ruleIndices, |models|)
    ensures forall t :: 0 <= t < |ruleIndices| ==>
              Holds(found, ruleIndices[t], FoundIn(models[ruleIndices[t]], pricings))
  {
    found := map[];
    for k := 0 to |pricings|
      invariant forall t :: 0 <= t < |ruleIndices| ==>
                  Holds(found, ruleIndices[t], FoundIn(models[ruleIndices[t]], pricings[..k]))
    {
      var p := pricings[k];
      ghost var before := seq(|ruleIndices|, t requires 0 <= t < |ruleIndices| =>
          FoundIn(models[ruleIndices[t]], pricings[..k]));
      found := MatchPricing(models, ruleIndices, p, found, before);
      assert pricings[..k] + [p] == pricings[..k + 1];
      forall t | 0 <= t < |ruleIndices|
        ensures Holds(found, ruleIndices[t], FoundIn(models[ruleIndices[t]], pricings[..k + 1]))
      {
        FoundSnoc(models[ruleIndices[t]], pricings[..k], p);
      }
    }
    assert pricings[..|pricings|] == pricings;
  }

  ghost predicate Keyed(channelSet: map<string, BoundChannel>) {
    forall k :: k in channelSet ==> ChannelKey(channelSet[k]) == k
  }

  lemma KeyedInsert(channelSet: map<string, BoundChannel>, ch: BoundChannel)
    requires Keyed(channelSet)
    ensures Keyed(channelSet[ChannelKey(ch) := ch])
    ensures channelSet[ChannelKey(ch) := ch].Values == channelSet.Values + {ch}
  {
    var key := ChannelKey(ch);
    if key in channelSet {
      ChannelKeyInjective(channelSet[key], ch);
      assert channelSet[key := ch] == channelSet;
    } else {
      NewValue(channelSet, key, ch);
    }
  }

  function Members(chs: seq<BoundChannel>): set<BoundChannel> {
    set ch | ch in chs
  }

  lemma MembersSnoc(s: set<BoundChannel>, chs: seq<BoundChannel>, j: nat)
    requires j < |chs|
    ensures s + Members(chs[..j + 1]) == s + Members(chs[..j]) + {chs[j]}
  {
    assert chs[..j + 1] == chs[..j] + [chs[j]];
  }

  /** The channels of one name added to the set under their keys. */
  method AddChannels(channelSet0: map<string, BoundChannel>, chs: seq<BoundChannel>)
    returns (channelSet: map<string, BoundChannel>)
    requires Keyed(channelSet0)
    ensures Keyed(channelSet) && channelSet.Values == channelSet0.Values + Members(chs)
  {
    channelSet := channelSet0;
    for j := 0 to |chs|
      invariant Keyed(channelSet) && channelSet.Values == channelSet0.Values + Members(chs[..j])
    {
      KeyedInsert(channelSet, chs[j]);
      MembersSnoc(channelSet0.Values, chs, j);
      channelSet := channelSet[ChannelKey(chs[j]) := chs[j]];
    }
    assert chs[..|chs|] == chs;
  }

  lemma NewValue(m: map<string, BoundChannel>, key: string, ch: BoundChannel)
    requires key !in m
    ensures m[key := ch].Values == m.Values + {ch}
  {
    var n := m[key := ch];
    assert n[key] == ch;
    forall x | x in m.Values
      ensures x in n.Values
    {
      var k :| k in m && m[k] == x;
      assert n[k] == x;
    }
  }

  /** The channels of all matched names, each once. */
  method UnionChannels(names: seq<string>, channelsByModel: map<string, seq<BoundChannel>>, ghost rows: seq<Row>)
    returns (chs: seq<BoundChannel>)
    requires forall n :: n in names ==> Lookup(channelsByModel, n) == ChannelsOf(rows, n)
    ensures Lists(chs, ChannelUnion(rows, names))
  {
    var channelSet: map<string, BoundChannel> := map[];
    for j := 0 to |names|
      invariant Keyed(channelSet) && channelSet.Values == ChannelUnion(rows, names[..j])
    {
      channelSet := AddChannels(channelSet, Lookup(channelsByModel, names[j]));
      assert names[..j + 1] == names[..j] + [names[j]];
      assert ChannelUnion(rows, names[..j + 1]) == ChannelUnion(rows, names[..j]) + Members(ChannelsOf(rows, names[j]));
    }
    assert names[..|names|] == names;
    chs := ListOf(channelSet.Values);
  }

  /** One rule model from what was collected for it; `before` is what it showed at the start. */
  method FillRule(mm: Model, found: Found, matched: bool, channelsByModel: map<string, seq<BoundChannel>>,
                  caches: Caches, ghost before: Info, ghost pricings: seq<Pricing>, ghost rows: seq<Row>)
    requires found == FoundIn(mm, pricings) && (matched <==> found.names != [])
    requires forall n :: n in found.names ==> Lookup(channelsByModel, n) == ChannelsOf(rows, n)
    requires mm.info == before || RuleInfo(mm, before, mm.info, pricings, rows, caches)
    modifies mm
    ensures RuleInfo(mm, before, mm.info, pricings, rows, caches)
  {
    if matched {
      if mm.info.endpoints == "" {
        var eps := ListOf(found.endpoints);
        mm.info := mm.info.(endpoints := caches.marshal(eps));
      }
      var groups := ListOf(found.groups);
      var arr := ListOf(found.quotas);
      SortIntsLaws(arr, found.quotas);
      mm.info := mm.info.(enableGroups := groups, quotaTypes := SortInts(arr));
    }
    var chs := UnionChannels(found.names, channelsByModel, rows);
    if |chs| > 0 {
      assert chs[0] in ChannelUnion(rows, found.names);
      mm.info := mm.info.(boundChannels := chs);
    }
    mm.info := mm.info.(matchedModels := found.names, matchedCount := |found.names|);
  }

  /** The names matched by any model, for the batched query. */
  method AllMatched(ruleIndices: seq<nat>, found: map<nat, Found>) returns (allMatched: seq<string>)
    ensures forall t :: 0 <= t < |ruleIndices| ==> forall n :: n in Entry(found, ruleIndices[t]).names ==>
              n in allMatched
  {
    var allMatchedSet: set<string> := {};
    for t := 0 to |ruleIndices|
      invariant forall u :: 0 <= u < t ==> forall n :: n in Entry(found, ruleIndices[u]).names ==> n in allMatchedSet
    {
      allMatchedSet := allMatchedSet + set n | n in Entry(found, ruleIndices[t]).names;
    }
    allMatched := ListOf(allMatchedSet);
  }

  /** Every rule model, whatever the list repeats; exact models are not touched. */
  method FillRules(models: seq<Model?>, ruleIndices: seq<nat>, found: map<nat, Found>,
                   channelsByModel: map<string, seq<BoundChannel>>, caches: Caches, ghost pricings: seq<Pricing>,
                   ghost rows: seq<Row>)
    requires IndexesRules(models, ruleIndices, |models|)
    requires forall t :: 0 <= t < |ruleIndices| ==>
               Holds(found, ruleIndices[t], FoundIn(models[ruleIndices[t]], pricings))
    requires forall t :: 0 <= t < |ruleIndices| ==>
               forall n :: n in Entry(found, ruleIndices[t]).names ==> Lookup(channelsByModel, n) == ChannelsOf(rows, n)
    modifies Live(models)
    ensures forall m :: m in Live(models) ==>
              if m.nameRule == NAME_RULE_EXACT then m.info == old(m.info)
              else RuleInfo(m, old(m.info), m.info, pricings, rows, caches)
  {
    for j := 0 to |ruleIndices|
      invariant forall m :: m in Live(models) && m.nameRule == NAME_RULE_EXACT ==> m.info == old(m.info)
      invariant forall m :: m in Live(models) ==>
                  m.info == old(m.info) || RuleInfo(m, old(m.info), m.info, pricings, rows, caches)
      invariant forall t :: 0 <= t < j ==>
                  var m := models[ruleIndices[t]]; RuleInfo(m, old(m.info), m.info, pricings, rows, caches)
    {
      var idx := ruleIndices[j];
      var mm := models[idx];
      assert mm in Live(models);
      FillRule(mm, Entry(found, idx), idx in found, channelsByModel, caches, old(mm.info), pricings, rows);
    }
    forall m | m in Live(models) && m.nameRule != NAME_RULE_EXACT
      ensures RuleInfo(m, old(m.info), m.info, pricings, rows, caches)
    {
      var i :| 0 <= i < |models| && models[i] == m;
      assert IsRule(models, i);
    }
  }

  /**
   The whole batch equals the separate computation for each model. `exactRows` and `ruleRows` are
   what the database returns to the two queries (nothing when a query fails); `pricings` is the
   price list. Entries may be nil and may repeat.
   */
  method EnrichModels(models: seq<Model?>, pricings: seq<Pricing>, exactRows: seq<Row>, ruleRows: seq<Row>,
                      caches: Caches)
    modifies Live(models)
    ensures forall m :: m in Live(models) ==>
              if m.nameRule == NAME_RULE_EXACT then ExactShown(m.modelName, old(m.info), m.info, exactRows, caches)
              else RuleInfo(m, old(m.info), m.info, pricings, ruleRows, caches)
  {
    if |models| == 0 {
      return;
    }
    var exactNames, exactIdx, ruleIndices := SplitModels(models);
    var channelsByModel := GetBoundChannelsByModelsMap(exactNames, exactRows);
    FillExact(models, exactIdx, channelsByModel, caches, exactRows);
    if |ruleIndices| == 0 {
      forall m | m in Live(models)
        ensures m.nameRule == NAME_RULE_EXACT
      {
        var i :| 0 <= i < |models| && models[i] == m;
        assert IsRule(models, i) || IsExact(models, i);
      }
      return;
    }
    var found := CollectMatches(models, ruleIndices, pricings);
    var allMatched := AllMatched(ruleIndices, found);
    var matchedChannelsByModel := GetBoundChannelsByModelsMap(allMatched, ruleRows);
    FillRules(models, ruleIndices, found, matchedChannelsByModel, caches, pricings, ruleRows);
  }
}
