/**
 Keeping a channel's model list in step with its upstream
 (controller/channel_upstream_update.go): ordered-set algebra on model names, and
 a cycle of detecting pending changes, applying a selection of them, and ignoring
 the rest.
 */
module UpstreamModels {
  import opened Basics
  import opened Text

  // ----- Name lists ------------------------------------------------------------

  /** normalizeModelNames: trimmed, non-empty, first occurrences only. */
  function Normalize(names: seq<string>): seq<string> {
    Unseen({}, TrimAll(names))
  }

  ghost predicate Normal(names: seq<string>) {
    && AllTrimmed(names)
    && "" !in names
    && forall i, j :: 0 <= i < j < |names| ==> names[i] != names[j]
  }

  lemma NormalizeLaws(names: seq<string>)
    ensures Normal(Normalize(names))
    ensures forall n :: n in Normalize(names) <==> n in TrimAll(names) && n != ""
    ensures Normal(names) ==> Normalize(names) == names
  {
    UnseenIsExact({}, TrimAll(names));
    TrimAllLaws(names, ',');
    var r := Normalize(names);
    forall i | 0 <= i < |r|
      ensures TrimSpace(r[i]) == r[i]
    {
      assert r[i] in TrimAll(names);
    }
    if Normal(names) {
      UnseenOfDistinct({}, names);
    }
  }

  /** The names stay in the order in which they first occur. */
  lemma NormalizeInOrder(names: seq<string>, i: nat, j: nat)
    requires i < j < |Normalize(names)|
    ensures EarlierThan(TrimAll(names), Normalize(names)[i], Normalize(names)[j])
  {
    UnseenInOrder({}, TrimAll(names), i, j);
  }

  lemma {:induction false} UnseenOfDistinct(seen: set<string>, names: seq<string>)
    requires "" !in names && (forall n :: n in names ==> n !in seen)
    requires forall i, j :: 0 <= i < j < |names| ==> names[i] != names[j]
    ensures Unseen(seen, names) == names
    decreases |names|
  {
    if names != [] {
      UnseenOfDistinct(seen + {names[0]}, names[1..]);
    }
  }

  function Elements(names: seq<string>): set<string> {
    set n | n in names
  }

  function Filter(names: seq<string>, keep: string -> bool): seq<string> {
    if names == [] then []
    else if keep(names[0]) then [names[0]] + Filter(names[1..], keep)
    else Filter(names[1..], keep)
  }

  lemma {:induction false} FilterLaws(names: seq<string>, keep: string -> bool)
    ensures forall n :: n in Filter(names, keep) <==> n in names && keep(n)
    ensures Normal(names) ==> Normal(Filter(names, keep))
  {
    if names != [] {
      assert names == [names[0]] + names[1..];
      FilterLaws(names[1..], keep);
      var rest := Filter(names[1..], keep);
      if Normal(names) && keep(names[0]) {
        assert names[0] in names && names[0] !in names[1..];
        assert names[0] !in rest;
      }
    }
  }

  /** What a filter keeps stays in order. */
  lemma {:induction false} FilterInOrder(names: seq<string>, keep: string -> bool, i: nat, j: nat)
    returns (p: nat, q: nat)
    requires i < j < |Filter(names, keep)|
    ensures p < q < |names| && names[p] == Filter(names, keep)[i] && names[q] == Filter(names, keep)[j]
  {
    if !keep(names[0]) {
      p, q := FilterInOrder(names[1..], keep, i, j);
      p, q := p + 1, q + 1;
    } else if i > 0 {
      p, q := FilterInOrder(names[1..], keep, i - 1, j - 1);
      p, q := p + 1, q + 1;
    } else {
      FilterLaws(names[1..], keep);
      assert Filter(names, keep)[j] == Filter(names[1..], keep)[j - 1];
      assert Filter(names, keep)[j] in Filter(names[1..], keep);
      q :| q < |names[1..]| && names[1..][q] == Filter(names, keep)[j];
      p, q := 0, q + 1;
    }
  }

  /** mergeModelNames, as a function of its arguments. */
  function Merge(base: seq<string>, appended: seq<string>): seq<string> {
    var merged := Normalize(base);
    merged + Filter(Normalize(appended), n => n !in merged)
  }

  function Subtract(base: seq<string>, removed: seq<string>): seq<string> {
    var removeSet := Elements(Normalize(removed));
    Filter(Normalize(base), n => n !in removeSet)
  }

  function Intersect(base: seq<string>, allowed: seq<string>): seq<string> {
    var allowedSet := Elements(Normalize(allowed));
    Filter(Normalize(base), n => n in allowedSet)
  }

  function ApplySelected(origin: seq<string>, add: seq<string>, remove: seq<string>): seq<string> {
    var normalizedAdd := Normalize(add);
    Subtract(Merge(origin, normalizedAdd), Subtract(Normalize(remove), normalizedAdd))
  }

  lemma MergeLaws(base: seq<string>, appended: seq<string>)
    requires Normal(base) && Normal(appended)
    ensures Normal(Merge(base, appended))
    ensures forall n :: n in Merge(base, appended) <==> n in base || n in appended
  {
    NormalizeLaws(base);
    NormalizeLaws(appended);
    FilterLaws(appended, n => n !in base);
    var rest := Filter(appended, n => n !in base);
    assert Merge(base, appended) == base + rest;
    assert forall j :: 0 <= j < |rest| ==> rest[j] in rest;
  }

  lemma SubtractLaws(base: seq<string>, removed: seq<string>)
    requires Normal(base) && Normal(removed)
    ensures Normal(Subtract(base, removed))
    ensures forall n :: n in Subtract(base, removed) <==> n in base && n !in removed
  {
    NormalizeLaws(base);
    NormalizeLaws(removed);
    var removeSet := Elements(removed);
    FilterLaws(base, n => n !in removeSet);
  }

  lemma IntersectLaws(base: seq<string>, allowed: seq<string>)
    requires Normal(allowed)
    ensures Normal(Intersect(base, allowed))
    ensures forall n :: n in Intersect(base, allowed) <==> n in Normalize(base) && n in allowed
  {
    NormalizeLaws(base);
    NormalizeLaws(allowed);
    var allowedSet := Elements(allowed);
    FilterLaws(Normalize(base), n => n in allowedSet);
  }

  /** Add wins: a name survives if it is selected for addition, or was there and is not selected for removal. */
  lemma ApplySelectedLaws(origin: seq<string>, add: seq<string>, remove: seq<string>)
    requires Normal(origin) && Normal(add) && Normal(remove)
    ensures Normal(ApplySelected(origin, add, remove))
    ensures forall n :: n in ApplySelected(origin, add, remove) <==> n in add || (n in origin && n !in remove)
  {
    NormalizeLaws(add);
    NormalizeLaws(remove);
    MergeLaws(origin, add);
    SubtractLaws(remove, add);
    SubtractLaws(Merge(origin, add), Subtract(remove, add));
  }

  lemma FilterStep(done: seq<string>, names: seq<string>, i: nat, keep: string -> bool)
    requires i < |names|
    ensures done + Filter(names[i..], keep)
              == (if keep(names[i]) then done + [names[i]] else done) + Filter(names[i + 1..], keep)
  {
    assert names[i..][1..] == names[i + 1..];
  }

  /** The loop of mergeModelNames. */
  method MergeModelNames(base: seq<string>, appended: seq<string>) returns (merged: seq<string>)
    ensures merged == Merge(base, appended)
  {
    ghost var start := Normalize(base);
    merged := Normalize(base);
    var seen := Elements(merged);
    var names := Normalize(appended);
    NormalizeLaws(appended);
    ghost var keep := (n: string) => n !in start;
    assert Merge(base, appended) == start + Filter(names, keep);
    for i := 0 to |names|
      invariant merged + Filter(names[i..], keep) == Merge(base, appended)
      invariant forall n :: n in seen <==> n in start || n in names[..i]
    {
      assert names[..i + 1] == names[..i] + [names[i]];
      FilterStep(merged, names, i, keep);
      if names[i] !in seen {
        seen := seen + {names[i]};
        merged := merged + [names[i]];
      }
    }
  }

  // ----- Detecting changes -----------------------------------------------------

  /** Regular-expression matching (pattern, name) is a parameter of the model. */
  type Matcher = (string, string) -> bool

  predicate Hides(matches: Matcher, entry: string, name: string) {
    if HasPrefix(entry, "regex:") then matches(TrimSpace(entry[6..]), name) else entry == name
  }

  /** The name is hidden by an entry of the ignore list. */
  predicate Ignored(matches: Matcher, entries: seq<string>, name: string) {
    exists e :: e in entries && Hides(matches, e, name)
  }

  /** The channel's redirects: a source is a local alias of its upstream target. */
  type Mapping = map<string, string>

  /** The upstream name is already served: listed locally, or the target of a redirect. */
  predicate Covered(mapping: Mapping, local: seq<string>, name: string) {
    name in local || name in mapping.Values
  }

  function PendingAdd(matches: Matcher, mapping: Mapping, local: seq<string>, upstream: seq<string>,
                      ignored: seq<string>): seq<string> {
    Filter(upstream, n => !Covered(mapping, local, n) && !Ignored(matches, ignored, n))
  }

  function PendingRemove(mapping: Mapping, local: seq<string>, upstream: seq<string>): seq<string> {
    Filter(local, n => n !in mapping && n !in upstream)
  }

  /** collectPendingUpstreamModelChangesFromModels. */
  function Collect(matches: Matcher, mapping: Mapping, local: seq<string>, upstream: seq<string>,
                   ignored: seq<string>): (seq<string>, seq<string>) {
    var l, u, g := Normalize(local), Normalize(upstream), Normalize(ignored);
    (Normalize(PendingAdd(matches, mapping, l, u, g)), Normalize(PendingRemove(mapping, l, u)))
  }

  lemma CollectLaws(matches: Matcher, mapping: Mapping, local: seq<string>, upstream: seq<string>, ignored: seq<string>)
    ensures var (add, remove) := Collect(matches, mapping, local, upstream, ignored);
            && Normal(add) && Normal(remove)
            && (forall n :: n in add <==>
                  n in Normalize(upstream) && !Covered(mapping, Normalize(local), n)
                      && !Ignored(matches, Normalize(ignored), n))
            && (forall n :: n in remove <==> n in Normalize(local) && n !in mapping && n !in Normalize(upstream))
  {
    var l, u, g := Normalize(local), Normalize(upstream), Normalize(ignored);
    NormalizeLaws(local);
    NormalizeLaws(upstream);
    FilterLaws(u, n => !Covered(mapping, l, n) && !Ignored(matches, g, n));
    FilterLaws(l, n => n !in mapping && n !in u);
    NormalizeLaws(PendingAdd(matches, mapping, l, u, g));
    NormalizeLaws(PendingRemove(mapping, l, u));
  }

  /** What is pending, in terms of the names themselves. */
  lemma CollectMeans(matches: Matcher, mapping: Mapping, local: seq<string>, upstream: seq<string>,
                     ignored: seq<string>, n: string)
    ensures n in Collect(matches, mapping, local, upstream, ignored).0 <==>
            && n in TrimAll(upstream) && n != "" && n !in TrimAll(local)
            && (forall alias :: alias in mapping ==> mapping[alias] != n)
            && (forall e :: e in TrimAll(ignored) && e != "" ==>
                  if |e| >= 6 && e[..6] == "regex:" then !matches(TrimSpace(e[6..]), n) else e != n)
    ensures n in Collect(matches, mapping, local, upstream, ignored).1 <==>
            n in TrimAll(local) && n != "" && n !in mapping && n !in TrimAll(upstream)
  {
    CollectLaws(matches, mapping, local, upstream, ignored);
    NormalizeLaws(local);
    NormalizeLaws(upstream);
    NormalizeLaws(ignored);
    forall e | e in TrimAll(ignored)
      ensures Hides(matches, e, n) <==>
              if |e| >= 6 && e[..6] == "regex:" then matches(TrimSpace(e[6..]), n) else e == n
    {
      HidesMeans(matches, e, n);
    }
  }

  lemma HidesMeans(matches: Matcher, e: string, n: string)
    ensures Hides(matches, e, n) <==>
            if |e| >= 6 && e[..6] == "regex:" then matches(TrimSpace(e[6..]), n) else e == n
  {
    assert HasPrefix(e, "regex:") <==> |e| >= 6 && e[..6] == "regex:";
  }

  // ----- The channel -----------------------------------------------------------

  /** The fields of the channel's settings that this feature uses. */
  datatype Settings = Settings(
    ignored: seq<string>, detected: seq<string>, removed: seq<string>, lastCheck: int, autoSync: bool)

  /** Channel.GetModels. */
  function ModelsOf(text: string): seq<string> {
    if text == "" then [] else Fields(text, ',')
  }

  function LocalNames(text: string): seq<string> {
    Normalize(ModelsOf(text))
  }

  /** Stored names never contain the separator. */
  lemma LocalNamesAreCommaFree(text: string)
    ensures FreeOf(LocalNames(text), ',')
  {
    if text != "" {
      SplitIsFree(Trim(text, Is(',')), ',');
    }
    TrimAllLaws(ModelsOf(text), ',');
    NormalizeLaws(ModelsOf(text));
    var r := LocalNames(text);
    forall i | 0 <= i < |r|
      ensures ',' !in r[i]
    {
      assert r[i] in TrimAll(ModelsOf(text));
    }
  }

  /** A list of comma-free names is stored faithfully. */
  lemma StoredNames(names: seq<string>)
    requires Normal(names) && FreeOf(names, ',')
    ensures LocalNames(Join(names, ',')) == names
  {
    NormalizeLaws(names);
    if names != [] {
      assert names[0] in names && names[|names| - 1] in names;
      JoinEnds(names, ',');
      FieldsOfJoin(names, ',');
    }
  }

  /** What applying a selection does; the handler intersects the selection with what is pending. */
  datatype Outcome = Outcome(
    added: seq<string>, removed: seq<string>, models: seq<string>, ignored: seq<string>,
    remaining: seq<string>, remainingRemove: seq<string>)

  function Applied(local: seq<string>, s: Settings, addInput: seq<string>, ignoreInput: seq<string>,
                   removeInput: seq<string>): Outcome {
    var pendingAdd, pendingRemove := Normalize(s.detected), Normalize(s.removed);
    var add := Intersect(addInput, pendingAdd);
    var ignore := Intersect(ignoreInput, pendingAdd);
    var remove := Subtract(Intersect(removeInput, pendingRemove), add);
    var merged := Merge(s.ignored, ignore);
    Outcome(add, remove, ApplySelected(local, add, remove),
            if |add| > 0 then Subtract(merged, add) else merged,
            Subtract(pendingAdd, add + ignore), Subtract(pendingRemove, remove))
  }

  /** Every list of the outcome, as a set of the inputs. */
  lemma AppliedLaws(local: seq<string>, s: Settings, addInput: seq<string>, ignoreInput: seq<string>,
                    removeInput: seq<string>)
    requires Normal(local)
    ensures var o := Applied(local, s, addInput, ignoreInput, removeInput);
            && Normal(o.models) && Normal(o.added) && Normal(o.removed)
            && (forall n :: n in o.added <==> n in Normalize(addInput) && n in Normalize(s.detected))
            && (forall n :: n in o.removed <==>
                  n in Normalize(removeInput) && n in Normalize(s.removed) && n !in o.added)
            && (forall n :: n in o.models <==> n in o.added || (n in local && n !in o.removed))
    ensures var o := Applied(local, s, addInput, ignoreInput, removeInput);
            && Normal(o.ignored)
            && (forall n :: n in o.ignored <==>
                  (n in Normalize(s.ignored) || (n in Normalize(ignoreInput) && n in Normalize(s.detected)))
                      && n !in o.added)
            && (forall n :: n in o.remaining <==>
                  n in Normalize(s.detected) && n !in o.added && !(n in Normalize(ignoreInput)))
            && (forall n :: n in o.remainingRemove <==> n in Normalize(s.removed) && n !in o.removed)
  {
    var pendingAdd, pendingRemove := Normalize(s.detected), Normalize(s.removed);
    NormalizeLaws(s.detected);
    NormalizeLaws(s.removed);
    IntersectLaws(addInput, pendingAdd);
    IntersectLaws(ignoreInput, pendingAdd);
    IntersectLaws(removeInput, pendingRemove);
    var add := Intersect(addInput, pendingAdd);
    var ignore := Intersect(ignoreInput, pendingAdd);
    SubtractLaws(Intersect(removeInput, pendingRemove), add);
    var remove := Subtract(Intersect(removeInput, pendingRemove), add);
    ApplySelectedLaws(local, add, remove);
    MergeNormalized(s.ignored, ignore);
    SubtractLaws(Merge(s.ignored, ignore), add);
    SubtractAll(pendingAdd, add, ignore);
    SubtractLaws(pendingRemove, remove);
  }

  lemma MergeNormalized(base: seq<string>, appended: seq<string>)
    requires Normal(appended)
    ensures Normal(Merge(base, appended))
    ensures forall n :: n in Merge(base, appended) <==> n in Normalize(base) || n in appended
  {
    NormalizeLaws(base);
    NormalizeLaws(Normalize(base));
    MergeLaws(Normalize(base), appended);
  }

  lemma SubtractAll(base: seq<string>, a: seq<string>, b: seq<string>)
    requires Normal(base) && Normal(a) && Normal(b)
    ensures forall n :: n in Subtract(base, a + b) <==> n in base && n !in a && n !in b
  {
    NormalizeLaws(base);
    NormalizeLaws(a + b);
    TrimAllLaws(a + b, ',');
    assert AllTrimmed(a + b);
    var removeSet := Elements(Normalize(a + b));
    FilterLaws(base, n => n !in removeSet);
  }

  lemma {:induction false} FilterConcat(a: seq<string>, b: seq<string>, keep: string -> bool)
    ensures Filter(a + b, keep) == Filter(a, keep) + Filter(b, keep)
  {
    if a == [] {
      assert a + b == b;
    } else {
      assert (a + b)[1..] == a[1..] + b;
      FilterConcat(a[1..], b, keep);
    }
  }

  lemma {:induction false} KeepAll(names: seq<string>, keep: string -> bool)
    requires forall n :: n in names ==> keep(n)
    ensures Filter(names, keep) == names
  {
    if names != [] {
      KeepAll(names[1..], keep);
    }
  }

  lemma {:induction false} FilterAgree(names: seq<string>, keep: string -> bool, keep': string -> bool)
    requires forall n :: n in names ==> keep(n) == keep'(n)
    ensures Filter(names, keep) == Filter(names, keep')
  {
    if names != [] {
      FilterAgree(names[1..], keep, keep');
    }
  }

  /** The new models are the local ones that stay, in their order, and then the added ones in theirs. */
  lemma ModelsInOrder(local: seq<string>, add: seq<string>, remove: seq<string>)
    requires Normal(local) && Normal(add) && Normal(remove) && forall n :: n in remove ==> n !in add
    ensures ApplySelected(local, add, remove)
            == Filter(local, n => n !in remove) + Filter(add, n => n !in local)
  {
    NormalizeLaws(local);
    NormalizeLaws(add);
    NormalizeLaws(remove);
    var rest := Filter(add, n => n !in local);
    FilterLaws(add, n => n !in local);
    MergeLaws(local, add);
    SubtractLaws(remove, add);
    var merged, gone := Merge(local, add), Subtract(remove, add);
    NormalizeLaws(merged);
    NormalizeLaws(gone);
    var removeSet := Elements(gone);
    FilterConcat(local, rest, n => n !in removeSet);
    FilterAgree(local, n => n !in removeSet, n => n !in remove);
    KeepAll(rest, n => n !in removeSet);
  }

  // ----- What applying a selection guarantees ----------------------------------

  /**
   The lists computed from a selection lose nothing: an addition ends up in the models, on the ignore
   list or still pending, a removal is gone from the models or still pending. Add wins over remove and ignore.
   */
  lemma ListsLoseNothing(local: seq<string>, s: Settings, addInput: seq<string>, ignoreInput: seq<string>,
                         removeInput: seq<string>)
    requires Normal(local)
    ensures var o := Applied(local, s, addInput, ignoreInput, removeInput);
            && (forall n :: n in Normalize(s.detected) ==> n in o.models || n in o.ignored || n in o.remaining)
            && (forall n :: n in Normalize(s.removed) ==> n !in o.models || n in o.remainingRemove)
            && (forall n :: n in o.added ==> n in o.models && n !in o.ignored && n !in o.remaining && n !in o.removed)
            && (forall n :: n in o.remaining ==> n !in o.added && n in Normalize(s.detected))
            && (forall n :: n in local && n !in o.models ==> n in Normalize(removeInput) && n in Normalize(s.removed))
            && (forall n :: n in o.models && n !in local ==> n in Normalize(addInput) && n in Normalize(s.detected))
  {
    AppliedLaws(local, s, addInput, ignoreInput, removeInput);
  }

  /** The column and the settings after applying a selection. */
  function AfterApply(text: string, s: Settings, addInput: seq<string>, ignoreInput: seq<string>,
                      removeInput: seq<string>, now: int): (string, Settings) {
    var local := LocalNames(text);
    var o := Applied(local, s, addInput, ignoreInput, removeInput);
    (if local != o.models then Join(o.models, ',') else text,
     s.(ignored := o.ignored, detected := o.remaining, removed := o.remainingRemove, lastCheck := now))
  }

  /** What is stored after applying a selection: nothing pending is lost. */
  ghost predicate Conserved(text: string, s: Settings, text': string, s': Settings) {
    && (forall n :: n in Normalize(s.detected) ==> n in LocalNames(text') || n in s'.ignored || n in s'.detected)
    && (forall n :: n in Normalize(s.removed) ==> n !in LocalNames(text') || n in s'.removed)
  }

  /** What is stored after applying a selection: an addition wins over removing and over ignoring it. */
  ghost predicate AddWins(added: seq<string>, text': string, s': Settings) {
    forall n :: n in added ==> n in LocalNames(text') && n !in s'.ignored && n !in s'.detected
  }

  /** What is stored after applying a selection: names that were not selected stay as they were. */
  ghost predicate OthersKept(text: string, added: seq<string>, removed: seq<string>, text': string) {
    forall n :: n !in added && n !in removed ==> (n in LocalNames(text') <==> n in LocalNames(text))
  }

  /**
   In the column and the settings, too, applying a selection loses nothing pending, lets additions win
   and leaves other names alone, if and only if no added name contains the column's separator.
   */
  lemma NothingPendingIsLost(text: string, s: Settings, addInput: seq<string>, ignoreInput: seq<string>,
                             removeInput: seq<string>, now: int)
    ensures var (text', s') := AfterApply(text, s, addInput, ignoreInput, removeInput, now);
            var o := Applied(LocalNames(text), s, addInput, ignoreInput, removeInput);
            && (Conserved(text, s, text', s') <==> FreeOf(o.added, ','))
            && (AddWins(o.added, text', s') <==> FreeOf(o.added, ','))
            && (FreeOf(o.added, ',') ==> OthersKept(text, o.added, o.removed, text'))
  {
    var local := LocalNames(text);
    var (text', s') := AfterApply(text, s, addInput, ignoreInput, removeInput, now);
    var o := Applied(local, s, addInput, ignoreInput, removeInput);
    NormalizeLaws(ModelsOf(text));
    AppliedLaws(local, s, addInput, ignoreInput, removeInput);
    ListsLoseNothing(local, s, addInput, ignoreInput, removeInput);
    if FreeOf(o.added, ',') {
      StoredModels(text, o.added, o.models);
      assert LocalNames(text') == o.models;
    } else {
      var i :| 0 <= i < |o.added| && ',' in o.added[i];
      AddedCommaIsLost(text', o.added, i);
      assert o.added[i] in Normalize(s.detected) && o.added[i] !in o.ignored && o.added[i] !in o.remaining;
    }
  }

  /** A name with a comma is not found among the stored names. */
  lemma AddedCommaIsLost(text: string, added: seq<string>, i: nat)
    requires i < |added| && ',' in added[i]
    ensures added[i] in added && added[i] !in LocalNames(text)
  {
    LocalNamesAreCommaFree(text);
  }

  // ----- Convergence -----------------------------------------------------------

  /** An upstream name hidden only by ignore entries that are themselves pending additions. */
  predicate Unmasked(matches: Matcher, mapping: Mapping, local: seq<string>, ignored: seq<string>, add: seq<string>,
                     name: string) {
    && !Covered(mapping, local, name)
    && Ignored(matches, ignored, name)
    && forall e :: e in ignored && Hides(matches, e, name) ==> e in add
  }

  /** Convergence in terms of the names themselves, before they are stored as text. */
  lemma SecondDetection(matches: Matcher, mapping: Mapping, local: seq<string>, upstream: seq<string>,
                        ignored: seq<string>,
                        add: seq<string>, remove: seq<string>, models: seq<string>, ignored': seq<string>)
    requires forall n :: n in add <==> n in upstream && !Covered(mapping, local, n) && !Ignored(matches, ignored, n)
    requires forall n :: n in remove <==> n in local && n !in mapping && n !in upstream
    requires forall n :: n in models <==> n in add || (n in local && n !in remove)
    requires forall n :: n in ignored' <==> n in ignored && n !in add
    ensures forall n :: (n in upstream && !Covered(mapping, models, n) && !Ignored(matches, ignored', n))
                        <==> n in upstream && Unmasked(matches, mapping, local, ignored, add, n)
    ensures forall n :: n in models ==> n in mapping || n in upstream
  {
    forall n | n in upstream
      ensures !Covered(mapping, models, n) && !Ignored(matches, ignored', n)
              <==> Unmasked(matches, mapping, local, ignored, add, n)
    {
      assert Covered(mapping, models, n) <==> Covered(mapping, local, n) || n in add;
    }
  }

  /** A pending name with a comma is never found among the stored names, so it stays pending. */
  lemma CommaStaysPending(matches: Matcher, mapping: Mapping, text: string, upstream: seq<string>,
                          ignored: seq<string>, ignored': seq<string>, text': string, n: string)
    requires n in Collect(matches, mapping, ModelsOf(text), upstream, ignored).0 && ',' in n
    requires Normal(ignored') && forall e :: e in ignored' ==> e in Normalize(ignored)
    ensures n in Collect(matches, mapping, ModelsOf(text'), upstream, ignored').0
  {
    CollectLaws(matches, mapping, ModelsOf(text), upstream, ignored);
    CollectLaws(matches, mapping, ModelsOf(text'), upstream, ignored');
    NormalizeLaws(ignored');
    LocalNamesAreCommaFree(text');
    assert n !in LocalNames(text');
  }

  /** Applying everything that was just detected leaves the names and the ignore list one expects. */
  lemma AppliedAll(matches: Matcher, mapping: Mapping, local: seq<string>, s: Settings, upstream: seq<string>)
    requires Normal(local) && (s.detected, s.removed) == Collect(matches, mapping, local, upstream, s.ignored)
    ensures var o := Applied(local, s, s.detected, [], s.removed);
            && Normal(o.models) && Normal(o.ignored)
            && (forall n :: n in o.models <==> n in s.detected || (n in local && n !in s.removed))
            && (forall n :: n in o.ignored <==> n in Normalize(s.ignored) && n !in s.detected)
  {
    CollectLaws(matches, mapping, local, upstream, s.ignored);
    NormalizeLaws(local);
    NormalizeLaws(s.detected);
    NormalizeLaws(s.removed);
    NormalizeLaws([]);
    AppliedLaws(local, s, s.detected, [], s.removed);
  }

  lemma EmptyIffNoMember(s: seq<string>)
    ensures s == [] <==> forall n :: n !in s
  {
    if s != [] {
      assert s[0] in s;
    }
  }

  /**
   Detect, apply everything, detect again against the same upstream list: nothing is pending,
   exactly when no pending addition contains the column's separator and none of them is also an
   ignore entry that alone hides another upstream name.
   */
  lemma DetectApplyDetect(matches: Matcher, mapping: Mapping, text: string, s: Settings, upstream: seq<string>,
                          now: int)
    requires (s.detected, s.removed) == Collect(matches, mapping, ModelsOf(text), upstream, s.ignored)
    ensures var (text', s') := AfterApply(text, s, s.detected, [], s.removed, now);
            Collect(matches, mapping, ModelsOf(text'), upstream, s'.ignored) == ([], [])
            <==> FreeOf(s.detected, ',')
                 && forall u :: u in Normalize(upstream) ==>
                      !Unmasked(matches, mapping, LocalNames(text), Normalize(s.ignored), s.detected, u)
  {
    var local, up := LocalNames(text), Normalize(upstream);
    var (text', s') := AfterApply(text, s, s.detected, [], s.removed, now);
    var o := Applied(local, s, s.detected, [], s.removed);
    NormalizeLaws(ModelsOf(text));
    NormalizeLaws(local);
    CollectLaws(matches, mapping, ModelsOf(text), upstream, s.ignored);
    AppliedAll(matches, mapping, local, s, upstream);
    NormalizeLaws(o.ignored);
    if FreeOf(s.detected, ',') {
      StoredModels(text, s.detected, o.models);
      assert LocalNames(text') == o.models;
      SecondDetection(matches, mapping, local, up, Normalize(s.ignored), s.detected, s.removed, o.models, o.ignored);
      CollectLaws(matches, mapping, ModelsOf(text'), upstream, s'.ignored);
      var (add', remove') := Collect(matches, mapping, ModelsOf(text'), upstream, s'.ignored);
      EmptyIffNoMember(add');
      EmptyIffNoMember(remove');
    } else {
      var i :| 0 <= i < |s.detected| && ',' in s.detected[i];
      assert s.detected[i] in s.detected;
      CommaStaysPending(matches, mapping, text, upstream, s.ignored, s'.ignored, text', s.detected[i]);
    }
  }

  /** Storing local names and comma-free additions loses nothing. */
  lemma StoredModels(text: string, add: seq<string>, models: seq<string>)
    requires Normal(models) && FreeOf(add, ',') && forall n :: n in models ==> n in add || n in LocalNames(text)
    ensures LocalNames(Join(models, ',')) == models
  {
    LocalNamesAreCommaFree(text);
    forall i | 0 <= i < |models|
      ensures ',' !in models[i]
    {
      assert models[i] in models;
    }
    StoredNames(models);
  }

  /** Only a pending name that is itself a `regex:` entry can unmask another name. */
  lemma OnlyRegexNamesUnmask(matches: Matcher, mapping: Mapping, local: seq<string>, upstream: seq<string>,
                             ignored: seq<string>, add: seq<string>, u: string)
    requires forall n :: n in add <==> n in upstream && !Covered(mapping, local, n) && !Ignored(matches, ignored, n)
    requires u in upstream && forall n :: n in upstream ==> !HasPrefix(n, "regex:")
    ensures !Unmasked(matches, mapping, local, ignored, add, u)
  {
    if Ignored(matches, ignored, u) {
      var e :| e in ignored && Hides(matches, e, u);
      assert e in upstream ==> e == u;
    }
  }

  /**
   An upstream that lists a name which is also the ignore entry hiding another: applying all that was
   detected removes the entry, and the second detection finds the other name.
   */
  lemma HiddenNameReturns(matches: Matcher, s: Settings, entry: string, name: string, now: int)
    requires Normal([entry, name]) && s.ignored == [entry]
    requires Hides(matches, entry, name) && !Hides(matches, entry, entry)
    requires (s.detected, s.removed) == Collect(matches, map[], ModelsOf(""), [entry, name], s.ignored)
    ensures var (text', s') := AfterApply("", s, s.detected, [], s.removed, now);
            Collect(matches, map[], ModelsOf(text'), [entry, name], s'.ignored) != ([], [])
  {
    var upstream := [entry, name];
    assert entry in upstream && name in upstream && entry in s.ignored;
    NormalizeLaws(upstream);
    assert Normal(s.ignored) by {
      assert [entry, name][0] == entry;
    }
    NormalizeLaws(s.ignored);
    CollectLaws(matches, map[], ModelsOf(""), upstream, s.ignored);
    assert entry in s.detected;
    assert Unmasked(matches, map[], LocalNames(""), Normalize(s.ignored), s.detected, name);
    DetectApplyDetect(matches, map[], "", s, upstream, now);
  }

  /** For instance `regex:^foo$`, which hides "foo" but not itself. */
  lemma HiddenNameExample(matches: Matcher)
    requires forall pattern, name :: matches(pattern, name) <==> name == "foo"
    ensures var entry, name := "regex:^foo$", "foo";
            Normal([entry, name]) && Hides(matches, entry, name) && !Hides(matches, entry, entry)
  {
    TrimFixed("regex:^foo$", IsSpace);
    TrimFixed("foo", IsSpace);
    assert "regex:^foo$"[..6] == "regex:";
    assert "regex:^foo$"[0] != "foo"[0];
  }

  // ----- The handlers ----------------------------------------------------------

  class Channel {
    const matches: Matcher
    const mapping: Mapping
    var models: string
    var settings: Settings

    constructor (matches: Matcher, mapping: Mapping, models: string, settings: Settings)
      ensures this.matches == matches && this.mapping == mapping && this.models == models && this.settings == settings
    {
      this.matches, this.mapping, this.models, this.settings := matches, mapping, models, settings;
    }

    /** applyChannelUpstreamModelUpdates. */
    method Apply(addInput: seq<string>, ignoreInput: seq<string>, removeInput: seq<string>, now: int)
      returns (added: seq<string>, removed: seq<string>, remaining: seq<string>, remainingRemove: seq<string>,
          modelsChanged: bool)
      modifies this
      ensures (models, settings) == AfterApply(old(models), old(settings), addInput, ignoreInput, removeInput, now)
      ensures var o := Applied(LocalNames(old(models)), old(settings), addInput, ignoreInput, removeInput);
              && added == o.added && removed == o.removed && remaining == o.remaining
                  && remainingRemove == o.remainingRemove
              && modelsChanged == (o.models != LocalNames(old(models)))
      ensures settings.lastCheck == now && settings.autoSync == old(settings.autoSync)
      ensures settings.detected == remaining && settings.removed == remainingRemove
      ensures !modelsChanged ==> models == old(models)
      ensures modelsChanged ==>
                models == Join(Filter(LocalNames(old(models)), n => n !in removed)
                               + Filter(added, n => n !in LocalNames(old(models))), ',')
    {
      var pendingAdd, pendingRemove := Normalize(settings.detected), Normalize(settings.removed);
      added := Intersect(addInput, pendingAdd);
      var ignore := Intersect(ignoreInput, pendingAdd);
      removed := Intersect(removeInput, pendingRemove);
      removed := Subtract(removed, added);
      var origin := LocalNames(models);
      var next := ApplySelected(origin, added, removed);
      modelsChanged := origin != next;
      NormalizeLaws(ModelsOf(models));
      AppliedLaws(origin, settings, addInput, ignoreInput, removeInput);
      ModelsInOrder(origin, added, removed);
      if modelsChanged {
        models := Join(next, ',');
      }
      var ignored := MergeModelNames(settings.ignored, ignore);
      if |added| > 0 {
        ignored := Subtract(ignored, added);
      }
      remaining := Subtract(pendingAdd, added + ignore);
      remainingRemove := Subtract(pendingRemove, removed);
      settings := settings.(ignored := ignored, detected := remaining, removed := remainingRemove, lastCheck := now);
    }

    /**
     checkAndPersistChannelUpstreamModelUpdates; `fetched` is the upstream's list, or None when
     it could not be fetched.
     */
    method CheckAndPersist(now: int, force: bool, minInterval: int, allowAutoApply: bool, fetched: Option<seq<string>>)
      returns (modelsChanged: bool, autoAdded: nat, ok: bool)
      modifies this
      ensures var last := old(settings.lastCheck);
              var tooSoon := !force && last > 0 && now - last < minInterval;
              tooSoon || fetched.None? ==>
                && !modelsChanged && autoAdded == 0 && models == old(models)
                && if tooSoon then ok && settings == old(settings)
                   else !ok && settings == old(settings).(lastCheck := now)
      ensures var last := old(settings.lastCheck);
              !(!force && last > 0 && now - last < minInterval) && fetched.Some? ==>
                var (add, remove) := Collect(matches, mapping, ModelsOf(old(models)), fetched.value,
                    old(settings.ignored));
                var synced := allowAutoApply && old(settings.autoSync) && add != [];
                && ok && modelsChanged == synced && autoAdded == (if synced then |add| else 0)
                && models == (if synced then Join(LocalNames(old(models)) + add, ',') else old(models))
                && settings == old(settings).(lastCheck := now, removed := remove,
                                              detected := if synced then [] else add)
    {
      modelsChanged, autoAdded, ok := false, 0, true;
      if !force {
        if settings.lastCheck > 0 && now - settings.lastCheck < minInterval {
          return;
        }
      }
      settings := settings.(lastCheck := now);
      if fetched.None? {
        ok := false;
        return;
      }
      var (add, remove) := Collect(matches, mapping, ModelsOf(models), fetched.value, settings.ignored);
      if allowAutoApply && settings.autoSync && |add| > 0 {
        var origin := LocalNames(models);
        var merged := MergeModelNames(origin, add);
        AutoAddedCount(matches, mapping, models, fetched.value, settings.ignored);
        if |merged| > |origin| {
          models := Join(merged, ',');
          autoAdded := |merged| - |origin|;
          modelsChanged := true;
        }
        settings := settings.(detected := []);
      } else {
        settings := settings.(detected := add);
      }
      settings := settings.(removed := remove);
    }
  }

  /** None of the pending additions is already listed, so merging adds them all. */
  lemma AutoAddedCount(matches: Matcher, mapping: Mapping, text: string, upstream: seq<string>, ignored: seq<string>)
    ensures var add := Collect(matches, mapping, ModelsOf(text), upstream, ignored).0;
            Merge(LocalNames(text), add) == LocalNames(text) + add
  {
    var local := LocalNames(text);
    var add := Collect(matches, mapping, ModelsOf(text), upstream, ignored).0;
    CollectLaws(matches, mapping, ModelsOf(text), upstream, ignored);
    NormalizeLaws(ModelsOf(text));
    NormalizeLaws(local);
    NormalizeLaws(add);
    KeepAll(add, n => n !in local);
  }

  /** After an automatic sync no addition is pending any more, exactly when none of the names contains a comma. */
  lemma AutoSyncConverges(matches: Matcher, mapping: Mapping, text: string, upstream: seq<string>, ignored: seq<string>)
    ensures var add := Collect(matches, mapping, ModelsOf(text), upstream, ignored).0;
            var text' := Join(Merge(LocalNames(text), add), ',');
            Collect(matches, mapping, ModelsOf(text'), upstream, ignored).0 == [] <==> FreeOf(add, ',')
  {
    var local := LocalNames(text);
    var add := Collect(matches, mapping, ModelsOf(text), upstream, ignored).0;
    var merged := Merge(local, add);
    var text' := Join(merged, ',');
    CollectLaws(matches, mapping, ModelsOf(text), upstream, ignored);
    CollectLaws(matches, mapping, ModelsOf(text'), upstream, ignored);
    NormalizeLaws(ModelsOf(text));
    MergeLaws(local, add);
    if FreeOf(add, ',') {
      StoredModels(text, add, merged);
      EmptyIffNoMember(Collect(matches, mapping, ModelsOf(text'), upstream, ignored).0);
    } else {
      var i :| 0 <= i < |add| && ',' in add[i];
      assert add[i] in add;
      LocalNamesAreCommaFree(text');
      assert add[i] !in LocalNames(text');
    }
  }
}
