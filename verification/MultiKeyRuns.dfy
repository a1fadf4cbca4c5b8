/**
 Whole runs of a multi-key channel. As long as every key is an ordinary line of text,
 a channel with its trimmed text column and its three position-indexed maps behaves, over
 every sequence of requests, exactly like a list of cells together with the notes left over
 beyond the end of the list. What the key page shows is a projection of that list.
 */
module MultiKeyRuns {
  import opened Basics
  import opened Text
  import opened MultiKeyChannel
  import Spans

  /** One request; the keys to append or to store are already split into lines. */
  datatype Request =
    | Disable(index: Option<int>)
    | Enable(index: Option<int>)
    | EnableAll
    | DisableAll
    | Delete(index: Option<int>)
    | DeleteDisabled
    | Append(newKeys: seq<string>)
    | Replace(newKeys: seq<string>)
    | Relay(usingKey: string, status: int, reason: string, now: int)

  /** The cells of the keys, and the notes stored for positions beyond them. */
  datatype Listing = Listing(cells: seq<Cell>, beyond: map<int, Note>)

  function NotesFrom(info: ChannelInfo, n: int): map<int, Note> {
    map i | i in info.time.Keys + info.reason.Keys && i >= n :: NoteAt(info, i)
  }

  function ListingOf(keys: seq<string>, info: ChannelInfo): Listing {
    Listing(Cells(keys, info), NotesFrom(info, |keys|))
  }

  function KeysIn(cells: seq<Cell>): (r: seq<string>)
    ensures |r| == |cells|
  {
    seq(|cells|, i requires 0 <= i < |cells| => cells[i].key)
  }

  // ----- What a request does to the list ---------------------------------------

  predicate InRange<T>(v: seq<T>, index: Option<int>) {
    index.Some? && 0 <= index.value < |v|
  }

  function Plain(key: string): Cell {
    Cell(key, ENABLED, NOTHING)
  }

  function PlainCells(keys: seq<string>): (r: seq<Cell>)
    ensures |r| == |keys|
  {
    seq(|keys|, i requires 0 <= i < |keys| => Plain(keys[i]))
  }

  function Disabled(c: Cell): Cell {
    if c.status == ENABLED then c.(status := MANUALLY_DISABLED) else c
  }

  function AllDisabled(cells: seq<Cell>): (r: seq<Cell>)
    ensures |r| == |cells|
  {
    seq(|cells|, i requires 0 <= i < |cells| => Disabled(cells[i]))
  }

  function NoteBeyond(s: Listing, i: int): Note {
    if i in s.beyond then s.beyond[i] else NOTHING
  }

  /** The cell of position `i` under a new key: status and note belong to the position. */
  function Rekeyed(s: Listing, key: string, i: nat): Cell {
    if i < |s.cells| then s.cells[i].(key := key) else Cell(key, ENABLED, NoteBeyond(s, i))
  }

  /** The list with other keys: a shorter list leaves its notes behind, a longer one picks them up. */
  function WithKeys(s: Listing, keys: seq<string>): Listing {
    var n := |keys|;
    Listing(seq(n, i requires 0 <= i < n => Rekeyed(s, keys[i], i)),
            (map i | i in s.beyond && i >= n :: s.beyond[i])
            + (map i | n <= i < |s.cells| && s.cells[i].note != NOTHING :: s.cells[i].note))
  }

  /** A status report on a key; re-enabling it leaves the note. */
  function Reported(c: Cell, status: int, reason: string, now: int): Cell {
    if status == ENABLED then c.(status := ENABLED) else Cell(c.key, status, Note(Some(now), Some(reason)))
  }

  /** Whether the request is answered with success. */
  predicate Accepted(s: Listing, r: Request) {
    match r
    case Disable(index) => InRange(s.cells, index)
    case Enable(index) => InRange(s.cells, index)
    case DisableAll => exists i :: 0 <= i < |s.cells| && s.cells[i].status == ENABLED
    case Delete(index) => InRange(s.cells, index) && |s.cells| > 1
    case DeleteDisabled => AnyAutoDisabled(s.cells)
    case Relay(usingKey, _, _, _) => usingKey in KeysIn(s.cells)
    case _ => true
  }

  /** The list after an accepted request. */
  function Changed(s: Listing, r: Request): Listing
    requires Accepted(s, r)
  {
    var keys := KeysIn(s.cells);
    match r
    case Disable(index) => s.(cells := s.cells[index.value := s.cells[index.value].(status := MANUALLY_DISABLED)])
    case Enable(index) => s.(cells := s.cells[index.value := Plain(s.cells[index.value].key)])
    case EnableAll => Listing(PlainCells(keys), map[])
    case DisableAll => s.(cells := AllDisabled(s.cells))
    case Delete(index) => Listing(RemoveAt(s.cells, index.value), map[])
    case DeleteDisabled =>
      // When nothing would be left the keys stay and come back enabled.
      var kept := KeptCells(s.cells);
      Listing(if kept == [] then PlainCells(keys) else kept, map[])
    case Append(newKeys) => WithKeys(s, keys + Added(keys, newKeys))
    case Replace(newKeys) => if newKeys == [] then s else WithKeys(s, newKeys)
    case Relay(usingKey, status, reason, now) =>
      var i := FirstIndex(keys, usingKey);
      if i < |keys| then s.(cells := s.cells[i := Reported(s.cells[i], status, reason, now)]) else s
  }

  function Next(s: Listing, r: Request): Listing {
    if Accepted(s, r) then Changed(s, r) else s
  }

  function NextAll(s: Listing, requests: seq<Request>): Listing {
    if requests == [] then s else Next(NextAll(s, requests[..|requests| - 1]), requests[|requests| - 1])
  }

  /** Which of the requests are answered with success. */
  function Answers(s: Listing, requests: seq<Request>): seq<bool> {
    if requests == [] then []
    else
      var init, r := requests[..|requests| - 1], requests[|requests| - 1];
      Answers(s, init) + [Accepted(NextAll(s, init), r)]
  }

  lemma Snoc(s: Listing, requests: seq<Request>, r: Request)
    ensures NextAll(s, requests + [r]) == Next(NextAll(s, requests), r)
    ensures Answers(s, requests + [r]) == Answers(s, requests) + [Accepted(NextAll(s, requests), r)]
  {
    assert (requests + [r])[..|requests|] == requests;
  }

  // ----- Ordinary keys ---------------------------------------------------------

  /** A single line that starts with neither a space nor the bracket of a JSON array. */
  predicate PlainKey(k: string) {
    k != "" && '\n' !in k && !IsSpace(k[0]) && k[0] != '['
  }

  ghost predicate PlainKeys(keys: seq<string>) {
    keys != [] && forall i :: 0 <= i < |keys| ==> PlainKey(keys[i])
  }

  /** Every key the request brings is an ordinary one. */
  ghost predicate PlainRequest(r: Request) {
    && (r.Append? ==> FreeOf(r.newKeys, '\n')
                      && forall i :: 0 <= i < |r.newKeys| ==> !HasPrefix(TrimSpace(r.newKeys[i]), "["))
    && (r.Replace? ==> r.newKeys == [] || PlainKeys(r.newKeys))
  }

  /** A text that starts like an ordinary key is not taken for a JSON array. */
  lemma PlainStart(text: string)
    requires text != "" && !IsSpace(text[0]) && text[0] != '['
    ensures !LooksLikeArray(text)
  {
    TrimRightLaws(text, IsSpace);
    assert TrimLeft(text, IsSpace) == text;
  }

  /** Ordinary keys survive being written as lines. */
  lemma PlainKeysReadBack(decode: Decoder, keys: seq<string>)
    requires PlainKeys(keys)
    ensures Join(keys, '\n') != "" && !LooksLikeArray(Join(keys, '\n'))
    ensures PlainLines(decode, keys) && SolidEnds(keys) && KeysOf(decode, Join(keys, '\n')) == keys
  {
    JoinEnds(keys, '\n');
    PlainStart(Join(keys, '\n'));
    KeysOfLines(decode, keys);
  }

  lemma AddedArePlain(existing: seq<string>, newKeys: seq<string>)
    requires PlainKeys(existing) && PlainRequest(Append(newKeys))
    ensures PlainKeys(existing + Added(existing, newKeys))
  {
    AddedIsExact(existing, newKeys);
    var added := Added(existing, newKeys);
    forall i | 0 <= i < |added|
      ensures PlainKey(added[i])
    {
      assert added[i] in added;
      var j :| 0 <= j < |newKeys| && TrimAll(newKeys)[j] == added[i];
      TrimLaws(newKeys[j], IsSpace);
      TrimSpaceLaws(newKeys[j], '\n');
    }
  }

  // ----- The channel follows the list ------------------------------------------

  /** The text column holds ordinary keys as lines. */
  ghost predicate Ordinary(ch: Channel)
    reads ch
  {
    ch.Valid() && ch.key != "" && !LooksLikeArray(ch.key) && PlainKeys(ch.Keys())
  }

  /** Everything the channel stores about its keys. */
  ghost function Content(ch: Channel): Listing
    reads ch
  {
    ListingOf(ch.Keys(), ch.info)
  }

  /** The key page shows a projection of what is stored. */
  lemma ViewIsShown(ch: Channel)
    ensures ch.View() == ShownAll(Content(ch).cells)
  {
  }

  lemma SizeIsKeyCount(ch: Channel)
    requires Ordinary(ch)
    ensures ch.info.size == |ch.Keys()| == |Content(ch).cells| && KeysIn(Content(ch).cells) == ch.Keys()
  {
    CountsAgree(ch.decode, ch.key);
  }

  /** The request was answered and stored as on the list. */
  twostate predicate Follows(ch: Channel, r: Request, ok: bool)
    reads ch
  {
    Ordinary(ch) && ok == Accepted(old(Content(ch)), r) && Content(ch) == Next(old(Content(ch)), r)
  }

  method DisableOne(ch: Channel, index: Option<int>) returns (ok: bool)
    requires Ordinary(ch)
    modifies ch
    ensures Follows(ch, Disable(index), ok)
  {
    SizeIsKeyCount(ch);
    var reply := ch.DisableKey(index);
    ok := reply.Done?;
  }

  lemma EnabledListing(keys: seq<string>, info: ChannelInfo, i: nat, info': ChannelInfo)
    requires i < |keys| && info'.status == info.status - {i}
    requires info'.time == info.time - {i} && info'.reason == info.reason - {i}
    ensures var s := ListingOf(keys, info); ListingOf(keys, info') == s.(cells := s.cells[i := Plain(keys[i])])
  {
  }

  method EnableOne(ch: Channel, index: Option<int>) returns (ok: bool)
    requires Ordinary(ch)
    modifies ch
    ensures Follows(ch, Enable(index), ok)
  {
    SizeIsKeyCount(ch);
    ghost var keys, info := ch.Keys(), ch.info;
    var reply := ch.EnableKey(index);
    ok := reply.Done?;
    if ok {
      EnabledListing(keys, info, index.value, ch.info);
    }
  }

  lemma ClearedListing(keys: seq<string>, info: ChannelInfo)
    requires info.status == map[] && info.time == map[] && info.reason == map[]
    ensures ListingOf(keys, info) == Listing(PlainCells(keys), map[])
  {
  }

  method EnableEvery(ch: Channel) returns (ok: bool)
    requires Ordinary(ch)
    modifies ch
    ensures Follows(ch, EnableAll, ok)
  {
    SizeIsKeyCount(ch);
    var count := ch.EnableAllKeys();
    ClearedListing(ch.Keys(), ch.info);
    ok := true;
  }

  lemma AllDisabledListing(keys: seq<string>, info: ChannelInfo, info': ChannelInfo)
    requires info'.time == info.time && info'.reason == info.reason
    requires forall i :: 0 <= i < |keys| ==>
               StatusAt(info', i) == if StatusAt(info, i) == ENABLED then MANUALLY_DISABLED else StatusAt(info, i)
    ensures var s := ListingOf(keys, info); ListingOf(keys, info') == s.(cells := AllDisabled(s.cells))
  {
  }

  method DisableEvery(ch: Channel) returns (ok: bool)
    requires Ordinary(ch)
    modifies ch
    ensures Follows(ch, DisableAll, ok)
  {
    SizeIsKeyCount(ch);
    ghost var keys, info := ch.Keys(), ch.info;
    var reply, count := ch.DisableAllKeys();
    ok := reply.Done?;
    AllDisabledListing(keys, info, ch.info);
    ghost var cells := Cells(keys, info);
    assert forall i :: 0 <= i < |keys| ==> cells[i].status == StatusAt(info, i);
  }

  lemma RemovedArePlain(keys: seq<string>, i: nat)
    requires PlainKeys(keys) && i < |keys| && |keys| > 1
    ensures PlainKeys(RemoveAt(keys, i))
  {
    var rest := RemoveAt(keys, i);
    assert |rest| == |keys| - 1;
    forall j | 0 <= j < |rest|
      ensures PlainKey(rest[j])
    {
      assert rest[j] == keys[if j < i then j else j + 1];
    }
  }

  lemma NothingBeyond(info: ChannelInfo, n: int)
    requires Below(info, n)
    ensures NotesFrom(info, n) == map[]
  {
  }

  /** The shortened list is stored as it is. */
  lemma RemovedPromise(decode: Decoder, keys: seq<string>, text: string, i: nat)
    requires PlainKeys(keys) && i < |keys| && |keys| > 1
    ensures var rest := RemoveAt(keys, i);
            && PlainKeys(rest) && KeysOf(decode, Written(text, rest)) == rest
            && Written(text, rest) != "" && !LooksLikeArray(Written(text, rest))
  {
    RemovedArePlain(keys, i);
    PlainKeysReadBack(decode, RemoveAt(keys, i));
  }

  method DeleteOne(ch: Channel, index: Option<int>) returns (ok: bool)
    requires Ordinary(ch)
    modifies ch
    ensures Follows(ch, Delete(index), ok)
  {
    SizeIsKeyCount(ch);
    ghost var s := Content(ch);
    assert Accepted(s, Delete(index)) <==> ch.Accepts(index) && RemoveAt(ch.Keys(), index.value) != [];
    if Accepted(s, Delete(index)) {
      RemovedPromise(ch.decode, ch.Keys(), ch.key, index.value);
    }
    var reply := ch.DeleteKey(index);
    ok := reply.Done?;
    if ok {
      NothingBeyond(ch.info, |ch.Keys()|);
    }
  }

  /** What delete_disabled_keys promises about the view, in terms of the cells. */
  lemma KeptPromise(decode: Decoder, cells: seq<Cell>, text: string) returns (rest: seq<string>)
    requires PlainKeys(KeysIn(cells))
    ensures rest == KeyNames(WithoutAutoDisabled(ShownAll(cells))) == KeysIn(KeptCells(cells))
    ensures WithoutAutoDisabled(ShownAll(cells)) == [] <==> KeptCells(cells) == []
    ensures WithoutAutoDisabled(ShownAll(cells)) != ShownAll(cells) <==> AnyAutoDisabled(cells)
    ensures rest != [] ==>
              PlainKeys(rest) && KeysOf(decode, Written(text, rest)) == rest
              && Written(text, rest) != "" && !LooksLikeArray(Written(text, rest))
  {
    rest := KeysIn(KeptCells(cells));
    KeptKeys(cells);
    if rest != [] {
      KeptArePlain(cells);
      PlainKeysReadBack(decode, rest);
    }
  }

  /** What the text and the maps that delete_disabled_keys stores amount to. */
  lemma KeptStored(decode: Decoder, s: Listing, text: string, text': string, info: ChannelInfo)
    requires text != "" && !LooksLikeArray(text) && PlainKeys(KeysOf(decode, text))
    requires KeysIn(s.cells) == KeysOf(decode, text) && AnyAutoDisabled(s.cells)
    requires text' == Written(text, KeysIn(KeptCells(s.cells)))
    requires KeptCells(s.cells) == [] ==>
               text' == text && info.status == map[] && info.time == map[] && info.reason == map[]
    requires var keys := KeysOf(decode, text');
             keys != [] && keys == KeysIn(KeptCells(s.cells)) ==>
               Cells(keys, info) == KeptCells(s.cells) && Below(info, |keys|)
    ensures text' != "" && !LooksLikeArray(text') && PlainKeys(KeysOf(decode, text'))
    ensures ListingOf(KeysOf(decode, text'), info) == Next(s, DeleteDisabled)
  {
    var rest := KeptPromise(decode, s.cells, text);
    KeptContent(s, KeysOf(decode, text'), info);
  }

  method DeleteAutoDisabled(ch: Channel) returns (ok: bool)
    requires Ordinary(ch)
    modifies ch
    ensures Follows(ch, DeleteDisabled, ok)
  {
    SizeIsKeyCount(ch);
    ViewIsShown(ch);
    ghost var s, text := Content(ch), ch.key;
    KeptKeys(s.cells);
    var reply, count := ch.DeleteDisabledKeys();
    ok := reply.Done?;
    if ok {
      KeptStored(ch.decode, s, text, ch.key, ch.info);
    }
  }

  lemma KeptContent(s: Listing, keys: seq<string>, info: ChannelInfo)
    requires AnyAutoDisabled(s.cells)
    requires if KeptCells(s.cells) != [] then Cells(keys, info) == KeptCells(s.cells) && Below(info, |keys|)
             else keys == KeysIn(s.cells) && info.status == map[] && info.time == map[] && info.reason == map[]
    ensures ListingOf(keys, info) == Next(s, DeleteDisabled)
  {
    if KeptCells(s.cells) != [] {
      NothingBeyond(info, |keys|);
    } else {
      ClearedListing(keys, info);
    }
  }

  lemma ShownKeyNames(cells: seq<Cell>)
    ensures KeyNames(ShownAll(cells)) == KeysIn(cells)
  {
  }

  /** Filtering the cells and filtering what is shown of them keep the same keys. */
  lemma KeptKeys(cells: seq<Cell>)
    ensures KeyNames(WithoutAutoDisabled(ShownAll(cells))) == KeysIn(KeptCells(cells))
    ensures WithoutAutoDisabled(ShownAll(cells)) == [] <==> KeptCells(cells) == []
    ensures WithoutAutoDisabled(ShownAll(cells)) != ShownAll(cells) <==> AnyAutoDisabled(cells)
  {
    ShownKept(cells);
    ShownKeyNames(KeptCells(cells));
    AnyChanges(cells);
  }

  predicate AnyAutoDisabled(cells: seq<Cell>) {
    exists i :: 0 <= i < |cells| && cells[i].status == AUTO_DISABLED
  }

  lemma AnyChanges(cells: seq<Cell>)
    ensures WithoutAutoDisabled(ShownAll(cells)) != ShownAll(cells) <==> AnyAutoDisabled(cells)
  {
    var rs := ShownAll(cells);
    FilterChanges(rs);
    forall i | 0 <= i < |cells|
      ensures rs[i].status == cells[i].status
    {
      assert rs[i] == Shown(cells[i]);
    }
  }

  lemma {:induction false} FilterChanges(rs: seq<Record>)
    ensures WithoutAutoDisabled(rs) != rs <==> exists i :: 0 <= i < |rs| && rs[i].status == AUTO_DISABLED
    ensures |WithoutAutoDisabled(rs)| <= |rs|
  {
    if rs != [] {
      var init := rs[..|rs| - 1];
      FilterChanges(init);
      NoneDropped(init);
      assert rs == init + [rs[|rs| - 1]];
      assert (exists i :: 0 <= i < |init| && init[i].status == AUTO_DISABLED)
        ==> exists i :: 0 <= i < |rs| && rs[i].status == AUTO_DISABLED;
    }
  }

  lemma KeptArePlain(cells: seq<Cell>)
    requires PlainKeys(KeysIn(cells)) && KeptCells(cells) != []
    ensures PlainKeys(KeysIn(KeptCells(cells)))
  {
    var at := KeptEmbeds(cells);
  }

  lemma RekeyedNotes(keys: seq<string>, info: ChannelInfo, keys': seq<string>)
    ensures NotesFrom(info, |keys'|) == WithKeys(ListingOf(keys, info), keys').beyond
  {
  }

  lemma RekeyedCell(keys: seq<string>, info: ChannelInfo, key: string, i: nat)
    requires forall j :: j in info.status ==> 0 <= j < |keys|
    ensures Rekeyed(ListingOf(keys, info), key, i) == CellAt(key, info, i)
  {
  }

  /** Other keys under the same maps, once the status of positions that are gone has been pruned. */
  lemma RekeyedListing(keys: seq<string>, info: ChannelInfo, keys': seq<string>, info': ChannelInfo)
    requires forall i :: i in info.status ==> 0 <= i < |keys|
    requires info'.time == info.time && info'.reason == info.reason
    requires info'.status == map i | i in info.status && i < |keys'| :: info.status[i]
    ensures ListingOf(keys', info') == WithKeys(ListingOf(keys, info), keys')
  {
    RekeyedNotes(keys, info, keys');
    forall i | 0 <= i < |keys'|
      ensures CellAt(keys'[i], info', i) == Rekeyed(ListingOf(keys, info), keys'[i], i)
    {
      RekeyedCell(keys, info, keys'[i], i);
    }
    assert Cells(keys', info') == WithKeys(ListingOf(keys, info), keys').cells;
  }

  method AppendLines(ch: Channel, newKeys: seq<string>) returns (ok: bool)
    requires Ordinary(ch) && PlainRequest(Append(newKeys))
    modifies ch
    ensures Follows(ch, Append(newKeys), ok)
  {
    SizeIsKeyCount(ch);
    ghost var keys, info := ch.Keys(), ch.info;
    ghost var all := keys + Added(keys, newKeys);
    AddedArePlain(keys, newKeys);
    PlainKeysReadBack(ch.decode, all);
    ch.AppendKeys("", newKeys);
    CountsAgree(ch.decode, ch.key);
    RekeyedListing(keys, info, all, ch.info);
    ok := true;
  }

  method ReplaceLines(ch: Channel, newKeys: seq<string>) returns (ok: bool)
    requires Ordinary(ch) && PlainRequest(Replace(newKeys))
    modifies ch
    ensures Follows(ch, Replace(newKeys), ok)
  {
    SizeIsKeyCount(ch);
    ghost var keys, info := ch.Keys(), ch.info;
    if newKeys != [] {
      PlainKeysReadBack(ch.decode, newKeys);
    }
    ch.ReplaceKeys(Join(newKeys, '\n'));
    CountsAgree(ch.decode, ch.key);
    if newKeys != [] {
      RekeyedListing(keys, info, newKeys, ch.info);
    } else {
      assert ch.info.status == info.status;
    }
    ok := true;
  }

  lemma ReportedCells(keys: seq<string>, info: ChannelInfo, i: nat, info': ChannelInfo, c: Cell)
    requires i < |keys| && CellAt(keys[i], info', i) == c
    requires forall j :: j != i ==> StatusAt(info', j) == StatusAt(info, j) && NoteAt(info', j) == NoteAt(info, j)
    ensures Cells(keys, info') == Cells(keys, info)[i := c] && NotesFrom(info', |keys|) == NotesFrom(info, |keys|)
  {
    forall j | j >= |keys|
      ensures j in info.time.Keys + info.reason.Keys <==> j in info'.time.Keys + info'.reason.Keys
    {
      assert NoteAt(info', j) == NoteAt(info, j);
    }
  }

  lemma ReportedListing(keys: seq<string>, info: ChannelInfo, usingKey: string, status: int, reason: string, now: int)
    ensures ListingOf(keys, AfterRelay(info, keys, usingKey, status, reason, now))
            == Next(ListingOf(keys, info), Relay(usingKey, status, reason, now))
  {
    var s, info' := ListingOf(keys, info), AfterRelay(info, keys, usingKey, status, reason, now);
    assert KeysIn(s.cells) == keys;
    FirstIndexBelow(keys, usingKey);
    var i := FirstIndex(keys, usingKey);
    if i < |keys| {
      ReportedCells(keys, info, i, info', Reported(s.cells[i], status, reason, now));
    }
  }

  lemma {:induction false} FirstIndexBelow(keys: seq<string>, key: string)
    ensures FirstIndex(keys, key) <= |keys|
    ensures FirstIndex(keys, key) < |keys| <==> key in keys
  {
    if keys != [] && keys[0] != key {
      assert keys == [keys[0]] + keys[1..];
      FirstIndexBelow(keys[1..], key);
    }
  }

  method Report(ch: Channel, usingKey: string, status: int, reason: string, now: int) returns (ok: bool)
    requires Ordinary(ch)
    modifies ch
    ensures Follows(ch, Relay(usingKey, status, reason, now), ok)
  {
    SizeIsKeyCount(ch);
    ReportedListing(ch.Keys(), ch.info, usingKey, status, reason, now);
    ok := usingKey in ch.Keys();
    ch.RelayUpdate(usingKey, status, reason, now);
  }

  /** One request does to the channel what it does to the list, and is answered alike. */
  method Handle(ch: Channel, r: Request) returns (ok: bool)
    requires Ordinary(ch) && PlainRequest(r)
    modifies ch
    ensures Follows(ch, r, ok)
  {
    match r
    case Disable(index) => ok := DisableOne(ch, index);
    case Enable(index) => ok := EnableOne(ch, index);
    case EnableAll => ok := EnableEvery(ch);
    case DisableAll => ok := DisableEvery(ch);
    case Delete(index) => ok := DeleteOne(ch, index);
    case DeleteDisabled => ok := DeleteAutoDisabled(ch);
    case Append(newKeys) => ok := AppendLines(ch, newKeys);
    case Replace(newKeys) => ok := ReplaceLines(ch, newKeys);
    case Relay(usingKey, status, reason, now) => ok := Report(ch, usingKey, status, reason, now);
  }

  /** Every run of requests: the channel stores what the list would hold, and answers as the list would. */
  method Serve(ch: Channel, requests: seq<Request>) returns (answers: seq<bool>)
    requires Ordinary(ch) && forall i :: 0 <= i < |requests| ==> PlainRequest(requests[i])
    modifies ch
    ensures Ordinary(ch) && Content(ch) == NextAll(old(Content(ch)), requests)
    ensures answers == Answers(old(Content(ch)), requests)
    ensures ch.View() == ShownAll(NextAll(old(Content(ch)), requests).cells)
  {
    answers := [];
    ghost var start := Content(ch);
    for i := 0 to |requests|
      invariant Ordinary(ch) && Content(ch) == NextAll(start, requests[..i]) && answers == Answers(start, requests[..i])
    {
      assert requests[..i + 1] == requests[..i] + [requests[i]];
      Snoc(start, requests[..i], requests[i]);
      var ok := Handle(ch, requests[i]);
      answers := answers + [ok];
    }
    assert requests[..|requests|] == requests;
    ViewIsShown(ch);
  }

  // ----- What every run keeps --------------------------------------------------

  /** No key is listed twice, up to surrounding space. */
  ghost predicate NoRepeats(keys: seq<string>) {
    forall i, j :: 0 <= i < j < |keys| ==> TrimSpace(keys[i]) != TrimSpace(keys[j])
  }

  /** Where each key of `part` stands in `whole`, in order. */
  ghost predicate Embeds(part: seq<string>, whole: seq<string>, at: seq<nat>) {
    && |at| == |part|
    && (forall i :: 0 <= i < |part| ==> at[i] < |whole| && part[i] == whole[at[i]])
    && (forall i, j :: 0 <= i < j < |part| ==> at[i] < at[j])
  }

  lemma EmbedsKeepsNoRepeats(part: seq<string>, whole: seq<string>, at: seq<nat>)
    requires Embeds(part, whole, at) && NoRepeats(whole)
    ensures NoRepeats(part)
  {
  }

  lemma {:induction false} KeptEmbeds(cells: seq<Cell>) returns (at: seq<nat>)
    ensures Embeds(KeysIn(KeptCells(cells)), KeysIn(cells), at)
  {
    if cells == [] {
      at := [];
    } else {
      var last := |cells| - 1;
      at := KeptEmbeds(cells[..last]);
      if cells[last].status != AUTO_DISABLED {
        at := at + [last];
      }
    }
  }

  lemma AppendKeepsNoRepeats(keys: seq<string>, newKeys: seq<string>)
    requires NoRepeats(keys)
    ensures NoRepeats(keys + Added(keys, newKeys))
  {
    var added := Added(keys, newKeys);
    AddedIsExact(keys, newKeys);
    TrimAllLaws(newKeys, '\n');
    forall j | 0 <= j < |added|
      ensures TrimSpace(added[j]) == added[j]
      ensures forall i :: 0 <= i < |keys| ==> TrimSpace(keys[i]) != added[j]
    {
      assert added[j] in added;
      var k :| 0 <= k < |newKeys| && TrimAll(newKeys)[k] == added[j];
      forall i | 0 <= i < |keys|
        ensures TrimSpace(keys[i]) != added[j]
      {
        assert TrimAll(keys)[i] in TrimAll(keys);
      }
    }
  }

  lemma NextKeepsNoRepeats(s: Listing, r: Request)
    requires NoRepeats(KeysIn(s.cells)) && (r.Replace? ==> NoRepeats(r.newKeys))
    ensures NoRepeats(KeysIn(Next(s, r).cells))
  {
    var keys, keys' := KeysIn(s.cells), KeysIn(Next(s, r).cells);
    match r
    case Delete(index) =>
      if Accepted(s, r) {
        var i := index.value;
        EmbedsKeepsNoRepeats(keys', keys, seq(|keys'|, t requires 0 <= t => if t < i then t else t + 1));
      }
    case DeleteDisabled =>
      var at := KeptEmbeds(s.cells);
      EmbedsKeepsNoRepeats(KeysIn(KeptCells(s.cells)), keys, at);
      assert KeptCells(s.cells) == [] && Accepted(s, r) ==> keys' == keys;
    case Append(newKeys) =>
      AppendKeepsNoRepeats(keys, newKeys);
      assert keys' == keys + Added(keys, newKeys);
    case Replace(newKeys) =>
      assert keys' == if newKeys == [] then keys else newKeys;
    case _ =>
      assert keys' == keys;
  }

  /** In no run of requests does a channel come to hold the same key twice, unless it is told to. */
  lemma {:induction false} RunKeepsNoRepeats(s: Listing, requests: seq<Request>)
    requires NoRepeats(KeysIn(s.cells))
    requires forall i :: 0 <= i < |requests| && requests[i].Replace? ==> NoRepeats(requests[i].newKeys)
    ensures NoRepeats(KeysIn(NextAll(s, requests).cells))
  {
    if requests != [] {
      RunKeepsNoRepeats(s, requests[..|requests| - 1]);
      NextKeepsNoRepeats(NextAll(s, requests[..|requests| - 1]), requests[|requests| - 1]);
    }
  }

  // ----- What is shown ---------------------------------------------------------

  /** What an administrator expects a request to do to the records shown. */
  function ShownNext(v: seq<Record>, r: Request): seq<Record> {
    match r
    case Disable(index) =>
      if InRange(v, index) then v[index.value := v[index.value].(status := MANUALLY_DISABLED)] else v
    case Enable(index) => if InRange(v, index) then v[index.value := EnabledRecord(v[index.value].key)] else v
    case EnableAll => EnabledRecords(KeyNames(v))
    case DisableAll =>
      seq(|v|, i requires 0 <= i < |v| => if v[i].status == ENABLED then v[i].(status := MANUALLY_DISABLED) else v[i])
    case Delete(index) => if InRange(v, index) && |v| > 1 then RemoveAt(v, index.value) else v
    case DeleteDisabled =>
      var rest := WithoutAutoDisabled(v);
      if rest == [] then EnabledRecords(KeyNames(v)) else rest
    case Append(newKeys) => v + EnabledRecords(Added(KeyNames(v), newKeys))
    case Replace(newKeys) =>
      if newKeys == [] then v
      else seq(|newKeys|, i requires 0 <= i < |newKeys| =>
                 if i < |v| then v[i].(key := newKeys[i]) else EnabledRecord(newKeys[i]))
    case Relay(usingKey, status, reason, now) =>
      var i := FirstIndex(KeyNames(v), usingKey);
      if i >= |v| then v
      else v[i := if status == ENABLED then EnabledRecord(v[i].key) else Record(v[i].key, status, now, reason)]
  }

  /** A note that would show on the page if its key were disabled. */
  predicate Telling(note: Note) {
    (note.time.Some? && note.time.value != 0) || (note.reason.Some? && note.reason.value != "")
  }

  /** An enabled key with what is left of an earlier disabling, perhaps of another key. */
  predicate Haunted(c: Cell) {
    c.status == ENABLED && Telling(c.note)
  }

  /** The request disables a key by hand whose position still carries a note. */
  predicate Exposes(s: Listing, r: Request) {
    match r
    case Disable(index) => InRange(s.cells, index) && Haunted(s.cells[index.value])
    case DisableAll => exists i :: 0 <= i < |s.cells| && Haunted(s.cells[i])
    case _ => false
  }

  lemma DisabledShown(c: Cell)
    ensures Shown(c.(status := MANUALLY_DISABLED)) == Shown(c).(status := MANUALLY_DISABLED) <==> !Haunted(c)
  {
  }

  lemma ShownDisable(s: Listing, index: Option<int>)
    ensures ShownAll(Next(s, Disable(index)).cells) == ShownNext(ShownAll(s.cells), Disable(index))
            <==> !Exposes(s, Disable(index))
  {
    if InRange(s.cells, index) {
      var i := index.value;
      DisabledShown(s.cells[i]);
      var v, w := ShownAll(Next(s, Disable(index)).cells), ShownNext(ShownAll(s.cells), Disable(index));
      assert v[i] == Shown(s.cells[i].(status := MANUALLY_DISABLED));
      assert forall j :: 0 <= j < |v| && j != i ==> v[j] == w[j];
    }
  }

  lemma ShownDisableAll(s: Listing)
    ensures ShownAll(Next(s, DisableAll).cells) == ShownNext(ShownAll(s.cells), DisableAll) <==> !Exposes(s, DisableAll)
  {
    var v, w := ShownAll(Next(s, DisableAll).cells), ShownNext(ShownAll(s.cells), DisableAll);
    assert !Accepted(s, DisableAll) ==> AllDisabled(s.cells) == s.cells;
    forall i | 0 <= i < |s.cells|
      ensures v[i] == w[i] <==> !Haunted(s.cells[i])
    {
      DisabledShown(s.cells[i]);
      assert v[i] == Shown(Disabled(s.cells[i]));
    }
  }

  lemma ShownOther(s: Listing, r: Request)
    requires r.Enable? || r.EnableAll? || r.Delete? || r.DeleteDisabled? || r.Relay?
    ensures ShownAll(Next(s, r).cells) == ShownNext(ShownAll(s.cells), r)
  {
    ShownKeyNames(s.cells);
    match r
    case Enable(index) =>
    case EnableAll =>
    case Delete(index) =>
      if Accepted(s, r) {
        ShownWithout(s.cells, index.value);
      }
    case DeleteDisabled =>
      ShownKept(s.cells);
      KeptKeys(s.cells);
    case Relay(usingKey, _, _, _) =>
      FirstIndexBelow(KeysIn(s.cells), usingKey);
  }

  lemma ShownRekeyed(s: Listing, r: Request)
    requires r.Append? || r.Replace?
    ensures ShownAll(Next(s, r).cells) == ShownNext(ShownAll(s.cells), r)
  {
    ShownKeyNames(s.cells);
  }

  /**
   On the page a request does what one expects of the records shown, exactly unless it disables by
   hand a key whose position still carries a note.
   */
  lemma ShownFollows(s: Listing, r: Request)
    ensures ShownAll(Next(s, r).cells) == ShownNext(ShownAll(s.cells), r) <==> !Exposes(s, r)
  {
    match r
    case Disable(index) => ShownDisable(s, index);
    case DisableAll => ShownDisableAll(s);
    case Append(_) => ShownRekeyed(s, r);
    case Replace(_) => ShownRekeyed(s, r);
    case _ => ShownOther(s, r);
  }

  /** Only disabled keys carry a note. */
  ghost predicate TidyCells(cells: seq<Cell>) {
    forall i :: 0 <= i < |cells| && cells[i].status == ENABLED ==> cells[i].note == NOTHING
  }

  /** And nothing is left over beyond the list. */
  ghost predicate Tidy(s: Listing) {
    s.beyond == map[] && TidyCells(s.cells)
  }

  /** Replacing keys and re-enabling a key automatically are the two requests that leave notes behind. */
  predicate LeavesNotes(r: Request) {
    r.Replace? || (r.Relay? && r.status == ENABLED)
  }

  lemma TidyKept(s: Listing, r: Request)
    requires Tidy(s) && !LeavesNotes(r)
    ensures Tidy(Next(s, r))
  {
    match r
    case DeleteDisabled => KeptAreTidy(s.cells);
    case Append(newKeys) => TidyAppend(s, newKeys);
    case _ =>
  }

  lemma TidyAppend(s: Listing, newKeys: seq<string>)
    requires Tidy(s)
    ensures Tidy(Next(s, Append(newKeys)))
  {
    var s' := Next(s, Append(newKeys));
    forall i | 0 <= i < |s'.cells| && s'.cells[i].status == ENABLED
      ensures s'.cells[i].note == NOTHING
    {
      assert i < |s.cells| ==> s'.cells[i].note == s.cells[i].note && s.cells[i].status == ENABLED;
    }
  }

  lemma {:induction false} KeptAreTidy(cells: seq<Cell>)
    ensures TidyCells(KeptCells(cells))
  {
    if cells != [] {
      KeptAreTidy(cells[..|cells| - 1]);
    }
  }

  function ShownNextAll(v: seq<Record>, requests: seq<Request>): seq<Record> {
    if requests == [] then v else ShownNext(ShownNextAll(v, requests[..|requests| - 1]), requests[|requests| - 1])
  }

  /** Without those two requests, every run shows what one expects. */
  lemma {:induction false} TidyRunIsShown(s: Listing, requests: seq<Request>)
    requires Tidy(s) && forall i :: 0 <= i < |requests| ==> !LeavesNotes(requests[i])
    ensures Tidy(NextAll(s, requests))
              && ShownAll(NextAll(s, requests).cells) == ShownNextAll(ShownAll(s.cells), requests)
  {
    if requests != [] {
      var init, r := requests[..|requests| - 1], requests[|requests| - 1];
      TidyRunIsShown(s, init);
      TidyKept(NextAll(s, init), r);
      ShownFollows(NextAll(s, init), r);
    }
  }

  /** Replacing three keys by two, adding one and disabling it shows the time and reason of a key long gone. */
  lemma NoteOutlivesItsKey(a: string, b: string, c: string, d: string, now: int, reason: string)
    requires now != 0 && TrimSpace(d) == d != "" && d !in TrimAll([a, b])
    ensures var s0 := Listing([Plain(a), Plain(b), Cell(c, AUTO_DISABLED, Note(Some(now), Some(reason)))], map[]);
            var s1 := Next(s0, Replace([a, b]));
            var s2 := Next(s1, Append([d]));
            var s3 := Next(s2, Disable(Some(2)));
            && |s3.cells| == 3 && Exposes(s2, Disable(Some(2)))
            && ShownAll(s2.cells)[2] == EnabledRecord(d)
            && ShownAll(s3.cells)[2] == Record(d, MANUALLY_DISABLED, now, reason)
  {
    var s0 := Listing([Plain(a), Plain(b), Cell(c, AUTO_DISABLED, Note(Some(now), Some(reason)))], map[]);
    var s1 := Next(s0, Replace([a, b]));
    assert KeysIn(s1.cells) == [a, b];
    OneAdded([a, b], d);
    assert [a, b] + [d] == [a, b, d];
  }

  lemma OneAdded(keys: seq<string>, d: string)
    requires TrimSpace(d) == d != "" && d !in TrimAll(keys)
    ensures Added(keys, [d]) == [d]
  {
    var seen := Names(keys);
    assert TrimAll([d]) == [d] && d !in seen;
    assert [d][1..] == [] && Unseen(seen + {d}, []) == [];
  }

  // ----- Overlapping requests --------------------------------------------------

  /**
   ManageMultiKeys and UpdateChannel read the channel before they take the lock under which they write,
   so a request works on a copy. A refused request writes nothing; an accepted one writes its whole copy
   (a status report all but the key text, which is the same when nothing was written in between).
   */
  function Manager(): Spans.Service<Listing, Request, bool> {
    Spans.Service((copy: Listing, r: Request) => Accepted(copy, r),
                  (copy: Listing, r: Request) => Next(copy, r),
                  (copy: Listing, r: Request) => Accepted(copy, r))
  }

  lemma {:induction false} SerialIsNextAll(s: Listing, requests: seq<Request>)
    ensures Spans.Serial(Manager(), s, requests) == NextAll(s, requests)
    ensures Spans.SerialAnswers(Manager(), s, requests) == Answers(s, requests)
  {
    if requests != [] {
      SerialIsNextAll(s, requests[..|requests| - 1]);
    }
  }

  /**
   Requests that interleave are as good as one after the other, in the order in which they wrote, when
   none writes between another's read and write.
   */
  lemma InterleavedIsSerial(states: seq<Spans.Shared<Listing, bool>>, steps: seq<Spans.Step<Request>>, n: nat)
    requires Spans.Run(Manager(), states, steps) && Spans.Undisturbed(Manager(), states, steps) && n < |states|
    ensures states[n].stored == NextAll(states[0].stored, Spans.Saved(steps[..n]))
    ensures states[n].answers == Answers(states[0].stored, Spans.Saved(steps[..n]))
  {
    Spans.UndisturbedIsSerial(Manager(), states, steps, n);
    SerialIsNextAll(states[0].stored, Spans.Saved(steps[..n]));
  }

  /** Otherwise an update can be lost: both requests succeed, and the deleted key is back. */
  lemma DeletedKeyReturns(s: Listing, i: nat, j: nat)
    requires i < |s.cells| && j < |s.cells| && |s.cells| > 1
    ensures var states := Spans.OverlapStates(Manager(), s, Delete(Some(i)), Disable(Some(j)));
            && Spans.Run(Manager(), states, Spans.Overlapping(Delete(Some(i)), Disable(Some(j))))
            && states[0].stored == s && states[4].answers == [true, true]
            && KeysIn(states[3].stored.cells) == RemoveAt(KeysIn(s.cells), i)
            && KeysIn(states[4].stored.cells) == KeysIn(s.cells)
  {
    Spans.OverlapResult(Manager(), s, Delete(Some(i)), Disable(Some(j)));
    var states := Spans.OverlapStates(Manager(), s, Delete(Some(i)), Disable(Some(j)));
    assert states[3].stored == Changed(s, Delete(Some(i))) && states[4].stored == Changed(s, Disable(Some(j)));
  }
}
