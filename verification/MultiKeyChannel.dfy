/**
 Multi-key channels (controller/channel.go, ManageMultiKeys and the append branch
 of UpdateChannel). The keys live in one text column; status, disable time and
 disable reason live in three sparse maps keyed by a key's position. The abstract
 view is a plain list of records, one per key.
 */
module MultiKeyChannel {
  import opened Basics
  import opened Text
  import Picks

  const ENABLED: int := 1
  const MANUALLY_DISABLED: int := 2
  const AUTO_DISABLED: int := 3

  /** Decoding a text as a JSON array of raw messages; what JSON accepts is a parameter of the model. */
  type Decoder = string -> Option<seq<string>>

  /** Go's ChannelInfo; a nil map reads like an empty one. */
  datatype ChannelInfo = ChannelInfo(
    size: int,
    status: map<int, int>,
    time: map<int, int>,
    reason: map<int, string>)

  /** What is stored about the disabling of the key at a position; it outlives the disabling. */
  datatype Note = Note(time: Option<int>, reason: Option<string>)

  const NOTHING: Note := Note(None, None)

  /** Everything stored about one key. */
  datatype Cell = Cell(key: string, status: int, note: Note)

  /** What the key list page shows of one key. */
  datatype Record = Record(key: string, status: int, time: int, reason: string)

  datatype Reply = Done | Refused

  // ----- The text column -------------------------------------------------------

  predicate LooksLikeArray(text: string) {
    HasPrefix(TrimSpace(text), "[")
  }

  function Decoded(decode: Decoder, text: string): Option<seq<string>> {
    if LooksLikeArray(text) then decode(TrimSpace(text)) else None
  }

  /** Channel.GetKeys. */
  function KeysOf(decode: Decoder, text: string): seq<string> {
    if text == "" then []
    else match Decoded(decode, text)
         case Some(arr) => arr
         case None => Fields(text, '\n')
  }

  /** The number of keys Channel.Update counts; unlike GetKeys it does not accept an empty array. */
  function CountOf(decode: Decoder, text: string): nat {
    if text == "" then 0
    else match Decoded(decode, text)
         case Some(arr) => if arr == [] then |Fields(text, '\n')| else |arr|
         case None => |Fields(text, '\n')|
  }

  /** An array that JSON accepts gives its elements, any other text its lines; an empty text has no keys. */
  lemma KeysRead(decode: Decoder, text: string)
    ensures text == "" ==> KeysOf(decode, text) == [] && CountOf(decode, text) == 0
    ensures text != "" ==>
              var trimmed := TrimSpace(text);
              if trimmed != "" && trimmed[0] == '[' && decode(trimmed).Some?
              then
                && KeysOf(decode, text) == decode(trimmed).value
                && (decode(trimmed) == Some([]) ==>
                      CountOf(decode, text) == |Split(Trim(text, Is('\n')), '\n')|)
              else KeysOf(decode, text) == Split(Trim(text, Is('\n')), '\n')
  {
  }

  /** The two counts agree unless the text is an empty array. */
  lemma CountsAgree(decode: Decoder, text: string)
    ensures CountOf(decode, text) == |KeysOf(decode, text)| <==> text == "" || Decoded(decode, text) != Some([])
  {
  }

  /** The keys are single lines, and written one per line they do not look like a JSON array. */
  ghost predicate PlainLines(decode: Decoder, keys: seq<string>) {
    FreeOf(keys, '\n') && Decoded(decode, Join(keys, '\n')).None?
  }

  /** The list has a first and a last key, and neither is empty. */
  predicate SolidEnds(keys: seq<string>) {
    keys != [] && keys[0] != "" && keys[|keys| - 1] != ""
  }

  /** A list written back as lines reads back as itself exactly when its outermost keys are not empty. */
  lemma KeysOfLines(decode: Decoder, keys: seq<string>)
    requires keys != [] && PlainLines(decode, keys)
    ensures KeysOf(decode, Join(keys, '\n')) == keys <==> SolidEnds(keys)
  {
    FieldsOfJoin(keys, '\n');
    JoinEnds(keys, '\n');
  }

  // ----- The abstract view -----------------------------------------------------

  function StatusAt(info: ChannelInfo, i: int): int {
    if i in info.status then info.status[i] else ENABLED
  }

  function NoteAt(info: ChannelInfo, i: int): Note {
    Note(if i in info.time then Some(info.time[i]) else None,
         if i in info.reason then Some(info.reason[i]) else None)
  }

  function CellAt(key: string, info: ChannelInfo, i: int): Cell {
    Cell(key, StatusAt(info, i), NoteAt(info, i))
  }

  function Cells(keys: seq<string>, info: ChannelInfo): (r: seq<Cell>)
    ensures |r| == |keys|
  {
    seq(|keys|, i requires 0 <= i < |keys| => CellAt(keys[i], info, i))
  }

  /** Time and reason are shown of a disabled key only; a missing entry reads as zero or empty. */
  function Shown(c: Cell): Record {
    if c.status == ENABLED then EnabledRecord(c.key)
    else Record(c.key, c.status,
                if c.note.time.Some? then c.note.time.value else 0,
                if c.note.reason.Some? then c.note.reason.value else "")
  }

  function ShownAll(cells: seq<Cell>): (r: seq<Record>)
    ensures |r| == |cells|
  {
    seq(|cells|, i requires 0 <= i < |cells| => Shown(cells[i]))
  }

  function RecordAt(key: string, info: ChannelInfo, i: int): Record {
    Shown(CellAt(key, info, i))
  }

  function Records(keys: seq<string>, info: ChannelInfo): (r: seq<Record>)
    ensures |r| == |keys|
  {
    seq(|keys|, i requires 0 <= i < |keys| => RecordAt(keys[i], info, i))
  }

  function RemoveAt<T>(s: seq<T>, i: nat): (r: seq<T>)
    ensures i >= |s| ==> r == s
    ensures i < |s| ==> |r| == |s| - 1 && forall j :: 0 <= j < |r| ==> r[j] == s[if j < i then j else j + 1]
  {
    if i < |s| then s[..i] + s[i + 1..] else s
  }

  /** The page in terms of the three maps. */
  lemma RecordsMean(keys: seq<string>, info: ChannelInfo, i: nat)
    requires i < |keys|
    ensures var r, disabled := Records(keys, info)[i], i in info.status && info.status[i] != 1;
            && r.key == keys[i]
            && r.status == (if i in info.status then info.status[i] else 1)
            && r.time == (if disabled && i in info.time then info.time[i] else 0)
            && r.reason == (if disabled && i in info.reason then info.reason[i] else "")
  {
  }

  function WithoutAutoDisabled(rs: seq<Record>): seq<Record> {
    if rs == [] then []
    else
      var init := WithoutAutoDisabled(rs[..|rs| - 1]);
      if rs[|rs| - 1].status == AUTO_DISABLED then init else init + [rs[|rs| - 1]]
  }

  function KeyNames(rs: seq<Record>): (r: seq<string>)
    ensures |r| == |rs|
  {
    seq(|rs|, i requires 0 <= i < |rs| => rs[i].key)
  }

  function EnabledRecord(key: string): Record {
    Record(key, ENABLED, 0, "")
  }

  /** The maps have no entry at or beyond position `n`. */
  ghost predicate Below(info: ChannelInfo, n: int) {
    && (forall i :: i in info.status ==> 0 <= i < n)
    && (forall i :: i in info.time ==> 0 <= i < n)
    && (forall i :: i in info.reason ==> 0 <= i < n)
  }

  /**
   The maps of a list being rebuilt, after key `i` of the old list has become its key `n`.
   delete_key copies every time and reason; delete_disabled_keys only those of disabled keys.
   */
  function Carried(built: ChannelInfo, n: int, info: ChannelInfo, i: int, onlyDisabled: bool): ChannelInfo {
    var disabled := StatusAt(info, i) != ENABLED;
    built.(status := if disabled then built.status[n := StatusAt(info, i)] else built.status,
           time := if i in info.time && (disabled || !onlyDisabled) then built.time[n := info.time[i]] else built.time,
           reason := if i in info.reason && (disabled || !onlyDisabled) then built.reason[n := info.reason[i]]
               else built.reason)
  }

  /** A kept key as delete_disabled_keys rewrites it: what is left of an earlier disabling goes. */
  function Cleaned(c: Cell): Cell {
    if c.status == ENABLED then c.(note := NOTHING) else c
  }

  /** Carrying one key over extends the rebuilt list by that key's cell. */
  lemma CarryOver(keys: seq<string>, built: ChannelInfo, key: string, info: ChannelInfo, i: int, onlyDisabled: bool)
    requires Below(built, |keys|)
    ensures var built' := Carried(built, |keys|, info, i, onlyDisabled);
            var cell := CellAt(key, info, i);
            && Cells(keys + [key], built') == Cells(keys, built) + [if onlyDisabled then Cleaned(cell) else cell]
            && Below(built', |keys| + 1)
  {
  }

  lemma CellsPrefix(keys: seq<string>, info: ChannelInfo, i: nat)
    requires i < |keys|
    ensures Cells(keys[..i + 1], info) == Cells(keys[..i], info) + [CellAt(keys[i], info, i)]
  {
  }

  lemma RecordsAreShown(keys: seq<string>, info: ChannelInfo)
    ensures Records(keys, info) == ShownAll(Cells(keys, info))
  {
  }

  lemma ShownWithout(cells: seq<Cell>, i: nat)
    ensures ShownAll(RemoveAt(cells, i)) == RemoveAt(ShownAll(cells), i)
  {
  }

  /** The cells that delete_disabled_keys keeps. */
  function KeptCells(cells: seq<Cell>): seq<Cell> {
    if cells == [] then []
    else
      var init, last := KeptCells(cells[..|cells| - 1]), cells[|cells| - 1];
      if last.status == AUTO_DISABLED then init else init + [Cleaned(last)]
  }

  function NotAutoDisabled(cells: seq<Cell>): nat -> bool {
    (i: nat) => i < |cells| && cells[i].status != 3
  }

  /** The kept cells are those that are not automatically disabled, in order; an enabled one loses its note. */
  lemma {:induction false} KeptExactly(cells: seq<Cell>, n: nat) returns (at: seq<nat>)
    requires n <= |cells|
    ensures Picks.Lists(at, n, NotAutoDisabled(cells)) && |KeptCells(cells[..n])| == |at|
    ensures forall a :: 0 <= a < |at| ==>
              && at[a] < |cells| && KeptCells(cells[..n])[a].key == cells[at[a]].key
              && KeptCells(cells[..n])[a].status == cells[at[a]].status
              && KeptCells(cells[..n])[a].note == if cells[at[a]].status == 1 then NOTHING else cells[at[a]].note
  {
    if n == 0 {
      at := [];
    } else {
      at := KeptExactly(cells, n - 1);
      Picks.OneMore(at, n - 1, NotAutoDisabled(cells));
      at := Picks.Longer(at, n - 1, NotAutoDisabled(cells));
      assert cells[..n][..n - 1] == cells[..n - 1];
    }
  }

  lemma {:induction false} ShownKept(cells: seq<Cell>)
    ensures ShownAll(KeptCells(cells)) == WithoutAutoDisabled(ShownAll(cells))
  {
    if cells != [] {
      var init := cells[..|cells| - 1];
      ShownKept(init);
      assert ShownAll(cells)[..|cells| - 1] == ShownAll(init);
    }
  }

  lemma RecordsPrefix(keys: seq<string>, info: ChannelInfo, i: nat)
    requires i < |keys|
    ensures Records(keys[..i + 1], info) == Records(keys[..i], info) + [RecordAt(keys[i], info, i)]
  {
  }

  lemma KeyNamesOfRecords(keys: seq<string>, info: ChannelInfo)
    ensures KeyNames(Records(keys, info)) == keys
  {
  }

  lemma RemoveAtSnoc<T>(s: seq<T>, x: T, i: nat)
    ensures RemoveAt(s + [x], i) == if i == |s| then s else RemoveAt(s, i) + [x]
  {
  }

  /** How many of the first `n` positions are enabled. */
  function EnabledBelow(info: ChannelInfo, n: int): nat
    decreases n
  {
    if n <= 0 then 0 else EnabledBelow(info, n - 1) + if StatusAt(info, n - 1) == ENABLED then 1 else 0
  }

  function EnabledPositions(info: ChannelInfo, n: int): set<int> {
    set i | 0 <= i < n && StatusAt(info, i) == ENABLED
  }

  lemma {:induction false} EnabledBelowIsSize(info: ChannelInfo, n: int)
    ensures EnabledBelow(info, n) == |EnabledPositions(info, n)|
    decreases n
  {
    if n > 0 {
      EnabledBelowIsSize(info, n - 1);
      assert EnabledPositions(info, n) ==
             EnabledPositions(info, n - 1) + if StatusAt(info, n - 1) == ENABLED then {n - 1} else {};
    }
  }

  /** The loop of disable_all_keys. */
  method DisableEnabled(info: ChannelInfo) returns (status: map<int, int>, disabledCount: nat)
    requires forall i :: i in info.status ==> 0 <= i < info.size
    ensures forall i :: i in status ==> 0 <= i < info.size
    ensures forall i :: 0 <= i < info.size ==>
              StatusAt(info.(status := status), i)
              == if StatusAt(info, i) == ENABLED then MANUALLY_DISABLED else StatusAt(info, i)
    ensures disabledCount == |set i | 0 <= i < info.size && StatusAt(info, i) == ENABLED|
    ensures disabledCount == 0 <==> forall i :: 0 <= i < info.size ==> StatusAt(info, i) != ENABLED
  {
    status := info.status;
    disabledCount := 0;
    var i := 0;
    while i < info.size
      invariant 0 <= i && (i <= info.size || i == 0)
      invariant forall j :: j in status ==> 0 <= j < info.size
      invariant forall j :: 0 <= j < info.size ==>
                  StatusAt(info.(status := status), j)
                  == if j < i && StatusAt(info, j) == ENABLED then MANUALLY_DISABLED else StatusAt(info, j)
      invariant disabledCount == EnabledBelow(info, i)
      invariant disabledCount == 0 <==> forall j :: 0 <= j < i ==> StatusAt(info, j) != ENABLED
    {
      if StatusAt(info.(status := status), i) == ENABLED {
        status := status[i := MANUALLY_DISABLED];
        disabledCount := disabledCount + 1;
      }
      i := i + 1;
    }
    EnabledBelowIsSize(info, i);
    assert EnabledPositions(info, i) == set j | 0 <= j < info.size && StatusAt(info, j) == ENABLED;
  }

  /** Which shortened lists survive being written back as lines: those with non-empty keys at both ends. */
  lemma ShortenedReadsBack(decode: Decoder, text: string, keys: seq<string>)
    requires |keys| < |KeysOf(decode, text)| && PlainLines(decode, keys)
    ensures KeysOf(decode, Written(text, keys)) == keys <==> SolidEnds(keys)
  {
    if keys != [] {
      JoinEnds(keys, '\n');
      KeysOfLines(decode, keys);
    }
  }

  /** The list rebuilt from the first `n` keys without key `keyIndex`, and its maps. */
  ghost predicate RebuiltWithout(keys: seq<string>, info: ChannelInfo, keyIndex: nat, n: nat,
                                 remaining: seq<string>, built: ChannelInfo) {
    && n <= |keys|
    && remaining == RemoveAt(keys[..n], keyIndex)
    && Cells(remaining, built) == RemoveAt(Cells(keys[..n], info), keyIndex)
    && Below(built, |remaining|)
  }

  lemma RebuildStep(keys: seq<string>, info: ChannelInfo, keyIndex: nat, i: nat,
                    remaining: seq<string>, built: ChannelInfo)
    requires i < |keys| && RebuiltWithout(keys, info, keyIndex, i, remaining, built)
    ensures if i == keyIndex then RebuiltWithout(keys, info, keyIndex, i + 1, remaining, built)
            else RebuiltWithout(keys, info, keyIndex, i + 1, remaining + [keys[i]],
                                Carried(built, |remaining|, info, i, false))
  {
    CellsPrefix(keys, info, i);
    assert keys[..i + 1] == keys[..i] + [keys[i]];
    RemoveAtSnoc(keys[..i], keys[i], keyIndex);
    RemoveAtSnoc(Cells(keys[..i], info), CellAt(keys[i], info, i), keyIndex);
    CarryOver(remaining, built, keys[i], info, i, false);
  }

  /** The loop of delete_key. */
  method RebuildWithout(keys: seq<string>, info: ChannelInfo, keyIndex: nat)
    returns (remaining: seq<string>, built: ChannelInfo)
    ensures remaining == RemoveAt(keys, keyIndex)
    ensures Cells(remaining, built) == RemoveAt(Cells(keys, info), keyIndex)
    ensures Records(remaining, built) == RemoveAt(Records(keys, info), keyIndex)
    ensures Below(built, |remaining|)
  {
    remaining := [];
    built := ChannelInfo(0, map[], map[], map[]);
    for i := 0 to |keys|
      invariant RebuiltWithout(keys, info, keyIndex, i, remaining, built)
    {
      RebuildStep(keys, info, keyIndex, i, remaining, built);
      if i != keyIndex {
        built := Carried(built, |remaining|, info, i, false);
        remaining := remaining + [keys[i]];
      }
    }
    assert keys[..|keys|] == keys;
    built := built.(size := |remaining|);
    RecordsAreShown(keys, info);
    RecordsAreShown(remaining, built);
    ShownWithout(Cells(keys, info), keyIndex);
  }

  /** The list rebuilt from those of the first `n` keys that are kept, and its maps. */
  ghost predicate RebuiltKept(keys: seq<string>, info: ChannelInfo, n: nat, remaining: seq<string>,
                              built: ChannelInfo) {
    n <= |keys| && Cells(remaining, built) == KeptCells(Cells(keys[..n], info)) && Below(built, |remaining|)
  }

  lemma KeepStep(keys: seq<string>, info: ChannelInfo, i: nat, remaining: seq<string>, built: ChannelInfo)
    requires i < |keys| && RebuiltKept(keys, info, i, remaining, built)
    ensures if StatusAt(info, i) == AUTO_DISABLED then RebuiltKept(keys, info, i + 1, remaining, built)
            else RebuiltKept(keys, info, i + 1, remaining + [keys[i]], Carried(built, |remaining|, info, i, true))
  {
    CellsPrefix(keys, info, i);
    assert Cells(keys[..i + 1], info)[..i] == Cells(keys[..i], info);
    CarryOver(remaining, built, keys[i], info, i, true);
  }

  /** The loop of delete_disabled_keys. */
  method RebuildEnabled(keys: seq<string>, info: ChannelInfo)
    returns (remaining: seq<string>, built: ChannelInfo, deletedCount: nat)
    ensures Cells(remaining, built) == KeptCells(Cells(keys, info))
    ensures Records(remaining, built) == WithoutAutoDisabled(Records(keys, info))
    ensures Below(built, |remaining|)
    ensures deletedCount == |keys| - |remaining|
    ensures deletedCount == 0 ==> Records(remaining, built) == Records(keys, info)
  {
    remaining := [];
    built := ChannelInfo(0, map[], map[], map[]);
    deletedCount := 0;
    for i := 0 to |keys|
      invariant RebuiltKept(keys, info, i, remaining, built)
      invariant |remaining| + deletedCount == i
    {
      KeepStep(keys, info, i, remaining, built);
      if StatusAt(info, i) == AUTO_DISABLED {
        deletedCount := deletedCount + 1;
      } else {
        built := Carried(built, |remaining|, info, i, true);
        remaining := remaining + [keys[i]];
      }
    }
    assert keys[..|keys|] == keys;
    built := built.(size := |remaining|);
    RecordsAreShown(keys, info);
    RecordsAreShown(remaining, built);
    ShownKept(Cells(keys, info));
    NoneDropped(Records(keys, info));
  }

  /** A filter that drops nothing changes nothing. */
  lemma {:induction false} NoneDropped(rs: seq<Record>)
    ensures |WithoutAutoDisabled(rs)| <= |rs|
    ensures |WithoutAutoDisabled(rs)| == |rs| ==> WithoutAutoDisabled(rs) == rs
  {
    if rs != [] {
      NoneDropped(rs[..|rs| - 1]);
    }
  }

  /** Update prunes nothing from a rebuilt list that reads back as written. */
  lemma NothingPruned(decode: Decoder, text: string, keys: seq<string>, built: ChannelInfo, info: ChannelInfo)
    requires keys != [] && KeysOf(decode, text) == keys && Below(built, |keys|)
    requires info.time == built.time && info.reason == built.reason
    requires info.status == map i | i in built.status && i < CountOf(decode, text) :: built.status[i]
    ensures Cells(keys, info) == Cells(keys, built) && Records(keys, info) == Records(keys, built)
    ensures Below(info, |keys|)
  {
    CountsAgree(decode, text);
    assert info.status == built.status;
  }

  /** What a shorter list and its rebuilt maps become once they are stored. */
  lemma Rewritten(decode: Decoder, text: string, keys: seq<string>, built: ChannelInfo, text': string,
                  info: ChannelInfo)
    requires |keys| < |KeysOf(decode, text)| && Below(built, |keys|) && text' == Written(text, keys)
    requires info.time == built.time && info.reason == built.reason
    requires info.status == map i | i in built.status && i < CountOf(decode, text') :: built.status[i]
    ensures keys == [] ==> text' == text && info.status == map[] && info.time == map[] && info.reason == map[]
    ensures keys != [] && KeysOf(decode, text') == keys ==>
              Cells(keys, info) == Cells(keys, built) && Records(keys, info) == Records(keys, built)
                  && Below(info, |keys|)
    ensures PlainLines(decode, keys) ==> (KeysOf(decode, text') == keys <==> SolidEnds(keys))
  {
    if keys == [] {
      assert forall i :: i !in built.time && i !in built.reason;
    } else if KeysOf(decode, text') == keys {
      NothingPruned(decode, text', keys, built, info);
    }
    if PlainLines(decode, keys) {
      ShortenedReadsBack(decode, text, keys);
    }
  }

  // ----- Appending keys --------------------------------------------------------

  /** The append branch's own parsing of the stored text: unlike GetKeys it has no fallback for a broken array. */
  function ExistingForAppend(decode: Decoder, text: string): seq<string> {
    if LooksLikeArray(text) then
      match decode(TrimSpace(text))
      case Some(arr) => arr
      case None => []
    else Fields(text, '\n')
  }

  /** The append branch sees the stored keys exactly when the text is not an array it cannot decode. */
  lemma AppendSeesStoredKeys(decode: Decoder, text: string)
    requires text != ""
    ensures ExistingForAppend(decode, text) == KeysOf(decode, text)
            <==> !(LooksLikeArray(text) && decode(TrimSpace(text)).None?)
    ensures LooksLikeArray(text) && decode(TrimSpace(text)).None? ==> ExistingForAppend(decode, text) == []
  {
  }

  function Names(keys: seq<string>): set<string> {
    (set k | k in TrimAll(keys)) - {""}
  }

  /** What the append adds to `existing`: the trimmed new keys that are not there yet. */
  function Added(existing: seq<string>, newKeys: seq<string>): seq<string> {
    Unseen(Names(existing), TrimAll(newKeys))
  }

  /** Every added key is trimmed, not empty, new and listed once, and no new key is left out. */
  lemma AddedIsExact(existing: seq<string>, newKeys: seq<string>)
    ensures var r := Added(existing, newKeys);
            && (forall k :: k in r <==> k in TrimAll(newKeys) && k != "" && k !in TrimAll(existing))
            && (forall i, j :: 0 <= i < j < |r| ==> r[i] != r[j])
            && (forall i, j :: 0 <= i < j < |r| ==> EarlierThan(TrimAll(newKeys), r[i], r[j]))
            && (FreeOf(newKeys, '\n') ==> FreeOf(r, '\n'))
  {
    UnseenIsExact(Names(existing), TrimAll(newKeys));
    forall i: nat, j: nat | i < j < |Added(existing, newKeys)|
      ensures EarlierThan(TrimAll(newKeys), Added(existing, newKeys)[i], Added(existing, newKeys)[j])
    {
      UnseenInOrder(Names(existing), TrimAll(newKeys), i, j);
    }
    TrimAllLaws(newKeys, '\n');
    if FreeOf(newKeys, '\n') {
      forall i | 0 <= i < |Added(existing, newKeys)|
        ensures '\n' !in Added(existing, newKeys)[i]
      {
        assert Added(existing, newKeys)[i] in TrimAll(newKeys);
      }
    }
  }

  /** The two loops over the seen map. */
  method DedupeNewKeys(existing: seq<string>, newKeys: seq<string>) returns (deduped: seq<string>)
    ensures deduped == Added(existing, newKeys)
  {
    var seen: set<string> := {};
    for i := 0 to |existing|
      invariant seen == (set k | k in TrimAll(existing)[..i]) - {""}
    {
      var normalized := TrimSpace(existing[i]);
      assert TrimAll(existing)[..i + 1] == TrimAll(existing)[..i] + [normalized];
      if normalized != "" {
        seen := seen + {normalized};
      }
    }
    assert TrimAll(existing)[..|existing|] == TrimAll(existing);
    deduped := [];
    ghost var names := TrimAll(newKeys);
    for i := 0 to |newKeys|
      invariant deduped + Unseen(seen, names[i..]) == Added(existing, newKeys)
    {
      var normalized := TrimSpace(newKeys[i]);
      assert names[i..][0] == normalized && names[i..][1..] == names[i + 1..];
      if normalized != "" && normalized !in seen {
        seen := seen + {normalized};
        deduped := deduped + [normalized];
      }
    }
  }

  lemma NonEmptyStep(done: seq<string>, names: seq<string>, i: nat)
    requires i < |names|
    ensures done + NonEmpty(names[i..])
              == (if names[i] == "" then done else done + [names[i]]) + NonEmpty(names[i + 1..])
  {
    assert names[i..][1..] == names[i + 1..];
  }

  /** The keys of an ordinary channel's append request: its lines, trimmed, without the empty ones. */
  method LineKeys(input: string) returns (keys: seq<string>)
    ensures keys == NonEmpty(TrimAll(Split(input, '\n')))
  {
    keys := [];
    var lines := Split(input, '\n');
    ghost var names := TrimAll(lines);
    for i := 0 to |lines|
      invariant keys + NonEmpty(names[i..]) == NonEmpty(names)
    {
      var key := TrimSpace(lines[i]);
      NonEmptyStep(keys, names, i);
      assert key == names[i];
      if key != "" {
        keys := keys + [key];
      }
    }
  }

  /** Cleaning the lines first changes nothing about which keys are added. */
  lemma {:induction false} UnseenOfNonEmpty(seen: set<string>, names: seq<string>)
    ensures Unseen(seen, NonEmpty(names)) == Unseen(seen, names)
    decreases |names|
  {
    if names != [] {
      UnseenOfNonEmpty(seen, names[1..]);
      if names[0] != "" {
        assert NonEmpty(names)[1..] == NonEmpty(names[1..]);
        UnseenOfNonEmpty(seen + {names[0]}, names[1..]);
      } else {
        assert NonEmpty(names) == NonEmpty(names[1..]);
      }
    }
  }

  function EnabledRecords(keys: seq<string>): (r: seq<Record>)
    ensures |r| == |keys|
  {
    seq(|keys|, i requires 0 <= i < |keys| => EnabledRecord(keys[i]))
  }

  /** Entries below the old count make appended keys enabled and leave the old records alone. */
  lemma AppendedView(keys: seq<string>, added: seq<string>, info: ChannelInfo, info': ChannelInfo)
    requires forall i :: i in info.status ==> 0 <= i < |keys|
    requires info'.status == info.status && info'.time == info.time && info'.reason == info.reason
    ensures Records(keys + added, info') == Records(keys, info) + EnabledRecords(added)
  {
  }

  /** A list stored as lines and extended reads back as extended, unless the stored text was blank. */
  lemma ExtendedReadsBack(decode: Decoder, text: string, added: seq<string>)
    requires text != "" && !LooksLikeArray(text)
    requires FreeOf(added, '\n') && forall i :: 0 <= i < |added| ==> added[i] != ""
    requires Decoded(decode, Join(Fields(text, '\n') + added, '\n')).None?
    ensures KeysOf(decode, Written(text, Fields(text, '\n') + added)) == Fields(text, '\n') + added
            <==> Fields(text, '\n')[0] != "" || added == []
  {
    var stored := Fields(text, '\n');
    var all := stored + added;
    SplitIsFree(Trim(text, Is('\n')), '\n');
    BlankFields(text, '\n');
    assert FreeOf(all, '\n');
    JoinEnds(all, '\n');
    if added == [] {
      assert all == stored;
      if stored[0] != "" {
        KeysOfLines(decode, all);
      }
    } else {
      assert all[|all| - 1] == added[|added| - 1];
      assert all[0] == stored[0];
      KeysOfLines(decode, all);
    }
  }

  /** The fields of a trimmed text are non-empty at both ends, unless there is only one, empty, field. */
  lemma BlankFields(text: string, sep: char)
    ensures var f := Fields(text, sep); f == [""] || (f[0] != "" && f[|f| - 1] != "")
  {
    var t := Trim(text, Is(sep));
    TrimLaws(text, Is(sep));
    SplitEnds(t, sep);
  }

  lemma {:induction false} SplitEnds(t: string, sep: char)
    ensures var f := Split(t, sep);
            && (t != "" && t[0] != sep ==> f[0] != "")
            && (t != "" && t[|t| - 1] != sep ==> f[|f| - 1] != "")
    decreases |t|
  {
    if |t| > 1 {
      SplitEnds(t[1..], sep);
    }
  }

  /** Appending to a list stored as lines: the old records stay, the added keys follow, enabled. */
  lemma AppendExact(decode: Decoder, text: string, info: ChannelInfo, added: seq<string>, text': string,
                    info': ChannelInfo)
    requires text != "" && !LooksLikeArray(text) && (forall i :: i in info.status ==> 0 <= i < CountOf(decode, text))
    requires FreeOf(added, '\n') && forall i :: 0 <= i < |added| ==> added[i] != ""
    requires Decoded(decode, Join(Fields(text, '\n') + added, '\n')).None?
    requires text' == Written(text, Fields(text, '\n') + added)
    requires info'.time == info.time && info'.reason == info.reason
    requires info'.status == map i | i in info.status && i < CountOf(decode, text') :: info.status[i]
    ensures var keys := KeysOf(decode, text);
            Records(KeysOf(decode, text'), info') == Records(keys, info) + EnabledRecords(added)
            <==> keys[0] != "" || added == []
  {
    var keys := KeysOf(decode, text);
    assert keys == Fields(text, '\n');
    ExtendedReadsBack(decode, text, added);
    if KeysOf(decode, text') == keys + added {
      StatusKept(decode, text', keys + added, info, info');
      AppendedView(keys, added, info, info');
    } else {
      DifferentKeys(KeysOf(decode, text'), info', keys, info, added);
    }
  }

  /** Appending to a list stored as an array, which becomes lines: exact unless a key at either end is empty. */
  lemma AppendToArray(decode: Decoder, text: string, info: ChannelInfo, added: seq<string>, text': string,
                      info': ChannelInfo)
    requires Decoded(decode, text).Some? && KeysOf(decode, text) != []
    requires forall i :: i in info.status ==> 0 <= i < CountOf(decode, text)
    requires var all := KeysOf(decode, text) + added;
             PlainLines(decode, all) && all != [""] && text' == Written(text, all)
    requires info'.time == info.time && info'.reason == info.reason
    requires info'.status == map i | i in info.status && i < CountOf(decode, text') :: info.status[i]
    ensures var keys := KeysOf(decode, text);
            Records(KeysOf(decode, text'), info') == Records(keys, info) + EnabledRecords(added)
            <==> SolidEnds(keys + added)
  {
    var keys := KeysOf(decode, text);
    CountsAgree(decode, text);
    JoinEnds(keys + added, '\n');
    KeysOfLines(decode, keys + added);
    if KeysOf(decode, text') == keys + added {
      StatusKept(decode, text', keys + added, info, info');
      AppendedView(keys, added, info, info');
    } else {
      DifferentKeys(KeysOf(decode, text'), info', keys, info, added);
    }
  }

  lemma StatusKept(decode: Decoder, text: string, keys: seq<string>, info: ChannelInfo, info': ChannelInfo)
    requires keys != [] && KeysOf(decode, text) == keys && forall i :: i in info.status ==> 0 <= i < |keys|
    requires info'.status == map i | i in info.status && i < CountOf(decode, text) :: info.status[i]
    ensures info'.status == info.status
  {
    CountsAgree(decode, text);
  }

  lemma DifferentKeys(keys': seq<string>, info': ChannelInfo, keys: seq<string>, info: ChannelInfo, added: seq<string>)
    requires keys' != keys + added
    ensures Records(keys', info') != Records(keys, info) + EnabledRecords(added)
  {
    KeyNamesOfRecords(keys', info');
    assert KeyNames(Records(keys, info) + EnabledRecords(added)) == keys + added;
  }

  // ----- The key list page -----------------------------------------------------

  datatype KeyStatus = KeyStatus(index: nat, record: Record)

  datatype StatusPage = StatusPage(
    keys: seq<KeyStatus>, total: nat, page: int, pageSize: int, totalPages: int,
    enabledCount: nat, manualDisabledCount: nat, autoDisabledCount: nat)

  function Tally(rs: seq<Record>, status: int): nat {
    if rs == [] then 0
    else Tally(rs[..|rs| - 1], status) + if rs[|rs| - 1].status == status then 1 else 0
  }

  /** The records with their positions, restricted to one status if a filter is given. */
  function Listed(rs: seq<Record>, filter: Option<int>): seq<KeyStatus> {
    if rs == [] then []
    else
      var last := |rs| - 1;
      Listed(rs[..last], filter)
      + if filter.None? || rs[last].status == filter.value then [KeyStatus(last, rs[last])] else []
  }

  function PageCount(total: nat, pageSize: int): (n: int)
    requires pageSize > 0
    ensures n >= 1 && (n - 1) * pageSize <= total <= n * pageSize
    ensures total > 0 ==> (n - 1) * pageSize < total
  {
    var n := (total + pageSize - 1) / pageSize;
    assert n * pageSize <= total + pageSize - 1 < (n + 1) * pageSize;
    if n == 0 then 1 else n
  }

  /** The position's record passes the filter, if there is one. */
  predicate Passes(rs: seq<Record>, filter: Option<int>, i: int) {
    0 <= i < |rs| && (filter.Some? ==> rs[i].status == filter.value)
  }

  /** The positions before `n` that pass the filter. */
  function Passing(rs: seq<Record>, filter: Option<int>, n: int): set<int> {
    set i | 0 <= i < n && Passes(rs, filter, i)
  }

  /** These are passing positions with their records, the first of them after exactly `start` others. */
  ghost predicate Ranked(rs: seq<Record>, filter: Option<int>, keys: seq<KeyStatus>, start: int) {
    forall a :: 0 <= a < |keys| ==>
      && keys[a].index < |rs| && Passes(rs, filter, keys[a].index) && keys[a].record == rs[keys[a].index]
      && |Passing(rs, filter, keys[a].index)| == start + a
  }

  /** The listed keys are the positions that pass, each with its record, in order. */
  lemma {:induction false} ListedExactly(rs: seq<Record>, filter: Option<int>, n: nat)
    requires n <= |rs|
    ensures var l := Listed(rs[..n], filter);
            |l| == |Passing(rs, filter, n)| && Ranked(rs, filter, l, 0)
  {
    if n > 0 {
      ListedExactly(rs, filter, n - 1);
      PassingStep(rs, filter, n - 1);
      ListedStep(rs, filter, n - 1);
      if Passes(rs, filter, n - 1) {
        RankedSnoc(rs, filter, Listed(rs[..n - 1], filter), n - 1);
      }
    }
  }

  lemma ListedStep(rs: seq<Record>, filter: Option<int>, n: nat)
    requires n < |rs|
    ensures Listed(rs[..n + 1], filter) ==
            if Passes(rs, filter, n) then Listed(rs[..n], filter) + [KeyStatus(n, rs[n])] else Listed(rs[..n], filter)
  {
    assert rs[..n + 1][..n] == rs[..n];
  }

  lemma RankedSnoc(rs: seq<Record>, filter: Option<int>, keys: seq<KeyStatus>, n: nat)
    requires Ranked(rs, filter, keys, 0) && Passes(rs, filter, n) && |keys| == |Passing(rs, filter, n)|
    ensures Ranked(rs, filter, keys + [KeyStatus(n, rs[n])], 0)
  {
  }

  lemma PassingStep(rs: seq<Record>, filter: Option<int>, n: nat)
    ensures |Passing(rs, filter, n + 1)| == |Passing(rs, filter, n)| + if Passes(rs, filter, n) then 1 else 0
  {
    assert Passing(rs, filter, n + 1) == Passing(rs, filter, n) + if Passes(rs, filter, n) then {n} else {};
  }

  /** The positions with a status. */
  function WithStatus(rs: seq<Record>, status: int): set<int> {
    set i | 0 <= i < |rs| && rs[i].status == status
  }

  lemma {:induction false} TallyIsSize(rs: seq<Record>, status: int)
    ensures Tally(rs, status) == |WithStatus(rs, status)|
  {
    if rs != [] {
      var last := |rs| - 1;
      TallyIsSize(rs[..last], status);
      assert WithStatus(rs, status) ==
             WithStatus(rs[..last], status) + if rs[last].status == status then {last} else {};
    }
  }

  /** What the page shows: of the positions that pass the filter, those of rank (page - 1) * pageSize and following. */
  ghost predicate PageShows(r: StatusPage, rs: seq<Record>, filter: Option<int>) {
    && r.total == |Passing(rs, filter, |rs|)|
    && var start := (r.page - 1) * r.pageSize;
       && 0 <= start <= r.total
       && |r.keys| == (if start + r.pageSize > r.total then r.total - start else r.pageSize)
       && Ranked(rs, filter, r.keys, start)
       && r.enabledCount == |WithStatus(rs, ENABLED)|
       && r.manualDisabledCount == |WithStatus(rs, MANUALLY_DISABLED)|
       && r.autoDisabledCount == |WithStatus(rs, AUTO_DISABLED)|
  }

  /** Page `p` (counting from 1) of a list. */
  function PageSlice<T>(list: seq<T>, p: int, pageSize: int): seq<T>
    requires pageSize > 0 && 1 <= p <= PageCount(|list|, pageSize)
  {
    var start := (p - 1) * pageSize;
    SliceStart(|list|, p, pageSize);
    list[start..if start + pageSize > |list| then |list| else start + pageSize]
  }

  lemma SliceStart(total: nat, p: int, pageSize: int)
    requires pageSize > 0 && 1 <= p <= PageCount(total, pageSize)
    ensures 0 <= (p - 1) * pageSize <= total
    ensures total > 0 ==> (p - 1) * pageSize < total
  {
    var n := PageCount(total, pageSize);
    assert (p - 1) * pageSize <= (n - 1) * pageSize;
  }

  /** The first `p` pages, one after the other. */
  function PagesUpTo<T>(list: seq<T>, p: int, pageSize: int): seq<T>
    requires pageSize > 0 && 0 <= p <= PageCount(|list|, pageSize)
    decreases p
  {
    if p == 0 then [] else PagesUpTo(list, p - 1, pageSize) + PageSlice(list, p, pageSize)
  }

  lemma {:induction false} PagesArePrefix<T>(list: seq<T>, p: int, pageSize: int)
    requires pageSize > 0 && 0 <= p <= PageCount(|list|, pageSize)
    ensures PagesUpTo(list, p, pageSize) == list[..if p * pageSize > |list| then |list| else p * pageSize]
    decreases p
  {
    if p > 0 {
      SliceStart(|list|, p, pageSize);
      PagesArePrefix(list, p - 1, pageSize);
      assert p * pageSize == (p - 1) * pageSize + pageSize;
    }
  }

  /** Turning every page shows every listed key exactly once, in order. */
  lemma PagesPartition<T>(list: seq<T>, pageSize: int)
    requires pageSize > 0
    ensures PagesUpTo(list, PageCount(|list|, pageSize), pageSize) == list
  {
    PagesArePrefix(list, PageCount(|list|, pageSize), pageSize);
  }

  /** The loop of get_key_status: statistics over all keys, and the keys that pass the filter. */
  method ScanKeys(keys: seq<string>, info: ChannelInfo, filter: Option<int>)
    returns (listed: seq<KeyStatus>, enabled: nat, manual: nat, auto: nat)
    ensures listed == Listed(Records(keys, info), filter)
    ensures var rs := Records(keys, info);
            && |listed| == |Passing(rs, filter, |rs|)| && Ranked(rs, filter, listed, 0)
            && enabled == |WithStatus(rs, ENABLED)| && manual == |WithStatus(rs, MANUALLY_DISABLED)|
            && auto == |WithStatus(rs, AUTO_DISABLED)|
    ensures enabled == Tally(Records(keys, info), ENABLED)
    ensures manual == Tally(Records(keys, info), MANUALLY_DISABLED)
    ensures auto == Tally(Records(keys, info), AUTO_DISABLED)
  {
    listed, enabled, manual, auto := [], 0, 0, 0;
    for i := 0 to |keys|
      invariant enabled == Tally(Records(keys[..i], info), ENABLED)
      invariant manual == Tally(Records(keys[..i], info), MANUALLY_DISABLED)
      invariant auto == Tally(Records(keys[..i], info), AUTO_DISABLED)
      invariant listed == Listed(Records(keys[..i], info), filter)
    {
      RecordsPrefix(keys, info, i);
      ghost var all := Records(keys[..i + 1], info);
      assert all[..i] == Records(keys[..i], info);
      var record := RecordAt(keys[i], info, i);
      if record.status == ENABLED {
        enabled := enabled + 1;
      } else if record.status == MANUALLY_DISABLED {
        manual := manual + 1;
      } else if record.status == AUTO_DISABLED {
        auto := auto + 1;
      }
      if filter.None? || record.status == filter.value {
        listed := listed + [KeyStatus(i, record)];
      }
    }
    assert keys[..|keys|] == keys;
    ghost var rs := Records(keys, info);
    assert rs[..|rs|] == rs;
    ListedExactly(rs, filter, |rs|);
    TallyIsSize(rs, ENABLED);
    TallyIsSize(rs, MANUALLY_DISABLED);
    TallyIsSize(rs, AUTO_DISABLED);
  }

  /** The slice of get_key_status, which is empty when it would start at the end. */
  method SliceOf(listed: seq<KeyStatus>, p: int, size: int, ghost rs: seq<Record>, ghost filter: Option<int>)
    returns (shown: seq<KeyStatus>)
    requires size > 0 && 1 <= p <= PageCount(|listed|, size) && Ranked(rs, filter, listed, 0)
    ensures shown == PageSlice(listed, p, size) && Ranked(rs, filter, shown, (p - 1) * size)
    ensures 0 <= (p - 1) * size <= |listed|
    ensures |shown| == if (p - 1) * size + size > |listed| then |listed| - (p - 1) * size else size
  {
    var total := |listed|;
    SliceStart(total, p, size);
    var start := (p - 1) * size;
    var end := start + size;
    if end > total {
      end := total;
    }
    shown := if start < total then listed[start..end] else [];
  }

  /** get_key_status. */
  method GetKeyStatus(keys: seq<string>, info: ChannelInfo, page: int, pageSize: int, filter: Option<int>)
    returns (r: StatusPage)
    ensures r.pageSize == (if pageSize <= 0 then 50 else pageSize) && r.pageSize > 0
    ensures var listed := Listed(Records(keys, info), filter);
            && r.total == |listed| && r.totalPages == PageCount(|listed|, r.pageSize)
            && r.page == (if page <= 0 then 1 else if page > r.totalPages then r.totalPages else page)
            && 1 <= r.page <= r.totalPages && r.keys == PageSlice(listed, r.page, r.pageSize)
    ensures PageShows(r, Records(keys, info), filter)
  {
    var p := if page <= 0 then 1 else page;
    var size := if pageSize <= 0 then 50 else pageSize;
    var listed, enabled, manual, auto := ScanKeys(keys, info, filter);
    var total := |listed|;
    var totalPages := PageCount(total, size);
    if p > totalPages {
      p := totalPages;
    }
    var shown := SliceOf(listed, p, size, Records(keys, info), filter);
    r := StatusPage(shown, total, p, size, totalPages, enabled, manual, auto);
  }

  /** Position `i` is the first that holds the key. */
  predicate FirstAt(keys: seq<string>, key: string, i: int) {
    0 <= i < |keys| && keys[i] == key && forall j :: 0 <= j < i ==> keys[j] != key
  }

  /** The position got the reported status with its time and reason, or lost its status when it works again. */
  predicate Relayed(info: ChannelInfo, info': ChannelInfo, i: int, status: int, reason: string, now: int) {
    if status == ENABLED then info' == info.(status := info.status - {i})
    else info' == info.(status := info.status[i := status], time := info.time[i := now],
                        reason := info.reason[i := reason])
  }

  /** The first position of a key, or the length of the list. */
  function FirstIndex(keys: seq<string>, key: string): nat {
    if keys == [] || keys[0] == key then 0 else 1 + FirstIndex(keys[1..], key)
  }

  lemma {:induction false} FirstIndexIs(keys: seq<string>, key: string, i: nat)
    requires i <= |keys| && key !in keys[..i] && (i < |keys| ==> keys[i] == key)
    ensures FirstIndex(keys, key) == i
  {
    if i > 0 {
      assert keys[0] in keys[..i] && keys[1..][..i - 1] == keys[..i][1..];
      FirstIndexIs(keys[1..], key, i - 1);
    }
  }

  /** The maps after a status report on a key; re-enabling leaves time and reason behind. */
  function AfterRelay(info: ChannelInfo, keys: seq<string>, usingKey: string, status: int, reason: string, now: int)
    : ChannelInfo
  {
    var i := FirstIndex(keys, usingKey);
    if i >= |keys| then info
    else if status == ENABLED then info.(status := info.status - {i})
    else info.(status := info.status[i := status], time := info.time[i := now], reason := info.reason[i := reason])
  }

  class Channel {
    const decode: Decoder
    var key: string
    var info: ChannelInfo

    constructor (decode: Decoder, key: string)
      ensures this.decode == decode && this.key == key && Valid()
      ensures info == ChannelInfo(CountOf(decode, key), map[], map[], map[])
    {
      this.decode := decode;
      this.key := key;
      this.info := ChannelInfo(CountOf(decode, key), map[], map[], map[]);
    }

    function Keys(): seq<string>
      reads this
    {
      KeysOf(decode, key)
    }

    function View(): seq<Record>
      reads this
    {
      Records(Keys(), info)
    }

    /** The recorded size is the stored key count, and every status entry belongs to a stored key. */
    ghost predicate Valid()
      reads this
    {
      && info.size == CountOf(decode, key)
      && forall i :: i in info.status ==> 0 <= i < info.size
    }

    /**
     Channel.Update: recount the keys, drop status entries beyond the count and store the row.
     The row is stored field by field, skipping empty ones, so an empty key text keeps the old one.
     */
    method Update(newKey: string, newInfo: ChannelInfo)
      requires forall i :: i in newInfo.status ==> 0 <= i
      modifies this
      ensures key == if newKey == "" then old(key) else newKey
      ensures info.time == newInfo.time && info.reason == newInfo.reason
      ensures info.status == map i | i in newInfo.status && i < info.size :: newInfo.status[i]
      ensures Valid()
    {
      if newKey != "" {
        key := newKey;
      }
      var size := CountOf(decode, key);
      info := newInfo.(size := size, status := map i | i in newInfo.status && i < size :: newInfo.status[i]);
    }

    /** An index is accepted when it is present and inside the recorded size. */
    predicate Accepts(index: Option<int>)
      reads this
    {
      index.Some? && 0 <= index.value < info.size
    }

    method DisableKey(index: Option<int>) returns (reply: Reply)
      requires Valid()
      modifies this
      ensures Valid() && key == old(key)
      ensures reply.Done? <==> old(Accepts(index))
      ensures reply.Refused? ==> info == old(info)
      ensures reply.Done? ==> forall i ::
                StatusAt(info, i) == if i == index.value then MANUALLY_DISABLED else old(StatusAt(info, i))
      ensures info.time == old(info.time) && info.reason == old(info.reason)
    {
      if !Accepts(index) { return Refused; }
      Update(key, info.(status := info.status[index.value := MANUALLY_DISABLED]));
      reply := Done;
    }

    method EnableKey(index: Option<int>) returns (reply: Reply)
      requires Valid()
      modifies this
      ensures Valid() && key == old(key)
      ensures reply.Done? <==> old(Accepts(index))
      ensures reply.Refused? ==> info == old(info)
      ensures reply.Done? ==>
                && |View()| == |old(View())|
                && forall i :: 0 <= i < |View()| ==>
                     View()[i] == if i == index.value then EnabledRecord(Keys()[i]) else old(View())[i]
      ensures reply.Done? ==> info.status == old(info.status) - {index.value}
      ensures reply.Done? ==> info.time == old(info.time) - {index.value}
      ensures reply.Done? ==> info.reason == old(info.reason) - {index.value}
    {
      if !Accepts(index) { return Refused; }
      var i := index.value;
      Update(key, info.(status := info.status - {i}, time := info.time - {i}, reason := info.reason - {i}));
      reply := Done;
    }

    method EnableAllKeys() returns (enabledCount: nat)
      requires Valid()
      modifies this
      ensures Valid() && key == old(key)
      ensures info.status == map[] && info.time == map[] && info.reason == map[] && enabledCount == |old(info.status)|
      ensures forall i :: 0 <= i < |View()| ==> View()[i] == EnabledRecord(Keys()[i])
    {
      enabledCount := |info.status|;
      Update(key, ChannelInfo(info.size, map[], map[], map[]));
    }

    method DisableAllKeys() returns (reply: Reply, disabledCount: nat)
      requires Valid()
      modifies this
      ensures Valid() && key == old(key)
      ensures forall i :: 0 <= i < info.size ==>
                StatusAt(info, i) == if old(StatusAt(info, i)) == ENABLED then MANUALLY_DISABLED
                    else old(StatusAt(info, i))
      ensures info.time == old(info.time) && info.reason == old(info.reason)
      ensures reply.Refused? <==> forall i :: 0 <= i < old(info.size) ==> old(StatusAt(info, i)) != ENABLED
      ensures reply.Refused? ==> info == old(info)
      ensures disabledCount == |set i | 0 <= i < old(info).size && StatusAt(old(info), i) == ENABLED|
    {
      var status, count := DisableEnabled(info);
      disabledCount := count;
      if disabledCount == 0 { return Refused, 0; }
      Update(key, info.(status := status));
      reply := Done;
    }

    /** delete_key: the other keys move up one position, and so do their map entries. */
    method DeleteKey(index: Option<int>) returns (reply: Reply)
      requires Valid()
      modifies this
      ensures Valid()
      ensures reply.Done? <==> old(Accepts(index)) && RemoveAt(old(Keys()), index.value) != []
      ensures reply.Refused? ==> key == old(key) && info == old(info)
      ensures reply.Done? ==> key == Written(old(key), RemoveAt(old(Keys()), index.value))
      ensures reply.Done? ==>
                (View() == RemoveAt(old(View()), index.value) <==> Keys() == RemoveAt(old(Keys()), index.value))
      ensures reply.Done? && index.value < |old(Keys())| ==>
                var rest := RemoveAt(old(Keys()), index.value);
                PlainLines(decode, rest) ==> (View() == RemoveAt(old(View()), index.value) <==> SolidEnds(rest))
      ensures reply.Done? && Keys() == RemoveAt(old(Keys()), index.value) ==>
                Cells(Keys(), info) == RemoveAt(old(Cells(Keys(), info)), index.value) && Below(info, |Keys()|)
    {
      if !Accepts(index) { return Refused; }
      ghost var text, keys := key, Keys();
      var remaining, built := RebuildWithout(Keys(), info, index.value);
      if remaining == [] { return Refused; }
      Update(Join(remaining, '\n'), built);
      reply := Done;
      KeyNamesOfRecords(Keys(), info);
      KeyNamesOfRecords(remaining, built);
      if index.value < |keys| {
        Rewritten(decode, text, remaining, built, key, info);
      }
    }

    /** delete_disabled_keys: drop the automatically disabled keys and re-index the rest. */
    method DeleteDisabledKeys() returns (reply: Reply, deletedCount: nat)
      requires Valid()
      modifies this
      ensures Valid()
      ensures reply.Refused? <==> WithoutAutoDisabled(old(View())) == old(View())
      ensures reply.Refused? ==> key == old(key) && info == old(info)
      ensures reply.Done? ==> key == Written(old(key), KeyNames(WithoutAutoDisabled(old(View()))))
      ensures reply.Done? ==>
                (View() == WithoutAutoDisabled(old(View())) <==> Keys() == KeyNames(WithoutAutoDisabled(old(View()))))
      ensures reply.Done? ==>
                var rest := KeyNames(WithoutAutoDisabled(old(View())));
                PlainLines(decode, rest) ==> (View() == WithoutAutoDisabled(old(View())) <==> SolidEnds(rest))
      ensures deletedCount == |old(View())| - |WithoutAutoDisabled(old(View()))|
      ensures reply.Done? && WithoutAutoDisabled(old(View())) == [] ==>
                info.status == map[] && info.time == map[] && info.reason == map[]
      ensures reply.Done? && Keys() != [] && Keys() == KeyNames(WithoutAutoDisabled(old(View()))) ==>
                Cells(Keys(), info) == KeptCells(old(Cells(Keys(), info))) && Below(info, |Keys()|)
      // Every key was automatically disabled: none is deleted and all of them come back enabled.
      ensures WithoutAutoDisabled(old(View())) == [] && old(View()) != [] ==>
                key == old(key) && forall i :: 0 <= i < |View()| ==> View()[i] == EnabledRecord(Keys()[i])
    {
      ghost var text := key;
      var remaining, built, count := RebuildEnabled(Keys(), info);
      deletedCount := count;
      if deletedCount == 0 { return Refused, 0; }
      KeyNamesOfRecords(remaining, built);
      Update(Join(remaining, '\n'), built);
      reply := Done;
      KeyNamesOfRecords(Keys(), info);
      Rewritten(decode, text, remaining, built, key, info);
    }

    /** key_mode replace, or no mode: the submitted text takes the place of the stored one. */
    method ReplaceKeys(input: string)
      requires Valid()
      modifies this
      ensures Valid() && key == (if input == "" then old(key) else input)
      ensures info.time == old(info.time) && info.reason == old(info.reason)
      ensures info.status == map i | i in old(info.status) && i < info.size :: old(info.status)[i]
    {
      Update(input, info);
    }

    /** handlerMultiKeyUpdate: a relayed request found the key in use failing, or working again. */
    method RelayUpdate(usingKey: string, status: int, reason: string, now: int)
      requires Valid()
      modifies this
      ensures Valid() && key == old(key) && info.size == old(info.size)
      ensures info == AfterRelay(old(info), old(Keys()), usingKey, status, reason, now)
      ensures usingKey !in Keys() ==> info == old(info)
      ensures usingKey in Keys() ==>
                exists i :: FirstAt(Keys(), usingKey, i) && Relayed(old(info), info, i, status, reason, now)
    {
      var keys := Keys();
      var keyIndex := 0;
      while keyIndex < |keys| && keys[keyIndex] != usingKey
        invariant keyIndex <= |keys| && usingKey !in keys[..keyIndex]
      {
        keyIndex := keyIndex + 1;
      }
      FirstIndexIs(keys, usingKey, keyIndex);
      CountsAgree(decode, key);
      if keyIndex == |keys| { return; }
      assert FirstAt(keys, usingKey, keyIndex);
      if status == ENABLED {
        info := info.(status := info.status - {keyIndex});
      } else {
        info := info.(status := info.status[keyIndex := status],
          time := info.time[keyIndex := now], reason := info.reason[keyIndex := reason]);
      }
    }

    /** The append branch of UpdateChannel; `input` is the request's key text and `newKeys` the keys parsed from it. */
    method AppendKeys(input: string, newKeys: seq<string>)
      requires Valid()
      modifies this
      ensures Valid()
      ensures info.time == old(info.time) && info.reason == old(info.reason)
      ensures info.status == map i | i in old(info.status) && i < info.size :: old(info.status)[i]
      ensures old(key) == "" ==> key == input
      ensures old(key) != "" ==>
                var existing := ExistingForAppend(decode, old(key));
                key == Written(old(key), existing + Added(existing, newKeys))
      ensures old(key) != "" && !LooksLikeArray(old(key)) && FreeOf(newKeys, '\n') ==>
                var added := Added(old(Keys()), newKeys);
                Decoded(decode, Join(old(Keys()) + added, '\n')).None? ==>
                  (View() == old(View()) + EnabledRecords(added) <==> old(Keys())[0] != "" || added == [])
      ensures Decoded(decode, old(key)).Some? && old(Keys()) != [] ==>
                var added := Added(old(Keys()), newKeys);
                var all := old(Keys()) + added;
                PlainLines(decode, all) && all != [""] ==>
                  (View() == old(View()) + EnabledRecords(added) <==> SolidEnds(all))
    {
      if key == "" {
        Update(input, info);
      } else {
        var existing := ExistingForAppend(decode, key);
        var added := DedupeNewKeys(existing, newKeys);
        AddedIsExact(existing, newKeys);
        assert forall i :: 0 <= i < |added| ==> added[i] in added;
        ghost var text, before := key, info;
        Update(Join(existing + added, '\n'), info);
        if !LooksLikeArray(text) && FreeOf(newKeys, '\n') && Decoded(decode, Join(existing + added, '\n')).None? {
          AppendExact(decode, text, before, added, key, info);
        }
        if Decoded(decode, text).Some? && KeysOf(decode, text) != [] && PlainLines(decode, existing + added)
            && existing + added != [""] {
          AppendToArray(decode, text, before, added, key, info);
        }
      }
    }
  }

  /** The text column after a list of keys has been written back. */
  function Written(old_: string, keys: seq<string>): string {
    if Join(keys, '\n') == "" then old_ else Join(keys, '\n')
  }
}
