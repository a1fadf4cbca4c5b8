/**
 The string operations of Go's strings package that the modelled code relies on,
 with the laws the proofs need. A separator-joined text and the list of its fields
 are two views of the same data exactly when the outermost fields are non-empty.
 */
module Text {

  /** unicode.IsSpace, the characters removed by strings.TrimSpace. */
  predicate IsSpace(c: char) {
    var n := c as int;
    || 0x09 <= n <= 0x0D || n == 0x20 || n == 0x85 || n == 0xA0 || n == 0x1680
    || 0x2000 <= n <= 0x200A || n == 0x2028 || n == 0x2029 || n == 0x202F || n == 0x205F || n == 0x3000
  }

  predicate HasPrefix(s: string, p: string) {
    p <= s
  }

  predicate HasSuffix(s: string, p: string) {
    |p| <= |s| && s[|s| - |p|..] == p
  }

  predicate Contains(s: string, p: string) {
    exists i :: 0 <= i <= |s| && p <= s[i..]
  }

  lemma HasPrefixMeans(s: string, p: string)
    ensures HasPrefix(s, p) <==> exists rest :: s == p + rest
  {
    if HasPrefix(s, p) {
      assert s == p + s[|p|..];
    }
  }

  lemma HasSuffixMeans(s: string, p: string)
    ensures HasSuffix(s, p) <==> exists rest :: s == rest + p
  {
    if HasSuffix(s, p) {
      assert s == s[..|s| - |p|] + p;
    }
  }

  lemma ContainsMeans(s: string, p: string)
    ensures Contains(s, p) <==> exists a, b :: s == a + p + b
  {
    if Contains(s, p) {
      var i :| 0 <= i <= |s| && p <= s[i..];
      assert s == s[..i] + p + s[i + |p|..];
    }
    if a, b :| s == a + p + b {
      assert s[|a|..] == p + b;
    }
  }

  function TrimLeft(s: string, cut: char -> bool): string {
    if s != "" && cut(s[0]) then TrimLeft(s[1..], cut) else s
  }

  function TrimRight(s: string, cut: char -> bool): string {
    if s != "" && cut(s[|s| - 1]) then TrimRight(s[..|s| - 1], cut) else s
  }

  /** strings.Trim with the characters given by a predicate. */
  function Trim(s: string, cut: char -> bool): string {
    TrimRight(TrimLeft(s, cut), cut)
  }

  function TrimSpace(s: string): string {
    Trim(s, IsSpace)
  }

  lemma {:induction false} TrimLeftLaws(s: string, cut: char -> bool)
    ensures var r := TrimLeft(s, cut); |r| <= |s| && r == s[|s| - |r|..] && (r == "" || !cut(r[0]))
    decreases |s|
  {
    if s != "" && cut(s[0]) {
      TrimLeftLaws(s[1..], cut);
    }
  }

  lemma {:induction false} TrimRightLaws(s: string, cut: char -> bool)
    ensures var r := TrimRight(s, cut); r <= s && (r == "" || !cut(r[|r| - 1]))
    decreases |s|
  {
    if s != "" && cut(s[|s| - 1]) {
      TrimRightLaws(s[..|s| - 1], cut);
    }
  }

  /** Neither end of a trimmed text is cut, and trimming never introduces a character. */
  lemma TrimLaws(s: string, cut: char -> bool)
    ensures var r := Trim(s, cut);
            && (r == "" || (!cut(r[0]) && !cut(r[|r| - 1])))
            && forall c :: c in r ==> c in s
  {
    TrimLeftLaws(s, cut);
    TrimRightLaws(TrimLeft(s, cut), cut);
  }

  ghost predicate AllCut(s: string, cut: char -> bool) {
    forall i :: 0 <= i < |s| ==> cut(s[i])
  }

  lemma {:induction false} TrimLeftExactly(s: string, cut: char -> bool) returns (gone: string)
    ensures s == gone + TrimLeft(s, cut) && AllCut(gone, cut)
    decreases |s|
  {
    if s != "" && cut(s[0]) {
      gone := TrimLeftExactly(s[1..], cut);
      gone := [s[0]] + gone;
    } else {
      gone := "";
    }
  }

  lemma {:induction false} TrimRightExactly(s: string, cut: char -> bool) returns (gone: string)
    ensures s == TrimRight(s, cut) + gone && AllCut(gone, cut)
    decreases |s|
  {
    if s != "" && cut(s[|s| - 1]) {
      gone := TrimRightExactly(s[..|s| - 1], cut);
      gone := gone + [s[|s| - 1]];
    } else {
      gone := "";
    }
  }

  /** Trimming removes cut characters at both ends and nothing else. */
  lemma TrimExactly(s: string, cut: char -> bool) returns (front: string, back: string)
    ensures s == front + Trim(s, cut) + back && AllCut(front, cut) && AllCut(back, cut)
    ensures var r := Trim(s, cut); r == "" || (!cut(r[0]) && !cut(r[|r| - 1]))
  {
    front := TrimLeftExactly(s, cut);
    back := TrimRightExactly(TrimLeft(s, cut), cut);
    TrimLaws(s, cut);
  }

  /** A text without cut characters at its ends is left alone. */
  lemma TrimFixed(s: string, cut: char -> bool)
    requires s == "" || (!cut(s[0]) && !cut(s[|s| - 1]))
    ensures Trim(s, cut) == s
  {
  }

  /** Trimming a trimmed text changes nothing. */
  lemma TrimSpaceLaws(s: string, c: char)
    ensures TrimSpace(TrimSpace(s)) == TrimSpace(s)
    ensures c !in s ==> c !in TrimSpace(s)
  {
    TrimLaws(s, IsSpace);
    TrimFixed(TrimSpace(s), IsSpace);
  }

  function TrimAll(names: seq<string>): (r: seq<string>)
    ensures |r| == |names|
    ensures forall i :: 0 <= i < |names| ==> r[i] == TrimSpace(names[i])
  {
    seq(|names|, i requires 0 <= i < |names| => TrimSpace(names[i]))
  }

  /** The names that are not empty, in order. */
  function NonEmpty(names: seq<string>): seq<string> {
    if names == [] then []
    else if names[0] == "" then NonEmpty(names[1..])
    else [names[0]] + NonEmpty(names[1..])
  }

  lemma {:induction false} NonEmptyMembers(names: seq<string>, n: string)
    ensures n in NonEmpty(names) <==> n in names && n != ""
  {
    if names != [] {
      assert names == [names[0]] + names[1..];
      NonEmptyMembers(names[1..], n);
    }
  }

  ghost predicate AllTrimmed(names: seq<string>) {
    forall i :: 0 <= i < |names| ==> TrimSpace(names[i]) == names[i]
  }

  lemma TrimAllLaws(names: seq<string>, c: char)
    ensures AllTrimmed(TrimAll(names))
    ensures AllTrimmed(names) ==> TrimAll(names) == names
    ensures FreeOf(names, c) ==> FreeOf(TrimAll(names), c)
  {
    forall i | 0 <= i < |names|
      ensures TrimSpace(TrimSpace(names[i])) == TrimSpace(names[i])
      ensures c !in names[i] ==> c !in TrimSpace(names[i])
    {
      TrimSpaceLaws(names[i], c);
    }
  }

  /** The names that are non-empty and not seen before, in order of first occurrence. */
  function Unseen(seen: set<string>, names: seq<string>): seq<string>
    decreases |names|
  {
    if names == [] then []
    else if names[0] == "" || names[0] in seen then Unseen(seen, names[1..])
    else [names[0]] + Unseen(seen + {names[0]}, names[1..])
  }

  /** Exactly the unseen names, each once. */
  lemma {:induction false} UnseenIsExact(seen: set<string>, names: seq<string>)
    ensures var r := Unseen(seen, names);
            && (forall k :: k in r <==> k in names && k != "" && k !in seen)
            && (forall i, j :: 0 <= i < j < |r| ==> r[i] != r[j])
    decreases |names|
  {
    if names != [] {
      var k := names[0];
      assert names == [k] + names[1..];
      if k == "" || k in seen {
        UnseenIsExact(seen, names[1..]);
      } else {
        UnseenIsExact(seen + {k}, names[1..]);
      }
    }
  }

  /** In the list, `a` occurs before `b` does for the first time. */
  ghost predicate EarlierThan(names: seq<string>, a: string, b: string) {
    exists q :: 0 <= q < |names| && names[q] == b && b !in names[..q] && a in names[..q]
  }

  lemma {:induction false} FirstOccurrence(names: seq<string>, b: string) returns (q: nat)
    requires b in names
    ensures q < |names| && names[q] == b && b !in names[..q]
  {
    if names[0] == b {
      q := 0;
    } else {
      q := FirstOccurrence(names[1..], b);
      q := q + 1;
      assert names[..q] == [names[0]] + names[1..][..q - 1];
    }
  }

  lemma EarlierInTail(names: seq<string>, a: string, b: string)
    requires names != [] && names[0] != b && b in names[1..] && (a == names[0] || EarlierThan(names[1..], a, b))
    ensures EarlierThan(names, a, b)
  {
    var q: nat;
    if a == names[0] {
      q := FirstOccurrence(names[1..], b);
    } else {
      var p :| 0 <= p < |names[1..]| && names[1..][p] == b && b !in names[1..][..p] && a in names[1..][..p];
      q := p;
    }
    assert names[..q + 1] == [names[0]] + names[1..][..q];
    assert names[q + 1] == b;
  }

  /** Unseen names come in the order of their first occurrences. */
  lemma {:induction false} UnseenInOrder(seen: set<string>, names: seq<string>, i: nat, j: nat)
    requires i < j < |Unseen(seen, names)|
    ensures EarlierThan(names, Unseen(seen, names)[i], Unseen(seen, names)[j])
    decreases |names|
  {
    var k, tail, r := names[0], names[1..], Unseen(seen, names);
    if k == "" || k in seen {
      UnseenInOrder(seen, tail, i, j);
      UnseenMember(seen, tail, j);
    } else {
      if i > 0 {
        UnseenInOrder(seen + {k}, tail, i - 1, j - 1);
      }
      UnseenMember(seen + {k}, tail, j - 1);
    }
    EarlierInTail(names, r[i], r[j]);
  }

  lemma UnseenMember(seen: set<string>, names: seq<string>, i: nat)
    requires i < |Unseen(seen, names)|
    ensures var n := Unseen(seen, names)[i]; n in names && n != "" && n !in seen
  {
    UnseenIsExact(seen, names);
  }

  function Split(s: string, sep: char): (r: seq<string>)
    ensures r != []
    decreases |s|
  {
    if s == "" then [""]
    else
      var rest := Split(s[1..], sep);
      if s[0] == sep then [""] + rest else [[s[0]] + rest[0]] + rest[1..]
  }

  function Join(fields: seq<string>, sep: char): string {
    if fields == [] then ""
    else if |fields| == 1 then fields[0]
    else fields[0] + [sep] + Join(fields[1..], sep)
  }

  ghost predicate FreeOf(fields: seq<string>, sep: char) {
    forall i :: 0 <= i < |fields| ==> sep !in fields[i]
  }

  lemma {:induction false} SplitIsFree(s: string, sep: char)
    ensures FreeOf(Split(s, sep), sep)
    decreases |s|
  {
    if s != "" {
      SplitIsFree(s[1..], sep);
    }
  }

  lemma {:induction false} SplitOne(field: string, sep: char)
    requires sep !in field
    ensures Split(field, sep) == [field]
    decreases |field|
  {
    if field != "" {
      SplitOne(field[1..], sep);
      assert [field[0]] + field[1..] == field;
    }
  }

  lemma {:induction false} SplitPrepend(field: string, sep: char, rest: string)
    requires sep !in field
    ensures Split(field + [sep] + rest, sep) == [field] + Split(rest, sep)
    decreases |field|
  {
    var s := field + [sep] + rest;
    if field == "" {
      assert s[1..] == rest;
    } else {
      assert s[1..] == field[1..] + [sep] + rest;
      SplitPrepend(field[1..], sep, rest);
      assert [field[0]] + field[1..] == field;
    }
  }

  lemma {:induction false} SplitOfJoin(fields: seq<string>, sep: char)
    requires fields != [] && FreeOf(fields, sep)
    ensures Split(Join(fields, sep), sep) == fields
  {
    if |fields| == 1 {
      SplitOne(fields[0], sep);
    } else {
      SplitPrepend(fields[0], sep, Join(fields[1..], sep));
      SplitOfJoin(fields[1..], sep);
    }
  }

  /** The fields of a text, joined, are the text. */
  lemma {:induction false} JoinOfSplit(s: string, sep: char)
    ensures Join(Split(s, sep), sep) == s
    decreases |s|
  {
    if s != "" {
      JoinOfSplit(s[1..], sep);
      var rest := Split(s[1..], sep);
      if s[0] == sep {
        assert ([""] + rest)[1..] == rest;
      } else {
        assert ([[s[0]] + rest[0]] + rest[1..])[1..] == rest[1..];
      }
    }
  }

  // ----- Trimmed fields: Split(Trim(text, sep), sep) ---------------------------

  function Is(sep: char): char -> bool {
    c => c == sep
  }

  /** How the code reads a separator-joined column back: outer separators are trimmed first. */
  function Fields(text: string, sep: char): (r: seq<string>)
    ensures r != []
  {
    Split(Trim(text, Is(sep)), sep)
  }

  lemma {:induction false} JoinEnds(fields: seq<string>, sep: char)
    requires fields != []
    ensures var text := Join(fields, sep); var last := fields[|fields| - 1];
            && (fields[0] != "" ==> text != "" && text[0] == fields[0][0])
            && (last != "" ==> text != "" && text[|text| - 1] == last[|last| - 1])
            && (|fields| > 1 && fields[0] == "" ==> text != "" && text[0] == sep)
            && (|fields| > 1 && last == "" ==> text != "" && text[|text| - 1] == sep)
  {
    if |fields| > 1 {
      JoinEnds(fields[1..], sep);
    }
  }

  function Count(s: string, c: char): nat {
    if s == "" then 0 else (if s[0] == c then 1 else 0) + Count(s[1..], c)
  }

  lemma {:induction false} CountConcat(a: string, b: string, c: char)
    ensures Count(a + b, c) == Count(a, c) + Count(b, c)
  {
    if a == "" {
      assert a + b == b;
    } else {
      assert (a + b)[1..] == a[1..] + b;
      CountConcat(a[1..], b, c);
    }
  }

  lemma {:induction false} SplitLength(s: string, sep: char)
    ensures |Split(s, sep)| == 1 + Count(s, sep)
    decreases |s|
  {
    if s != "" {
      SplitLength(s[1..], sep);
    }
  }

  lemma {:induction false} TrimLeftCount(s: string, sep: char)
    ensures var r := TrimLeft(s, Is(sep)); Count(r, sep) + |s| - |r| == Count(s, sep)
    decreases |s|
  {
    if s != "" && s[0] == sep {
      TrimLeftCount(s[1..], sep);
    }
  }

  lemma {:induction false} TrimRightCount(s: string, sep: char)
    ensures var r := TrimRight(s, Is(sep)); Count(r, sep) + |s| - |r| == Count(s, sep)
    decreases |s|
  {
    if s != "" && s[|s| - 1] == sep {
      var init := s[..|s| - 1];
      TrimRightCount(init, sep);
      assert s == init + [sep];
      CountConcat(init, [sep], sep);
    }
  }

  /** Trimming only removes separators, and removes some when the text begins or ends with one. */
  lemma TrimCount(s: string, sep: char)
    requires s != "" && (s[0] == sep || s[|s| - 1] == sep)
    ensures Count(Trim(s, Is(sep)), sep) < Count(s, sep)
  {
    var left := TrimLeft(s, Is(sep));
    TrimLeftCount(s, sep);
    TrimRightCount(left, sep);
    TrimRightLaws(left, Is(sep));
    if s[0] == sep {
      TrimLeftLaws(s[1..], Is(sep));
    } else {
      TrimRightLaws(s[..|s| - 1], Is(sep));
    }
  }

  /** The round trip through a joined text is lossless exactly when no empty field is outermost. */
  lemma FieldsOfJoin(fields: seq<string>, sep: char)
    requires fields != [] && FreeOf(fields, sep)
    ensures Fields(Join(fields, sep), sep) == fields
            <==> (fields[0] != "" && fields[|fields| - 1] != "") || fields == [""]
  {
    var text := Join(fields, sep);
    JoinEnds(fields, sep);
    SplitOfJoin(fields, sep);
    if fields == [""] {
    } else if fields[0] != "" && fields[|fields| - 1] != "" {
      var last := fields[|fields| - 1];
      assert sep !in fields[0] && fields[0][0] in fields[0];
      assert sep !in last && last[|last| - 1] in last;
      TrimFixed(text, Is(sep));
    } else {
      assert |fields| > 1;
      TrimCount(text, sep);
      SplitLength(text, sep);
      SplitLength(Trim(text, Is(sep)), sep);
    }
  }
}
