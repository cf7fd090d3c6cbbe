/** The handful of Go `strings` operations the modelled code relies on,
    specialised to one-character separators where the code only ever uses
    those. */
module Text {
  import opened Base

  /** Go's strings.HasPrefix. */
  predicate HasPrefix(s: string, p: string) {
    |p| <= |s| && s[..|p|] == p
  }

  /** `sub` occurs in `s` starting at index `i`. */
  predicate OccursAt(s: string, sub: string, i: int) {
    0 <= i && i + |sub| <= |s| && s[i..i + |sub|] == sub
  }

  /** Go's strings.Contains, as a left-to-right scan. */
  function Contains(s: string, sub: string): (r: bool)
    ensures r <==> exists i :: OccursAt(s, sub, i)
    decreases |s|
  {
    if HasPrefix(s, sub) then
      assert OccursAt(s, sub, 0);
      true
    else if |s| == 0 then
      false
    else
      ShiftOccurrence(s, sub);
      Contains(s[1..], sub)
  }

  /** Dropping a first character that does not start an occurrence keeps
      every occurrence, one position to the left. */
  lemma ShiftOccurrence(s: string, sub: string)
    requires |s| > 0 && !HasPrefix(s, sub)
    ensures (exists i :: OccursAt(s, sub, i)) <==> (exists i :: OccursAt(s[1..], sub, i))
  {
    forall i | OccursAt(s, sub, i)
      ensures OccursAt(s[1..], sub, i - 1)
    {
      assert i != 0;
      assert s[1..][i - 1..i - 1 + |sub|] == s[i..i + |sub|];
    }
    forall i | OccursAt(s[1..], sub, i)
      ensures OccursAt(s, sub, i + 1)
    {
      assert s[1..][i..i + |sub|] == s[i + 1..i + 1 + |sub|];
    }
  }

  /** Index of the first `c` in `s` (Go's strings.IndexByte). */
  function IndexOf(s: string, c: char): (r: Option<nat>)
    ensures r.None? <==> c !in s
    ensures r.Some? ==> r.value < |s| && s[r.value] == c && c !in s[..r.value]
  {
    if |s| == 0 then None
    else if s[0] == c then Some(0)
    else
      match IndexOf(s[1..], c)
      case None => None
      case Some(i) =>
        assert s[..i + 1] == [s[0]] + s[1..][..i];
        Some(i + 1)
  }

  /** Index of the last `c` in `s` (Go's strings.LastIndexByte). */
  function LastIndexOf(s: string, c: char): (r: Option<nat>)
    ensures r.None? <==> c !in s
    ensures r.Some? ==> r.value < |s| && s[r.value] == c && c !in s[r.value + 1..]
  {
    if |s| == 0 then None
    else if s[|s| - 1] == c then Some(|s| - 1)
    else
      var r := LastIndexOf(s[..|s| - 1], c);
      assert s == s[..|s| - 1] + [s[|s| - 1]];
      if r.Some? then
        assert s[r.value + 1..] == s[..|s| - 1][r.value + 1..] + [s[|s| - 1]];
        r
      else r
  }

  /** The first occurrence is the only one with no earlier occurrence. */
  lemma IndexOfUnique(s: string, c: char, i: nat)
    requires i < |s| && s[i] == c && c !in s[..i]
    ensures IndexOf(s, c) == Some(i)
  {
  }

  /** The last occurrence is the only one with no later occurrence. */
  lemma LastIndexOfUnique(s: string, c: char, i: nat)
    requires i < |s| && s[i] == c && c !in s[i + 1..]
    ensures LastIndexOf(s, c) == Some(i)
  {
  }

  /** Go's strings.Split with a one-character separator. */
  function Split(s: string, sep: char): (parts: seq<string>)
    ensures |parts| >= 1
    ensures forall i :: 0 <= i < |parts| ==> sep !in parts[i]
    decreases |s|
  {
    match IndexOf(s, sep)
    case None => [s]
    case Some(i) => [s[..i]] + Split(s[i + 1..], sep)
  }

  /** A split has one piece more than there are separators. */
  lemma {:induction false} SplitCount(s: string, sep: char)
    ensures |Split(s, sep)| == multiset(s)[sep] + 1
    decreases |s|
  {
    match IndexOf(s, sep)
    case None =>
    case Some(i) =>
      SplitCount(s[i + 1..], sep);
      assert s == s[..i] + [sep] + s[i + 1..];
      assert multiset(s[..i])[sep] == 0;
  }

  /** Go's strings.Join. */
  function Join(parts: seq<string>, sep: string): string {
    if |parts| == 0 then ""
    else if |parts| == 1 then parts[0]
    else parts[0] + sep + Join(parts[1..], sep)
  }

  /** The concatenation of all parts (Join with an empty separator). */
  function Concat(parts: seq<string>): string {
    if |parts| == 0 then "" else parts[0] + Concat(parts[1..])
  }

  /** Joining the pieces of a split with the separator gives back the input. */
  lemma {:induction false} JoinSplit(s: string, sep: char)
    ensures Join(Split(s, sep), [sep]) == s
    decreases |s|
  {
    match IndexOf(s, sep)
    case None =>
    case Some(i) =>
      JoinSplit(s[i + 1..], sep);
      var rest := Split(s[i + 1..], sep);
      assert Split(s, sep) == [s[..i]] + rest;
      assert ([s[..i]] + rest)[1..] == rest;
      assert s == s[..i] + [sep] + s[i + 1..];
  }

  /** Splitting a join of separator-free parts gives back the parts. */
  lemma {:induction false} SplitJoin(parts: seq<string>, sep: char)
    requires |parts| >= 1
    requires forall i :: 0 <= i < |parts| ==> sep !in parts[i]
    ensures Split(Join(parts, [sep]), sep) == parts
    decreases |parts|
  {
    if |parts| > 1 {
      var rest := parts[1..];
      SplitJoin(rest, sep);
      SplitJoinStep(parts[0], rest, sep);
      assert parts == [parts[0]] + rest;
    }
  }

  lemma SplitJoinStep(head: string, rest: seq<string>, sep: char)
    requires sep !in head && |rest| >= 1
    requires Split(Join(rest, [sep]), sep) == rest
    ensures Split(Join([head] + rest, [sep]), sep) == [head] + rest
  {
    var tail := Join(rest, [sep]);
    assert ([head] + rest)[1..] == rest;
    assert Join([head] + rest, [sep]) == head + [sep] + tail;
    SplitAtFirst(head, tail, sep);
  }

  /** Splitting at the first separator, when it follows a separator-free head. */
  lemma SplitAtFirst(head: string, tail: string, sep: char)
    requires sep !in head
    ensures Split(head + [sep] + tail, sep) == [head] + Split(tail, sep)
  {
    var s := head + [sep] + tail;
    assert s[..|head|] == head;
    IndexOfUnique(s, sep, |head|);
    assert s[|head| + 1..] == tail;
  }

  /** Go's strings.Replace(s, old, "", -1) for a one-character `old`:
      every `c` is removed and the other characters keep their order. */
  function RemoveAll(s: string, c: char): (r: string)
    ensures c !in r
    ensures |r| <= |s|
  {
    if |s| == 0 then ""
    else (if s[0] == c then "" else [s[0]]) + RemoveAll(s[1..], c)
  }

  /** RemoveAll drops exactly the occurrences of `c` and keeps every other
      character as often as it occurs. */
  lemma {:induction false} RemoveAllCounts(s: string, c: char)
    ensures |RemoveAll(s, c)| == |s| - multiset(s)[c]
    ensures forall x :: x != c ==> multiset(RemoveAll(s, c))[x] == multiset(s)[x]
    decreases |s|
  {
    if |s| > 0 {
      var t := s[1..];
      RemoveAllCounts(t, c);
      var h: string := if s[0] == c then "" else [s[0]];
      assert RemoveAll(s, c) == h + RemoveAll(t, c);
      assert multiset(s) == multiset([s[0]]) + multiset(t) by {
        assert s == [s[0]] + t;
      }
      assert multiset(RemoveAll(s, c)) == multiset(h) + multiset(RemoveAll(t, c));
    }
  }

  lemma {:induction false} RemoveAllAppend(a: string, b: string, c: char)
    ensures RemoveAll(a + b, c) == RemoveAll(a, c) + RemoveAll(b, c)
    decreases |a|
  {
    if |a| > 0 {
      var h: string := if a[0] == c then "" else [a[0]];
      assert RemoveAll(a + b, c) == h + RemoveAll(a[1..] + b, c) by {
        assert (a + b)[0] == a[0] && (a + b)[1..] == a[1..] + b;
      }
      assert RemoveAll(a[1..] + b, c) == RemoveAll(a[1..], c) + RemoveAll(b, c) by {
        RemoveAllAppend(a[1..], b, c);
      }
      assert RemoveAll(a, c) == h + RemoveAll(a[1..], c);
    } else {
      assert a + b == b;
    }
  }

  lemma {:induction false} RemoveAllAbsent(s: string, c: char)
    requires c !in s
    ensures RemoveAll(s, c) == s
    decreases |s|
  {
    if |s| > 0 {
      RemoveAllAbsent(s[1..], c);
    }
  }

  /** Removing the separator from a join of separator-free parts is the
      plain concatenation of the parts. */
  lemma {:induction false} RemoveAllJoin(parts: seq<string>, c: char)
    requires forall i :: 0 <= i < |parts| ==> c !in parts[i]
    ensures RemoveAll(Join(parts, [c]), c) == Concat(parts)
    decreases |parts|
  {
    if |parts| == 1 {
      RemoveAllAbsent(parts[0], c);
      assert Concat(parts) == parts[0] + Concat(parts[1..]);
    } else if |parts| > 1 {
      var head, rest := parts[0], parts[1..];
      var tail := Join(rest, [c]);
      assert Join(parts, [c]) == (head + [c]) + tail;
      assert RemoveAll(head + [c], c) == head by {
        RemoveAllAppend(head, [c], c);
        RemoveAllAbsent(head, c);
        assert RemoveAll([c], c) == "";
      }
      assert RemoveAll(tail, c) == Concat(rest) by {
        assert forall i :: 0 <= i < |rest| ==> rest[i] == parts[i + 1];
        RemoveAllJoin(rest, c);
      }
      RemoveAllAppend(head + [c], tail, c);
      assert Concat(parts) == head + Concat(rest);
    }
  }

  /** Strips trailing characters satisfying `drop` (Go's strings.TrimRightFunc). */
  function TrimRightWhere(s: string, drop: char -> bool): (r: string)
    ensures HasPrefix(s, r)
    ensures |r| == 0 || !drop(r[|r| - 1])
    ensures forall i :: |r| <= i < |s| ==> drop(s[i])
  {
    if |s| > 0 && drop(s[|s| - 1]) then
      var r := TrimRightWhere(s[..|s| - 1], drop);
      assert s[..|s| - 1][..|r|] == s[..|r|];
      r
    else s
  }

  /** Strips leading characters satisfying `drop` (Go's strings.TrimLeftFunc). */
  function TrimLeftWhere(s: string, drop: char -> bool): (r: string)
    ensures |r| <= |s| && s[|s| - |r|..] == r
    ensures |r| == 0 || !drop(r[0])
    ensures forall i :: 0 <= i < |s| - |r| ==> drop(s[i])
  {
    if |s| > 0 && drop(s[0]) then
      var r := TrimLeftWhere(s[1..], drop);
      assert s[1..][|s| - 1 - |r|..] == s[|s| - |r|..];
      r
    else s
  }

  /** Go's strings.TrimRight(s, cutset) for a one-character cutset. */
  function TrimRightChar(s: string, c: char): string {
    TrimRightWhere(s, x => x == c)
  }

  /** Go's strings.Trim(s, cutset) for a one-character cutset. */
  function TrimChar(s: string, c: char): string {
    TrimLeftWhere(TrimRightWhere(s, x => x == c), x => x == c)
  }

  /** Trim leaves a text alone whose ends are not the trimmed character. */
  lemma TrimCharKeeps(s: string, c: char)
    requires |s| == 0 || (s[0] != c && s[|s| - 1] != c)
    ensures TrimChar(s, c) == s
  {
  }

  /** Go's unicode.IsSpace: the Latin-1 spaces and the remaining Unicode
      White_Space characters. */
  predicate IsSpace(c: char) {
    || c == '\t' || c == '\n' || c == '\U{000B}' || c == '\U{000C}' || c == '\r' || c == ' '
    || c == '\U{0085}' || c == '\U{00A0}' || c == '\U{1680}'
    || ('\U{2000}' <= c <= '\U{200A}')
    || c == '\U{2028}' || c == '\U{2029}' || c == '\U{202F}' || c == '\U{205F}' || c == '\U{3000}'
  }

  /** Go's strings.TrimSpace. */
  function TrimSpace(s: string): string {
    TrimLeftWhere(TrimRightWhere(s, IsSpace), IsSpace)
  }

  /** TrimSpace leaves a text alone whose ends are not white space. */
  lemma TrimSpaceKeeps(s: string)
    requires |s| == 0 || (!IsSpace(s[0]) && !IsSpace(s[|s| - 1]))
    ensures TrimSpace(s) == s
  {
  }

  /** An ASCII capital letter. */
  predicate IsUpper(c: char) {
    'A' <= c <= 'Z'
  }

  /** ASCII lower-casing of one character. */
  function LowerChar(c: char): char {
    if IsUpper(c) then (c as int + 32) as char else c
  }

  /** Lower-casing of the ASCII letters of `s`, character by character. */
  function ToLower(s: string): (r: string)
    ensures |r| == |s|
    ensures forall i :: 0 <= i < |s| ==> r[i] == LowerChar(s[i])
  {
    seq(|s|, i requires 0 <= i < |s| => LowerChar(s[i]))
  }

  /** Lower-casing changes a text exactly when it holds a capital letter,
      and a lower-cased text has none left. */
  lemma ToLowerKeeps(s: string)
    ensures ToLower(s) == s <==> forall i :: 0 <= i < |s| ==> !IsUpper(s[i])
    ensures forall i :: 0 <= i < |s| ==> !IsUpper(ToLower(s)[i])
  {
    if ToLower(s) == s {
      forall i | 0 <= i < |s|
        ensures !IsUpper(s[i])
      {
        assert ToLower(s)[i] == LowerChar(s[i]);
      }
    }
  }
}
