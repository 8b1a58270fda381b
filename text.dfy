/**
 * String primitives the dashboard's filters rely on, stated as Python
 * defines them: `str.lower` on ASCII letters, literal case-insensitive
 * `contains`, `str.split(sep)` (leftmost, non-overlapping) and `str.strip()`.
 */
module Text {

  datatype Option<+T> = None | Some(value: T)

  /** Lower-cases one ASCII letter; every other character is left alone. */
  function LowerChar(c: char): (d: char)
    ensures 'A' <= c <= 'Z' ==> 'a' <= d <= 'z' && d as int - c as int == 32
    ensures !('A' <= c <= 'Z') ==> d == c
  {
    if 'A' <= c <= 'Z' then (c as int + 32) as char else c
  }

  /** `s.lower()` restricted to ASCII letters. */
  function Lower(s: string): (r: string)
    ensures |r| == |s|
    ensures forall i :: 0 <= i < |s| ==> r[i] == LowerChar(s[i])
  {
    if s == [] then [] else [LowerChar(s[0])] + Lower(s[1..])
  }

  /** True when `t` occurs in `s` starting at index `i`. */
  predicate OccursAt(s: string, t: string, i: int)
  {
    0 <= i && i + |t| <= |s| && s[i..i + |t|] == t
  }

  /** Literal substring test. */
  predicate Contains(s: string, t: string)
  {
    exists i :: 0 <= i <= |s| - |t| && OccursAt(s, t, i)
  }

  /** `t` occurs in `s` ignoring the case of ASCII letters: the
      `str.contains(t, case=False)` of a pattern without regex syntax. */
  predicate ContainsCI(s: string, t: string)
  {
    Contains(Lower(s), Lower(t))
  }

  /** Characters that give a pattern a regex meaning in Python's `re`. */
  predicate IsRegexMeta(c: char)
  {
    c in ".^$*+?{}[]\\|()"
  }

  /** A filter text that a regex engine reads as a plain string. */
  predicate IsLiteral(t: string)
  {
    forall i :: 0 <= i < |t| ==> !IsRegexMeta(t[i])
  }

  /** Python's `str.isspace` for one character. */
  predicate IsSpace(c: char)
  {
    || '\t' <= c <= '\r'
    || '\U{1c}' <= c <= ' '
    || c == '\U{85}' || c == '\U{a0}' || c == '\U{1680}'
    || '\U{2000}' <= c <= '\U{200a}'
    || c == '\U{2028}' || c == '\U{2029}' || c == '\U{202f}' || c == '\U{205f}' || c == '\U{3000}'
  }

  /** `s.lstrip()`. */
  function StripLeft(s: string): (r: string)
    ensures |r| <= |s| && r == s[|s| - |r|..]
    ensures forall k :: 0 <= k < |s| - |r| ==> IsSpace(s[k])
    ensures r != [] ==> !IsSpace(r[0])
  {
    if s != [] && IsSpace(s[0]) then
      var r := StripLeft(s[1..]);
      assert forall k :: 1 <= k < |s| - |r| ==> s[k] == s[1..][k - 1];
      r
    else s
  }

  /** `s.rstrip()`. */
  function StripRight(s: string): (r: string)
    ensures |r| <= |s| && r == s[..|r|]
    ensures forall k :: |r| <= k < |s| ==> IsSpace(s[k])
    ensures r != [] ==> !IsSpace(r[|r| - 1])
  {
    if s != [] && IsSpace(s[|s| - 1]) then
      var init := s[..|s| - 1];
      var r := StripRight(init);
      assert r == s[..|r|];
      assert forall k :: |r| <= k < |init| ==> s[k] == init[k];
      r
    else s
  }

  /** `s.strip()`: white space removed at both ends. */
  function Strip(s: string): string
  {
    StripRight(StripLeft(s))
  }

  /** The leftmost occurrence of a non-empty `t` in `s`, if any. */
  function Find(s: string, t: string): (r: Option<nat>)
    requires t != []
    ensures r.Some? ==> OccursAt(s, t, r.value)
    ensures r.Some? ==> forall j :: 0 <= j < r.value ==> !OccursAt(s, t, j)
    ensures r.None? <==> !Contains(s, t)
    decreases |s|
  {
    if |s| < |t| then None
    else if s[..|t|] == t then Some(0)
    else
      match Find(s[1..], t)
      case None =>
        assert forall j :: 1 <= j ==> OccursAt(s, t, j) == OccursAt(s[1..], t, j - 1);
        None
      case Some(k) =>
        assert forall j :: 1 <= j ==> OccursAt(s, t, j) == OccursAt(s[1..], t, j - 1);
        Some(k + 1)
  }

  /** `sep.join(parts)`. */
  function Join(parts: seq<string>, sep: string): string
  {
    if parts == [] then []
    else if |parts| == 1 then parts[0]
    else parts[0] + sep + Join(parts[1..], sep)
  }

  /** `s.split(sep)` for a non-empty separator: cut at the leftmost
      occurrence, then split what follows it. */
  function Split(s: string, sep: string): (parts: seq<string>)
    requires sep != []
    ensures |parts| >= 1
    decreases |s|
  {
    match Find(s, sep)
    case None => [s]
    case Some(i) => [s[..i]] + Split(s[i + |sep|..], sep)
  }

  /** Joining the parts of a split with the separator gives the text back,
      no part contains the separator, and every cut is at the leftmost
      occurrence of the separator in what is left. */
  lemma SplitParts(s: string, sep: string)
    requires sep != []
    ensures Join(Split(s, sep), sep) == s
    ensures forall k :: 0 <= k < |Split(s, sep)| ==> !Contains(Split(s, sep)[k], sep)
    ensures CutsLeftmost(Split(s, sep), sep)
  {
    SplitJoin(s, sep);
    SplitPartsFree(s, sep);
    SplitCutsLeftmost(s, sep);
  }

  /** Every part but the last, followed by all of the separator except its
      last character, still does not contain the separator: the separator
      after each part is the first one that begins at or after it. */
  predicate CutsLeftmost(parts: seq<string>, sep: string)
    requires sep != []
  {
    forall k :: 0 <= k < |parts| - 1 ==> !Contains(parts[k] + sep[..|sep| - 1], sep)
  }

  lemma {:induction false} SplitCutsLeftmost(s: string, sep: string)
    requires sep != []
    ensures CutsLeftmost(Split(s, sep), sep)
    decreases |s|
  {
    match Find(s, sep)
    case None =>
    case Some(i) =>
      var tail := s[i + |sep|..];
      SplitCutsLeftmost(tail, sep);
      var head := s[..i];
      PartBeforeFirst(s, sep, i);
      var parts := Split(s, sep);
      assert parts == [head] + Split(tail, sep);
      forall k | 0 <= k < |parts| - 1 ensures !Contains(parts[k] + sep[..|sep| - 1], sep) {
        if k > 0 {
          assert parts[k] == Split(tail, sep)[k - 1];
        }
      }
  }

  /** The text before the leftmost occurrence of `sep`, followed by all of
      `sep` but its last character, does not contain `sep`. */
  lemma PartBeforeFirst(s: string, sep: string, i: nat)
    requires sep != [] && OccursAt(s, sep, i)
    requires forall j :: 0 <= j < i ==> !OccursAt(s, sep, j)
    ensures !Contains(s[..i] + sep[..|sep| - 1], sep)
  {
    var u := s[..i] + sep[..|sep| - 1];
    var w := s[..i + |sep| - 1];
    assert u == w by {
      assert s[i..i + |sep|] == sep;
    }
    forall j | 0 <= j <= |u| - |sep| ensures !OccursAt(u, sep, j) {
      assert w[j..j + |sep|] == s[j..j + |sep|];
      assert !OccursAt(s, sep, j);
    }
  }

  /** In `head + sep + tail`, no occurrence of `sep` starts inside `head` when
      `head` followed by all of `sep` but its last character is free of it. */
  lemma CutAfterPart(head: string, sep: string, tail: string)
    requires sep != [] && !Contains(head + sep[..|sep| - 1], sep)
    ensures forall j :: 0 <= j < |head| ==> !OccursAt(head + sep + tail, sep, j)
  {
    var s, u := head + sep + tail, head + sep[..|sep| - 1];
    var w := s[..|head| + |sep| - 1];
    assert u == w;
    forall j | 0 <= j < |head| ensures !OccursAt(s, sep, j) {
      assert w[j..j + |sep|] == s[j..j + |sep|];
      assert !OccursAt(u, sep, j);
    }
  }

  /** Python's split is the only way to cut a text into parts that join back
      to it, contain no separator and are cut at the leftmost occurrence. */
  lemma {:induction false} SplitUnique(s: string, sep: string, parts: seq<string>)
    requires sep != [] && parts != []
    requires Join(parts, sep) == s && NoneContain(parts, sep) && CutsLeftmost(parts, sep)
    ensures parts == Split(s, sep)
    decreases |parts|
  {
    if |parts| == 1 {
      assert s == parts[0];
    } else {
      var head, rest := parts[0], parts[1..];
      JoinCons(head, rest, sep);
      assert parts == [head] + rest;
      var tail := Join(rest, sep);
      var i := |head|;
      assert s == head + sep + tail;
      assert OccursAt(s, sep, i) by {
        assert s[i..i + |sep|] == sep;
      }
      assert !Contains(head + sep[..|sep| - 1], sep);
      CutAfterPart(head, sep, tail);
      assert Find(s, sep) == Some(i);
      assert s[..i] == head;
      assert s[i + |sep|..] == tail;
      assert Split(s, sep) == [head] + Split(tail, sep);
      assert NoneContain(rest, sep) by {
        forall k | 0 <= k < |rest| ensures !Contains(rest[k], sep) {
          assert rest[k] == parts[k + 1];
        }
      }
      assert CutsLeftmost(rest, sep) by {
        forall k | 0 <= k < |rest| - 1 ensures !Contains(rest[k] + sep[..|sep| - 1], sep) {
          assert rest[k] == parts[k + 1];
        }
      }
      SplitUnique(tail, sep, rest);
    }
  }

  lemma {:induction false} SplitJoin(s: string, sep: string)
    requires sep != []
    ensures Join(Split(s, sep), sep) == s
    decreases |s|
  {
    match Find(s, sep)
    case None =>
    case Some(i) =>
      var head, tail := s[..i], s[i + |sep|..];
      assert s == head + sep + tail by {
        assert s[i..i + |sep|] == sep;
      }
      SplitJoin(tail, sep);
      var rest := Split(tail, sep);
      assert Split(s, sep) == [head] + rest;
      JoinCons(head, rest, sep);
  }

  /** Joining a part in front of at least one more puts a separator between. */
  lemma JoinCons(head: string, rest: seq<string>, sep: string)
    requires rest != []
    ensures Join([head] + rest, sep) == head + sep + Join(rest, sep)
  {
    assert ([head] + rest)[1..] == rest;
  }

  lemma {:induction false} SplitPartsFree(s: string, sep: string)
    requires sep != []
    ensures NoneContain(Split(s, sep), sep)
    decreases |s|
  {
    match Find(s, sep)
    case None =>
    case Some(i) =>
      var tail := s[i + |sep|..];
      SplitPartsFree(tail, sep);
      HeadBeforeFirst(s, sep, i);
      NoneContainCons(s[..i], Split(tail, sep), sep);
      assert Split(s, sep) == [s[..i]] + Split(tail, sep);
  }

  /** No part contains `sep`. */
  predicate NoneContain(parts: seq<string>, sep: string)
  {
    forall k :: 0 <= k < |parts| ==> !Contains(parts[k], sep)
  }

  lemma NoneContainCons(head: string, rest: seq<string>, sep: string)
    requires !Contains(head, sep) && NoneContain(rest, sep)
    ensures NoneContain([head] + rest, sep)
  {
    forall k | 0 <= k < |[head] + rest| ensures !Contains(([head] + rest)[k], sep) {
      if k > 0 {
        assert ([head] + rest)[k] == rest[k - 1];
      }
    }
  }

  /** The text before the leftmost occurrence of `sep` does not contain it. */
  lemma HeadBeforeFirst(s: string, sep: string, i: nat)
    requires sep != [] && OccursAt(s, sep, i)
    requires forall j :: 0 <= j < i ==> !OccursAt(s, sep, j)
    ensures !Contains(s[..i], sep)
  {
    var head := s[..i];
    forall j | 0 <= j <= |head| - |sep| ensures !OccursAt(head, sep, j) {
      assert head[j..j + |sep|] == s[j..j + |sep|];
      assert !OccursAt(s, sep, j);
    }
  }

  /** The text splits into a single part exactly when it does not contain the
      separator. */
  lemma {:induction false} SplitSingle(s: string, sep: string)
    requires sep != []
    ensures |Split(s, sep)| == 1 <==> !Contains(s, sep)
  {
    match Find(s, sep)
    case None =>
    case Some(i) =>
      assert |Split(s[i + |sep|..], sep)| >= 1;
  }

  /** A text with no white space around a single separator splits into the
      two sides; this is how `"YYYY-MM-DD to YYYY-MM-DD"` is read. */
  lemma SplitAroundSeparator(a: string, b: string)
    requires forall k :: 0 <= k < |a| ==> a[k] != ' '
    requires forall k :: 0 <= k < |b| ==> b[k] != ' '
    ensures Split(a + " to " + b, " to ") == [a, b]
  {
    var sep := " to ";
    var s := a + sep + b;
    assert s[|a|..|a| + |sep|] == sep;
    forall j | 0 <= j < |a| ensures !OccursAt(s, sep, j) {
      assert s[j] == a[j];
      NotAtNonSpace(s, sep, j);
    }
    FindLeftmost(s, sep, |a|);
    assert s[..|a|] == a;
    assert s[|a| + |sep|..] == b;
    forall j | 0 <= j <= |b| - |sep| ensures !OccursAt(b, sep, j) {
      NotAtNonSpace(b, sep, j);
    }
    assert Find(b, sep) == None;
  }

  /** A separator that starts with a blank does not occur at a non-blank. */
  lemma NotAtNonSpace(s: string, sep: string, j: int)
    requires 0 <= j < |s| && s[j] != ' ' && sep != [] && sep[0] == ' '
    ensures !OccursAt(s, sep, j)
  {
    if j + |sep| <= |s| {
      assert s[j..j + |sep|][0] == s[j];
    }
  }

  /** Find returns an occurrence that has none before it. */
  lemma FindLeftmost(s: string, t: string, i: nat)
    requires t != [] && OccursAt(s, t, i)
    requires forall j :: 0 <= j < i ==> !OccursAt(s, t, j)
    ensures Find(s, t) == Some(i)
  {
    assert Contains(s, t);
  }

  /** Strip leaves a text without surrounding white space as it is. */
  lemma {:induction false} StripUnspaced(s: string)
    requires forall k :: 0 <= k < |s| ==> !IsSpace(s[k])
    ensures Strip(s) == s
  {
    assert StripLeft(s) == s;
    assert StripRight(s) == s;
  }

  /** Lower-casing twice is lower-casing once. */
  lemma LowerIdempotent(s: string)
    ensures Lower(Lower(s)) == Lower(s)
  {
  }

  /** Case-insensitive matching ignores the case of the filter text ... */
  lemma ContainsCIIgnoresNeedleCase(s: string, t: string)
    ensures ContainsCI(s, Lower(t)) == ContainsCI(s, t)
  {
    LowerIdempotent(t);
  }

  /** ... and of the searched text. */
  lemma ContainsCIIgnoresTextCase(s: string, t: string)
    ensures ContainsCI(Lower(s), t) == ContainsCI(s, t)
  {
    LowerIdempotent(s);
  }

  /** The empty filter text matches every value. */
  lemma ContainsCIEmpty(s: string)
    ensures ContainsCI(s, [])
  {
    assert OccursAt(Lower(s), Lower([]), 0);
  }

  /** A value that has the filter text as an infix matches it. */
  lemma {:induction false} ContainsCIInfix(a: string, t: string, b: string)
    ensures ContainsCI(a + t + b, t)
  {
    var s := a + t + b;
    var ls, lt := Lower(s), Lower(t);
    assert ls[|a|..|a| + |t|] == lt by {
      forall k | 0 <= k < |t| ensures ls[|a| + k] == lt[k] {
        assert s[|a| + k] == t[k];
      }
    }
    assert OccursAt(ls, lt, |a|);
  }
}
