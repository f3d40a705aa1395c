/**
 * The Python string operations the front end relies on, stated over `seq<char>`:
 * `strip()`, `split()` on whitespace, `split(sep)`, `split(sep, 1)`,
 * `startswith`, `endswith`, `removeprefix` and `lower()`.
 */
module Text {
  import opened Wrappers

  /** The characters Python's `str.isspace()` accepts, which `strip()` and `split()` remove. */
  predicate IsSpace(c: char) {
    || ('\t' <= c <= '\r')
    || ('\U{1C}' <= c <= '\U{1F}')
    || c == ' '
    || c == '\U{85}'
    || c == '\U{A0}'
    || c == '\U{1680}'
    || ('\U{2000}' <= c <= '\U{200A}')
    || c == '\U{2028}'
    || c == '\U{2029}'
    || c == '\U{202F}'
    || c == '\U{205F}'
    || c == '\U{3000}'
  }

  predicate NoSpace(w: string) {
    forall j :: 0 <= j < |w| ==> !IsSpace(w[j])
  }

  /** A string with no whitespace at either end, as `strip()` leaves it. */
  predicate Trimmed(s: string) {
    s == [] || (!IsSpace(s[0]) && !IsSpace(s[|s| - 1]))
  }

  function TrimLeft(s: string): (r: string)
    ensures |r| <= |s| && r == s[|s| - |r|..]
    ensures r == [] || !IsSpace(r[0])
    ensures forall j :: 0 <= j < |s| - |r| ==> IsSpace(s[j])
  {
    if |s| > 0 && IsSpace(s[0]) then TrimLeft(s[1..]) else s
  }

  function TrimRight(s: string): (r: string)
    ensures |r| <= |s| && r == s[..|r|]
    ensures r == [] || !IsSpace(r[|r| - 1])
    ensures forall j :: |r| <= j < |s| ==> IsSpace(s[j])
  {
    if |s| > 0 && IsSpace(s[|s| - 1]) then TrimRight(s[..|s| - 1]) else s
  }

  /** `s.strip()`: drop leading and trailing whitespace. */
  function Strip(s: string): (r: string)
    ensures Trimmed(r)
    ensures |r| <= |s|
  {
    TrimRight(TrimLeft(s))
  }

  lemma StripTrimmed(s: string)
    requires Trimmed(s)
    ensures Strip(s) == s
  {
  }

  /** Length of the longest whitespace-free prefix of `s`. */
  function WordLength(s: string): (n: nat)
    ensures n <= |s| && NoSpace(s[..n])
    ensures n < |s| ==> IsSpace(s[n])
  {
    if |s| == 0 || IsSpace(s[0]) then 0 else 1 + WordLength(s[1..])
  }

  /** `s.split()`: the maximal runs of non-whitespace characters, left to right. */
  function Words(s: string): (r: seq<string>)
    ensures forall i :: 0 <= i < |r| ==> |r[i]| > 0 && NoSpace(r[i])
    decreases |s|
  {
    if |s| == 0 then []
    else if IsSpace(s[0]) then Words(s[1..])
    else
      var n := WordLength(s);
      [s[..n]] + Words(s[n..])
  }

  /** A word stops at the first whitespace character, whatever follows it. */
  lemma {:induction false} WordLengthAppend(a: string, t: string)
    requires t != [] && IsSpace(t[0])
    ensures WordLength(a + t) == WordLength(a)
    decreases |a|
  {
    if a == [] {
      assert a + t == t;
    } else if !IsSpace(a[0]) {
      assert (a + t)[0] == a[0] && (a + t)[1..] == a[1..] + t;
      WordLengthAppend(a[1..], t);
    } else {
      assert (a + t)[0] == a[0];
    }
  }

  /** `split()` breaks at every whitespace character: the words on either side are kept apart. */
  lemma {:induction false} WordsAtSpace(a: string, c: char, b: string)
    requires IsSpace(c)
    ensures Words(a + [c] + b) == Words(a) + Words(b)
    decreases |a|
  {
    var s := a + [c] + b;
    if a == [] {
      assert s[0] == c && s[1..] == b;
    } else if IsSpace(a[0]) {
      assert s[0] == a[0] && s[1..] == a[1..] + [c] + b;
      WordsAtSpace(a[1..], c, b);
    } else {
      var n := WordLength(a);
      assert s == a + ([c] + b);
      WordLengthAppend(a, [c] + b);
      assert s[0] == a[0];
      assert s[..n] == a[..n];
      assert s[n..] == a[n..] + [c] + b;
      WordsAtSpace(a[n..], c, b);
    }
  }

  /** A non-empty run without whitespace is a single word. */
  lemma {:induction false} WordsSingle(w: string)
    requires w != [] && NoSpace(w)
    ensures Words(w) == [w]
  {
    WordLengthAll(w);
    assert w[..|w|] == w && w[|w|..] == [];
  }

  lemma {:induction false} WordLengthAll(w: string)
    requires NoSpace(w)
    ensures WordLength(w) == |w|
    decreases |w|
  {
    if w != [] {
      WordLengthAll(w[1..]);
    }
  }

  /** Words written with single spaces between them split back into the same words: a flow line's tokens are its words. */
  lemma {:induction false} WordsJoin(ws: seq<string>)
    requires |ws| >= 1
    requires forall i :: 0 <= i < |ws| ==> ws[i] != [] && NoSpace(ws[i])
    ensures Words(Join(ws, " ")) == ws
    decreases |ws|
  {
    WordsSingle(ws[0]);
    if |ws| > 1 {
      var rest := Join(ws[1..], " ");
      assert Join(ws, " ") == ws[0] + [' '] + rest;
      WordsAtSpace(ws[0], ' ', rest);
      WordsJoin(ws[1..]);
      assert ws == [ws[0]] + ws[1..];
    }
  }

  function Concat(ws: seq<string>): string {
    if ws == [] then [] else ws[0] + Concat(ws[1..])
  }

  /** The characters of `s` that are not whitespace, in order. */
  function Visible(s: string): (r: string)
    ensures NoSpace(r)
  {
    if s == [] then [] else (if IsSpace(s[0]) then [] else [s[0]]) + Visible(s[1..])
  }

  lemma {:induction false} VisibleAppend(a: string, b: string)
    ensures Visible(a + b) == Visible(a) + Visible(b)
    decreases |a|
  {
    if a != [] {
      var h := if IsSpace(a[0]) then [] else [a[0]];
      assert (a + b)[0] == a[0];
      assert (a + b)[1..] == a[1..] + b;
      assert Visible(a + b) == h + Visible(a[1..] + b);
      VisibleAppend(a[1..], b);
      assert h + (Visible(a[1..]) + Visible(b)) == (h + Visible(a[1..])) + Visible(b);
    } else {
      assert a + b == b;
    }
  }

  lemma {:induction false} VisibleNoSpace(s: string)
    requires NoSpace(s)
    ensures Visible(s) == s
    decreases |s|
  {
    if s != [] {
      VisibleNoSpace(s[1..]);
    }
  }

  /** Splitting on whitespace loses exactly the whitespace: the words glued together are the visible characters. */
  lemma {:induction false} WordsKeepVisible(s: string)
    ensures Concat(Words(s)) == Visible(s)
    decreases |s|
  {
    if |s| == 0 {
    } else if IsSpace(s[0]) {
      WordsKeepVisible(s[1..]);
    } else {
      var n := WordLength(s);
      WordsKeepVisible(s[n..]);
      assert s == s[..n] + s[n..];
      VisibleAppend(s[..n], s[n..]);
      VisibleNoSpace(s[..n]);
    }
  }

  predicate StartsWith(s: string, p: string) {
    |p| <= |s| && s[..|p|] == p
  }

  predicate EndsWith(s: string, p: string) {
    |p| <= |s| && s[|s| - |p|..] == p
  }

  /** `s.removeprefix(p)`. */
  function RemovePrefix(s: string, p: string): (r: string)
    ensures StartsWith(s, p) ==> p + r == s
    ensures !StartsWith(s, p) ==> r == s
  {
    if StartsWith(s, p) then s[|p|..] else s
  }

  /** `s.lower()` restricted to ASCII letters. */
  function LowerChar(c: char): char {
    if 'A' <= c <= 'Z' then (c as int + 32) as char else c
  }

  function Lower(s: string): (r: string)
    ensures |r| == |s|
    ensures forall i :: 0 <= i < |s| ==> r[i] == LowerChar(s[i])
  {
    seq(|s|, i requires 0 <= i < |s| => LowerChar(s[i]))
  }

  /** The position of the first `c` in `s`, as `s.index(c)` would find it. */
  function FirstIndex(s: string, c: char): (r: Option<nat>)
    ensures r.None? <==> c !in s
    ensures r.Some? ==> r.value < |s| && s[r.value] == c && c !in s[..r.value]
  {
    if |s| == 0 then None
    else if s[0] == c then Some(0)
    else match FirstIndex(s[1..], c)
      case None => None
      case Some(i) => assert s[..i + 1] == [s[0]] + s[1..][..i]; Some(i + 1)
  }

  /** The first `c` is at `i` when `s[i]` is `c` and no earlier character is. */
  lemma {:induction false} FirstIndexAt(s: string, c: char, i: nat)
    requires i < |s| && s[i] == c && c !in s[..i]
    ensures FirstIndex(s, c) == Some(i)
  {
    if i > 0 {
      assert s[0] == s[..i][0];
      assert s[1..][..i - 1] == s[..i][1..];
      FirstIndexAt(s[1..], c, i - 1);
    }
  }

  /** `sep` occurs in `s` starting at position `i`. */
  predicate OccursAt(s: string, sep: string, i: nat) {
    i + |sep| <= |s| && s[i..i + |sep|] == sep
  }

  predicate Contains(s: string, sep: string) {
    exists i: nat | i <= |s| :: OccursAt(s, sep, i)
  }

  /** `s.split(sep)`: the pieces between the non-overlapping occurrences of `sep`, found left to right. */
  function SplitAll(s: string, sep: string): (r: seq<string>)
    requires |sep| > 0
    ensures |r| >= 1
    decreases |s|
  {
    if |s| < |sep| then [s]
    else if s[..|sep|] == sep then [[]] + SplitAll(s[|sep|..], sep)
    else
      var rest := SplitAll(s[1..], sep);
      [[s[0]] + rest[0]] + rest[1..]
  }

  /** A string that starts with the separator splits into an empty first piece and the pieces of the rest. */
  lemma SplitAllStarts(s: string, sep: string)
    requires |sep| > 0 && StartsWith(s, sep)
    ensures SplitAll(s, sep) == [[]] + SplitAll(s[|sep|..], sep)
    ensures |SplitAll(s, sep)| >= 2 && SplitAll(s, sep)[1] == SplitAll(s[|sep|..], sep)[0]
  {
  }

  /** `sep.join(parts)`. */
  function Join(parts: seq<string>, sep: string): string
    requires |parts| >= 1
  {
    if |parts| == 1 then parts[0] else parts[0] + sep + Join(parts[1..], sep)
  }

  /** Splitting loses nothing: joining the pieces with the separator gives the string back. */
  lemma {:induction false} JoinSplitAll(s: string, sep: string)
    requires |sep| > 0
    ensures Join(SplitAll(s, sep), sep) == s
    decreases |s|
  {
    if |s| < |sep| {
    } else if s[..|sep|] == sep {
      var rest := SplitAll(s[|sep|..], sep);
      var parts := [[]] + rest;
      assert SplitAll(s, sep) == parts;
      assert parts[0] == [] && parts[1..] == rest;
      assert Join(parts, sep) == [] + sep + Join(rest, sep);
      JoinSplitAll(s[|sep|..], sep);
      assert s == sep + s[|sep|..];
    } else {
      var rest := SplitAll(s[1..], sep);
      assert SplitAll(s, sep) == [[s[0]] + rest[0]] + rest[1..];
      JoinSplitAll(s[1..], sep);
      JoinPrepend(s[0], rest, sep);
      assert s == [s[0]] + s[1..];
    }
  }

  lemma JoinPrepend(c: char, parts: seq<string>, sep: string)
    requires |parts| >= 1
    ensures Join([[c] + parts[0]] + parts[1..], sep) == [c] + Join(parts, sep)
  {
    var q := [[c] + parts[0]] + parts[1..];
    assert q[1..] == parts[1..];
    if |parts| > 1 {
      var tail := Join(parts[1..], sep);
      assert ([c] + parts[0]) + sep + tail == [c] + (parts[0] + sep + tail);
    }
  }

  function Count(s: string, c: char): nat {
    if s == [] then 0 else (if s[0] == c then 1 else 0) + Count(s[1..], c)
  }

  /** Splitting on one character gives one piece more than there are occurrences of it. */
  lemma {:induction false} SplitAllCount(s: string, c: char)
    ensures |SplitAll(s, [c])| == Count(s, c) + 1
    decreases |s|
  {
    if |s| >= 1 {
      SplitAllCount(s[1..], c);
      assert s[..1] == [s[0]];
    }
  }

  /** Without an occurrence of the separator, `split` returns the whole string as its only piece. */
  lemma {:induction false} SplitAllAbsent(s: string, sep: string)
    requires |sep| > 0 && !Contains(s, sep)
    ensures SplitAll(s, sep) == [s]
    decreases |s|
  {
    if |s| >= |sep| {
      assert !OccursAt(s, sep, 0);
      forall i: nat
        ensures !OccursAt(s[1..], sep, i)
      {
        if OccursAt(s[1..], sep, i) {
          assert s[1..][i..i + |sep|] == s[i + 1..i + 1 + |sep|];
          assert OccursAt(s, sep, i + 1);
        }
      }
      SplitAllAbsent(s[1..], sep);
      assert s == [s[0]] + s[1..];
    }
  }

  /** A string with exactly one occurrence of the character `c` splits on it into the text before and after. */
  lemma {:induction false} SplitOneChar(a: string, c: char, b: string)
    requires c !in a && c !in b
    ensures SplitAll(a + [c] + b, [c]) == [a, b]
    decreases |a|
  {
    var s := a + [c] + b;
    if a == [] {
      assert s[..1] == [c] && s[1..] == b;
      forall i: nat | i <= |b|
        ensures !OccursAt(b, [c], i)
      {
        if i + 1 <= |b| {
          assert b[i..i + 1] == [b[i]];
        }
      }
      SplitAllAbsent(b, [c]);
    } else {
      assert s[..1] == [a[0]] && s[..1] != [c];
      assert s[1..] == a[1..] + [c] + b;
      SplitOneChar(a[1..], c, b);
      assert [a[0]] + a[1..] == a;
    }
  }

  /** The first piece of `split(sep)` keeps every character before the first occurrence of `sep`. */
  lemma {:induction false} SplitAllKeeps(s: string, sep: string, k: nat)
    requires |sep| > 0 && k <= |s|
    requires forall i: nat :: i < k ==> !OccursAt(s, sep, i)
    ensures k <= |SplitAll(s, sep)[0]| && SplitAll(s, sep)[0][..k] == s[..k]
    decreases k
  {
    if k > 0 && |s| >= |sep| {
      assert !OccursAt(s, sep, 0);
      forall i: nat | i < k - 1
        ensures !OccursAt(s[1..], sep, i)
      {
        assert !OccursAt(s, sep, i + 1);
        if i + |sep| <= |s[1..]| {
          assert s[1..][i..i + |sep|] == s[i + 1..i + 1 + |sep|];
        }
      }
      SplitAllKeeps(s[1..], sep, k - 1);
      var rest := SplitAll(s[1..], sep);
      assert SplitAll(s, sep)[0] == [s[0]] + rest[0];
      assert s[..k] == [s[0]] + s[1..][..k - 1];
    }
  }

  /** The first piece of `split(sep)` ends where the first occurrence of `sep` starts. */
  lemma {:induction false} SplitAllFirst(a: string, sep: string, b: string)
    requires |sep| > 0
    requires forall i: nat :: i < |a| ==> !OccursAt(a + sep + b, sep, i)
    ensures SplitAll(a + sep + b, sep)[0] == a
    decreases |a|
  {
    var s := a + sep + b;
    if a == [] {
      assert s[..|sep|] == sep;
    } else {
      assert !OccursAt(s, sep, 0);
      assert s[1..] == a[1..] + sep + b;
      forall i: nat | i < |a[1..]|
        ensures !OccursAt(a[1..] + sep + b, sep, i)
      {
        assert !OccursAt(s, sep, i + 1);
      }
      SplitAllFirst(a[1..], sep, b);
      assert a == [a[0]] + a[1..];
    }
  }
}
