/** ASCII string operations: the parts of Python `str` and JavaScript `String` the model needs.
    Case mapping, whitespace and digits are the ASCII ones. */
module Text {
  import opened Base
  import opened Seqs

  predicate IsDigit(c: char) {
    '0' <= c <= '9'
  }

  /** Python `str.strip()` and JavaScript `trim()` whitespace, restricted to ASCII. */
  predicate IsSpace(c: char) {
    c == ' ' || c == '\t' || c == '\n' || c == '\r' || c as int == 11 || c as int == 12
  }

  function LowerChar(c: char): char {
    if 'A' <= c <= 'Z' then (c as int + 32) as char else c
  }

  /** Python `lower()`, JavaScript `toLowerCase()`. */
  function Lower(s: string): (r: string)
    ensures |r| == |s|
    ensures forall i :: 0 <= i < |s| ==> r[i] == LowerChar(s[i])
  {
    seq(|s|, i requires 0 <= i < |s| => LowerChar(s[i]))
  }

  predicate StartsWith(s: string, prefix: string) {
    |prefix| <= |s| && s[..|prefix|] == prefix
  }

  predicate EndsWith(s: string, suffix: string) {
    |suffix| <= |s| && s[|s| - |suffix|..] == suffix
  }

  /** `needle` occurs in `hay` starting at position `i`. */
  predicate OccursAt(hay: string, needle: string, i: int) {
    0 <= i && i + |needle| <= |hay| && hay[i..i + |needle|] == needle
  }

  /** Python `needle in hay`, JavaScript `hay.includes(needle)`. */
  predicate Contains(hay: string, needle: string) {
    exists i | 0 <= i <= |hay| - |needle| :: OccursAt(hay, needle, i)
  }

  function TrimStart(s: string): (r: string)
    ensures |r| <= |s| && r == s[|s| - |r|..]
    ensures r == [] || !IsSpace(r[0])
    ensures forall i :: 0 <= i < |s| - |r| ==> IsSpace(s[i])
  {
    if s != [] && IsSpace(s[0]) then TrimStart(s[1..]) else s
  }

  function TrimEnd(s: string): (r: string)
    ensures |r| <= |s| && r == s[..|r|]
    ensures r == [] || !IsSpace(r[|r| - 1])
    ensures forall i :: |r| <= i < |s| ==> IsSpace(s[i])
  {
    if s != [] && IsSpace(s[|s| - 1]) then TrimEnd(s[..|s| - 1]) else s
  }

  /** Python `strip()`, JavaScript `trim()`. */
  function Trim(s: string): string {
    TrimEnd(TrimStart(s))
  }

  /** A string is blank when it is all whitespace; exactly then it trims to the empty string. */
  predicate IsBlank(s: string) {
    forall i :: 0 <= i < |s| ==> IsSpace(s[i])
  }

  lemma TrimEmptyIffBlank(s: string)
    ensures Trim(s) == [] <==> IsBlank(s)
  {
    var t := TrimStart(s);
    if IsBlank(s) {
      assert t == [];
    } else if t != [] {
      assert !IsSpace(t[0]);
    }
  }

  /** Trimming only removes whitespace: a filter that no whitespace passes keeps the same
      characters of the trimmed and the untrimmed string. */
  lemma TrimKeep(s: string, p: char -> bool)
    requires forall c :: IsSpace(c) ==> !p(c)
    ensures Keep(Trim(s), p) == Keep(s, p)
  {
    TrimStartKeep(s, p);
    TrimEndKeep(TrimStart(s), p);
  }

  lemma TrimStartKeep(s: string, p: char -> bool)
    requires forall c :: IsSpace(c) ==> !p(c)
    ensures Keep(TrimStart(s), p) == Keep(s, p)
  {
    var t := TrimStart(s);
    var front := s[..|s| - |t|];
    assert s == front + t;
    forall i | 0 <= i < |front| ensures !p(front[i]) {
      assert front[i] == s[i];
    }
    KeepNone(front, p);
    KeepAppend(front, t, p);
  }

  lemma TrimEndKeep(t: string, p: char -> bool)
    requires forall c :: IsSpace(c) ==> !p(c)
    ensures Keep(TrimEnd(t), p) == Keep(t, p)
  {
    var u := TrimEnd(t);
    var back := t[|u|..];
    assert t == u + back;
    forall i | 0 <= i < |back| ensures !p(back[i]) {
      assert back[i] == t[|u| + i];
    }
    KeepNone(back, p);
    KeepAppend(u, back, p);
  }

  /** A string that neither starts nor ends with whitespace is its own trim. */
  lemma TrimUnpadded(s: string)
    requires s == [] || (!IsSpace(s[0]) && !IsSpace(s[|s| - 1]))
    ensures Trim(s) == s
  {
  }

  /** Python `str.isdigit()` over ASCII: non-empty and every character a digit. */
  predicate IsAllDigits(s: string) {
    |s| > 0 && forall i :: 0 <= i < |s| ==> IsDigit(s[i])
  }

  /** Python `str.replace(c, '')`. */
  function RemoveChar(s: string, c: char): (r: string)
    ensures c !in r
    ensures forall x :: x in r <==> x in s && x != c
  {
    var r := Keep(s, x => x != c);
    forall x ensures x in r <==> x in s && x != c {
      KeepMembers(s, x => x != c, x);
    }
    r
  }

  /** Python `s.split(c)` and JavaScript `s.split(c)` for a one-character separator: the pieces
      between the separators, empty pieces included; never an empty list. */
  function Split(s: string, c: char): (r: seq<string>)
    ensures |r| >= 1
  {
    if s == [] then [[]]
    else
      var rest := Split(s[1..], c);
      if s[0] == c then [[]] + rest else [[s[0]] + rest[0]] + rest[1..]
  }

  /** Python `c.join(xs)`, JavaScript `xs.join(c)`. */
  function Join(xs: seq<string>, c: char): string {
    if xs == [] then []
    else if |xs| == 1 then xs[0]
    else xs[0] + [c] + Join(xs[1..], c)
  }

  /** Splitting undoes joining when no piece holds the separator. */
  lemma {:induction false} SplitJoin(xs: seq<string>, c: char)
    requires |xs| >= 1
    requires forall i :: 0 <= i < |xs| ==> c !in xs[i]
    ensures Split(Join(xs, c), c) == xs
    decreases |xs|, |xs[0]|
  {
    var x := xs[0];
    if |xs| == 1 {
      SplitNoSeparator(x, c);
    } else if x == [] {
      var tail := Join(xs[1..], c);
      assert Join(xs, c) == [c] + tail;
      assert ([c] + tail)[1..] == tail;
      SplitJoin(xs[1..], c);
      assert [[]] + xs[1..] == xs;
    } else {
      var ys := [x[1..]] + xs[1..];
      assert ys[1..] == xs[1..];
      assert forall i :: 0 <= i < |ys| ==> c !in ys[i] by {
        assert forall i :: 1 <= i < |ys| ==> ys[i] == xs[i];
      }
      SplitJoin(ys, c);
      assert Join(xs, c) == [x[0]] + Join(ys, c) by {
        if |xs| > 1 {
          assert x == [x[0]] + x[1..];
        }
      }
      assert ([x[0]] + Join(ys, c))[1..] == Join(ys, c);
      assert x[0] != c by { assert x[0] in x; }
      assert [x[0]] + x[1..] == x;
      assert [x] + xs[1..] == xs;
    }
  }

  lemma {:induction false} SplitNoSeparator(s: string, c: char)
    requires c !in s
    ensures Split(s, c) == [s]
  {
    if s != [] {
      assert c !in s[1..] by { assert forall x :: x in s[1..] ==> x in s; }
      SplitNoSeparator(s[1..], c);
      assert [s[0]] + s[1..] == s;
    }
  }

  /** Joining undoes splitting. */
  lemma {:induction false} JoinSplit(s: string, c: char)
    ensures Join(Split(s, c), c) == s
  {
    if s != [] {
      var rest := Split(s[1..], c);
      JoinSplit(s[1..], c);
      if s[0] == c {
        assert Join([[]] + rest, c) == [c] + Join(rest, c);
      } else {
        var r := [[s[0]] + rest[0]] + rest[1..];
        assert r[1..] == rest[1..];
        if |rest| == 1 {
          assert Join(r, c) == [s[0]] + rest[0];
        } else {
          assert Join(r, c) == [s[0]] + (rest[0] + [c] + Join(rest[1..], c));
        }
      }
      assert [s[0]] + s[1..] == s;
    }
  }

  /** The first position at or after `from` where `sep` occurs in `s`. */
  function FindFrom(s: string, sep: string, from: nat): (r: Option<nat>)
    requires |sep| > 0
    ensures r.Some? ==> from <= r.value && OccursAt(s, sep, r.value)
    ensures r.Some? ==> forall k :: from <= k < r.value ==> !OccursAt(s, sep, k)
    ensures r.None? ==> forall k :: from <= k ==> !OccursAt(s, sep, k)
    decreases |s| - from
  {
    if from + |sep| > |s| then None
    else if s[from..from + |sep|] == sep then Some(from)
    else FindFrom(s, sep, from + 1)
  }

  function DigitChar(d: nat): char
    requires d < 10
  {
    ('0' as int + d) as char
  }

  function DigitValue(c: char): nat
    requires IsDigit(c)
  {
    (c as int - '0' as int) as nat
  }

  /** Decimal notation of a natural number, as Python `str` and JavaScript `String` write it. */
  function NatToString(n: nat): (r: string)
    ensures IsAllDigits(r)
  {
    if n < 10 then [DigitChar(n)] else NatToString(n / 10) + [DigitChar(n % 10)]
  }

  function IntToString(i: int): string {
    if i < 0 then "-" + NatToString(-i) else NatToString(i)
  }

  /** Python `int(s)` for a string of ASCII digits. */
  function DigitsValue(s: string): nat
    requires forall i :: 0 <= i < |s| ==> IsDigit(s[i])
  {
    if s == [] then 0 else 10 * DigitsValue(s[..|s| - 1]) + DigitValue(s[|s| - 1])
  }

  /** Reading back the decimal notation gives the number. */
  lemma {:induction false} DigitsValueOfNatToString(n: nat)
    ensures DigitsValue(NatToString(n)) == n
  {
    var r := NatToString(n);
    if n >= 10 {
      DigitsValueOfNatToString(n / 10);
      assert r[..|r| - 1] == NatToString(n / 10);
    }
  }

  /** Python's ordering of strings: lexicographic by code point. */
  predicate StrLe(a: string, b: string) {
    a == [] || (b != [] && (a[0] < b[0] || (a[0] == b[0] && StrLe(a[1..], b[1..]))))
  }

  lemma {:induction false} StrLeTotal(a: string, b: string)
    ensures StrLe(a, b) || StrLe(b, a)
  {
    if a != [] && b != [] && a[0] == b[0] {
      StrLeTotal(a[1..], b[1..]);
    }
  }

  lemma {:induction false} StrLeTransitive(a: string, b: string, c: string)
    requires StrLe(a, b) && StrLe(b, c)
    ensures StrLe(a, c)
  {
    if a != [] && b != [] && c != [] && a[0] == b[0] == c[0] {
      StrLeTransitive(a[1..], b[1..], c[1..]);
    }
  }

  predicate SortedStrings(s: seq<string>) {
    forall i, j :: 0 <= i < j < |s| ==> StrLe(s[i], s[j])
  }

  /** Insert `x` in front of the first element it does not follow. */
  function InsertSorted(x: string, s: seq<string>): (r: seq<string>)
    ensures multiset(r) == multiset(s) + multiset{x}
  {
    if s == [] then [x]
    else if StrLe(x, s[0]) then [x] + s
    else
      assert s == [s[0]] + s[1..];
      [s[0]] + InsertSorted(x, s[1..])
  }

  /** A lower bound of every element of `s` and of `x` bounds every element of `t`. */
  lemma LowerBoundCarries(b: string, x: string, s: seq<string>, t: seq<string>)
    requires multiset(t) == multiset(s) + multiset{x}
    requires StrLe(b, x)
    requires forall j :: 0 <= j < |s| ==> StrLe(b, s[j])
    ensures forall j :: 0 <= j < |t| ==> StrLe(b, t[j])
  {
    forall j | 0 <= j < |t| ensures StrLe(b, t[j]) {
      assert t[j] in multiset(t);
      if t[j] != x {
        assert t[j] in multiset(s);
        var k :| 0 <= k < |s| && s[k] == t[j];
      }
    }
  }

  lemma {:induction false} InsertSortedSorted(x: string, s: seq<string>)
    requires SortedStrings(s)
    ensures SortedStrings(InsertSorted(x, s))
  {
    if s != [] {
      if StrLe(x, s[0]) {
        forall j | 0 < j < |s| ensures StrLe(x, s[j]) {
          StrLeTransitive(x, s[0], s[j]);
        }
        assert forall j :: 0 < j < |[x] + s| ==> ([x] + s)[j] == s[j - 1];
      } else {
        var rest := InsertSorted(x, s[1..]);
        InsertSortedSorted(x, s[1..]);
        StrLeTotal(x, s[0]);
        LowerBoundCarries(s[0], x, s[1..], rest);
        assert forall j :: 0 < j < |[s[0]] + rest| ==> ([s[0]] + rest)[j] == rest[j - 1];
      }
    }
  }

  /** Python `sorted` on a list of strings. */
  function SortStrings(s: seq<string>): (r: seq<string>)
    ensures multiset(r) == multiset(s)
  {
    if s == [] then []
    else
      assert s == [s[0]] + s[1..];
      InsertSorted(s[0], SortStrings(s[1..]))
  }

  lemma {:induction false} SortStringsSorted(s: seq<string>)
    ensures SortedStrings(SortStrings(s))
  {
    if s != [] {
      SortStringsSorted(s[1..]);
      InsertSortedSorted(s[0], SortStrings(s[1..]));
    }
  }
}
