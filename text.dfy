/**
 * The string built-ins the dashboard and the helpers rely on, restricted to
 * ASCII case mapping: `toLowerCase`, `toUpperCase`, `includes`, `split` on a
 * one-character separator, `join`, `charAt` and `slice` with non-negative
 * bounds. A JavaScript string is a sequence of code units; here it is
 * `seq<char>`.
 */
module Text {

  predicate IsUpper(c: char) { 'A' <= c <= 'Z' }

  predicate IsLower(c: char) { 'a' <= c <= 'z' }

  /** ASCII lower-casing of one character; every other character is kept. */
  function LowerChar(c: char): char {
    if IsUpper(c) then (c as int + 32) as char else c
  }

  /** ASCII upper-casing of one character; every other character is kept. */
  function UpperChar(c: char): char {
    if IsLower(c) then (c as int - 32) as char else c
  }

  /** `s.toLowerCase()` on ASCII letters. */
  function ToLower(s: string): (r: string)
    ensures |r| == |s|
    ensures forall i :: 0 <= i < |r| ==> !IsUpper(r[i])
    ensures forall i :: 0 <= i < |r| ==> (r[i] == s[i] || (IsUpper(s[i]) && r[i] as int == s[i] as int + 32))
  {
    seq(|s|, i requires 0 <= i < |s| => LowerChar(s[i]))
  }

  /** `s.toUpperCase()` on ASCII letters. */
  function ToUpper(s: string): (r: string)
    ensures |r| == |s|
    ensures forall i :: 0 <= i < |r| ==> !IsLower(r[i])
    ensures forall i :: 0 <= i < |r| ==> (r[i] == s[i] || (IsLower(s[i]) && r[i] as int == s[i] as int - 32))
  {
    seq(|s|, i requires 0 <= i < |s| => UpperChar(s[i]))
  }

  /** Lower-casing distributes over concatenation, so the lower-cased search
      text of a record is the concatenation of its lower-cased fields. */
  lemma ToLowerAppend(a: string, b: string)
    ensures ToLower(a + b) == ToLower(a) + ToLower(b)
  {
  }

  /** `a` and `b` are equal up to the case of ASCII letters. */
  predicate EqualIgnoringCase(a: string, b: string) {
    |a| == |b| && forall i :: 0 <= i < |a| ==> LowerChar(a[i]) == LowerChar(b[i])
  }

  /** A string without upper-case letters is its own lower-case form. */
  lemma ToLowerOfLower(s: string)
    requires forall i :: 0 <= i < |s| ==> !IsUpper(s[i])
    ensures ToLower(s) == s
  {
  }

  /** `n` occurs in `h` starting at index `i`. */
  predicate OccursAt(h: string, n: string, i: int) {
    0 <= i && i + |n| <= |h| && h[i..i + |n|] == n
  }

  /** `h.includes(n)`: true exactly when some index of `h` starts an
      occurrence of `n` (so the empty needle is always included). */
  function Includes(h: string, n: string): (r: bool)
    ensures r <==> exists i :: OccursAt(h, n, i)
    decreases |h|
  {
    if n <= h then
      assert OccursAt(h, n, 0);
      true
    else if |h| == 0 then
      false
    else
      var rest := Includes(h[1..], n);
      IncludesStep(h, n);
      rest
  }

  /** When `n` is not a prefix of a non-empty `h`, the occurrences of `n` in
      `h` are those in `h[1..]` shifted by one. */
  lemma IncludesStep(h: string, n: string)
    requires |h| > 0 && !(n <= h)
    ensures (exists i :: OccursAt(h, n, i)) <==> (exists j :: OccursAt(h[1..], n, j))
  {
    if i :| OccursAt(h, n, i) {
      assert i != 0;
      assert h[1..][i - 1..i - 1 + |n|] == h[i..i + |n|];
      assert OccursAt(h[1..], n, i - 1);
    }
    if j :| OccursAt(h[1..], n, j) {
      assert h[j + 1..j + 1 + |n|] == h[1..][j..j + |n|];
      assert OccursAt(h, n, j + 1);
    }
  }

  /** A needle with a character absent from `h` is not included in `h`. */
  lemma NotIncludedWithoutChar(h: string, n: string, k: nat)
    requires k < |n| && n[k] !in h
    ensures !Includes(h, n)
  {
  }

  /** `ws.join(sep)`: the pieces with `sep` between consecutive ones. */
  function Join(ws: seq<string>, sep: string): (r: string)
    ensures |ws| == 0 ==> r == ""
    ensures |ws| > 0 ==> ws[0] <= r
    decreases |ws|
  {
    if |ws| == 0 then ""
    else if |ws| == 1 then ws[0]
    else ws[0] + sep + Join(ws[1..], sep)
  }

  /** `s.split(sep)` for a one-character separator: the maximal runs between
      separators, including empty ones; the empty string splits into `[""]`. */
  function Split(s: string, sep: char): (r: seq<string>)
    ensures |r| >= 1
    ensures forall k :: 0 <= k < |r| ==> sep !in r[k]
    ensures Join(r, [sep]) == s
    decreases |s|
  {
    if |s| == 0 then [""]
    else
      var rest := Split(s[1..], sep);
      if s[0] == sep then
        [""] + rest
      else
        assert [s[0]] + s[1..] == s;
        [[s[0]] + rest[0]] + rest[1..]
  }

  /** Splitting is the inverse of joining, for at least one piece none of
      which contains the separator. */
  lemma {:induction false} SplitJoin(ws: seq<string>, sep: char)
    requires |ws| >= 1
    requires forall k :: 0 <= k < |ws| ==> sep !in ws[k]
    ensures Split(Join(ws, [sep]), sep) == ws
    decreases |ws|
  {
    if |ws| == 1 {
      SplitWord(ws[0], sep, []);
    } else {
      SplitJoin(ws[1..], sep);
      SplitWord(ws[0], sep, [sep] + Join(ws[1..], [sep]));
      assert ws[0] + [sep] + Join(ws[1..], [sep]) == ws[0] + ([sep] + Join(ws[1..], [sep]));
      assert [ws[0]] + ws[1..] == ws;
    }
  }

  /** A separator-free word in front of `t` becomes part of the first piece:
      it ends the piece when `t` is empty or starts with the separator. */
  lemma {:induction false} SplitWord(w: string, sep: char, t: string)
    requires sep !in w
    requires t == [] || t[0] == sep
    ensures Split(w + t, sep) == if t == [] then [w] else [w] + Split(t[1..], sep)
    decreases |w|
  {
    if |w| == 0 {
      assert w + t == t;
      if t != [] {
        assert Split(t, sep) == [""] + Split(t[1..], sep);
      }
    } else {
      SplitWord(w[1..], sep, t);
      assert (w + t)[1..] == w[1..] + t;
      assert [w[0]] + w[1..] == w;
      var rest := Split(w[1..] + t, sep);
      assert Split(w + t, sep) == [[w[0]] + rest[0]] + rest[1..];
      assert rest[0] == w[1..];
      assert rest[1..] == if t == [] then [] else Split(t[1..], sep);
    }
  }

  /** `s.charAt(i)`: the one-character string at `i`, or `""` out of range. */
  function CharAt(s: string, i: nat): (r: string)
    ensures |r| <= 1
    ensures r == "" <==> i >= |s|
    ensures r != "" ==> r[0] == s[i]
  {
    if i < |s| then [s[i]] else ""
  }

  function Min(a: int, b: int): int { if a <= b then a else b }

  /** `s.slice(begin, end)` for non-negative bounds: both are clamped to the
      length, and a reversed range gives `""`. */
  function Slice(s: string, begin: nat, end: nat): (r: string)
    ensures |r| == if Min(end, |s|) <= Min(begin, |s|) then 0 else Min(end, |s|) - Min(begin, |s|)
    ensures forall i :: 0 <= i < |r| ==> r[i] == s[begin + i]
  {
    var from, to := Min(begin, |s|), Min(end, |s|);
    if to <= from then "" else s[from..to]
  }
}
