/**
 * Strings as the Ruby scripts see them: lines as `gets` and `IO#each` yield
 * them, the newline rule of `puts`, fixed-string search, the character
 * classes `\s`, `\S` and `\d` of Ruby regular expressions, `Array#join` and
 * `String#split` with a one-character separator, and `Integer#to_s`.
 */
module Text {
  import opened Collections

  /** A line read by `gets` or `IO#each`: a newline can only be its last character. */
  predicate IsLine(s: string) {
    forall i :: 0 <= i < |s| - 1 ==> s[i] != '\n'
  }

  type Line = s: string | IsLine(s)

  /** The part of a line before its newline: what `.` in a Ruby pattern can match. */
  function Body(line: Line): (b: string)
    ensures '\n' !in b
    ensures line == b || line == b + "\n"
  {
    if |line| > 0 && line[|line| - 1] == '\n' then line[..|line| - 1] else line
  }

  /** What Ruby's `puts s` writes: `s`, followed by a newline unless it already ends with one. */
  function Puts(s: string): (w: string)
    ensures |w| > 0 && w[|w| - 1] == '\n'
    ensures w == s || w == s + "\n"
  {
    if |s| > 0 && s[|s| - 1] == '\n' then s else s + "\n"
  }

  /** `pat` occurs in `s` at position `p`. */
  predicate StartsAt(s: string, p: int, pat: string) {
    0 <= p && p + |pat| <= |s| && s[p..p + |pat|] == pat
  }

  /** The first occurrence of `pat` in `s` at or after `from`. */
  function Find(s: string, pat: string, from: nat): (r: Option<nat>)
    ensures r.Some? ==> from <= r.value && StartsAt(s, r.value, pat)
    ensures r.Some? ==> forall j :: from <= j < r.value ==> !StartsAt(s, j, pat)
    ensures r.None? ==> forall j :: from <= j ==> !StartsAt(s, j, pat)
    decreases |s| - from
  {
    if from + |pat| > |s| then None
    else if s[from..from + |pat|] == pat then Some(from)
    else Find(s, pat, from + 1)
  }

  /** Ruby's `\s`: space, tab, newline, carriage return, form feed, vertical tab. */
  predicate IsSpace(c: char) {
    c == ' ' || c == '\t' || c == '\n' || c == '\r' || c == '\U{000C}' || c == '\U{000B}'
  }

  /** Ruby's `\d`: an ASCII digit. */
  predicate IsDigit(c: char) {
    '0' <= c <= '9'
  }

  /** The character classes the scripts' patterns repeat: `\s`, `\S` and `\d`. */
  datatype CharClass = Space | NonSpace | Digit

  predicate InClass(c: char, k: CharClass) {
    match k
    case Space => IsSpace(c)
    case NonSpace => !IsSpace(c)
    case Digit => IsDigit(c)
  }

  /** End of the longest run of class `k` starting at `i`: where a greedy `\s*`, `\S+` or `\d+` stops. */
  function SpanEnd(s: string, i: nat, k: CharClass): (e: nat)
    requires i <= |s|
    ensures i <= e <= |s|
    ensures forall j :: i <= j < e ==> InClass(s[j], k)
    ensures e == |s| || !InClass(s[e], k)
    decreases |s| - i
  {
    if i == |s| || !InClass(s[i], k) then i else SpanEnd(s, i + 1, k)
  }

  /** Ruby's `Array#join(sep)`. */
  function Join(fs: seq<string>, sep: char): string {
    if |fs| == 0 then ""
    else if |fs| == 1 then fs[0]
    else fs[0] + [sep] + Join(fs[1..], sep)
  }

  /** Every field between separators, empty ones included. */
  function Fields(s: string, sep: char): (fs: seq<string>)
    ensures |fs| >= 1
    ensures forall i :: 0 <= i < |fs| ==> sep !in fs[i]
    ensures Join(fs, sep) == s
    decreases |s|
  {
    if s == [] then [""]
    else
      var rest := Fields(s[1..], sep);
      if s[0] == sep then
        assert ([""] + rest)[1..] == rest;
        [""] + rest
      else
        var fs := [[s[0]] + rest[0]] + rest[1..];
        assert fs[1..] == rest[1..];
        assert s == [s[0]] + s[1..];
        fs
  }

  /** `fs` without its trailing empty strings. */
  function DropTrailingEmpty(fs: seq<string>): (r: seq<string>)
    ensures r <= fs
    ensures r == [] || r[|r| - 1] != ""
    ensures forall i :: |r| <= i < |fs| ==> fs[i] == ""
  {
    if fs == [] || fs[|fs| - 1] != "" then fs else DropTrailingEmpty(fs[..|fs| - 1])
  }

  /** Ruby's `String#split(sep)` for a one-character separator that is not a space: trailing empty fields are dropped. */
  function Split(s: string, sep: char): seq<string> {
    DropTrailingEmpty(Fields(s, sep))
  }

  lemma {:induction false} FieldsWithoutSeparator(a: string, sep: char)
    requires sep !in a
    ensures Fields(a, sep) == [a]
    decreases |a|
  {
    if a != [] {
      FieldsWithoutSeparator(a[1..], sep);
      assert a == [a[0]] + a[1..];
    }
  }

  lemma {:induction false} FieldsAfterField(a: string, sep: char, t: string)
    requires sep !in a
    ensures Fields(a + [sep] + t, sep) == [a] + Fields(t, sep)
    decreases |a|
  {
    if a == [] {
      assert a + [sep] + t == [sep] + t;
      assert ([sep] + t)[1..] == t;
    } else {
      var s := a + [sep] + t;
      assert s[0] == a[0] && s[1..] == a[1..] + [sep] + t;
      FieldsAfterField(a[1..], sep, t);
      assert a == [a[0]] + a[1..];
    }
  }

  /** Splitting a join of separator-free fields gives the fields back. */
  lemma {:induction false} FieldsOfJoin(fs: seq<string>, sep: char)
    requires |fs| >= 1
    requires forall i :: 0 <= i < |fs| ==> sep !in fs[i]
    ensures Fields(Join(fs, sep), sep) == fs
  {
    if |fs| == 1 {
      FieldsWithoutSeparator(fs[0], sep);
    } else {
      FieldsOfJoin(fs[1..], sep);
      FieldsAfterField(fs[0], sep, Join(fs[1..], sep));
      assert fs == [fs[0]] + fs[1..];
    }
  }

  /** `split` undoes `join` when no field holds the separator and the last field is not empty. */
  lemma SplitJoin(fs: seq<string>, sep: char)
    requires |fs| >= 1 && fs[|fs| - 1] != ""
    requires forall i :: 0 <= i < |fs| ==> sep !in fs[i]
    ensures Split(Join(fs, sep), sep) == fs
  {
    FieldsOfJoin(fs, sep);
  }

  /** A character that is neither the separator nor in any field is not in the joined string. */
  lemma {:induction false} JoinAvoids(fs: seq<string>, sep: char, c: char)
    requires c != sep
    requires forall i :: 0 <= i < |fs| ==> c !in fs[i]
    ensures c !in Join(fs, sep)
  {
    if |fs| > 1 {
      JoinAvoids(fs[1..], sep, c);
    }
  }

  /** The joined string ends with the last field. */
  lemma {:induction false} JoinEndsWithLast(fs: seq<string>, sep: char)
    requires |fs| >= 1
    ensures |Join(fs, sep)| >= |fs[|fs| - 1]|
  {
    if |fs| > 1 {
      JoinEndsWithLast(fs[1..], sep);
    }
  }

  /** Lines written one after another, as `puts` leaves them in a file. */
  function Concat(ls: seq<string>): string {
    if ls == [] then "" else Concat(ls[..|ls| - 1]) + ls[|ls| - 1]
  }

  /** A character missing from `x` is missing from the start of `x + u`. */
  lemma PrefixAvoids(x: string, u: string, c: char)
    requires c !in x
    ensures forall i :: 0 <= i < |x| ==> (x + u)[i] != c
  {
    assert forall i :: 0 <= i < |x| ==> (x + u)[i] == x[i];
  }

  /** Writing one more line appends it. */
  lemma ConcatSnoc(ls: seq<string>, i: nat)
    requires i < |ls|
    ensures Concat(ls[..i + 1]) == Concat(ls[..i]) + ls[i]
  {
    assert ls[..i + 1][..i] == ls[..i];
  }

  function DigitChar(d: nat): (c: char)
    requires d < 10
    ensures IsDigit(c) && c as int - '0' as int == d
  {
    (d + '0' as int) as char
  }

  /** `Integer#to_s` for a natural number. */
  function Decimal(n: nat): (s: string)
    ensures |s| >= 1 && (forall i :: 0 <= i < |s| ==> IsDigit(s[i]))
    ensures |s| > 1 ==> s[0] != '0'
  {
    if n < 10 then [DigitChar(n)] else Decimal(n / 10) + [DigitChar(n % 10)]
  }

  /** The number a string of decimal digits denotes. */
  function DecimalValue(s: string): nat
    requires forall i :: 0 <= i < |s| ==> IsDigit(s[i])
  {
    if s == [] then 0
    else
      assert IsDigit(s[|s| - 1]);
      10 * DecimalValue(s[..|s| - 1]) + (s[|s| - 1] as int - '0' as int)
  }

  /** `Decimal` writes `n` in a form that reads back as `n`. */
  lemma {:induction false} DecimalRoundTrip(n: nat)
    ensures DecimalValue(Decimal(n)) == n
  {
    if n >= 10 {
      DecimalRoundTrip(n / 10);
      assert Decimal(n)[..|Decimal(n)| - 1] == Decimal(n / 10);
    }
  }

  /** `Integer#to_s`. */
  function IntString(i: int): string {
    if i < 0 then "-" + Decimal(-i) else Decimal(i)
  }
}
