/** PHP string primitives the categorizer relies on: explode/implode, strpos as a
    substring test, ucfirst, str_replace, whitespace normalisation, integer keys
    and a total order on tag names standing in for the one `sort` applies. */
module Strings {

  datatype Option<+T> = None | Some(value: T)

  /** DIRECTORY_SEPARATOR on the platforms the tool is run on. */
  const DS: char := '/'

  predicate StartsWith(s: string, prefix: string) {
    |prefix| <= |s| && s[..|prefix|] == prefix
  }

  /** `needle` occurs in `s` starting at position `i`. */
  predicate OccursAt(s: string, needle: string, i: int) {
    0 <= i && i + |needle| <= |s| && s[i..i + |needle|] == needle
  }

  /** `strpos($s, $needle) !== false` for a non-empty needle. */
  predicate Contains(s: string, needle: string) {
    exists i :: 0 <= i <= |s| && OccursAt(s, needle, i)
  }

  /** PHP's `empty()` on a string: true for "" and for "0". */
  predicate PhpEmpty(s: string) {
    s == "" || s == "0"
  }

  /** Number of occurrences of `c` in `s` (`substr_count` with a one-character needle). */
  function Count(s: string, c: char): nat {
    if s == [] then 0 else (if s[0] == c then 1 else 0) + Count(s[1..], c)
  }

  // ---------------------------------------------------------------------------
  // explode / implode on a one-character separator

  /** `explode($sep, $s)`: the pieces between separators, empty ones included. */
  function Split(s: string, sep: char): (parts: seq<string>)
    ensures |parts| >= 1
    ensures |parts[0]| <= |s|
    ensures forall k :: 0 <= k < |parts| ==> sep !in parts[k]
    decreases |s|
  {
    if s == [] then [""]
    else
      var rest := Split(s[1..], sep);
      if s[0] == sep then [""] + rest
      else [[s[0]] + rest[0]] + rest[1..]
  }

  /** `implode($sep, $parts)` on a non-empty list. */
  function Join(parts: seq<string>, sep: char): string
    requires |parts| >= 1
  {
    if |parts| == 1 then parts[0] else parts[0] + [sep] + Join(parts[1..], sep)
  }

  /** implode undoes explode. */
  lemma {:induction false} JoinSplit(s: string, sep: char)
    ensures Join(Split(s, sep), sep) == s
    decreases |s|
  {
    if s != [] {
      JoinSplit(s[1..], sep);
      var rest := Split(s[1..], sep);
      if s[0] == sep {
        assert Split(s, sep) == [""] + rest;
        assert ([""] + rest)[1..] == rest;
      } else {
        var parts := Split(s, sep);
        assert parts == [[s[0]] + rest[0]] + rest[1..];
        assert s == [s[0]] + s[1..];
        if |rest| == 1 {
          assert Join(rest, sep) == rest[0];
          assert Join(parts, sep) == parts[0];
        } else {
          assert parts[1..] == rest[1..];
          assert Join(rest, sep) == rest[0] + [sep] + Join(rest[1..], sep);
          assert Join(parts, sep) == parts[0] + [sep] + Join(parts[1..], sep);
        }
      }
    }
  }

  /** Splitting text that starts with a separator-free piece keeps that piece whole. */
  lemma {:induction false} SplitPrefix(a: string, t: string, sep: char)
    requires sep !in a
    ensures Split(a + t, sep) == [a + Split(t, sep)[0]] + Split(t, sep)[1..]
    decreases |a|
  {
    if a != [] {
      SplitPrefix(a[1..], t, sep);
      assert (a + t)[1..] == a[1..] + t;
      assert a == [a[0]] + a[1..];
      var rest := Split(a[1..] + t, sep);
      assert rest == [a[1..] + Split(t, sep)[0]] + Split(t, sep)[1..];
      assert (a + t)[0] == a[0] && a[0] != sep;
      assert Split(a + t, sep) == [[a[0]] + rest[0]] + rest[1..];
      assert rest[1..] == Split(t, sep)[1..];
      assert [a[0]] + rest[0] == a + Split(t, sep)[0];
    } else {
      assert a + t == t;
      assert a + Split(t, sep)[0] == Split(t, sep)[0];
      assert Split(t, sep) == [Split(t, sep)[0]] + Split(t, sep)[1..];
    }
  }

  /** explode undoes implode when no piece holds the separator. */
  lemma {:induction false} SplitJoin(parts: seq<string>, sep: char)
    requires |parts| >= 1
    requires forall k :: 0 <= k < |parts| ==> sep !in parts[k]
    ensures Split(Join(parts, sep), sep) == parts
    decreases |parts|
  {
    if |parts| == 1 {
      SplitPrefix(parts[0], [], sep);
      assert parts[0] + [] == parts[0];
      assert Split([], sep) == [""];
      assert parts == [parts[0]];
    } else {
      var tail := parts[1..];
      SplitJoin(tail, sep);
      var t := [sep] + Join(tail, sep);
      assert parts[0] + [sep] + Join(tail, sep) == parts[0] + t;
      SplitPrefix(parts[0], t, sep);
      assert Join(parts, sep) == parts[0] + t;
      assert t[1..] == Join(tail, sep);
      assert Split(t, sep) == [""] + tail;
      assert Split(t, sep)[0] == "" && Split(t, sep)[1..] == tail;
      assert parts[0] + "" == parts[0];
      assert parts == [parts[0]] + tail;
    }
  }

  /** The number of exploded pieces is one more than the number of separators. */
  lemma {:induction false} SplitCount(s: string, sep: char)
    ensures |Split(s, sep)| == Count(s, sep) + 1
    decreases |s|
  {
    if s != [] {
      SplitCount(s[1..], sep);
    }
  }

  /** Replacing the first piece of an exploded path keeps everything after it. */
  lemma {:induction false} JoinReplaceFirst(s: string, sep: char, x: string)
    ensures |Split(s, sep)[0]| <= |s|
    ensures Join([x] + Split(s, sep)[1..], sep) == x + s[|Split(s, sep)[0]|..]
  {
    var parts := Split(s, sep);
    JoinSplit(s, sep);
    var rest := if |parts| == 1 then "" else [sep] + Join(parts[1..], sep);
    assert s == parts[0] + rest;
    assert s[|parts[0]|..] == rest;
    var q := [x] + parts[1..];
    if |parts| > 1 {
      assert q[1..] == parts[1..];
    }
  }

  /** Position of the first `ch` in `s`, or |s| when there is none. */
  function FirstIndex(s: string, ch: char): nat {
    if s == [] || s[0] == ch then 0 else 1 + FirstIndex(s[1..], ch)
  }

  lemma {:induction false} FirstIndexAfter(a: string, rest: string, ch: char)
    requires ch !in a && rest != [] && rest[0] == ch
    ensures FirstIndex(a + rest, ch) == |a|
    decreases |a|
  {
    if a != [] {
      assert (a + rest)[1..] == a[1..] + rest;
      FirstIndexAfter(a[1..], rest, ch);
    } else {
      assert a + rest == rest;
    }
  }

  /** Joining with a separator whose first character occurs in neither left-hand
      piece is injective. */
  lemma JoinInjective(a: string, b: string, c: string, d: string, sep: string)
    requires sep != []
    requires sep[0] !in a && sep[0] !in c
    requires a + sep + b == c + sep + d
    ensures a == c && b == d
  {
    var x := a + sep + b;
    assert x == a + (sep + b) && x == c + (sep + d);
    FirstIndexAfter(a, sep + b, sep[0]);
    FirstIndexAfter(c, sep + d, sep[0]);
    assert a == x[..|a|];
    assert c == x[..|c|];
    assert b == x[|a| + |sep|..];
    assert d == x[|c| + |sep|..];
  }

  // ---------------------------------------------------------------------------
  // ucfirst

  predicate IsLower(c: char) { 'a' <= c <= 'z' }

  /** The text starts with an ASCII capital letter. */
  predicate UpperInitial(s: string) { s != [] && 'A' <= s[0] <= 'Z' }

  /** `ucfirst`: upper-cases a leading ASCII letter and leaves the rest alone. */
  function Capitalize(s: string): (r: string)
    ensures |r| == |s|
    ensures s != [] ==> r[1..] == s[1..] && !IsLower(r[0])
    ensures s != [] && !IsLower(s[0]) ==> r == s
    ensures s != [] && IsLower(s[0]) ==> UpperInitial(r)
  {
    if s != [] && IsLower(s[0]) then [(s[0] as int - 32) as char] + s[1..] else s
  }

  /** ucfirst on an already capitalised text followed by anything changes nothing. */
  lemma CapitalizeCapitalized(a: string, rest: string)
    requires a != []
    ensures Capitalize(Capitalize(a) + rest) == Capitalize(a) + rest
  {
    assert (Capitalize(a) + rest)[0] == Capitalize(a)[0];
  }

  /** ucfirst loses nothing on words that start with a lower-case letter. */
  lemma CapitalizeInjective(x: string, y: string)
    requires x != [] && y != [] && IsLower(x[0]) && IsLower(y[0])
    requires Capitalize(x) == Capitalize(y)
    ensures x == y
  {
    assert x == [x[0]] + x[1..] && y == [y[0]] + y[1..];
    assert Capitalize(x)[0] == Capitalize(y)[0];
  }

  /** ucfirst of a lower-case initial adds no character that was not a letter. */
  lemma CapitalizeKeepsOut(x: string, c: char)
    requires x != [] && IsLower(x[0]) && !('A' <= c <= 'Z') && c !in x
    ensures c !in Capitalize(x)
  {
    var r := Capitalize(x);
    forall i | 0 <= i < |r| ensures r[i] != c {
      if i > 0 {
        assert r[i] == r[1..][i - 1] == x[1..][i - 1];
      }
    }
  }

  // ---------------------------------------------------------------------------
  // Paths as the file system reads them

  /** No two separators in a row. */
  predicate NoSeparatorRun(s: string)
    decreases |s|
  {
    |s| < 2 || (!(s[0] == DS && s[1] == DS) && NoSeparatorRun(s[1..]))
  }

  /** A path with every run of separators read as one, as the file system does
      when it resolves "a//b" to "a/b". */
  function CollapseSeparators(p: string): (r: string)
    ensures |r| <= |p|
    ensures p != [] ==> r != [] && r[0] == p[0]
    ensures NoSeparatorRun(r)
    decreases |p|
  {
    if |p| < 2 then p
    else if p[0] == DS && p[1] == DS then CollapseSeparators(p[1..])
    else
      var tail := CollapseSeparators(p[1..]);
      assert p == [p[0]] + p[1..];
      [p[0]] + tail
  }

  /** A prefix with no separator run that does not end in a separator is kept
      as it is. */
  lemma {:induction false} CollapseAppend(a: string, b: string)
    requires NoSeparatorRun(a)
    requires a != [] ==> a[|a| - 1] != DS
    ensures CollapseSeparators(a + b) == a + CollapseSeparators(b)
    decreases |a|
  {
    if a != [] {
      var t := a[1..];
      CollapseAppend(t, b);
      var ab := a + b;
      assert ab[1..] == t + b;
      if |ab| >= 2 {
        assert ab[1] == if t == [] then b[0] else t[0];
        assert CollapseSeparators(ab) == [a[0]] + (t + CollapseSeparators(b));
      } else {
        assert ab == a && b == [];
      }
      assert a == [a[0]] + t;
    } else {
      assert a + b == b;
    }
  }

  /** A text without separators is kept as it is. */
  lemma {:induction false} NoSeparatorUnchanged(s: string)
    requires DS !in s
    ensures CollapseSeparators(s) == s
    decreases |s|
  {
    if |s| >= 2 {
      assert s[0] in s;
      assert s == [s[0]] + s[1..];
      assert forall c :: c in s[1..] ==> c in s;
      NoSeparatorUnchanged(s[1..]);
    }
  }

  // ---------------------------------------------------------------------------
  // str_replace($needle, '', $s)

  /** Removes every occurrence of `needle`, scanning left to right without overlap,
      as `str_replace` does; an empty needle leaves the text unchanged. */
  function RemoveAll(s: string, needle: string): (r: string)
    ensures |r| <= |s|
    ensures !Contains(s, needle) ==> r == s
    decreases |s|
  {
    if needle == [] || s == [] then s
    else if StartsWith(s, needle) then
      assert OccursAt(s, needle, 0);
      RemoveAll(s[|needle|..], needle)
    else
      var r := [s[0]] + RemoveAll(s[1..], needle);
      ContainsTail(s, needle);
      assert !Contains(s, needle) ==> [s[0]] + s[1..] == s;
      r
  }

  lemma ContainsTail(s: string, needle: string)
    requires s != []
    ensures Contains(s[1..], needle) ==> Contains(s, needle)
  {
    if Contains(s[1..], needle) {
      var i :| 0 <= i <= |s[1..]| && OccursAt(s[1..], needle, i);
      assert s[1..][i..i + |needle|] == s[i + 1..i + 1 + |needle|];
      assert OccursAt(s, needle, i + 1);
    }
  }

  // ---------------------------------------------------------------------------
  // trim(preg_replace('!\s+!', ' ', $s))

  /** Characters PCRE's `\s` matches outside UTF mode: space, tab, line feed,
      vertical tab, form feed, carriage return. */
  predicate IsPcreSpace(c: char) {
    c == ' ' || c == '\t' || c == '\n' || c as int == 11 || c as int == 12 || c == '\r'
  }

  /** Characters `trim` strips by default: space, tab, line feed, carriage return,
      NUL and vertical tab. */
  predicate IsTrimmed(c: char) {
    c == ' ' || c == '\t' || c == '\n' || c == '\r' || c as int == 0 || c as int == 11
  }

  function DropSpaces(s: string): (r: string)
    ensures |r| <= |s|
    ensures r != [] ==> !IsPcreSpace(r[0])
  {
    if s != [] && IsPcreSpace(s[0]) then DropSpaces(s[1..]) else s
  }

  /** `preg_replace('!\s+!', ' ', $s)`: every run of whitespace becomes one space. */
  function Collapse(s: string): string
    decreases |s|
  {
    if s == [] then []
    else if IsPcreSpace(s[0]) then [' '] + Collapse(DropSpaces(s[1..]))
    else [s[0]] + Collapse(s[1..])
  }

  function TrimLeft(s: string): string {
    if s != [] && IsTrimmed(s[0]) then TrimLeft(s[1..]) else s
  }

  function TrimRight(s: string): string {
    if s != [] && IsTrimmed(s[|s| - 1]) then TrimRight(s[..|s| - 1]) else s
  }

  /** The tag expression as `getPosts` normalises it before counting terms. */
  function Normalize(s: string): string {
    TrimRight(TrimLeft(Collapse(s)))
  }

  /** A text whose only whitespace is single spaces between other characters. */
  predicate Tidy(s: string) {
    && (forall i :: 0 <= i < |s| ==> IsPcreSpace(s[i]) ==> s[i] == ' ')
    && (forall i :: 0 <= i < |s| ==> s[i] as int != 0)
    && (forall i :: 0 <= i < |s| - 1 ==> !(s[i] == ' ' && s[i + 1] == ' '))
    && (s != [] ==> s[0] != ' ' && s[|s| - 1] != ' ')
  }

  lemma {:induction false} CollapseKeepsSingleSpaces(s: string)
    requires forall i :: 0 <= i < |s| ==> IsPcreSpace(s[i]) ==> s[i] == ' '
    requires forall i :: 0 <= i < |s| - 1 ==> !(s[i] == ' ' && s[i + 1] == ' ')
    ensures Collapse(s) == s
    decreases |s|
  {
    if s != [] {
      CollapseKeepsSingleSpaces(s[1..]);
      if IsPcreSpace(s[0]) {
        assert s[1..] == [] || !IsPcreSpace(s[1]);
        assert DropSpaces(s[1..]) == s[1..];
      }
      assert s == [s[0]] + s[1..];
    }
  }

  /** Normalisation leaves tidy text as it is. */
  lemma NormalizeTidy(s: string)
    requires Tidy(s)
    ensures Normalize(s) == s
  {
    CollapseKeepsSingleSpaces(s);
    if s != [] {
      assert !IsTrimmed(s[0]);
      assert !IsTrimmed(s[|s| - 1]);
    }
  }

  // ---------------------------------------------------------------------------
  // Integers as text, and PHP's canonical integer array keys

  predicate IsDigit(c: char) { '0' <= c <= '9' }

  function DigitChar(d: nat): (c: char)
    requires d < 10
    ensures IsDigit(c)
  {
    ('0' as int + d) as char
  }

  function DigitValue(c: char): nat
    requires IsDigit(c)
  {
    c as int - '0' as int
  }

  /** Decimal digits of a natural number, without leading zeros. */
  function NatDigits(n: nat): (s: string)
    ensures |s| >= 1
    ensures forall i :: 0 <= i < |s| ==> IsDigit(s[i])
    ensures n > 0 ==> s[0] != '0'
    decreases n
  {
    if n < 10 then [DigitChar(n)] else NatDigits(n / 10) + [DigitChar(n % 10)]
  }

  /** The text PHP produces when an integer is concatenated to a string. */
  function DecimalString(n: int): (s: string)
    ensures s != [] && (s[0] == '-' || IsDigit(s[0]))
    ensures forall i :: 0 < i < |s| ==> IsDigit(s[i])
  {
    if n < 0 then "-" + NatDigits(-n) else NatDigits(n)
  }

  predicate AllDigits(s: string) {
    forall i :: 0 <= i < |s| ==> IsDigit(s[i])
  }

  function DigitsValue(s: string): nat
    requires AllDigits(s)
  {
    if s == [] then 0 else DigitsValue(s[..|s| - 1]) * 10 + DigitValue(s[|s| - 1])
  }

  /** The integer a string array key stands for: "0", or digits without a leading
      zero, optionally after a minus sign. Any other string stays a string key. */
  function ParseKey(s: string): (r: Option<int>)
    ensures r.Some? ==> forall i :: 0 <= i < |s| ==> s[i] == '-' || IsDigit(s[i])
  {
    if s == "0" then Some(0)
    else if s != [] && s[0] == '-' then
      var t := s[1..];
      if t != [] && AllDigits(t) && t[0] != '0' then
        var v: int := DigitsValue(t);
        Some(-v)
      else None
    else if s != [] && AllDigits(s) && s[0] != '0' then Some(DigitsValue(s))
    else None
  }

  lemma {:induction false} DigitsValueNatDigits(n: nat)
    ensures DigitsValue(NatDigits(n)) == n
    decreases n
  {
    if n >= 10 {
      DigitsValueNatDigits(n / 10);
      var s := NatDigits(n);
      assert s[..|s| - 1] == NatDigits(n / 10);
    }
  }

  /** Reading back the decimal text of an integer gives the integer. */
  lemma ParseDecimal(n: int)
    ensures ParseKey(DecimalString(n)) == Some(n)
  {
    if n < 0 {
      DigitsValueNatDigits(-n);
      assert DecimalString(n)[1..] == NatDigits(-n);
    } else {
      DigitsValueNatDigits(n);
    }
  }

  // ---------------------------------------------------------------------------
  // An order for `sort`

  /** Code-point lexicographic order: a proper prefix comes first. PHP's
      default `sort` compares two numeric strings as numbers instead; only
      membership of the sorted tags is used downstream. */
  predicate LessEq(a: string, b: string)
    decreases |a|
  {
    if a == [] then true
    else if b == [] then false
    else if a[0] != b[0] then a[0] < b[0]
    else LessEq(a[1..], b[1..])
  }

  lemma {:induction false} LessEqReflexive(a: string)
    ensures LessEq(a, a)
    decreases |a|
  {
    if a != [] {
      LessEqReflexive(a[1..]);
    }
  }

  lemma {:induction false} LessEqTotal(a: string, b: string)
    ensures LessEq(a, b) || LessEq(b, a)
    decreases |a|
  {
    if a != [] && b != [] && a[0] == b[0] {
      LessEqTotal(a[1..], b[1..]);
    }
  }

  lemma {:induction false} LessEqTransitive(a: string, b: string, c: string)
    requires LessEq(a, b) && LessEq(b, c)
    ensures LessEq(a, c)
    decreases |a|
  {
    if a != [] && b != [] && c != [] && a[0] == b[0] && b[0] == c[0] {
      LessEqTransitive(a[1..], b[1..], c[1..]);
    }
  }

  lemma {:induction false} LessEqAntisymmetric(a: string, b: string)
    requires LessEq(a, b) && LessEq(b, a)
    ensures a == b
    decreases |a|
  {
    if a != [] {
      LessEqAntisymmetric(a[1..], b[1..]);
      assert a == [a[0]] + a[1..];
      assert b == [b[0]] + b[1..];
    }
  }

  predicate Sorted(s: seq<string>) {
    forall i, j :: 0 <= i < j < |s| ==> LessEq(s[i], s[j])
  }

  /** Places `x` in front of the first element it does not follow. */
  function Insert(x: string, s: seq<string>): (r: seq<string>)
    requires Sorted(s)
    ensures Sorted(r)
    ensures multiset(r) == multiset(s) + multiset{x}
    ensures |r| == |s| + 1
    decreases |s|
  {
    if s == [] then [x]
    else if LessEq(x, s[0]) then
      forall j | 0 <= j < |s| ensures LessEq(x, s[j]) {
        if j > 0 {
          LessEqTransitive(x, s[0], s[j]);
        }
      }
      SortedCons(x, s);
      [x] + s
    else
      LessEqTotal(x, s[0]);
      var tail := Insert(x, s[1..]);
      HeadBound(x, s, tail);
      SortedCons(s[0], tail);
      assert s == [s[0]] + s[1..];
      [s[0]] + tail
  }

  /** A head at most every element keeps a sorted sequence sorted. */
  lemma SortedCons(h: string, s: seq<string>)
    requires Sorted(s) && forall j :: 0 <= j < |s| ==> LessEq(h, s[j])
    ensures Sorted([h] + s)
  {
  }

  /** What follows the head of a sorted `s` after `x` is inserted in its tail is
      no smaller than that head. */
  lemma HeadBound(x: string, s: seq<string>, tail: seq<string>)
    requires Sorted(s) && s != [] && LessEq(s[0], x)
    requires multiset(tail) == multiset(s[1..]) + multiset{x}
    ensures forall k :: 0 <= k < |tail| ==> LessEq(s[0], tail[k])
  {
    forall k | 0 <= k < |tail| ensures LessEq(s[0], tail[k]) {
      assert tail[k] in multiset(tail);
      if tail[k] != x {
        assert tail[k] in multiset(s[1..]);
        var j :| 0 <= j < |s[1..]| && s[1..][j] == tail[k];
        assert s[j + 1] == tail[k];
      }
    }
  }

  /** `sort($tags)`, by code-point order: the tags in ascending order. */
  function Sort(s: seq<string>): (r: seq<string>)
    ensures Sorted(r)
    ensures multiset(r) == multiset(s)
    ensures |r| == |s|
  {
    if s == [] then []
    else
      assert s == [s[0]] + s[1..];
      Insert(s[0], Sort(s[1..]))
  }

  /** The head of a sorted sequence is at most any of its elements. */
  lemma SortedHead(a: seq<string>, x: string)
    requires Sorted(a) && x in a
    ensures LessEq(a[0], x)
  {
    var i :| 0 <= i < |a| && a[i] == x;
    if i == 0 {
      LessEqReflexive(x);
    }
  }

  lemma SortedTail(a: seq<string>)
    requires Sorted(a) && a != []
    ensures Sorted(a[1..])
  {
    forall i, j | 0 <= i < j < |a[1..]| ensures LessEq(a[1..][i], a[1..][j]) {
      assert a[1..][i] == a[i + 1] && a[1..][j] == a[j + 1];
    }
  }

  lemma TailMultiset(a: seq<string>, b: seq<string>)
    requires a != [] && b != [] && a[0] == b[0] && multiset(a) == multiset(b)
    ensures multiset(a[1..]) == multiset(b[1..])
  {
    assert a == [a[0]] + a[1..];
    assert b == [b[0]] + b[1..];
    calc {
      multiset(a[1..]);
      multiset(a) - multiset{a[0]};
      multiset(b) - multiset{b[0]};
      multiset(b[1..]);
    }
  }

  /** A sorted sequence is fixed by its elements: two sorted arrangements of the
      same multiset are the same sequence. */
  lemma {:induction false} SortedUnique(a: seq<string>, b: seq<string>)
    requires Sorted(a) && Sorted(b)
    requires multiset(a) == multiset(b)
    ensures a == b
    decreases |a|
  {
    assert |a| == |multiset(a)| == |multiset(b)| == |b|;
    if a != [] {
      assert a[0] in multiset(b) && b[0] in multiset(a);
      SortedHead(b, a[0]);
      SortedHead(a, b[0]);
      LessEqAntisymmetric(a[0], b[0]);
      TailMultiset(a, b);
      SortedTail(a);
      SortedTail(b);
      SortedUnique(a[1..], b[1..]);
      assert a == [a[0]] + a[1..] && b == [b[0]] + b[1..];
    }
  }

  /** Sorting depends only on which elements occur how often, not on their order. */
  lemma SortOrderIndependent(a: seq<string>, b: seq<string>)
    requires multiset(a) == multiset(b)
    ensures Sort(a) == Sort(b)
  {
    SortedUnique(Sort(a), Sort(b));
  }
}
