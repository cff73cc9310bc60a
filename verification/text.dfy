/**
 * Character classes, decimal rendering and parsing, joining and splitting,
 * and substring search: the pieces of `<string>`, `<sstream>` and
 * `std::to_string` that the processor uses.
 */
module Text {
  import opened Wrappers
  import Num

  predicate IsDigit(c: char) { '0' <= c <= '9' }

  /** `isspace` in the "C" locale: space, \t, \n, \v, \f, \r. */
  predicate IsSpace(c: char) { c == ' ' || 9 <= c as int <= 13 }

  predicate AllDigits(s: string) { forall i :: 0 <= i < |s| ==> IsDigit(s[i]) }

  /** The value of a decimal digit (0 for any other character). */
  function DigitValue(c: char): nat
  {
    if IsDigit(c) then (c as int - '0' as int) as nat else 0
  }

  function DigitChar(d: nat): (c: char)
    requires d < 10
    ensures IsDigit(c) && DigitValue(c) == d
  {
    ('0' as int + d) as char
  }

  /** The value of a string of decimal digits, most significant first. */
  function DigitsValue(s: string): nat
  {
    if s == [] then 0 else DigitsValue(s[..|s| - 1]) * 10 + DigitValue(s[|s| - 1])
  }

  /** `std::to_string` of a non-negative integer. */
  function NatToString(n: nat): (s: string)
    ensures |s| >= 1 && AllDigits(s)
    ensures DigitsValue(s) == n
    ensures s[0] == '0' ==> n == 0
    decreases n
  {
    if n < 10 then [DigitChar(n)]
    else
      var s := NatToString(n / 10) + [DigitChar(n % 10)];
      assert s[..|s| - 1] == NatToString(n / 10);
      s
  }

  /** `std::to_string` of an `int`. */
  function IntToString(v: int): (s: string)
    ensures |s| >= 1
    ensures v >= 0 ==> s == NatToString(v)
    ensures v < 0 ==> s[0] == '-' && s[1..] == NatToString(-v)
  {
    if v < 0 then "-" + NatToString(-v) else NatToString(v)
  }

  /** Digits carry no newline, so rendered numbers stay on one line. */
  lemma DigitsHaveNo(s: string, c: char)
    requires AllDigits(s) && !IsDigit(c)
    ensures c !in s
  {
    assert forall i :: 0 <= i < |s| ==> s[i] != c;
  }

  /** The position after the whitespace starting at `i`: what `std::ws` and every `>>` skip first. */
  function SkipSpace(s: string, i: nat): (j: nat)
    requires i <= |s|
    ensures i <= j <= |s|
    ensures forall k :: i <= k < j ==> IsSpace(s[k])
    ensures j == |s| || !IsSpace(s[j])
    decreases |s| - i
  {
    if i == |s| || !IsSpace(s[i]) then i else SkipSpace(s, i + 1)
  }

  /** Whitespace that ends at `n` is what the skip passes over. */
  lemma SkipSpaceAt(s: string, n: nat)
    requires n <= |s| && forall i :: 0 <= i < n ==> IsSpace(s[i])
    requires n == |s| || !IsSpace(s[n])
    ensures SkipSpace(s, 0) == n
  {
  }

  /** The end of the run of non-whitespace starting at `i`: the word `>> std::string` reads. */
  function TokenEnd(s: string, i: nat): (j: nat)
    requires i <= |s|
    ensures i <= j <= |s|
    ensures forall k :: i <= k < j ==> !IsSpace(s[k])
    ensures j == |s| || IsSpace(s[j])
    decreases |s| - i
  {
    if i == |s| || IsSpace(s[i]) then i else TokenEnd(s, i + 1)
  }

  /** The end of the run of decimal digits starting at `i`. */
  function DigitsEnd(s: string, i: nat): (j: nat)
    requires i <= |s|
    ensures i <= j <= |s|
    ensures forall k :: i <= k < j ==> IsDigit(s[k])
    ensures j == |s| || !IsDigit(s[j])
    decreases |s| - i
  {
    if i == |s| || !IsDigit(s[i]) then i else DigitsEnd(s, i + 1)
  }

  /** A run that is exactly `n` digits long ends where the scan says it does. */
  lemma DigitsEndAt(s: string, i: nat, n: nat)
    requires i + n <= |s| && forall k :: i <= k < i + n ==> IsDigit(s[k])
    requires i + n == |s| || !IsDigit(s[i + n])
    ensures DigitsEnd(s, i) == i + n
    decreases n
  {
    if n > 0 {
      DigitsEndAt(s, i + 1, n - 1);
    }
  }

  /** The value of a concatenation of digit strings: the left part is shifted by the right part's length. */
  lemma {:induction false} DigitsValueConcat(a: string, b: string)
    ensures DigitsValue(a + b) == DigitsValue(a) * Num.Pow10(|b|) + DigitsValue(b)
    decreases |b|
  {
    if b == [] {
      assert a + b == a;
    } else {
      var b' := b[..|b| - 1];
      DigitsValueConcat(a, b');
      assert (a + b)[..|a + b| - 1] == a + b';
      assert (a + b)[|a + b| - 1] == b[|b| - 1];
      ShiftDigit(DigitsValue(a), Num.Pow10(|b'|), DigitsValue(b'), DigitValue(b[|b| - 1]));
    }
  }

  /** Appending a digit to `x * p + y` multiplies both parts by ten. */
  lemma ShiftDigit(x: nat, p: nat, y: nat, d: nat)
    ensures (x * p + y) * 10 + d == x * (10 * p) + (y * 10 + d)
  {
  }

  predicate StartsWith(s: string, p: string) { |p| <= |s| && s[..|p|] == p }

  /** The items separated by `sep`, with no separator after the last one. */
  function Join(items: seq<string>, sep: char): string
  {
    if items == [] then []
    else if |items| == 1 then items[0]
    else items[0] + [sep] + Join(items[1..], sep)
  }

  /** Each item followed by `sep`: the shape `s += item + ','` and `s += line + '\n'` build. */
  function Terminated(items: seq<string>, sep: char): string
  {
    if items == [] then [] else items[0] + [sep] + Terminated(items[1..], sep)
  }

  lemma {:induction false} TerminatedIsJoin(items: seq<string>, sep: char)
    requires items != []
    ensures Terminated(items, sep) == Join(items, sep) + [sep]
    decreases |items|
  {
    if |items| > 1 {
      TerminatedIsJoin(items[1..], sep);
    }
  }

  /** The text opens with the first item and its separator. */
  lemma TerminatedStarts(items: seq<string>, sep: char)
    requires items != []
    ensures StartsWith(Terminated(items, sep), items[0] + [sep])
  {
    var t := Terminated(items, sep);
    assert t == (items[0] + [sep]) + Terminated(items[1..], sep);
    assert t[..|items[0] + [sep]|] == items[0] + [sep];
  }

  /** A written `int` holds only digits and a leading minus sign. */
  lemma IntTextHasNo(v: int, c: char)
    requires !IsDigit(c) && c != '-'
    ensures c !in IntToString(v)
  {
    var s := IntToString(v);
    if v < 0 {
      DigitsHaveNo(NatToString(-v), c);
      assert s == [s[0]] + NatToString(-v);
    } else {
      DigitsHaveNo(NatToString(v), c);
    }
  }

  /** Joining items that lack `c` with a separator other than `c` gives a text without `c`. */
  lemma {:induction false} JoinHasNo(items: seq<string>, sep: char, c: char)
    requires NoneContains(items, c) && sep != c
    ensures c !in Join(items, sep)
    decreases |items|
  {
    if |items| > 1 {
      assert NoneContains(items[1..], c) by {
        forall k | 0 <= k < |items[1..]| ensures c !in items[1..][k] {
          assert items[1..][k] == items[k + 1];
        }
      }
      JoinHasNo(items[1..], sep, c);
      assert c !in items[0];
    } else if |items| == 1 {
      assert c !in items[0];
    }
  }

  /**
   * Splitting a text in which every item is followed by `c` gives back the
   * items and the empty piece after the last `c`.
   */
  lemma {:induction false} SplitTerminated(items: seq<string>, c: char)
    requires NoneContains(items, c)
    ensures SplitOn(Terminated(items, c), c) == items + [""]
    decreases |items|
  {
    if items != [] {
      assert c !in items[0];
      SplitFirst(items[0], c, Terminated(items[1..], c));
      assert NoneContains(items[1..], c) by {
        forall k | 0 <= k < |items[1..]| ensures c !in items[1..][k] {
          assert items[1..][k] == items[k + 1];
        }
      }
      SplitTerminated(items[1..], c);
      assert items == [items[0]] + items[1..];
    }
  }

  /** The first piece of a split is the text before the first separator. */
  lemma SplitFirst(a: string, c: char, rest: string)
    requires c !in a
    ensures SplitOn(a + [c] + rest, c) == [a] + SplitOn(rest, c)
  {
    var s := a + [c] + rest;
    assert s[|a|] == c && s[..|a|] == a;
    IndexOfFirst(s, c, |a|);
    assert s[|a| + 1..] == rest;
  }

  /** The index of the first `c` in `s`. */
  function IndexOf(s: string, c: char): (i: nat)
    requires c in s
    ensures i < |s| && s[i] == c && c !in s[..i]
  {
    if s[0] == c then 0
    else
      var j := IndexOf(s[1..], c);
      assert s[..j + 1] == [s[0]] + s[1..][..j];
      j + 1
  }

  /** The first `c` is the one with no `c` before it. */
  lemma IndexOfFirst(s: string, c: char, k: nat)
    requires k < |s| && s[k] == c && c !in s[..k]
    ensures IndexOf(s, c) == k
  {
    var i := IndexOf(s, c);
    assert forall j :: 0 <= j < k ==> s[..k][j] == s[j];
    assert forall j :: 0 <= j < i ==> s[..i][j] == s[j];
  }

  /** Splits `s` at every `c`; k separators give k + 1 pieces. */
  function SplitOn(s: string, c: char): (parts: seq<string>)
    ensures |parts| >= 1
    decreases |s|
  {
    if c !in s then [s]
    else
      var i := IndexOf(s, c);
      [s[..i]] + SplitOn(s[i + 1..], c)
  }

  predicate NoneContains(items: seq<string>, c: char)
  {
    forall i :: 0 <= i < |items| ==> c !in items[i]
  }

  /** Splitting undoes joining when no item holds the separator. */
  lemma {:induction false} SplitJoin(items: seq<string>, c: char)
    requires items != [] && NoneContains(items, c)
    ensures SplitOn(Join(items, c), c) == items
    decreases |items|
  {
    if |items| == 1 {
      assert c !in items[0];
    } else {
      var s := Join(items, c);
      assert s == items[0] + [c] + Join(items[1..], c);
      assert c !in items[0];
      assert s[|items[0]|] == c;
      assert s[..|items[0]|] == items[0];
      IndexOfFirst(s, c, |items[0]|);
      var i := IndexOf(s, c);
      assert s[i + 1..] == Join(items[1..], c);
      assert NoneContains(items[1..], c) by {
        forall k | 0 <= k < |items[1..]| ensures c !in items[1..][k] {
          assert items[1..][k] == items[k + 1];
        }
      }
      SplitJoin(items[1..], c);
    }
  }

  predicate OccursAt(s: string, pat: string, i: int)
  {
    0 <= i && i + |pat| <= |s| && s[i..i + |pat|] == pat
  }

  /** `s.find(pat, from)`: the first occurrence at or after `from`. */
  function Find(s: string, pat: string, from: nat): (r: Option<nat>)
    ensures r.Some? ==> from <= r.value && OccursAt(s, pat, r.value)
    ensures r.Some? ==> forall j :: from <= j < r.value ==> !OccursAt(s, pat, j)
    ensures r.None? ==> forall j :: from <= j ==> !OccursAt(s, pat, j)
    decreases |s| - from
  {
    if from + |pat| > |s| then None
    else if OccursAt(s, pat, from) then Some(from)
    else Find(s, pat, from + 1)
  }

  /** The last occurrence strictly before position `k`. */
  function FindBefore(s: string, pat: string, k: nat): (r: Option<nat>)
    ensures r.Some? ==> r.value < k && OccursAt(s, pat, r.value)
    ensures r.Some? ==> forall j :: r.value < j < k ==> !OccursAt(s, pat, j)
    ensures r.None? ==> forall j :: j < k ==> !OccursAt(s, pat, j)
  {
    if k == 0 then None
    else if OccursAt(s, pat, k - 1) then Some(k - 1)
    else FindBefore(s, pat, k - 1)
  }

  /** `s.rfind(pat)`: the last occurrence anywhere in `s`. */
  function RFind(s: string, pat: string): (r: Option<nat>)
    ensures r.Some? ==> OccursAt(s, pat, r.value)
    ensures r.Some? ==> forall j :: r.value < j ==> !OccursAt(s, pat, j)
    ensures r.None? ==> forall j :: !OccursAt(s, pat, j)
  {
    FindBefore(s, pat, |s| + 1)
  }

  /** An occurrence with none after it is the one `rfind` reports. */
  lemma RFindAt(s: string, pat: string, p: nat)
    requires OccursAt(s, pat, p) && forall j :: p < j ==> !OccursAt(s, pat, j)
    ensures RFind(s, pat) == Some(p)
  {
    var r := RFind(s, pat);
    assert r.Some? && r.value >= p && r.value <= p;
  }

  /** An occurrence with none between `from` and it is the one `find` reports. */
  lemma FindAt(s: string, pat: string, from: nat, p: nat)
    requires from <= p && OccursAt(s, pat, p)
    requires forall j :: from <= j < p ==> !OccursAt(s, pat, j)
    ensures Find(s, pat, from) == Some(p)
  {
    var r := Find(s, pat, from);
    assert r.Some? && r.value >= p && r.value <= p;
  }
}
