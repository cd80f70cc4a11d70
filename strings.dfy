/** Character classes and string helpers shared by every module: the
    substring test behind JavaScript `includes`, `join`, `split` on one
    separator character, decimal rendering of numbers, and the whitespace
    sets of JavaScript and Python. */
module Strs {

  /** True iff `t` occurs in `s` at index `i`. */
  predicate OccursAt(s: string, t: string, i: nat)
  {
    i + |t| <= |s| && s[i..i + |t|] == t
  }

  /** JavaScript `s.includes(t)` and Python `t in s`. */
  predicate Contains(s: string, t: string)
  {
    exists i: nat | i <= |s| :: OccursAt(s, t, i)
  }

  predicate StartsWith(s: string, p: string)
  {
    |p| <= |s| && s[..|p|] == p
  }

  predicate EndsWith(s: string, p: string)
  {
    |p| <= |s| && s[|s| - |p|..] == p
  }

  /** A prefix or a suffix is contained. */
  lemma AffixContained(s: string, p: string)
    ensures StartsWith(s, p) ==> Contains(s, p)
    ensures EndsWith(s, p) ==> Contains(s, p)
  {
    if StartsWith(s, p) {
      assert OccursAt(s, p, 0);
    }
    if EndsWith(s, p) {
      assert OccursAt(s, p, |s| - |p|);
    }
  }

  lemma ContainsEmpty(s: string)
    ensures Contains(s, "")
  {
    assert OccursAt(s, "", 0);
  }

  lemma ContainsSelf(s: string)
    ensures Contains(s, s)
  {
    assert OccursAt(s, s, 0);
  }

  /** A string that contains `t` is at least as long as `t`. */
  lemma ContainsLength(s: string, t: string)
    requires Contains(s, t)
    ensures |t| <= |s|
  {
  }

  /** A substring of a substring is a substring. */
  lemma ContainsTrans(s: string, t: string, u: string)
    requires Contains(s, t) && Contains(t, u)
    ensures Contains(s, u)
  {
    var i: nat :| i <= |s| && OccursAt(s, t, i);
    var j: nat :| j <= |t| && OccursAt(t, u, j);
    forall k | 0 <= k < |u| ensures s[i + j..i + j + |u|][k] == u[k] {
      assert u[k] == t[j..j + |u|][k] == t[j + k];
      assert t[j + k] == s[i..i + |t|][j + k] == s[i + j + k];
    }
    assert OccursAt(s, u, i + j);
  }

  /** Every character of a substring is a character of the string. */
  lemma ContainsChars(s: string, t: string)
    ensures Contains(s, t) ==> forall c :: c in t ==> c in s
  {
    if Contains(s, t) {
      var i: nat :| i <= |s| && OccursAt(s, t, i);
      forall c | c in t
        ensures c in s
      {
        var k :| 0 <= k < |t| && t[k] == c;
        assert s[i..i + |t|][k] == s[i + k];
      }
    }
  }

  /** Array.prototype.join. */
  function Join(parts: seq<string>, sep: string): (r: string)
    ensures parts == [] ==> r == ""
    ensures |parts| == 1 ==> r == parts[0]
  {
    if parts == [] then ""
    else if |parts| == 1 then parts[0]
    else parts[0] + sep + Join(parts[1..], sep)
  }

  /** Everything up to the first `sep`, or all of `s`. */
  function Before(s: string, sep: char): (r: string)
    ensures |r| <= |s| && r == s[..|r|]
    ensures sep !in r
  {
    if s == [] || s[0] == sep then [] else [s[0]] + Before(s[1..], sep)
  }

  /** String.prototype.split and Python's str.split with a one-character
      separator: the pieces between separators, empty pieces included. */
  function Split(s: string, sep: char): (r: seq<string>)
    ensures |r| >= 1
    decreases |s|
  {
    var head := Before(s, sep);
    if |head| == |s| then [s]
    else [head] + Split(s[|head| + 1..], sep)
  }

  /** No piece of a split holds the separator. */
  lemma {:induction false} SplitNoSeparator(s: string, sep: char)
    ensures forall k :: 0 <= k < |Split(s, sep)| ==> sep !in Split(s, sep)[k]
    decreases |s|
  {
    var head := Before(s, sep);
    if |head| < |s| {
      SplitNoSeparator(s[|head| + 1..], sep);
    }
  }

  /** Joining the pieces of a split with the separator gives the string
      back. */
  lemma {:induction false} JoinSplit(s: string, sep: char)
    ensures Join(Split(s, sep), [sep]) == s
    decreases |s|
  {
    var head := Before(s, sep);
    if |head| < |s| {
      var rest := s[|head| + 1..];
      JoinSplit(rest, sep);
      assert s[|head|] == sep by {
        if s[|head|] != sep { BeforeStops(s, sep); }
      }
      assert s == head + [sep] + rest;
    }
  }

  lemma {:induction false} BeforeStops(s: string, sep: char)
    ensures |Before(s, sep)| < |s| ==> s[|Before(s, sep)|] == sep
  {
    if s != [] && s[0] != sep { BeforeStops(s[1..], sep); }
  }

  /** The value of one decimal digit character. */
  function DigitChar(d: nat): (c: char)
    requires d < 10
    ensures '0' <= c <= '9'
  {
    ('0' as int + d) as char
  }

  /** A digit of a base up to 36: 0-9, then a-z. */
  function BaseDigit(d: nat): (c: char)
    requires d < 36
    ensures d < 10 ==> c == DigitChar(d)
    ensures d >= 10 ==> 'a' <= c <= 'z'
  {
    if d < 10 then DigitChar(d) else ('a' as int + d - 10) as char
  }

  /** Number.prototype.toString(base) for a non-negative integer, with
      lower-case letters for digits above 9. */
  function NatToBase(n: nat, base: nat): (r: string)
    requires 2 <= base <= 36
    ensures |r| >= 1
    decreases n
  {
    DivModBounds(n, base);
    var digit := BaseDigit(n % base);
    if n < base then [digit] else NatToBase(n / base, base) + [digit]
  }

  /** Division by a base of at least two shrinks a positive number, and
      the remainder is a digit of the base. */
  lemma DivModBounds(n: nat, base: nat)
    requires 2 <= base
    ensures n % base < base
    ensures n > 0 ==> n / base < n
  {
    var q, m := n / base, n % base;
    assert n == q * base + m;
    assert q * base >= q * 2;
  }

  /** Decimal rendering of a non-negative integer. */
  function NatToString(n: nat): (r: string)
    ensures |r| >= 1
    ensures forall k :: 0 <= k < |r| ==> '0' <= r[k] <= '9'
  {
    if n < 10 then [DigitChar(n)] else NatToString(n / 10) + [DigitChar(n % 10)]
  }

  /** Decimal rendering of an integer, with a leading minus sign. */
  function IntToString(n: int): (r: string)
    ensures |r| >= 1
  {
    if n < 0 then "-" + NatToString(-n) else NatToString(n)
  }

  function DigitValue(c: char): nat
    requires '0' <= c <= '9'
  {
    (c as int - '0' as int) as nat
  }

  /** The number a string of decimal digits denotes. */
  function DigitsValue(ds: string): nat
    requires forall k :: 0 <= k < |ds| ==> '0' <= ds[k] <= '9'
  {
    if ds == [] then 0 else DigitsValue(ds[..|ds| - 1]) * 10 + DigitValue(ds[|ds| - 1])
  }

  /** Reading back what NatToString wrote gives the number. */
  lemma {:induction false} DigitsValueOfNatToString(n: nat)
    ensures DigitsValue(NatToString(n)) == n
  {
    var r := NatToString(n);
    if n < 10 {
      assert r[..|r| - 1] == [];
    } else {
      var q, d := n / 10, n % 10;
      DigitsValueOfNatToString(q);
      assert r == NatToString(q) + [DigitChar(d)];
      assert r[..|r| - 1] == NatToString(q);
      assert DigitsValue(r) == DigitsValue(NatToString(q)) * 10 + d;
    }
  }

  lemma NatToStringInjective(m: nat, n: nat)
    requires NatToString(m) == NatToString(n)
    ensures m == n
  {
    DigitsValueOfNatToString(m);
    DigitsValueOfNatToString(n);
  }

  /** ASCII `toLowerCase` of one character. */
  function LowerChar(c: char): (r: char)
  {
    if 'A' <= c <= 'Z' then (c as int + 32) as char else c
  }

  /** ASCII `toUpperCase` of one character. */
  function UpperChar(c: char): (r: char)
  {
    if 'a' <= c <= 'z' then (c as int - 32) as char else c
  }

  function Lower(s: string): (r: string)
    ensures |r| == |s|
    ensures forall k :: 0 <= k < |s| ==> r[k] == LowerChar(s[k])
  {
    seq(|s|, k requires 0 <= k < |s| => LowerChar(s[k]))
  }

  /** JavaScript's `\s`, which is also the set `String.prototype.trim`
      removes: the WhiteSpace and LineTerminator characters of ECMAScript. */
  predicate IsJsSpace(c: char)
  {
    c == ' ' || ('\t' <= c <= '\r') || c == '\U{00A0}' || c == '\U{1680}'
    || ('\U{2000}' <= c <= '\U{200A}') || c == '\U{2028}' || c == '\U{2029}'
    || c == '\U{202F}' || c == '\U{205F}' || c == '\U{3000}' || c == '\U{FEFF}'
  }

  /** Python's `str.isspace` for one character. */
  predicate IsPySpace(c: char)
  {
    c == ' ' || ('\t' <= c <= '\r') || ('\U{001C}' <= c <= '\U{001F}')
    || c == '\U{0085}' || c == '\U{00A0}' || c == '\U{1680}'
    || ('\U{2000}' <= c <= '\U{200A}') || c == '\U{2028}' || c == '\U{2029}'
    || c == '\U{202F}' || c == '\U{205F}' || c == '\U{3000}'
  }

  function TrimStartBy(s: string, ws: char -> bool): (r: string)
    ensures |r| <= |s| && r == s[|s| - |r|..]
    ensures r != [] ==> !ws(r[0])
  {
    if s != [] && ws(s[0]) then TrimStartBy(s[1..], ws) else s
  }

  function TrimEndBy(s: string, ws: char -> bool): (r: string)
    ensures |r| <= |s| && r == s[..|r|]
    ensures r != [] ==> !ws(r[|r| - 1])
  {
    if s != [] && ws(s[|s| - 1]) then TrimEndBy(s[..|s| - 1], ws) else s
  }

  /** Removing the leading and trailing characters of a class. */
  function TrimBy(s: string, ws: char -> bool): (r: string)
    ensures r != [] ==> !ws(r[0]) && !ws(r[|r| - 1])
    ensures |r| <= |s|
    ensures Contains(s, r)
  {
    var a := TrimStartBy(s, ws);
    var b := TrimEndBy(a, ws);
    assert OccursAt(s, b, |s| - |a|);
    b
  }

  /** JavaScript `String.prototype.trim`. */
  function JsTrim(s: string): (r: string)
    ensures r != [] ==> !IsJsSpace(r[0]) && !IsJsSpace(r[|r| - 1])
    ensures |r| <= |s|
  {
    TrimBy(s, IsJsSpace)
  }

  /** Python `str.strip()` with no argument. */
  function PyStrip(s: string): (r: string)
    ensures r != [] ==> !IsPySpace(r[0]) && !IsPySpace(r[|r| - 1])
    ensures |r| <= |s|
  {
    TrimBy(s, IsPySpace)
  }

  /** A string with no character of a class survives trimming by that
      class. */
  lemma {:induction false} TrimByNoop(s: string, ws: char -> bool)
    requires s != [] ==> !ws(s[0]) && !ws(s[|s| - 1])
    ensures TrimBy(s, ws) == s
  {
  }

  /** Trimming only removes characters: every character of the result is
      a character of the input. */
  lemma TrimByChars(s: string, ws: char -> bool)
    ensures forall c :: c in TrimBy(s, ws) ==> c in s
  {
    var r := TrimBy(s, ws);
    var i: nat :| i <= |s| && OccursAt(s, r, i);
    forall c | c in r ensures c in s {
      var k :| 0 <= k < |r| && r[k] == c;
      assert s[i + k] == c;
    }
  }

  /** What TrimStartBy drops is a run of characters of the class. */
  lemma {:induction false} TrimStartDrops(s: string, ws: char -> bool)
    ensures forall k :: 0 <= k < |s| - |TrimStartBy(s, ws)| ==> ws(s[k])
  {
    if s != [] && ws(s[0]) {
      TrimStartDrops(s[1..], ws);
    }
  }

  /** What TrimEndBy drops is a run of characters of the class. */
  lemma {:induction false} TrimEndDrops(s: string, ws: char -> bool)
    ensures forall k :: |TrimEndBy(s, ws)| <= k < |s| ==> ws(s[k])
  {
    if s != [] && ws(s[|s| - 1]) {
      TrimEndDrops(s[..|s| - 1], ws);
    }
  }

  /** TrimBy keeps the slice between a leading and a trailing run of
      characters of the class. */
  lemma TrimBySlice(s: string, ws: char -> bool) returns (lo: nat, hi: nat)
    ensures lo <= hi <= |s| && TrimBy(s, ws) == s[lo..hi]
    ensures forall k :: 0 <= k < lo ==> ws(s[k])
    ensures forall k :: hi <= k < |s| ==> ws(s[k])
  {
    var a := TrimStartBy(s, ws);
    lo := |s| - |a|;
    hi := TrimEndSlice(s, a, lo, ws);
    assert TrimBy(s, ws) == s[lo..hi] by {
      assert TrimBy(s, ws) == TrimEndBy(a, ws);
    }
    assert forall k :: 0 <= k < lo ==> ws(s[k]) by {
      TrimStartDrops(s, ws);
    }
  }

  /** Trimming the end of a suffix keeps a slice, and what it drops is a
      run of characters of the class. */
  lemma TrimEndSlice(s: string, a: string, lo: nat, ws: char -> bool) returns (hi: nat)
    requires lo <= |s| && a == s[lo..]
    ensures lo <= hi <= |s| && TrimEndBy(a, ws) == s[lo..hi]
    ensures forall k :: hi <= k < |s| ==> ws(s[k])
  {
    var b := TrimEndBy(a, ws);
    hi := lo + |b|;
    TrimEndDrops(a, ws);
    SliceOfSuffix(s, lo, hi);
    forall k | hi <= k < |s| ensures ws(s[k]) {
      assert a[k - lo] == s[k];
    }
  }

  /** A prefix of a suffix is a slice. */
  lemma SliceOfSuffix(s: string, lo: nat, hi: nat)
    requires lo <= hi <= |s|
    ensures s[lo..][..hi - lo] == s[lo..hi]
  {
    forall k | 0 <= k < hi - lo ensures s[lo..][..hi - lo][k] == s[lo..hi][k] {
      assert s[lo..][k] == s[lo + k];
    }
  }

  /** If `p` occurs in `x`, the trimmed `p` occurs in the trimmed `x`:
      trimming stops at the first and last character outside the class,
      and those of `p` are characters of `x`. */
  lemma TrimKeepsCore(x: string, p: string, at: nat, ws: char -> bool)
    requires OccursAt(x, p, at)
    ensures Contains(TrimBy(x, ws), TrimBy(p, ws))
  {
    var lp, hp := TrimBySlice(p, ws);
    if lp == hp {
      ContainsEmpty(TrimBy(x, ws));
    } else {
      var lx, hx := TrimBySlice(x, ws);
      var tp := TrimBy(p, ws);
      assert tp[0] == p[lp] && tp[|tp| - 1] == p[hp - 1];
      assert x[at..at + |p|] == p;
      assert x[at + lp] == p[lp];
      assert x[at + hp - 1] == p[hp - 1];
      assert lx <= at + lp;
      assert at + hp <= hx;
      CoreOccurs(x, p, at, lx, hx, lp, hp);
      assert OccursAt(TrimBy(x, ws), TrimBy(p, ws), at + lp - lx);
    }
  }

  /** A slice of `p`, where `p` occurs in `x`, occurs in every slice of
      `x` around it. */
  lemma CoreOccurs(x: string, p: string, at: nat, lx: nat, hx: nat, lp: nat, hp: nat)
    requires OccursAt(x, p, at)
    requires lp <= hp <= |p| && lx <= at + lp && at + hp <= hx <= |x|
    ensures OccursAt(x[lx..hx], p[lp..hp], at + lp - lx)
  {
    forall k | 0 <= k < hp - lp
      ensures x[lx..hx][at + lp - lx + k] == p[lp..hp][k]
    {
      assert x[lx..hx][at + lp - lx + k] == x[at + lp + k];
      assert p[lp + k] == x[at..at + |p|][lp + k];
    }
  }

  /** Every part is a substring of the parts joined. */
  lemma {:induction false} JoinContains(parts: seq<string>, sep: string, k: nat)
    requires k < |parts|
    ensures Contains(Join(parts, sep), parts[k])
  {
    if |parts| == 1 {
      ContainsSelf(parts[0]);
    } else if k == 0 {
      assert OccursAt(Join(parts, sep), parts[0], 0);
    } else {
      JoinContains(parts[1..], sep, k - 1);
      var rest := Join(parts[1..], sep);
      var at: nat :| at <= |rest| && OccursAt(rest, parts[k], at);
      var shift := |parts[0] + sep|;
      assert Join(parts, sep) == parts[0] + sep + rest;
      assert Join(parts, sep)[shift + at..shift + at + |parts[k]|] == rest[at..at + |parts[k]|];
      assert OccursAt(Join(parts, sep), parts[k], shift + at);
    }
  }

  /** Removes every character of a class. */
  function RemoveChars(s: string, drop: char -> bool): (r: string)
    ensures forall k :: 0 <= k < |r| ==> !drop(r[k])
    ensures forall c :: c in r ==> c in s
    ensures |r| <= |s|
  {
    if s == [] then []
    else if drop(s[0]) then RemoveChars(s[1..], drop)
    else [s[0]] + RemoveChars(s[1..], drop)
  }

  /** Replacing every non-overlapping occurrence of `pat`, scanning left
      to right (Python `str.replace`, and JavaScript `replace` with a
      global pattern that matches one fixed string). */
  function Replace(s: string, pat: string, rep: string): string
    requires pat != []
    decreases |s|
  {
    if |s| < |pat| then s
    else if s[..|pat|] == pat then rep + Replace(s[|pat|..], pat, rep)
    else [s[0]] + Replace(s[1..], pat, rep)
  }

  /** Text without the pattern is left unchanged. */
  lemma {:induction false} ReplaceAbsent(s: string, pat: string, rep: string)
    requires pat != [] && !Contains(s, pat)
    ensures Replace(s, pat, rep) == s
    decreases |s|
  {
    if |s| >= |pat| {
      assert !OccursAt(s, pat, 0);
      forall i: nat | i <= |s[1..]| ensures !OccursAt(s[1..], pat, i) {
        assert !OccursAt(s, pat, i + 1);
        if i + |pat| <= |s[1..]| {
          assert s[1..][i..i + |pat|] == s[i + 1..i + 1 + |pat|];
        }
      }
      ReplaceAbsent(s[1..], pat, rep);
      assert [s[0]] + s[1..] == s;
    }
  }
}
