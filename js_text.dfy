/**
 * The handful of JavaScript string built-ins the core relies on, written out:
 * the whitespace class (`\s`, and what `String.prototype.trim` strips),
 * `trim`, `split(/\s+/)`, `split(sep)` for a literal separator, `join`,
 * `indexOf`/`includes`, the decimal rendering of a number in a template
 * literal, and `parseInt(s, 10)`.
 */
module JsText {
  import opened Common

  /** ECMAScript WhiteSpace or LineTerminator: the `\s` class and the set `trim` removes. */
  predicate IsSpace(c: char) {
    var n := c as int;
    n == 0x09 || n == 0x0A || n == 0x0B || n == 0x0C || n == 0x0D || n == 0x20 || n == 0xA0
    || n == 0x1680 || (0x2000 <= n <= 0x200A) || n == 0x2028 || n == 0x2029 || n == 0x202F
    || n == 0x205F || n == 0x3000 || n == 0xFEFF
  }

  /** The characters a regular expression `.` does not match (no `s` flag). */
  predicate IsLineTerminator(c: char) {
    c == '\n' || c == '\r' || c as int == 0x2028 || c as int == 0x2029
  }

  /** `\d`: ASCII decimal digits only. */
  predicate IsDigit(c: char) {
    '0' <= c <= '9'
  }

  predicate NoSpace(s: string) {
    forall i :: 0 <= i < |s| ==> !IsSpace(s[i])
  }

  predicate AllDigits(s: string) {
    forall i :: 0 <= i < |s| ==> IsDigit(s[i])
  }

  // ---------------------------------------------------------------- trim

  function TrimStart(s: string): (r: string)
    ensures |r| <= |s| && r == s[|s| - |r|..]
    ensures forall i :: 0 <= i < |s| - |r| ==> IsSpace(s[i])
    ensures r != [] ==> !IsSpace(r[0])
  {
    if s != [] && IsSpace(s[0]) then TrimStart(s[1..]) else s
  }

  function TrimEnd(s: string): (r: string)
    ensures |r| <= |s| && r == s[..|r|]
    ensures forall i :: |r| <= i < |s| ==> IsSpace(s[i])
    ensures r != [] ==> !IsSpace(r[|r| - 1])
  {
    if s != [] && IsSpace(s[|s| - 1]) then TrimEnd(s[..|s| - 1]) else s
  }

  /** `s.trim()`. */
  function Trim(s: string): (r: string)
    ensures r != [] ==> !IsSpace(r[0]) && !IsSpace(r[|r| - 1])
    ensures r == [] <==> forall i :: 0 <= i < |s| ==> IsSpace(s[i])
    ensures |r| <= |s|
  {
    var a := TrimStart(s);
    var r := TrimEnd(a);
    assert r != [] ==> r[0] == a[0];
    r
  }

  /** Trimming a string that has no whitespace at either end changes nothing. */
  lemma TrimOfTrimmed(s: string)
    requires s == [] || (!IsSpace(s[0]) && !IsSpace(s[|s| - 1]))
    ensures Trim(s) == s
  {
  }

  lemma TrimIdempotent(s: string)
    ensures Trim(Trim(s)) == Trim(s)
  {
    TrimOfTrimmed(Trim(s));
  }

  // ---------------------------------------------------------------- join

  /** `parts.join(sep)`. */
  function Join(parts: seq<string>, sep: string): (r: string)
    ensures |parts| == 1 ==> r == parts[0]
  {
    if |parts| == 0 then ""
    else if |parts| == 1 then parts[0]
    else parts[0] + sep + Join(parts[1..], sep)
  }

  lemma JoinCons(head: string, rest: seq<string>, sep: string)
    requires rest != []
    ensures Join([head] + rest, sep) == head + sep + Join(rest, sep)
  {
    assert ([head] + rest)[1..] == rest;
  }

  /** Prepending to the first part prepends to the joined string. */
  lemma JoinPrependFirst(a: string, parts: seq<string>, sep: string)
    requires parts != []
    ensures Join([a + parts[0]] + parts[1..], sep) == a + Join(parts, sep)
  {
    if |parts| > 1 {
      JoinCons(a + parts[0], parts[1..], sep);
      JoinCons(parts[0], parts[1..], sep);
      assert [parts[0]] + parts[1..] == parts;
    }
  }

  // ---------------------------------------------------------------- split(/\s+/)

  /** `s.split(/\s+/)`: maximal whitespace runs separate the tokens. */
  function SplitOnSpaces(s: string): (r: seq<string>)
    ensures |r| >= 1
    decreases |s|
  {
    if s == [] then [[]]
    else if IsSpace(s[0]) then [[]] + SplitOnSpaces(TrimStart(s))
    else
      var t := SplitOnSpaces(s[1..]);
      [[s[0]] + t[0]] + t[1..]
  }

  /** Every whitespace run of `s` replaced by a single space: an independent reference for split-then-join. */
  function CollapseSpaces(s: string): (r: string)
    decreases |s|
  {
    if s == [] then []
    else if IsSpace(s[0]) then " " + CollapseSpaces(TrimStart(s))
    else [s[0]] + CollapseSpaces(s[1..])
  }

  lemma {:induction false} JoinSplitOnSpaces(s: string)
    ensures Join(SplitOnSpaces(s), " ") == CollapseSpaces(s)
    decreases |s|
  {
    if s == [] {
    } else if IsSpace(s[0]) {
      var rest := SplitOnSpaces(TrimStart(s));
      assert SplitOnSpaces(s) == [[]] + rest;
      JoinSplitOnSpaces(TrimStart(s));
      JoinCons([], rest, " ");
    } else {
      var t := SplitOnSpaces(s[1..]);
      assert SplitOnSpaces(s) == [[s[0]] + t[0]] + t[1..];
      JoinSplitOnSpaces(s[1..]);
      JoinPrependFirst([s[0]], t, " ");
    }
  }

  /** Splitting a string with no whitespace at either end yields non-empty, whitespace-free tokens. */
  lemma {:induction false} SplitOnSpacesTokens(s: string)
    requires s != [] && !IsSpace(s[0]) && !IsSpace(s[|s| - 1])
    ensures forall i :: 0 <= i < |SplitOnSpaces(s)| ==>
      SplitOnSpaces(s)[i] != [] && NoSpace(SplitOnSpaces(s)[i])
    decreases |s|
  {
    var tail := s[1..];
    if tail == [] {
      assert SplitOnSpaces(tail) == [[]];
    } else if IsSpace(tail[0]) {
      var u := TrimStart(tail);
      assert u != [] by { assert !IsSpace(tail[|tail| - 1]); }
      assert u[|u| - 1] == s[|s| - 1];
      SplitOnSpacesTokens(u);
      assert SplitOnSpaces(tail) == [[]] + SplitOnSpaces(u);
    } else {
      assert tail[|tail| - 1] == s[|s| - 1];
      SplitOnSpacesTokens(tail);
    }
  }

  lemma {:induction false} SplitOnSpacesWord(w: string)
    requires w != [] && NoSpace(w)
    ensures SplitOnSpaces(w) == [w]
    decreases |w|
  {
    if |w| > 1 {
      SplitOnSpacesWord(w[1..]);
      assert [w[0]] + w[1..] == w;
    } else {
      assert w[1..] == [];
      assert SplitOnSpaces(w[1..]) == [[]];
      assert [w[0]] + [] == w;
    }
  }

  lemma {:induction false} SplitOnSpacesPrefixWord(w: string, x: string)
    requires NoSpace(w)
    ensures SplitOnSpaces(w + x) == [w + SplitOnSpaces(x)[0]] + SplitOnSpaces(x)[1..]
    decreases |w|
  {
    if w == [] {
      var t := SplitOnSpaces(x);
      assert w + x == x && w + t[0] == t[0];
      assert [t[0]] + t[1..] == t;
    } else {
      var s, w', t := w + x, w[1..], SplitOnSpaces(x);
      assert s[0] == w[0] && !IsSpace(s[0]);
      assert s[1..] == w' + x;
      SplitOnSpacesPrefixWord(w', x);
      var u := SplitOnSpaces(w' + x);
      assert u[0] == w' + t[0] && u[1..] == t[1..];
      assert SplitOnSpaces(s) == [[w[0]] + u[0]] + u[1..];
      assert [w[0]] + (w' + t[0]) == w + t[0];
    }
  }

  /** Joining clean tokens with single spaces and splitting again gives the tokens back. */
  lemma {:induction false} SplitJoinSpaces(ts: seq<string>)
    requires ts != []
    requires forall i :: 0 <= i < |ts| ==> ts[i] != [] && NoSpace(ts[i])
    ensures SplitOnSpaces(Join(ts, " ")) == ts
    decreases |ts|
  {
    if |ts| == 1 {
      SplitOnSpacesWord(ts[0]);
    } else {
      var rest := ts[1..];
      var j := Join(rest, " ");
      JoinCons(ts[0], rest, " ");
      SplitJoinSpaces(rest);
      JoinFirstChar(rest, " ");
      assert j != [] && !IsSpace(j[0]);
      assert TrimStart(" " + j) == j by {
        assert (" " + j)[1..] == j;
      }
      assert SplitOnSpaces(" " + j) == [[]] + rest;
      assert ts[0] + " " + j == ts[0] + (" " + j);
      SplitOnSpacesPrefixWord(ts[0], " " + j);
      assert ts[0] + [] == ts[0];
      assert [ts[0]] + rest == ts;
    }
  }

  lemma JoinFirstChar(ts: seq<string>, sep: string)
    requires ts != [] && ts[0] != []
    ensures Join(ts, sep) != [] && Join(ts, sep)[0] == ts[0][0]
  {
    if |ts| > 1 {
      JoinCons(ts[0], ts[1..], sep);
      assert [ts[0]] + ts[1..] == ts;
    }
  }

  // ---------------------------------------------------------------- indexOf / split(sep)

  /** `sub` occurs in `s` starting at index `j`. */
  predicate OccursAt(s: string, sub: string, j: nat) {
    j + |sub| <= |s| && s[j..j + |sub|] == sub
  }

  /** `s.indexOf(sub, from)`: the first occurrence of `sub` at or after `from`. */
  function IndexOf(s: string, sub: string, from: nat): (r: Option<nat>)
    ensures r.Some? ==> from <= r.value && OccursAt(s, sub, r.value)
    ensures r.Some? ==> forall j :: from <= j < r.value ==> !OccursAt(s, sub, j)
    ensures r.None? ==> forall j :: from <= j ==> !OccursAt(s, sub, j)
    decreases |s| - from
  {
    if from + |sub| > |s| then None
    else if OccursAt(s, sub, from) then Some(from)
    else IndexOf(s, sub, from + 1)
  }

  /** `s.includes(sub)`. */
  predicate Includes(s: string, sub: string) {
    IndexOf(s, sub, 0).Some?
  }

  /** `s.split(sep)` for a non-empty literal separator. */
  function SplitOn(s: string, sep: string): (r: seq<string>)
    requires sep != []
    ensures |r| >= 1
    decreases |s|
  {
    match IndexOf(s, sep, 0)
    case None => [s]
    case Some(i) => [s[..i]] + SplitOn(s[i + |sep|..], sep)
  }

  /** Joining the parts of a split with the same separator restores the string. */
  lemma {:induction false} JoinSplitOn(s: string, sep: string)
    requires sep != []
    ensures Join(SplitOn(s, sep), sep) == s
    decreases |s|
  {
    match IndexOf(s, sep, 0)
    case None =>
    case Some(i) =>
      var p, rest := s[..i], s[i + |sep|..];
      assert SplitOn(s, sep) == [p] + SplitOn(rest, sep);
      JoinSplitOn(rest, sep);
      JoinCons(p, SplitOn(rest, sep), sep);
      assert s[i..i + |sep|] == sep;
      assert s == p + sep + rest;
  }

  /** No part of a split contains the separator. */
  lemma {:induction false} SplitOnPartsFree(s: string, sep: string)
    requires sep != []
    ensures forall k :: 0 <= k < |SplitOn(s, sep)| ==> !Includes(SplitOn(s, sep)[k], sep)
    decreases |s|
  {
    match IndexOf(s, sep, 0)
    case None =>
    case Some(i) =>
      var rest := s[i + |sep|..];
      SplitOnPartsFree(rest, sep);
      var p := s[..i];
      assert !Includes(p, sep) by {
        if Includes(p, sep) {
          var j := IndexOf(p, sep, 0).value;
          assert p[j..j + |sep|] == s[j..j + |sep|];
          assert OccursAt(s, sep, j);
        }
      }
      assert SplitOn(s, sep) == [p] + SplitOn(rest, sep);
  }

  // ---------------------------------------------------------------- numbers

  function DigitChar(d: nat): (c: char)
    requires d < 10
    ensures IsDigit(c) && (c as int) - ('0' as int) == d
  {
    (('0' as int) + d) as char
  }

  /** Decimal rendering of a non-negative integer, as `${n}` produces it. */
  function NatToString(n: nat): (r: string)
    ensures r != [] && AllDigits(r)
  {
    if n < 10 then [DigitChar(n)] else NatToString(n / 10) + [DigitChar(n % 10)]
  }

  /** `${i}` for any integer: a sign only for negatives, and parseInt reads the number back. */
  function IntToString(i: int): (r: string)
    ensures ParseInt(r) == Some(i)
    ensures r != [] && (AllDigits(r) <==> i >= 0)
    ensures i >= 0 ==> r == NatToString(i)
    ensures i < 0 ==> r == "-" + NatToString(-i)
  {
    if i < 0 then
      ParseIntOfNegative(-i);
      "-" + NatToString(-i)
    else
      ParseIntOfNatToString(i);
      NatToString(i)
  }

  /** The value of a string of decimal digits. */
  function DigitsValue(ds: string): nat
    requires AllDigits(ds)
  {
    if ds == [] then 0
    else DigitsValue(ds[..|ds| - 1]) * 10 + ((ds[|ds| - 1] as int) - ('0' as int))
  }

  lemma {:induction false} DigitsValueOfNatToString(n: nat)
    ensures DigitsValue(NatToString(n)) == n
  {
    if n >= 10 {
      DigitsValueOfNatToString(n / 10);
      var s := NatToString(n);
      assert s[..|s| - 1] == NatToString(n / 10);
    }
  }

  /** The longest prefix of `s` made of decimal digits. */
  function DigitPrefix(s: string): (r: string)
    ensures AllDigits(r) && |r| <= |s| && r == s[..|r|]
    ensures |r| < |s| ==> !IsDigit(s[|r|])
  {
    if s != [] && IsDigit(s[0]) then [s[0]] + DigitPrefix(s[1..]) else []
  }

  /**
   * `parseInt(s, 10)` on a string: leading whitespace, an optional sign, and the
   * longest run of digits; None stands for NaN (no digit at all).
   */
  function ParseInt(s: string): (r: Option<int>)
    ensures r.None? <==> (var t := TrimStart(s);
      var u := if t != [] && (t[0] == '-' || t[0] == '+') then t[1..] else t;
      u == [] || !IsDigit(u[0]))
  {
    var t := TrimStart(s);
    var negative := t != [] && t[0] == '-';
    var u := if t != [] && (t[0] == '-' || t[0] == '+') then t[1..] else t;
    var ds := DigitPrefix(u);
    if ds == [] then None
    else
      var v: int := DigitsValue(ds);
      Some(if negative then -v else v)
  }

  lemma DigitPrefixOfDigits(s: string)
    requires AllDigits(s)
    ensures DigitPrefix(s) == s
  {
    if s != [] {
      DigitPrefixOfDigits(s[1..]);
    }
  }

  /** The digit run of a digit string followed by a non-digit is that string. */
  lemma {:induction false} DigitPrefixOfDigitsThen(ds: string, rest: string)
    requires AllDigits(ds)
    requires rest == [] || !IsDigit(rest[0])
    ensures DigitPrefix(ds + rest) == ds
    decreases |ds|
  {
    if ds != [] {
      assert (ds + rest)[1..] == ds[1..] + rest;
      DigitPrefixOfDigitsThen(ds[1..], rest);
      assert [ds[0]] + ds[1..] == ds;
    } else {
      assert ds + rest == rest;
    }
  }

  /** `parseInt(ds, 10)` of a non-empty digit string is its value. */
  lemma ParseIntOfDigits(ds: string)
    requires ds != [] && AllDigits(ds)
    ensures ParseInt(ds) == Some(DigitsValue(ds))
  {
    var t := TrimStart(ds);
    assert t == ds by {
      assert !IsSpace(ds[0]);
    }
    assert t[0] != '-' && t[0] != '+';
    DigitPrefixOfDigits(ds);
  }

  /** parseInt reads back what `${n}` wrote. */
  lemma ParseIntOfNatToString(n: nat)
    ensures ParseInt(NatToString(n)) == Some(n)
  {
    ParseIntOfDigits(NatToString(n));
    DigitsValueOfNatToString(n);
  }

  /** parseInt reads back what `${-n}` wrote. */
  lemma ParseIntOfNegative(n: nat)
    ensures ParseInt("-" + NatToString(n)) == Some(-(n as int))
  {
    var ds := NatToString(n);
    var s := "-" + ds;
    assert s[0] == '-' && s[1..] == ds;
    assert TrimStart(s) == s by {
      assert !IsSpace('-');
    }
    DigitPrefixOfDigits(ds);
    DigitsValueOfNatToString(n);
  }
}
