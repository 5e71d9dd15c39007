/**
 * `str.replace(/literal/g, replacement)` where the replacement is a STRING,
 * so that JavaScript expands its `$` patterns, next to the same global
 * replacement with the text inserted verbatim (what a replacement callback,
 * `replaceAll` with a function, or `split(pat).join(ins)` give).
 */
module JsReplace {
  import opened Common
  import opened JsText

  /**
   * GetSubstitution (ECMAScript section 22.1.3.19.1) for a pattern without
   * capture groups: `$$` gives `$`, `$&` the matched text, `` $` `` the text
   * before the match and `$'` the text after it; every other `$` (including
   * `$1` and `$<`, since there are no groups) stays literal.
   */
  function Substitution(repl: string, matched: string, str: string, position: nat): (r: string)
    requires position + |matched| <= |str|
    ensures '$' !in repl ==> r == repl
    decreases |repl|
  {
    if repl == [] then []
    else if repl[0] == '$' && |repl| >= 2 && repl[1] == '$' then
      "$" + Substitution(repl[2..], matched, str, position)
    else if repl[0] == '$' && |repl| >= 2 && repl[1] == '&' then
      matched + Substitution(repl[2..], matched, str, position)
    else if repl[0] == '$' && |repl| >= 2 && repl[1] == '`' then
      str[..position] + Substitution(repl[2..], matched, str, position)
    else if repl[0] == '$' && |repl| >= 2 && repl[1] == '\'' then
      str[position + |matched|..] + Substitution(repl[2..], matched, str, position)
    else
      assert repl == [repl[0]] + repl[1..];
      [repl[0]] + Substitution(repl[1..], matched, str, position)
  }

  /** `$&` puts the matched text back: a placeholder that names itself. */
  lemma SubstitutionMatched(matched: string, str: string, position: nat)
    requires position + |matched| <= |str|
    ensures Substitution("$&", matched, str, position) == matched
  {
    assert "$&"[2..] == [];
  }

  /**
   * `str.replace(/pat/g, repl)` scanning from `from`, `$` patterns expanded
   * against the whole `str`; without `$` in the replacement it is the verbatim
   * replacement.
   */
  function ReplaceAllFrom(str: string, pat: string, repl: string, from: nat): (r: string)
    requires pat != [] && from <= |str|
    ensures '$' !in repl ==> r == VerbatimFrom(str, pat, repl, from)
    decreases |str| - from
  {
    match IndexOf(str, pat, from)
    case None => str[from..]
    case Some(i) =>
      str[from..i] + Substitution(repl, pat, str, i) + ReplaceAllFrom(str, pat, repl, i + |pat|)
  }

  function ReplaceAll(str: string, pat: string, repl: string): (r: string)
    requires pat != []
    ensures !Includes(str, pat) ==> r == str
  {
    ReplaceAllFrom(str, pat, repl, 0)
  }

  /** Every occurrence of `pat` at or after `from`, leftmost first and not overlapping, replaced by `ins` as it is. */
  function VerbatimFrom(str: string, pat: string, ins: string, from: nat): (r: string)
    requires pat != [] && from <= |str|
    decreases |str| - from
  {
    match IndexOf(str, pat, from)
    case None => str[from..]
    case Some(i) => str[from..i] + ins + VerbatimFrom(str, pat, ins, i + |pat|)
  }

  /** Every occurrence of `pat`, leftmost first and not overlapping, replaced by `ins` as it is. */
  function ReplaceAllVerbatim(str: string, pat: string, ins: string): (r: string)
    requires pat != []
    ensures !Includes(str, pat) ==> r == str
  {
    assert str[0..] == str;
    VerbatimFrom(str, pat, ins, 0)
  }

  /** A text that is exactly the pattern is replaced by the insertion. */
  lemma VerbatimWhole(t: string, ins: string)
    requires t != []
    ensures ReplaceAllVerbatim(t, t, ins) == ins
  {
    assert t[0..|t|] == t;
    assert IndexOf(t, t, 0) == Some(0);
    assert VerbatimFrom(t, t, ins, |t|) == [];
  }

  /** The first occurrence in a suffix is the first occurrence at or after its start. */
  lemma IndexOfSuffix(s: string, sub: string, from: nat)
    requires from <= |s|
    ensures IndexOf(s[from..], sub, 0) ==
      match IndexOf(s, sub, from) case None => None case Some(i) => Some(i - from)
  {
    var t := s[from..];
    forall j: nat ensures OccursAt(t, sub, j) <==> OccursAt(s, sub, from + j) {
      if j + |sub| <= |t| {
        assert t[j..j + |sub|] == s[from + j..from + j + |sub|];
      }
    }
    match IndexOf(s, sub, from)
    case None =>
    case Some(i) =>
      assert OccursAt(t, sub, i - from);
  }

  /** With no `$` in the replacement, the JavaScript replacement inserts it verbatim. */
  lemma ReplaceAllWithoutDollar(str: string, pat: string, repl: string)
    requires pat != []
    requires '$' !in repl
    ensures ReplaceAll(str, pat, repl) == ReplaceAllVerbatim(str, pat, repl)
  {
  }

  /** Verbatim replacement is `str.split(pat).join(ins)`: an independent reference definition. */
  lemma ReplaceAllVerbatimIsSplitJoin(str: string, pat: string, ins: string)
    requires pat != []
    ensures ReplaceAllVerbatim(str, pat, ins) == Join(SplitOn(str, pat), ins)
  {
    VerbatimFromIsSplitJoin(str, pat, ins, 0);
    assert str[0..] == str;
  }

  /** The same from any position: the verbatim replacement of the rest is the split-join of the rest. */
  lemma {:induction false} VerbatimFromIsSplitJoin(str: string, pat: string, ins: string, from: nat)
    requires pat != [] && from <= |str|
    ensures VerbatimFrom(str, pat, ins, from) == Join(SplitOn(str[from..], pat), ins)
    decreases |str| - from
  {
    match IndexOf(str, pat, from)
    case None =>
      IndexOfSuffix(str, pat, from);
      assert SplitOn(str[from..], pat) == [str[from..]];
    case Some(i) =>
      VerbatimFromIsSplitJoin(str, pat, ins, i + |pat|);
      VerbatimFromStep(str, pat, ins, from, i);
  }

  /** One step of the induction: the piece before the first occurrence at `i`, then the rest. */
  lemma VerbatimFromStep(str: string, pat: string, ins: string, from: nat, i: nat)
    requires pat != [] && from <= |str| && IndexOf(str, pat, from) == Some(i)
    requires VerbatimFrom(str, pat, ins, i + |pat|) == Join(SplitOn(str[i + |pat|..], pat), ins)
    ensures VerbatimFrom(str, pat, ins, from) == Join(SplitOn(str[from..], pat), ins)
  {
    var rest := SplitOn(str[i + |pat|..], pat);
    VerbatimFromUnfold(str, pat, ins, from, i);
    assert IndexOf(str[from..], pat, 0) == Some(i - from) by { IndexOfSuffix(str, pat, from); }
    var parts := SplitOn(str[from..], pat);
    assert parts == [str[from..i]] + rest by { SplitOnSuffix(str, pat, from, i, i - from); }
    JoinCons(str[from..i], rest, ins);
  }

  /** The verbatim replacement from `from`, whose first occurrence is at `i`, unfolded once. */
  lemma VerbatimFromUnfold(str: string, pat: string, ins: string, from: nat, i: nat)
    requires pat != [] && from <= |str| && IndexOf(str, pat, from) == Some(i)
    ensures i + |pat| <= |str|
    ensures VerbatimFrom(str, pat, ins, from) == str[from..i] + ins + VerbatimFrom(str, pat, ins, i + |pat|)
  {
  }

  /** Splitting the rest from `from`, whose first separator is at `i`, that is `j` into the rest. */
  lemma SplitOnSuffix(str: string, sep: string, from: nat, i: nat, j: nat)
    requires sep != [] && from <= i && i + |sep| <= |str| && j == i - from
    requires IndexOf(str[from..], sep, 0) == Some(j)
    ensures SplitOn(str[from..], sep) == [str[from..i]] + SplitOn(str[i + |sep|..], sep)
  {
    var t := str[from..];
    SplitOnAt(t, sep, j);
    SuffixSlices(str, from, i, j, |sep|);
    SplitOnOfEqual(t[j + |sep|..], str[i + |sep|..], sep);
  }

  /** Splitting at the first separator, found at `j`. */
  lemma SplitOnAt(t: string, sep: string, j: nat)
    requires sep != [] && IndexOf(t, sep, 0) == Some(j)
    ensures j + |sep| <= |t|
    ensures SplitOn(t, sep) == [t[..j]] + SplitOn(t[j + |sep|..], sep)
  {
  }

  /** Equal texts split alike. */
  lemma SplitOnOfEqual(a: string, b: string, sep: string)
    requires sep != [] && a == b
    ensures SplitOn(a, sep) == SplitOn(b, sep)
  {
  }

  /** The pieces of a suffix are slices of the whole; `j` is `i` counted from `from`. */
  lemma SuffixSlices(s: string, from: nat, i: nat, j: nat, k: nat)
    requires from <= i && i + k <= |s| && j == i - from
    ensures s[from..][..j] == s[from..i] && s[from..][j + k..] == s[i + k..]
  {
  }
}
