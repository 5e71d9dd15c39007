/**
 * backend/src/utils/cloze.js: the cloze regex `\{\{c(\d+)::(.*?)(?:::(.*?))?\}\}`
 * as an explicit scanner with the backtracking order of ECMAScript regular
 * expressions (the digits greedy, the content and the hint lazy, the hint
 * group tried before it is skipped, `.` excluding line terminators), and the
 * operations built on it.
 */
module Cloze {
  import opened Common
  import opened JsText

  predicate NoLineTerminator(s: string) {
    forall i :: 0 <= i < |s| ==> !IsLineTerminator(s[i])
  }

  /** One match of the regex: where it starts and ends, and its three groups (None: group 3 did not take part). */
  datatype RegexMatch = RegexMatch(start: nat, end: nat, digits: string, content: string, hint: Option<string>)

  /** The text a match covers, put together from its groups. */
  function Assemble(m: RegexMatch): string {
    "{{c" + m.digits + "::" + m.content + (if m.hint.Some? then "::" + m.hint.value else "") + "}}"
  }

  /** The shape every match has: it is not empty and its groups obey their character classes. */
  predicate Shaped(text: string, m: RegexMatch) {
    m.start < m.end <= |text|
    && m.digits != [] && AllDigits(m.digits)
    && NoLineTerminator(m.content)
    && (m.hint.Some? ==> NoLineTerminator(m.hint.value))
  }

  /** The groups of the match put together are exactly the slice it covers. */
  predicate Covers(text: string, m: RegexMatch) {
    m.start <= m.end <= |text| && text[m.start..m.end] == Assemble(m)
  }

  /**
   * The lazy hint `(.*?)` and the closing `\}\}`: the first "}}" at or after
   * `e`, provided no line terminator comes before it.
   */
  function HintClose(text: string, e: nat): (r: Option<nat>)
    requires e <= |text|
    ensures r.Some? ==> e <= r.value && OccursAt(text, "}}", r.value) && NoLineTerminator(text[e..r.value])
    decreases |text| - e
  {
    if OccursAt(text, "}}", e) then Some(e)
    else if e < |text| && !IsLineTerminator(text[e]) then
      var r := HintClose(text, e + 1);
      if r.Some? then
        assert text[e..r.value] == [text[e]] + text[e + 1..r.value];
        r
      else r
    else None
  }

  /** The slice from `start` to `end` split at the given cut points. */
  lemma SliceParts(text: string, a: nat, b: nat, c: nat, d: nat)
    requires a <= b <= c <= d <= |text|
    ensures text[a..d] == text[a..b] + text[b..c] + text[c..d]
  {
  }

  /** A match closing with the hint group covers its slice. */
  lemma CoversWithHint(text: string, start: nat, digits: string, c0: nat, q: nat, e: nat)
    requires start + 3 + |digits| + 2 == c0 <= q && q + 2 <= e && e + 2 <= |text|
    requires text[start..c0] == "{{c" + digits + "::"
    requires OccursAt(text, "::", q) && OccursAt(text, "}}", e)
    ensures Covers(text, RegexMatch(start, e + 2, digits, text[c0..q], Some(text[q + 2..e])))
  {
    SliceParts(text, start, c0, q, e + 2);
    SliceParts(text, q, q + 2, e, e + 2);
  }

  /** A match closing without the hint group covers its slice. */
  lemma CoversWithoutHint(text: string, start: nat, digits: string, c0: nat, q: nat)
    requires start + 3 + |digits| + 2 == c0 <= q && q + 2 <= |text|
    requires text[start..c0] == "{{c" + digits + "::"
    requires OccursAt(text, "}}", q)
    ensures Covers(text, RegexMatch(start, q + 2, digits, text[c0..q], None))
  {
    SliceParts(text, start, c0, q, q + 2);
  }

  /**
   * The lazy content `(.*?)` of the match starting at `start`, whose content
   * began at `c0` and is now tried with end `q`: first with the hint group,
   * then with the closing braces, then one character longer.
   */
  function LazyContent(text: string, start: nat, digits: string, c0: nat, q: nat): (r: Option<RegexMatch>)
    requires start + 3 + |digits| + 2 == c0 <= q <= |text|
    requires text[start..c0] == "{{c" + digits + "::" && digits != [] && AllDigits(digits)
    requires NoLineTerminator(text[c0..q])
    ensures r.Some? ==> Shaped(text, r.value) && r.value.start == start && r.value.digits == digits
    decreases |text| - q
  {
    var h := if OccursAt(text, "::", q) then HintClose(text, q + 2) else None;
    if h.Some? then
      Some(RegexMatch(start, h.value + 2, digits, text[c0..q], Some(text[q + 2..h.value])))
    else if OccursAt(text, "}}", q) then
      Some(RegexMatch(start, q + 2, digits, text[c0..q], None))
    else if q < |text| && !IsLineTerminator(text[q]) then
      assert text[c0..q + 1] == text[c0..q] + [text[q]];
      LazyContent(text, start, digits, c0, q + 1)
    else None
  }

  /** The regex tried at exactly position `p` (what a sticky match would do). */
  function MatchAt(text: string, p: nat): (r: Option<RegexMatch>)
    requires p <= |text|
    ensures r.Some? ==> Shaped(text, r.value) && r.value.start == p
  {
    if !OccursAt(text, "{{c", p) then None
    else
      var digits := DigitPrefix(text[p + 3..]);
      var d := p + 3 + |digits|;
      if digits == [] || !OccursAt(text, "::", d) then None
      else
        assert text[p..d + 2] == text[p..p + 3] + text[p + 3..d] + text[d..d + 2];
        LazyContent(text, p, digits, d + 2, d + 2)
  }

  lemma {:induction false} LazyContentCovers(text: string, start: nat, digits: string, c0: nat, q: nat)
    requires start + 3 + |digits| + 2 == c0 <= q <= |text|
    requires text[start..c0] == "{{c" + digits + "::" && digits != [] && AllDigits(digits)
    requires NoLineTerminator(text[c0..q])
    ensures LazyContent(text, start, digits, c0, q).Some? ==> Covers(text, LazyContent(text, start, digits, c0, q).value)
    decreases |text| - q
  {
    var h := if OccursAt(text, "::", q) then HintClose(text, q + 2) else None;
    if h.Some? {
      CoversWithHint(text, start, digits, c0, q, h.value);
    } else if OccursAt(text, "}}", q) {
      CoversWithoutHint(text, start, digits, c0, q);
    } else if q < |text| && !IsLineTerminator(text[q]) {
      assert text[c0..q + 1] == text[c0..q] + [text[q]];
      LazyContentCovers(text, start, digits, c0, q + 1);
    }
  }

  /** The groups of a match put back together are the text it matched. */
  lemma MatchAtCovers(text: string, p: nat)
    requires p <= |text| && MatchAt(text, p).Some?
    ensures Covers(text, MatchAt(text, p).value)
  {
    var digits := DigitPrefix(text[p + 3..]);
    var d := p + 3 + |digits|;
    assert text[p..d + 2] == text[p..p + 3] + text[p + 3..d] + text[d..d + 2];
    LazyContentCovers(text, p, digits, d + 2, d + 2);
  }

  /** The hint is lazy: no "}}" comes before the one that closes it. */
  lemma {:induction false} HintCloseFirst(text: string, e: nat)
    requires e <= |text|
    ensures HintClose(text, e).Some? ==> forall j :: e <= j < HintClose(text, e).value ==> !OccursAt(text, "}}", j)
    decreases |text| - e
  {
    if !OccursAt(text, "}}", e) && e < |text| && !IsLineTerminator(text[e]) {
      HintCloseFirst(text, e + 1);
    }
  }

  /** The content is lazy: it ends at the first place the rest of the regex can match, so no "}}" lies inside what it adds. */
  lemma {:induction false} LazyContentFirst(text: string, start: nat, digits: string, c0: nat, q: nat)
    requires start + 3 + |digits| + 2 == c0 <= q <= |text|
    requires text[start..c0] == "{{c" + digits + "::" && digits != [] && AllDigits(digits)
    requires NoLineTerminator(text[c0..q])
    ensures var r := LazyContent(text, start, digits, c0, q);
      r.Some? ==> q <= c0 + |r.value.content| && forall j :: q <= j < c0 + |r.value.content| ==> !OccursAt(text, "}}", j)
    decreases |text| - q
  {
    var h := if OccursAt(text, "::", q) then HintClose(text, q + 2) else None;
    if h.None? && !OccursAt(text, "}}", q) && q < |text| && !IsLineTerminator(text[q]) {
      assert text[c0..q + 1] == text[c0..q] + [text[q]];
      LazyContentFirst(text, start, digits, c0, q + 1);
    }
  }

  /** `regex.exec(text)` with `lastIndex == from`: the leftmost match at or after `from`. */
  function Exec(text: string, from: nat): (r: Option<RegexMatch>)
    requires from <= |text|
    ensures r.Some? ==> from <= r.value.start <= |text| && MatchAt(text, r.value.start) == r
    ensures r.Some? ==> Shaped(text, r.value)
    ensures r.Some? ==> forall j :: from <= j < r.value.start ==> MatchAt(text, j).None?
    ensures r.None? ==> forall j :: from <= j <= |text| ==> MatchAt(text, j).None?
    decreases |text| - from
  {
    var m := MatchAt(text, from);
    if m.Some? then m
    else if from == |text| then None
    else Exec(text, from + 1)
  }

  /**
   * Every match of the global regex from `from` on, each search resuming where
   * the last match ended: the matches lie in order and never overlap.
   */
  function AllMatchesFrom(text: string, from: nat): (ms: seq<RegexMatch>)
    requires from <= |text|
    ensures forall i :: 0 <= i < |ms| ==> from <= ms[i].start && Shaped(text, ms[i])
    ensures forall i, j :: 0 <= i < j < |ms| ==> ms[i].end <= ms[j].start
    decreases |text| - from
  {
    match Exec(text, from)
    case None => []
    case Some(m) =>
      var rest := AllMatchesFrom(text, m.end);
      assert forall i :: 0 < i < |[m] + rest| ==> ([m] + rest)[i] == rest[i - 1];
      [m] + rest
  }

  /** Each match is the leftmost one at or after the end of the one before it. */
  lemma {:induction false} AllMatchesLeftmost(text: string, from: nat)
    requires from <= |text|
    ensures var ms := AllMatchesFrom(text, from);
      (ms != [] ==> Exec(text, from) == Some(ms[0]))
      && (forall i :: 0 < i < |ms| ==> Exec(text, ms[i - 1].end) == Some(ms[i]))
      && (ms == [] <==> Exec(text, from).None?)
    decreases |text| - from
  {
    match Exec(text, from)
    case None =>
    case Some(m) =>
      AllMatchesLeftmost(text, m.end);
      var rest := AllMatchesFrom(text, m.end);
      var ms := AllMatchesFrom(text, from);
      assert ms == [m] + rest;
  }

  // ---------------------------------------------------------------- parseCloze

  /** One element of `parseCloze`'s result. */
  datatype Cloze = Cloze(fullMatch: string, index: int, content: string, hint: Option<string>, position: nat)

  /** The object pushed for a match: `parseInt(match[1], 10)`, and `match[3] || null`. */
  function ToCloze(text: string, m: RegexMatch): (c: Cloze)
    requires Shaped(text, m)
    ensures c.position == m.start && |c.fullMatch| == m.end - m.start
    ensures text[c.position..c.position + |c.fullMatch|] == c.fullMatch
    ensures c.hint.Some? <==> m.hint.Some? && m.hint.value != []
    ensures c.index >= 0
  {
    Cloze(text[m.start..m.end], DigitsValue(m.digits), m.content,
          if m.hint.Some? && m.hint.value != [] then m.hint else None, m.start)
  }

  /** The index pushed is what `parseInt(match[1], 10)` reads from the digit group. */
  lemma ClozeIndexIsParseInt(text: string, m: RegexMatch)
    requires Shaped(text, m)
    ensures Some(ToCloze(text, m).index) == ParseInt(m.digits)
  {
    ParseIntOfDigits(m.digits);
  }

  function ToClozes(text: string, ms: seq<RegexMatch>): (cs: seq<Cloze>)
    requires forall i :: 0 <= i < |ms| ==> Shaped(text, ms[i])
    ensures |cs| == |ms| && forall i :: 0 <= i < |ms| ==> cs[i] == ToCloze(text, ms[i])
  {
    if ms == [] then [] else [ToCloze(text, ms[0])] + ToClozes(text, ms[1..])
  }

  /** The clozes that `parseCloze` pushes once `lastIndex` has reached `from`. */
  function ClozesFrom(text: string, from: nat): seq<Cloze>
    requires from <= |text|
  {
    ToClozes(text, AllMatchesFrom(text, from))
  }

  /** What `parseCloze(text)` returns. */
  function Clozes(text: string): (cs: seq<Cloze>)
    ensures forall i :: 0 <= i < |cs| ==>
      cs[i].position + |cs[i].fullMatch| <= |text|
      && text[cs[i].position..cs[i].position + |cs[i].fullMatch|] == cs[i].fullMatch
    ensures forall i, j :: 0 <= i < j < |cs| ==> cs[i].position + |cs[i].fullMatch| <= cs[j].position
  {
    var ms := AllMatchesFrom(text, 0);
    var cs := ClozesFrom(text, 0);
    forall i | 0 <= i < |cs|
      ensures cs[i].position == ms[i].start && cs[i].position + |cs[i].fullMatch| == ms[i].end
    {
    }
    cs
  }

  /** One `regex.exec` step: the match found is pushed first, the rest follow from its end. */
  lemma ClozesFromStep(text: string, from: nat)
    requires from <= |text|
    ensures Exec(text, from).None? ==> ClozesFrom(text, from) == []
    ensures Exec(text, from).Some? ==>
      Exec(text, from).value.end <= |text|
      && ClozesFrom(text, from) == [ToCloze(text, Exec(text, from).value)] + ClozesFrom(text, Exec(text, from).value.end)
  {
    match Exec(text, from)
    case None =>
    case Some(m) =>
      var rest := AllMatchesFrom(text, m.end);
      assert AllMatchesFrom(text, from) == [m] + rest;
      assert ([m] + rest)[1..] == rest;
  }

  /** `parseCloze(text)`: the `regex.exec` loop pushing one object per match. */
  method ParseCloze(text: string) returns (clozes: seq<Cloze>)
    ensures clozes == Clozes(text)
  {
    clozes := [];
    var lastIndex: nat := 0;
    var found := Exec(text, lastIndex);
    while found.Some?
      invariant lastIndex <= |text|
      invariant found == Exec(text, lastIndex)
      invariant clozes + ClozesFrom(text, lastIndex) == ClozesFrom(text, 0)
      decreases |text| - lastIndex
    {
      var m := found.value;
      ClozesFromStep(text, lastIndex);
      clozes := clozes + [ToCloze(text, m)];
      lastIndex := m.end;
      found := Exec(text, lastIndex);
    }
    ClozesFromStep(text, lastIndex);
  }

  // ---------------------------------------------------------------- replace with a callback

  /** `text.replace(CLOZE_REGEX, f)` from `from`: text between matches copied, each match replaced by `f`. */
  function ReplaceMatches(text: string, from: nat, f: RegexMatch -> string): (r: string)
    requires from <= |text|
    ensures Exec(text, from).None? ==> r == text[from..]
    decreases |text| - from
  {
    match Exec(text, from)
    case None => text[from..]
    case Some(m) => text[from..m.start] + f(m) + ReplaceMatches(text, m.end, f)
  }

  /** The callback that puts back the text a match covers. */
  function MatchedText(text: string): RegexMatch -> string {
    (m: RegexMatch) => if m.start <= m.end <= |text| then text[m.start..m.end] else []
  }

  /** Replacing every match by the text it covers gives the text back. */
  lemma {:induction false} ReplaceByMatchedText(text: string, from: nat)
    requires from <= |text|
    ensures ReplaceMatches(text, from, MatchedText(text)) == text[from..]
    decreases |text| - from
  {
    match Exec(text, from)
    case None =>
    case Some(m) =>
      var f := MatchedText(text);
      assert f(m) == text[m.start..m.end];
      ReplaceByMatchedText(text, m.end);
      assert text[from..] == text[from..m.start] + text[m.start..m.end] + text[m.end..] by {
        SliceParts(text, from, m.start, m.end, |text|);
      }
  }

  /** Two callbacks that agree on every match found give the same result. */
  lemma {:induction false} ReplaceMatchesAgree(text: string, from: nat, f: RegexMatch -> string, g: RegexMatch -> string)
    requires from <= |text|
    requires forall i :: 0 <= i < |AllMatchesFrom(text, from)| ==> f(AllMatchesFrom(text, from)[i]) == g(AllMatchesFrom(text, from)[i])
    ensures ReplaceMatches(text, from, f) == ReplaceMatches(text, from, g)
    decreases |text| - from
  {
    match Exec(text, from)
    case None =>
    case Some(m) =>
      var rest := AllMatchesFrom(text, m.end);
      assert AllMatchesFrom(text, from) == [m] + rest;
      assert f(m) == g(m) by {
        assert AllMatchesFrom(text, from)[0] == m;
      }
      forall i | 0 <= i < |rest| ensures f(rest[i]) == g(rest[i]) {
        assert AllMatchesFrom(text, from)[i + 1] == rest[i];
      }
      ReplaceMatchesAgree(text, m.end, f, g);
  }

  /** Replacing every match by its groups put back together gives the text back: nothing outside the matches changes. */
  lemma ReplaceByAssembleIsIdentity(text: string)
    ensures ReplaceMatches(text, 0, Assemble) == text
  {
    var ms := AllMatchesFrom(text, 0);
    AllMatchesLeftmost(text, 0);
    forall i | 0 <= i < |ms| ensures Assemble(ms[i]) == MatchedText(text)(ms[i]) {
      var from := if i == 0 then 0 else ms[i - 1].end;
      assert Exec(text, from) == Some(ms[i]);
      MatchAtCovers(text, ms[i].start);
    }
    ReplaceMatchesAgree(text, 0, Assemble, MatchedText(text));
    ReplaceByMatchedText(text, 0);
  }

  // ---------------------------------------------------------------- renderCloze

  const RevealOpen: string := "<span class=\"cloze\">"
  const BlankOpen: string := "<span class=\"cloze-blank\">["
  const BlankClose: string := "]</span>"
  const SpanClose: string := "</span>"

  /** The callback of `renderCloze`: `parseInt(index, 10) === ordinal` decides whether the cloze is active. */
  function RenderOne(m: RegexMatch, ordinal: int, showAnswer: bool): (r: string)
    ensures ParseInt(m.digits) != Some(ordinal) ==> r == m.content
  {
    if ParseInt(m.digits) == Some(ordinal) then
      if showAnswer then RevealOpen + m.content + SpanClose
      else BlankOpen + (if m.hint.Some? && m.hint.value != [] then m.hint.value else "[...]") + BlankClose
    else m.content
  }

  /** `renderCloze(text, ordinal, showAnswer)`. */
  function RenderCloze(text: string, ordinal: int, showAnswer: bool): (r: string)
    ensures !HasCloze(text) ==> r == text
  {
    ReplaceMatches(text, 0, Renderer(ordinal, showAnswer))
  }

  /** The callback `renderCloze` hands to `replace`. */
  function Renderer(ordinal: int, showAnswer: bool): RegexMatch -> string {
    m => RenderOne(m, ordinal, showAnswer)
  }

  /** When no cloze carries the ordinal, revealing or hiding renders the same text. */
  lemma ShowAnswerIrrelevantWhenInactive(text: string, ordinal: int)
    requires forall i :: 0 <= i < |Clozes(text)| ==> Clozes(text)[i].index != ordinal
    ensures RenderCloze(text, ordinal, true) == RenderCloze(text, ordinal, false)
  {
    var ms := AllMatchesFrom(text, 0);
    forall i | 0 <= i < |ms|
      ensures RenderOne(ms[i], ordinal, true) == RenderOne(ms[i], ordinal, false)
    {
      ClozeIndexIsParseInt(text, ms[i]);
      assert Clozes(text)[i] == ToCloze(text, ms[i]);
    }
    ReplaceMatchesAgree(text, 0, Renderer(ordinal, true), Renderer(ordinal, false));
  }

  // ---------------------------------------------------------------- createCloze

  /** `if (hint)`: a hint that is present and not empty. */
  predicate Truthy(hint: Option<string>) {
    hint.Some? && hint.value != []
  }

  /** The text `createCloze` writes for the index digits `ds`. */
  function ClozeText(text: string, ds: string, hint: Option<string>): string {
    if Truthy(hint) then "{{c" + ds + "::" + text + "::" + hint.value + "}}"
    else "{{c" + ds + "::" + text + "}}"
  }

  /** Text the round trip can carry as content: no ':', no '}', no line terminator. */
  predicate PlainContent(t: string) {
    forall k :: 0 <= k < |t| ==> t[k] != ':' && t[k] != '}' && !IsLineTerminator(t[k])
  }

  /** Text the round trip can carry as a hint: no '}', no line terminator. */
  predicate PlainHint(h: string) {
    forall k :: 0 <= k < |h| ==> h[k] != '}' && !IsLineTerminator(h[k])
  }

  /** A literal cannot occur where the text differs from its first character. */
  lemma NotOccursAtFirst(text: string, sub: string, j: nat)
    requires j < |text| && sub != [] && text[j] != sub[0]
    ensures !OccursAt(text, sub, j)
  {
    if j + |sub| <= |text| {
      assert text[j..j + |sub|][0] == text[j];
    }
  }

  /** The lazy hint runs over a stretch free of '}' and line terminators. */
  lemma {:induction false} HintScan(text: string, e: nat, close: nat)
    requires e <= close && close + 2 <= |text|
    requires forall k :: e <= k < close ==> text[k] != '}' && !IsLineTerminator(text[k])
    requires OccursAt(text, "}}", close)
    ensures HintClose(text, e) == Some(close)
    decreases close - e
  {
    if e < close {
      NotOccursAtFirst(text, "}}", e);
      HintScan(text, e + 1, close);
    }
  }

  /** The lazy content runs over a stretch free of ':', '}' and line terminators. */
  lemma {:induction false} ContentScan(text: string, start: nat, digits: string, c0: nat, q: nat, qEnd: nat)
    requires start + 3 + |digits| + 2 == c0 <= q <= qEnd <= |text|
    requires text[start..c0] == "{{c" + digits + "::" && digits != [] && AllDigits(digits)
    requires NoLineTerminator(text[c0..q])
    requires forall k :: q <= k < qEnd ==> text[k] != ':' && text[k] != '}' && !IsLineTerminator(text[k])
    ensures NoLineTerminator(text[c0..qEnd])
    ensures LazyContent(text, start, digits, c0, q) == LazyContent(text, start, digits, c0, qEnd)
    decreases qEnd - q
  {
    if q < qEnd {
      NotOccursAtFirst(text, "::", q);
      NotOccursAtFirst(text, "}}", q);
      assert text[c0..q + 1] == text[c0..q] + [text[q]];
      ContentScan(text, start, digits, c0, q + 1, qEnd);
    }
  }

  /** The match the regex finds where a created cloze is written. */
  function CreatedMatch(p: nat, t: string, i: nat, h: Option<string>): RegexMatch {
    RegexMatch(p, p + |ClozeText(t, NatToString(i), h)|, NatToString(i), t, if Truthy(h) then h else None)
  }

  /** A piece of a slice is a slice. */
  lemma SubSlice(text: string, p: nat, c: string, a: nat, b: nat)
    requires p + |c| <= |text| && text[p..p + |c|] == c && a <= b <= |c|
    ensures text[p + a..p + b] == c[a..b]
  {
    forall k | 0 <= k < b - a ensures text[p + a..p + b][k] == c[a..b][k] {
      assert text[p + a + k] == text[p..p + |c|][a + k];
    }
  }

  /** The literal parts of a cloze header written from `p`. */
  lemma HeaderLiterals(text: string, p: nat, ds: string, c0: nat)
    requires c0 == p + 5 + |ds| <= |text| && text[p..c0] == "{{c" + ds + "::"
    ensures OccursAt(text, "{{c", p) && OccursAt(text, "::", p + 3 + |ds|)
  {
    var hd := "{{c" + ds + "::";
    SubSlice(text, p, hd, 0, 3);
    assert hd[0..3] == "{{c";
    SubSlice(text, p, hd, 3 + |ds|, 5 + |ds|);
    assert hd[3 + |ds|..5 + |ds|] == "::";
  }

  /** The digit run of a cloze header written from `p` is `ds`. */
  lemma HeaderDigits(text: string, p: nat, ds: string, c0: nat)
    requires ds != [] && AllDigits(ds)
    requires c0 == p + 5 + |ds| <= |text| && text[p..c0] == "{{c" + ds + "::"
    ensures DigitPrefix(text[p + 3..]) == ds
  {
    var hd := "{{c" + ds + "::";
    var after := text[p + 3..];
    SubSlice(text, p, hd, 3, 3 + |ds|);
    assert hd[3..3 + |ds|] == ds;
    assert hd[3 + |ds|] == ':';
    assert after[|ds|] == text[p..c0][3 + |ds|];
    assert after == ds + after[|ds|..];
    DigitPrefixOfDigitsThen(ds, after[|ds|..]);
  }

  /** "{{c", a maximal digit run and "::" from `p` to `c0`: what is left is the lazy content from `c0`. */
  lemma HeaderAt(text: string, p: nat, ds: string, c0: nat)
    requires ds != [] && AllDigits(ds)
    requires c0 == p + 5 + |ds| <= |text| && text[p..c0] == "{{c" + ds + "::"
    ensures MatchAt(text, p) == LazyContent(text, p, ds, c0, c0)
  {
    HeaderLiterals(text, p, ds, c0);
    HeaderDigits(text, p, ds, c0);
    MatchAtParts(text, p, ds, c0);
  }

  /** The same, from the parts of the header. */
  lemma MatchAtParts(text: string, p: nat, ds: string, c0: nat)
    requires c0 == p + 5 + |ds| <= |text| && OccursAt(text, "{{c", p) && DigitPrefix(text[p + 3..]) == ds != []
    requires OccursAt(text, "::", p + 3 + |ds|)
    ensures MatchAt(text, p) == LazyContent(text, p, ds, c0, c0)
  {
    HeaderSlice(text, p, ds);
    MatchAtHeader(text, p, ds);
    var e := p + 3 + |DigitPrefix(text[p + 3..])| + 2;
    LazyContentCongruent(text, p, DigitPrefix(text[p + 3..]), e, e, ds, c0, c0);
  }

  /** LazyContent of equal arguments. */
  lemma LazyContentCongruent(text: string, start: nat, d1: string, c1: nat, q1: nat, d2: string, c2: nat, q2: nat)
    requires d1 == d2 && c1 == c2 && q1 == q2
    requires start + 3 + |d1| + 2 == c1 <= q1 <= |text|
    requires text[start..c1] == "{{c" + d1 + "::" && d1 != [] && AllDigits(d1) && NoLineTerminator(text[c1..q1])
    ensures LazyContent(text, start, d1, c1, q1) == LazyContent(text, start, d2, c2, q2)
  {
  }

  /** MatchAt unfolded once, where the header is there. */
  lemma MatchAtHeader(text: string, p: nat, ds: string)
    requires p <= |text| && OccursAt(text, "{{c", p) && DigitPrefix(text[p + 3..]) == ds != []
    requires OccursAt(text, "::", p + 3 + |ds|)
    requires text[p..p + 3 + |ds| + 2] == "{{c" + ds + "::"
    ensures MatchAt(text, p) == LazyContent(text, p, DigitPrefix(text[p + 3..]),
      p + 3 + |DigitPrefix(text[p + 3..])| + 2, p + 3 + |DigitPrefix(text[p + 3..])| + 2)
  {
  }

  /** The three parts of a header make up its text. */
  lemma HeaderSlice(text: string, p: nat, ds: string)
    requires p <= |text| && OccursAt(text, "{{c", p) && DigitPrefix(text[p + 3..]) == ds != []
    requires OccursAt(text, "::", p + 3 + |ds|)
    ensures text[p..p + 3 + |ds| + 2] == "{{c" + ds + "::"
  {
    var d := p + 3 + |ds|;
    assert text[p..d + 2] == text[p..p + 3] + text[p + 3..d] + text[d..d + 2];
  }

  /** The content ends at `q` where "::", a hint `h` free of '}' and line terminators, and "}}" at `e` follow. */
  lemma ClosesWithHint(text: string, start: nat, ds: string, c0: nat, q: nat, e: nat, h: string)
    requires start + 3 + |ds| + 2 == c0 <= q && e == q + 2 + |h| && e + 2 <= |text|
    requires text[start..c0] == "{{c" + ds + "::" && ds != [] && AllDigits(ds)
    requires NoLineTerminator(text[c0..q]) && PlainHint(h)
    requires text[q..q + 2] == "::" && text[q + 2..e] == h && text[e..e + 2] == "}}"
    ensures LazyContent(text, start, ds, c0, q) == Some(RegexMatch(start, e + 2, ds, text[c0..q], Some(h)))
  {
    assert OccursAt(text, "::", q);
    assert OccursAt(text, "}}", e);
    forall k | q + 2 <= k < e ensures text[k] != '}' && !IsLineTerminator(text[k]) {
      assert text[k] == text[q + 2..e][k - q - 2];
    }
    HintScan(text, q + 2, e);
  }

  /** The content ends at `q` where "}}" follows directly. */
  lemma ClosesWithoutHint(text: string, start: nat, ds: string, c0: nat, q: nat)
    requires start + 3 + |ds| + 2 == c0 <= q && q + 2 <= |text|
    requires text[start..c0] == "{{c" + ds + "::" && ds != [] && AllDigits(ds)
    requires NoLineTerminator(text[c0..q])
    requires text[q..q + 2] == "}}"
    ensures LazyContent(text, start, ds, c0, q) == Some(RegexMatch(start, q + 2, ds, text[c0..q], None))
  {
    assert text[q] == text[q..q + 2][0] == '}';
    NotOccursAtFirst(text, "::", q);
    assert OccursAt(text, "}}", q);
  }

  /** Where plain content stands in a text, no character there is ':', '}' or a line terminator. */
  lemma PlainStretch(text: string, c0: nat, q: nat, t: string)
    requires PlainContent(t) && q == c0 + |t| <= |text| && text[c0..q] == t
    ensures forall k :: c0 <= k < q ==> text[k] != ':' && text[k] != '}' && !IsLineTerminator(text[k])
  {
    forall k | c0 <= k < q ensures text[k] != ':' && text[k] != '}' && !IsLineTerminator(text[k]) {
      assert text[k] == text[c0..q][k - c0];
    }
  }

  /** The lazy content runs over plain text from `c0` up to its end `q`. */
  lemma ContentOverPlain(text: string, p: nat, ds: string, t: string, c0: nat, q: nat)
    requires ds != [] && AllDigits(ds) && PlainContent(t)
    requires c0 == p + 5 + |ds| && q == c0 + |t| <= |text|
    requires text[p..c0] == "{{c" + ds + "::" && text[c0..q] == t
    ensures NoLineTerminator(text[c0..q])
    ensures LazyContent(text, p, ds, c0, c0) == LazyContent(text, p, ds, c0, q)
  {
    PlainStretch(text, c0, q, t);
    assert NoLineTerminator(text[c0..c0]);
    ContentScan(text, p, ds, c0, c0, q);
  }

  /** After the header and plain content, the match depends only on what closes it. */
  lemma ScanAfterContent(text: string, p: nat, ds: string, t: string, c0: nat, q: nat)
    requires ds != [] && AllDigits(ds) && PlainContent(t)
    requires c0 == p + 5 + |ds| && q == c0 + |t| <= |text|
    requires text[p..c0] == "{{c" + ds + "::" && text[c0..q] == t
    ensures NoLineTerminator(text[c0..q])
    ensures MatchAt(text, p) == LazyContent(text, p, ds, c0, q)
  {
    ContentOverPlain(text, p, ds, t, c0, q);
    HeaderAt(text, p, ds, c0);
  }

  /** Header, plain content and "}}" in a text: the regex matches exactly them there. */
  lemma PlainClozeAt(text: string, p: nat, ds: string, t: string, c0: nat, q: nat)
    requires ds != [] && AllDigits(ds) && PlainContent(t)
    requires c0 == p + 5 + |ds| && q == c0 + |t| && q + 2 <= |text|
    requires text[p..c0] == "{{c" + ds + "::" && text[c0..q] == t && text[q..q + 2] == "}}"
    ensures MatchAt(text, p) == Some(RegexMatch(p, q + 2, ds, t, None))
  {
    ScanAfterContent(text, p, ds, t, c0, q);
    ClosesWithoutHint(text, p, ds, c0, q);
  }

  /** Header, plain content, "::", a plain hint and "}}" in a text: the regex matches exactly them there. */
  lemma HintedClozeAt(text: string, p: nat, ds: string, t: string, h: string, c0: nat, q: nat, e: nat)
    requires ds != [] && AllDigits(ds) && PlainContent(t) && PlainHint(h)
    requires c0 == p + 5 + |ds| && q == c0 + |t| && e == q + 2 + |h| && e + 2 <= |text|
    requires text[p..c0] == "{{c" + ds + "::" && text[c0..q] == t
    requires text[q..q + 2] == "::" && text[q + 2..e] == h && text[e..e + 2] == "}}"
    ensures MatchAt(text, p) == Some(RegexMatch(p, e + 2, ds, t, Some(h)))
  {
    ScanAfterContent(text, p, ds, t, c0, q);
    ClosesWithHint(text, p, ds, c0, q, e, h);
  }

  /** A slice equal to a concatenation splits into slices equal to its two parts. */
  lemma SliceConcat(text: string, p: nat, x: string, y: string)
    requires p + |x + y| <= |text| && text[p..p + |x + y|] == x + y
    ensures text[p..p + |x|] == x && text[p + |x|..p + |x| + |y|] == y
  {
    SubSlice(text, p, x + y, 0, |x|);
    assert (x + y)[0..|x|] == x;
    SubSlice(text, p, x + y, |x|, |x| + |y|);
    assert (x + y)[|x|..|x| + |y|] == y;
  }

  /** The created text with a hint, split at its pieces. */
  lemma HintedPieces(text: string, p: nat, hd: string, t: string, hv: string, c0: nat, q: nat, e: nat)
    requires c0 == p + |hd| && q == c0 + |t| && e == q + 2 + |hv| && e + 2 <= |text|
    requires text[p..e + 2] == hd + t + "::" + hv + "}}"
    ensures text[p..c0] == hd && text[c0..q] == t
    ensures text[q..q + 2] == "::" && text[q + 2..e] == hv && text[e..e + 2] == "}}"
  {
    SliceConcat(text, p, hd + t + "::" + hv, "}}");
    SliceConcat(text, p, hd + t + "::", hv);
    SliceConcat(text, p, hd + t, "::");
    SliceConcat(text, p, hd, t);
  }

  /** The created text without a hint, split at its pieces. */
  lemma PlainPieces(text: string, p: nat, hd: string, t: string, c0: nat, q: nat)
    requires c0 == p + |hd| && q == c0 + |t| && q + 2 <= |text|
    requires text[p..q + 2] == hd + t + "}}"
    ensures text[p..c0] == hd && text[c0..q] == t && text[q..q + 2] == "}}"
  {
    SliceConcat(text, p, hd + t, "}}");
    SliceConcat(text, p, hd, t);
  }

  /** Wherever a created cloze stands in a text, the regex matches exactly it there. */
  lemma CreatedMatchAt(text: string, p: nat, t: string, i: nat, h: Option<string>)
    requires PlainContent(t) && (Truthy(h) ==> PlainHint(h.value))
    requires p + |ClozeText(t, NatToString(i), h)| <= |text| && text[p..p + |ClozeText(t, NatToString(i), h)|] == ClozeText(t, NatToString(i), h)
    ensures MatchAt(text, p) == Some(CreatedMatch(p, t, i, h))
  {
    var ds := NatToString(i);
    var hd := "{{c" + ds + "::";
    var c0 := p + |hd|;
    var q := c0 + |t|;
    assert |hd| == 5 + |ds|;
    if Truthy(h) {
      var hv := h.value;
      var e := q + 2 + |hv|;
      assert ClozeText(t, NatToString(i), h) == hd + t + "::" + hv + "}}";
      HintedPieces(text, p, hd, t, hv, c0, q, e);
      HintedClozeAt(text, p, ds, t, hv, c0, q, e);
      assert CreatedMatch(p, t, i, h) == RegexMatch(p, e + 2, ds, t, Some(hv));
    } else {
      assert ClozeText(t, NatToString(i), h) == hd + t + "}}";
      PlainPieces(text, p, hd, t, c0, q);
      PlainClozeAt(text, p, ds, t, c0, q);
      assert CreatedMatch(p, t, i, h) == RegexMatch(p, q + 2, ds, t, None);
    }
  }

  /** A created cloze on its own is one match from its first character to its last. */
  lemma CreatedAlone(t: string, i: nat, h: Option<string>)
    requires PlainContent(t) && (Truthy(h) ==> PlainHint(h.value))
    ensures var s := ClozeText(t, NatToString(i), h);
      Exec(s, 0) == Some(CreatedMatch(0, t, i, h)) && CreatedMatch(0, t, i, h).end == |s| && Exec(s, |s|) == None
  {
    var s := ClozeText(t, NatToString(i), h);
    assert s[0..|s|] == s;
    CreatedMatchAt(s, 0, t, i, h);
    assert MatchAt(s, |s|) == None;
  }

  /** `parseCloze(createCloze(t, i, h))` is that one cloze, at position 0, with the hint or null. */
  lemma ParseCreatedCloze(t: string, i: nat, h: Option<string>)
    requires PlainContent(t) && (Truthy(h) ==> PlainHint(h.value))
    ensures var s := ClozeText(t, NatToString(i), h);
      Clozes(s) == [Cloze(s, i, t, if Truthy(h) then h else None, 0)]
  {
    var s := ClozeText(t, NatToString(i), h);
    CreatedAlone(t, i, h);
    var m := CreatedMatch(0, t, i, h);
    assert AllMatchesFrom(s, |s|) == [];
    assert AllMatchesFrom(s, 0) == [m];
    DigitsValueOfNatToString(i);
    assert s[0..|s|] == s;
    assert ToClozes(s, [m]) == [ToCloze(s, m)];
  }

  /** The callback of `renderCloze` on a created cloze. */
  lemma RenderOneCreated(t: string, i: nat, h: Option<string>, ordinal: int, showAnswer: bool)
    ensures RenderOne(CreatedMatch(0, t, i, h), ordinal, showAnswer) ==
        if ordinal != i then t
        else if showAnswer then RevealOpen + t + SpanClose
        else if Truthy(h) then BlankOpen + h.value + BlankClose
        else BlankOpen + "[...]" + BlankClose
  {
    ParseIntOfNatToString(i);
  }

  /** The default blank, written out. */
  lemma DefaultBlank()
    ensures BlankOpen + "[...]" + BlankClose == "<span class=\"cloze-blank\">[[...]]</span>"
  {
  }

  /** A created cloze on its own renders as the callback's value for its one match. */
  lemma RenderCreatedIsOne(t: string, i: nat, h: Option<string>, ordinal: int, showAnswer: bool)
    requires PlainContent(t) && (Truthy(h) ==> PlainHint(h.value))
    ensures RenderCloze(ClozeText(t, NatToString(i), h), ordinal, showAnswer) == RenderOne(CreatedMatch(0, t, i, h), ordinal, showAnswer)
  {
    var s := ClozeText(t, NatToString(i), h);
    CreatedAlone(t, i, h);
    SingleMatch(s, CreatedMatch(0, t, i, h), Renderer(ordinal, showAnswer));
  }

  /** A text that is one match from end to end is replaced by the callback's value for it. */
  lemma SingleMatch(s: string, m: RegexMatch, f: RegexMatch -> string)
    requires Exec(s, 0) == Some(m) && m.start == 0 && m.end == |s| && Exec(s, |s|) == None
    ensures ReplaceMatches(s, 0, f) == f(m)
  {
    assert ReplaceMatches(s, |s|, f) == [];
    assert ReplaceMatches(s, 0, f) == s[0..0] + f(m) + ReplaceMatches(s, |s|, f);
  }

  /** Rendering a created cloze for its own index and for any other. */
  lemma RenderCreatedCloze(t: string, i: nat, h: Option<string>, ordinal: int, showAnswer: bool)
    requires PlainContent(t) && (Truthy(h) ==> PlainHint(h.value))
    ensures var s := ClozeText(t, NatToString(i), h);
      RenderCloze(s, ordinal, showAnswer) ==
        if ordinal != i then t
        else if showAnswer then "<span class=\"cloze\">" + t + "</span>"
        else if Truthy(h) then "<span class=\"cloze-blank\">[" + h.value + "]</span>"
        else "<span class=\"cloze-blank\">[[...]]</span>"
  {
    RenderCreatedIsOne(t, i, h, ordinal, showAnswer);
    RenderOneCreated(t, i, h, ordinal, showAnswer);
    DefaultBlank();
  }

  /** Every ordinal and side of a created cloze at once. */
  lemma RenderCreatedClozeAll(t: string, i: nat, h: Option<string>)
    requires PlainContent(t) && (Truthy(h) ==> PlainHint(h.value))
    ensures var s := ClozeText(t, NatToString(i), h);
      forall ordinal: int, showAnswer: bool :: RenderCloze(s, ordinal, showAnswer) ==
        if ordinal != i then t
        else if showAnswer then "<span class=\"cloze\">" + t + "</span>"
        else if Truthy(h) then "<span class=\"cloze-blank\">[" + h.value + "]</span>"
        else "<span class=\"cloze-blank\">[[...]]</span>"
  {
    forall ordinal: int, showAnswer: bool {
      RenderCreatedCloze(t, i, h, ordinal, showAnswer);
    }
  }

  /**
   * `createCloze(text, index, hint)`, the inverse of `parseCloze` and of
   * `renderCloze` for a non-negative index and content and hint the regex
   * can read back.
   */
  function CreateCloze(text: string, index: int, hint: Option<string>): (r: string)
    ensures index >= 0 && PlainContent(text) && (Truthy(hint) ==> PlainHint(hint.value)) ==>
      Clozes(r) == [Cloze(r, index, text, if Truthy(hint) then hint else None, 0)]
    ensures index >= 0 && PlainContent(text) && (Truthy(hint) ==> PlainHint(hint.value)) ==>
      forall ordinal: int, showAnswer: bool :: RenderCloze(r, ordinal, showAnswer) ==
        if ordinal != index then text
        else if showAnswer then "<span class=\"cloze\">" + text + "</span>"
        else if Truthy(hint) then "<span class=\"cloze-blank\">[" + hint.value + "]</span>"
        else "<span class=\"cloze-blank\">[[...]]</span>"
  {
    if index >= 0 && PlainContent(text) && (Truthy(hint) ==> PlainHint(hint.value)) then
      ParseCreatedCloze(text, index, hint);
      RenderCreatedClozeAll(text, index, hint);
      ClozeText(text, IntToString(index), hint)
    else
      ClozeText(text, IntToString(index), hint)
  }

  // ---------------------------------------------------------------- max, next, has

  /** `Math.max(...clozes.map(c => c.index))`, or 0 for no clozes. */
  function MaxIndex(cs: seq<Cloze>): (r: int)
    ensures cs == [] ==> r == 0
    ensures forall i :: 0 <= i < |cs| ==> cs[i].index <= r
    ensures cs != [] ==> exists i :: 0 <= i < |cs| && cs[i].index == r
    ensures (forall i :: 0 <= i < |cs| ==> cs[i].index >= 0) ==> r >= 0
  {
    if cs == [] then 0
    else if |cs| == 1 then cs[0].index
    else
      var rest := MaxIndex(cs[1..]);
      assert forall i :: 1 <= i < |cs| ==> cs[i] == cs[1..][i - 1];
      if cs[0].index >= rest then cs[0].index else rest
  }

  /** `getMaxClozeIndex(text)`: 0 without clozes, else the largest parsed index. */
  function GetMaxClozeIndex(text: string): (r: int)
    ensures Clozes(text) == [] ==> r == 0
    ensures forall i :: 0 <= i < |Clozes(text)| ==> Clozes(text)[i].index <= r
    ensures Clozes(text) != [] ==> exists i :: 0 <= i < |Clozes(text)| && Clozes(text)[i].index == r
    ensures r >= 0
  {
    MaxIndex(Clozes(text))
  }

  /** `getNextClozeIndex(text)`: one past the largest index, so no parsed cloze has it. */
  function GetNextClozeIndex(text: string): (r: int)
    ensures r == GetMaxClozeIndex(text) + 1
    ensures forall i :: 0 <= i < |Clozes(text)| ==> Clozes(text)[i].index < r
  {
    GetMaxClozeIndex(text) + 1
  }

  /** `hasCloze(text)`: the non-global regex tested from the start, which holds exactly when `parseCloze` finds something. */
  function HasCloze(text: string): (b: bool)
    ensures b <==> Clozes(text) != []
  {
    Exec(text, 0).Some?
  }

  /** No match ever spans a line terminator: the regex has no dot-all flag. */
  lemma MatchNeverSpansLineBreak(text: string, p: nat)
    requires p <= |text| && MatchAt(text, p).Some?
    ensures NoLineTerminator(text[p..MatchAt(text, p).value.end])
  {
    var m := MatchAt(text, p).value;
    var a := Assemble(m);
    MatchAtCovers(text, p);
    assert text[p..m.end] == a;
    var tail := if m.hint.Some? then "::" + m.hint.value else "";
    assert NoLineTerminator(tail);
    assert a == "{{c" + m.digits + "::" + m.content + tail + "}}";
    forall k | 0 <= k < |a| ensures !IsLineTerminator(a[k]) {
      var n := 5 + |m.digits|;
      if k < 3 {
      } else if k < 3 + |m.digits| {
        assert a[k] == m.digits[k - 3];
      } else if k < n {
      } else if k < n + |m.content| {
        assert a[k] == m.content[k - n];
      } else if k < n + |m.content| + |tail| {
        assert a[k] == tail[k - n - |m.content|];
      }
    }
  }

  /** A match at `p` is the first one found from `p`; the search goes on from its end. */
  lemma AllMatchesAt(text: string, p: nat, m: RegexMatch)
    requires p <= |text| && MatchAt(text, p) == Some(m)
    ensures m.end <= |text| && AllMatchesFrom(text, p) == [m] + AllMatchesFrom(text, m.end)
  {
  }

  /** The three created clozes the example is made of. */
  lemma ThreeClozesPieces()
    ensures ClozeText("a", NatToString(1), None) == "{{c1::a}}" && CreatedMatch(0, "a", 1, None) == RegexMatch(0, 9, "1", "a", None)
    ensures ClozeText("b", NatToString(3), None) == "{{c3::b}}" && CreatedMatch(9, "b", 3, None) == RegexMatch(9, 18, "3", "b", None)
    ensures ClozeText("c", NatToString(2), None) == "{{c2::c}}" && CreatedMatch(18, "c", 2, None) == RegexMatch(18, 27, "2", "c", None)
  {
    assert NatToString(1) == "1" && NatToString(3) == "3" && NatToString(2) == "2";
  }

  /** The last of the three: "{{c2::c}}" at 18, and nothing after it. */
  lemma ThreeClozesLast(s: string)
    requires s == "{{c1::a}}{{c3::b}}{{c2::c}}"
    ensures AllMatchesFrom(s, 18) == [RegexMatch(18, 27, "2", "c", None)]
  {
    ThreeClozesPieces();
    assert s[18..27] == "{{c2::c}}";
    CreatedMatchAt(s, 18, "c", 2, None);
    AllMatchesAt(s, 18, RegexMatch(18, 27, "2", "c", None));
    assert AllMatchesFrom(s, 27) == [] by {
      assert MatchAt(s, 27) == None;
    }
  }

  /** The second of the three: "{{c3::b}}" at 9. */
  lemma ThreeClozesSecond(s: string)
    requires s == "{{c1::a}}{{c3::b}}{{c2::c}}"
    ensures AllMatchesFrom(s, 9) == [RegexMatch(9, 18, "3", "b", None), RegexMatch(18, 27, "2", "c", None)]
  {
    ThreeClozesPieces();
    assert s[9..18] == "{{c3::b}}";
    CreatedMatchAt(s, 9, "b", 3, None);
    AllMatchesAt(s, 9, RegexMatch(9, 18, "3", "b", None));
    ThreeClozesLast(s);
  }

  /** The three matches the global regex finds in "{{c1::a}}{{c3::b}}{{c2::c}}", one after another. */
  lemma ThreeClozesMatches(s: string)
    requires s == "{{c1::a}}{{c3::b}}{{c2::c}}"
    ensures AllMatchesFrom(s, 0) ==
      [RegexMatch(0, 9, "1", "a", None), RegexMatch(9, 18, "3", "b", None), RegexMatch(18, 27, "2", "c", None)]
  {
    ThreeClozesPieces();
    assert s[0..9] == "{{c1::a}}";
    CreatedMatchAt(s, 0, "a", 1, None);
    AllMatchesAt(s, 0, RegexMatch(0, 9, "1", "a", None));
    ThreeClozesSecond(s);
  }

  /** c1, c3, c2 in a row: three clozes, the largest index 3 and the next 4. */
  lemma ThreeClozesExample()
    ensures |Clozes("{{c1::a}}{{c3::b}}{{c2::c}}")| == 3
    ensures GetMaxClozeIndex("{{c1::a}}{{c3::b}}{{c2::c}}") == 3
    ensures GetNextClozeIndex("{{c1::a}}{{c3::b}}{{c2::c}}") == 4
  {
    var s := "{{c1::a}}{{c3::b}}{{c2::c}}";
    ThreeClozesMatches(s);
    DigitsValueOfNatToString(1);
    DigitsValueOfNatToString(2);
    DigitsValueOfNatToString(3);
    assert NatToString(1) == "1" && NatToString(3) == "3" && NatToString(2) == "2";
    var cs := Clozes(s);
    assert cs[0].index == 1 && cs[1].index == 3 && cs[2].index == 2;
  }
}
