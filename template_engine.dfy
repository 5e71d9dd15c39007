/**
 * backend/src/utils/templateEngine.js: `escapeHtml`, the three passes of
 * `renderTemplate` (`{{FrontSide}}`, `{{cloze:F}}`, `{{F}}`, each a global
 * regex replacement over the result of the one before), `generateCardsFromNote`
 * over a typed note-type configuration, and `injectCSS`.
 */
module TemplateEngine {
  import opened Common
  import opened JsText
  import JsReplace
  import Cloze
  import Notes

  // ---------------------------------------------------------------- escapeHtml

  /** The five characters `escapeHtml` rewrites. */
  predicate IsSpecial(c: char) {
    c == '&' || c == '<' || c == '>' || c == '"' || c == '\''
  }

  /** `htmlEscapes[char]` for a special character; every other character stands for itself. */
  function EscapeChar(c: char): (r: string)
    ensures !IsSpecial(c) ==> r == [c]
    ensures IsSpecial(c) ==> |r| > 1 && r[0] == '&' && r[|r| - 1] == ';'
    ensures Inert(r)
  {
    match c
    case '&' => "&amp;"
    case '<' => "&lt;"
    case '>' => "&gt;"
    case '"' => "&quot;"
    case '\'' => "&#39;"
    case _ => [c]
  }

  /** Text that can sit inside an element or a quoted attribute without closing it. */
  predicate Inert(s: string) {
    forall i :: 0 <= i < |s| ==> s[i] != '<' && s[i] != '>' && s[i] != '"' && s[i] != '\''
  }

  predicate NoSpecial(s: string) {
    forall i :: 0 <= i < |s| ==> !IsSpecial(s[i])
  }

  /**
   * `escapeHtml(text)`: '' for an empty text; otherwise each of & < > " '
   * replaced by its entity and every other character kept, so no markup
   * character survives and a text without specials is returned as it is.
   */
  function EscapeHtml(s: string): (r: string)
    ensures s == [] ==> r == []
    ensures Inert(r)
    ensures NoSpecial(s) ==> r == s
    ensures |r| >= |s|
    decreases |s|
  {
    if s == [] then []
    else
      var head, rest := EscapeChar(s[0]), EscapeHtml(s[1..]);
      InertConcat(head, rest);
      assert NoSpecial(s) ==> NoSpecial(s[1..]) && head == [s[0]];
      assert NoSpecial(s) ==> s == [s[0]] + s[1..];
      head + rest
  }

  lemma InertConcat(a: string, b: string)
    requires Inert(a) && Inert(b)
    ensures Inert(a + b)
  {
    assert forall i :: |a| <= i < |a + b| ==> (a + b)[i] == b[i - |a|];
  }

  /** The inverse of `escapeHtml`: the five entities decoded, leftmost first. */
  function UnescapeHtml(s: string): (r: string)
    decreases |s|
  {
    if s == [] then []
    else if |s| >= 5 && s[..5] == "&amp;" then "&" + UnescapeHtml(s[5..])
    else if |s| >= 4 && s[..4] == "&lt;" then "<" + UnescapeHtml(s[4..])
    else if |s| >= 4 && s[..4] == "&gt;" then ">" + UnescapeHtml(s[4..])
    else if |s| >= 6 && s[..6] == "&quot;" then "\"" + UnescapeHtml(s[6..])
    else if |s| >= 5 && s[..5] == "&#39;" then "'" + UnescapeHtml(s[5..])
    else [s[0]] + UnescapeHtml(s[1..])
  }

  /** Decoding an escaped character: the entity is recognised and nothing else is. */
  lemma UnescapeChar(c: char, rest: string)
    ensures UnescapeHtml(EscapeChar(c) + rest) == [c] + UnescapeHtml(rest)
  {
    var e := EscapeChar(c);
    var s := e + rest;
    assert s[..|e|] == e && s[|e|..] == rest;
    if !IsSpecial(c) {
      assert s[0] == c && s[1..] == rest;
      UnescapePlain(s);
    } else if c == '&' || c == '<' || c == '>' {
      assert s[1] == e[1];
    } else {
      assert s[1] == e[1] && s[2] == e[2];
    }
  }

  /** A text not starting with '&' decodes its first character as itself. */
  lemma UnescapePlain(s: string)
    requires s != [] && s[0] != '&'
    ensures UnescapeHtml(s) == [s[0]] + UnescapeHtml(s[1..])
  {
    if |s| >= 4 { assert s[..4][0] == s[0]; }
    if |s| >= 5 { assert s[..5][0] == s[0]; }
    if |s| >= 6 { assert s[..6][0] == s[0]; }
  }

  /** Escaping loses nothing: decoding the escaped text gives the original back. */
  lemma {:induction false} UnescapeEscape(s: string)
    ensures UnescapeHtml(EscapeHtml(s)) == s
    decreases |s|
  {
    if s != [] {
      UnescapeEscape(s[1..]);
      UnescapeChar(s[0], EscapeHtml(s[1..]));
      assert [s[0]] + s[1..] == s;
    }
  }

  // ---------------------------------------------------------------- the placeholder patterns

  /** A placeholder found: the captured field name, and where the match ends. */
  datatype FieldMatch = FieldMatch(name: string, end: nat)

  /** `/\{\{cloze:(.*?)\}\}/g` and `/\{\{([^}:]+)\}\}/g`. */
  datatype Pattern = ClozeField | PlainField

  /** The text a placeholder with this name is made of. */
  function Placeholder(pat: Pattern, name: string): string {
    match pat
    case ClozeField => "{{cloze:" + name + "}}"
    case PlainField => "{{" + name + "}}"
  }

  /**
   * `\{\{cloze:(.*?)\}\}` tried at `p`: the lazy name runs to the first "}}"
   * (the same scan as the cloze hint), never across a line terminator.
   */
  function ClozeFieldAt(text: string, p: nat): (r: Option<FieldMatch>)
    requires p <= |text|
    ensures r.Some? ==> p + 10 <= r.value.end <= |text| && text[p..r.value.end] == Placeholder(ClozeField, r.value.name)
    ensures r.Some? ==> Cloze.NoLineTerminator(r.value.name)
  {
    if !OccursAt(text, "{{cloze:", p) then None
    else match Cloze.HintClose(text, p + 8)
      case None => None
      case Some(e) =>
        SliceThree(text, p, p + 8, e, e + 2);
        Some(FieldMatch(text[p + 8..e], e + 2))
  }

  lemma SliceThree(text: string, a: nat, b: nat, c: nat, d: nat)
    requires a <= b <= c <= d <= |text|
    ensures text[a..d] == text[a..b] + text[b..c] + text[c..d]
  {
  }

  /** A character of the class `[^}:]`. */
  predicate NameChar(c: char) {
    c != '}' && c != ':'
  }

  /** The length of the longest run of `[^}:]` from `i`. */
  function NameRun(text: string, i: nat): (k: nat)
    requires i <= |text|
    ensures i + k <= |text|
    ensures forall j :: i <= j < i + k ==> NameChar(text[j])
    ensures i + k < |text| ==> !NameChar(text[i + k])
    decreases |text| - i
  {
    if i < |text| && NameChar(text[i]) then NameRun(text, i + 1) + 1 else 0
  }

  /**
   * `\{\{([^}:]+)\}\}` tried at `p`: the greedy name takes the whole run of
   * `[^}:]`; giving characters back cannot help, since the next one is then
   * not '}'.
   */
  function PlainFieldAt(text: string, p: nat): (r: Option<FieldMatch>)
    requires p <= |text|
    ensures r.Some? ==> p + 5 <= r.value.end <= |text| && text[p..r.value.end] == Placeholder(PlainField, r.value.name)
    ensures r.Some? ==> r.value.name != [] && forall j :: 0 <= j < |r.value.name| ==> NameChar(r.value.name[j])
  {
    if !OccursAt(text, "{{", p) then None
    else
      var k := NameRun(text, p + 2);
      if k == 0 || !OccursAt(text, "}}", p + 2 + k) then None
      else
        SliceThree(text, p, p + 2, p + 2 + k, p + 4 + k);
        Some(FieldMatch(text[p + 2..p + 2 + k], p + 4 + k))
  }

  function FieldAt(text: string, p: nat, pat: Pattern): (r: Option<FieldMatch>)
    requires p <= |text|
    ensures r.Some? ==> p < r.value.end <= |text| && text[p..r.value.end] == Placeholder(pat, r.value.name)
  {
    match pat
    case ClozeField => ClozeFieldAt(text, p)
    case PlainField => PlainFieldAt(text, p)
  }

  /** Exactly the placeholders `{{N}}` with a non-empty name of `[^}:]` are field matches, with that name. */
  lemma PlainFieldAtIff(text: string, p: nat, name: string)
    requires p + 4 + |name| <= |text|
    ensures PlainFieldAt(text, p) == Some(FieldMatch(name, p + 4 + |name|)) <==>
      name != [] && (forall j :: 0 <= j < |name| ==> NameChar(name[j]))
      && text[p..p + 4 + |name|] == Placeholder(PlainField, name)
  {
    if name != [] && (forall j :: 0 <= j < |name| ==> NameChar(name[j])) && text[p..p + 4 + |name|] == Placeholder(PlainField, name) {
      PlainFieldFound(text, p, name);
    }
  }

  /** A well-formed `{{N}}` at `p` is matched with the name `N`. */
  lemma PlainFieldFound(text: string, p: nat, name: string)
    requires p + 4 + |name| <= |text|
    requires name != [] && forall j :: 0 <= j < |name| ==> NameChar(name[j])
    requires text[p..p + 4 + |name|] == Placeholder(PlainField, name)
    ensures PlainFieldAt(text, p) == Some(FieldMatch(name, p + 4 + |name|))
  {
    var s := Placeholder(PlainField, name);
    assert text[p..p + 2] == s[..2] == "{{";
    forall j | p + 2 <= j < p + 2 + |name| ensures NameChar(text[j]) {
      assert text[j] == s[j - p] == name[j - p - 2];
    }
    assert text[p + 2 + |name|] == s[2 + |name|] == '}';
    var k := NameRun(text, p + 2);
    assert k <= |name|;
    assert k == |name|;
    assert text[p + 2 + k..p + 4 + k] == s[2 + |name|..];
    assert text[p + 2..p + 2 + k] == s[2..2 + |name|] == name;
  }

  /** A cloze placeholder's name reaches the first "}}": none lies inside it. */
  lemma ClozeFieldAtFirst(text: string, p: nat)
    requires p <= |text| && ClozeFieldAt(text, p).Some?
    ensures forall j :: p + 8 <= j < ClozeFieldAt(text, p).value.end - 2 ==> !OccursAt(text, "}}", j)
  {
    Cloze.HintCloseFirst(text, p + 8);
  }

  /**
   * `text.replace(regex, callback)` from `from`: the leftmost placeholder at
   * or after each point is replaced by the callback's value for its name,
   * the search resuming after it; everything else is copied.
   */
  function ReplaceFields(text: string, from: nat, pat: Pattern, value: string -> string): (r: string)
    requires from <= |text|
    ensures (forall j :: from <= j <= |text| ==> FieldAt(text, j, pat).None?) ==> r == text[from..]
    decreases |text| - from
  {
    if from == |text| then []
    else match FieldAt(text, from, pat)
      case Some(fm) => value(fm.name) + ReplaceFields(text, fm.end, pat, value)
      case None =>
        assert text[from..] == [text[from]] + text[from + 1..];
        [text[from]] + ReplaceFields(text, from + 1, pat, value)
  }

  /** Putting every placeholder back as it was gives the text back: the matches cover what they replace. */
  lemma {:induction false} ReplaceFieldsByPlaceholder(text: string, from: nat, pat: Pattern)
    requires from <= |text|
    ensures ReplaceFields(text, from, pat, (name: string) => Placeholder(pat, name)) == text[from..]
    decreases |text| - from
  {
    if from < |text| {
      match FieldAt(text, from, pat)
      case Some(fm) =>
        ReplaceFieldsByPlaceholder(text, fm.end, pat);
        assert text[from..] == text[from..fm.end] + text[fm.end..];
      case None =>
        ReplaceFieldsByPlaceholder(text, from + 1, pat);
        assert text[from..] == [text[from]] + text[from + 1..];
    }
  }

  /** Neither placeholder can start without "{{". */
  lemma NoBracesNoField(text: string, pat: Pattern)
    requires !Includes(text, "{{")
    ensures forall j :: 0 <= j <= |text| ==> FieldAt(text, j, pat).None?
  {
    forall j | 0 <= j <= |text| ensures FieldAt(text, j, pat).None? {
      if FieldAt(text, j, pat).Some? {
        FieldStartsWithBraces(text, j, pat);
      }
    }
  }

  /** Every placeholder starts with "{{". */
  lemma FieldStartsWithBraces(text: string, j: nat, pat: Pattern)
    requires j <= |text| && FieldAt(text, j, pat).Some?
    ensures OccursAt(text, "{{", j)
  {
    var fm := FieldAt(text, j, pat).value;
    var s := Placeholder(pat, fm.name);
    assert text[j..fm.end] == s;
    assert s[..2] == "{{";
    assert text[j..j + 2] == s[..2];
  }

  // ---------------------------------------------------------------- renderTemplate

  /** `renderTemplate`'s options after `const { ordinal = 1, isBack = false, frontContent = '', allowHtml = true } = options`. */
  datatype RenderOptions = RenderOptions(ordinal: int, isBack: bool, frontContent: string, allowHtml: bool)

  /** The options a caller passing only `{ ordinal, isBack }` gets. */
  function Options(ordinal: int, isBack: bool): RenderOptions {
    RenderOptions(ordinal, isBack, "", true)
  }

  /** `fieldsMap[fieldName] || ''`. */
  function Lookup(fieldsMap: map<string, string>, name: string): (r: string)
    ensures name !in fieldsMap ==> r == ""
    ensures name in fieldsMap ==> r == fieldsMap[name]
  {
    if name in fieldsMap then fieldsMap[name] else ""
  }

  /** `allowHtml ? value : escapeHtml(value)`. */
  function FieldText(fieldsMap: map<string, string>, name: string, allowHtml: bool): string {
    var v := Lookup(fieldsMap, name);
    if allowHtml then v else EscapeHtml(v)
  }

  /** The callback of the second pass: field F rendered by `renderCloze` for the card's ordinal and side. */
  function ClozeValue(fieldsMap: map<string, string>, o: RenderOptions): string -> string {
    (name: string) => Cloze.RenderCloze(Lookup(fieldsMap, name), o.ordinal, o.isBack)
  }

  /** The callback of the third pass. */
  function FieldValue(fieldsMap: map<string, string>, o: RenderOptions): string -> string {
    (name: string) => FieldText(fieldsMap, name, o.allowHtml)
  }

  /** The second pass: each `{{cloze:F}}` becomes field F rendered by `renderCloze`; a text without "{{" is left alone. */
  function ClozePass(text: string, fieldsMap: map<string, string>, o: RenderOptions): (r: string)
    ensures !Includes(text, "{{") ==> r == text
  {
    if !Includes(text, "{{") then
      NoBracesNoField(text, ClozeField);
      assert text[0..] == text;
      ReplaceFields(text, 0, ClozeField, ClozeValue(fieldsMap, o))
    else
      ReplaceFields(text, 0, ClozeField, ClozeValue(fieldsMap, o))
  }

  /** The third pass: each `{{F}}` becomes field F, escaped unless HTML is allowed; a text without "{{" is left alone. */
  function FieldPass(text: string, fieldsMap: map<string, string>, o: RenderOptions): (r: string)
    ensures !Includes(text, "{{") ==> r == text
  {
    if !Includes(text, "{{") then
      NoBracesNoField(text, PlainField);
      assert text[0..] == text;
      ReplaceFields(text, 0, PlainField, FieldValue(fieldsMap, o))
    else
      ReplaceFields(text, 0, PlainField, FieldValue(fieldsMap, o))
  }

  /**
   * `renderTemplate(template, fieldsMap, options)`, with the first pass
   * inserting the front content as it is. A template without "{{" comes out
   * unchanged.
   */
  function RenderTemplate(template: string, fieldsMap: map<string, string>, o: RenderOptions): (r: string)
    ensures !Includes(template, "{{") ==> r == template
  {
    var r1 := JsReplace.ReplaceAllVerbatim(template, "{{FrontSide}}", o.frontContent);
    if !Includes(template, "{{") then
      PrefixIncluded(template, "{{", "FrontSide}}");
      assert "{{" + "FrontSide}}" == "{{FrontSide}}";
      FieldPass(ClozePass(r1, fieldsMap, o), fieldsMap, o)
    else
      FieldPass(ClozePass(r1, fieldsMap, o), fieldsMap, o)
  }

  /** A text containing `a + b` contains `a`. */
  lemma PrefixIncluded(s: string, a: string, b: string)
    requires Includes(s, a + b) || !Includes(s, a)
    ensures !Includes(s, a) ==> !Includes(s, a + b)
  {
    if Includes(s, a + b) {
      var j := IndexOf(s, a + b, 0).value;
      assert s[j..j + |a|] == (a + b)[..|a|] == a;
      assert OccursAt(s, a, j);
    }
  }

  /**
   * `{{FrontSide}}` is replaced by the front content, which then goes through
   * the cloze and field passes like template text; on a front render, where the
   * front content defaults to '', it simply disappears.
   */
  lemma FrontSideThenFields(fieldsMap: map<string, string>, o: RenderOptions)
    requires !Includes(o.frontContent, "{{FrontSide}}")
    ensures RenderTemplate("{{FrontSide}}", fieldsMap, o) == RenderTemplate(o.frontContent, fieldsMap, o)
    ensures o.frontContent == "" ==> RenderTemplate("{{FrontSide}}", fieldsMap, o) == ""
  {
    var t := "{{FrontSide}}";
    JsReplace.VerbatimWhole(t, o.frontContent);
    if o.frontContent == "" {
      assert !Includes(o.frontContent, "{{");
    }
  }

  /** A placeholder name that `renderTemplate` treats as an ordinary field. */
  predicate PlainName(n: string) {
    n != [] && n != "FrontSide" && forall j :: 0 <= j < |n| ==> NameChar(n[j]) && n[j] != '{'
  }

  /** `{{FrontSide}}` does not occur in `{{N}}` for any other plain name. */
  lemma NoFrontSideIn(n: string)
    requires PlainName(n)
    ensures !Includes(Placeholder(PlainField, n), "{{FrontSide}}")
  {
    var s := Placeholder(PlainField, n);
    var f := "{{FrontSide}}";
    forall j: nat | j + 13 <= |s| ensures !OccursAt(s, f, j) {
      var w := s[j..j + 13];
      if j > 0 {
        assert w[1] == s[j + 1] == n[j - 1] != '{';
      } else if |n| > 9 {
        assert w[11] == s[11] == n[9] != '}';
      } else {
        var i := DifferAt(n, "FrontSide");
        assert w[i + 2] == n[i];
        FrontSideSpelled(i);
      }
    }
  }

  /** Two different strings of one length differ at some index. */
  lemma DifferAt(a: string, b: string) returns (i: nat)
    requires |a| == |b| && a != b
    ensures i < |a| && a[i] != b[i]
  {
    assert exists k :: 0 <= k < |a| && a[k] != b[k];
    i :| i < |a| && a[i] != b[i];
  }

  lemma FrontSideSpelled(i: nat)
    requires i < 9
    ensures "{{FrontSide}}"[i + 2] == "FrontSide"[i]
  {
  }

  /** Without ':' there is no `{{cloze:` placeholder anywhere. */
  lemma NoColonNoCloze(s: string)
    requires forall k :: 0 <= k < |s| ==> s[k] != ':'
    ensures forall j :: 0 <= j <= |s| ==> ClozeFieldAt(s, j).None?
  {
    forall j | 0 <= j <= |s| ensures ClozeFieldAt(s, j).None? {
      if j + 8 <= |s| {
        assert s[j..j + 8][7] == s[j + 7] != ':';
      }
    }
  }

  /**
   * A template that is just `{{N}}` renders as field N: its value raw, or
   * escaped when HTML is not allowed, and '' when the note has no such field.
   */
  lemma RenderSingleField(n: string, fieldsMap: map<string, string>, o: RenderOptions)
    requires PlainName(n)
    ensures RenderTemplate(Placeholder(PlainField, n), fieldsMap, o) ==
      if n !in fieldsMap then "" else if o.allowHtml then fieldsMap[n] else EscapeHtml(fieldsMap[n])
  {
    var s := Placeholder(PlainField, n);
    NoFrontSideIn(n);
    assert forall k :: 0 <= k < |s| ==> s[k] != ':' by {
      forall k | 0 <= k < |s| ensures s[k] != ':' {
        if 2 <= k < 2 + |n| { assert s[k] == n[k - 2]; }
      }
    }
    NoColonNoCloze(s);
    assert JsReplace.ReplaceAllVerbatim(s, "{{FrontSide}}", o.frontContent) == s;
    assert ClozePass(s, fieldsMap, o) == s;
    PlainFieldAtIff(s, 0, n);
    assert s[0..|s|] == s;
    assert FieldAt(s, 0, PlainField) == Some(FieldMatch(n, |s|));
    assert ReplaceFields(s, |s|, PlainField, FieldValue(fieldsMap, o)) == [];
    assert FieldPass(s, fieldsMap, o) == FieldText(fieldsMap, n, o.allowHtml) + [];
  }

  /** A name `{{cloze:N}}` reads to its end: no '{', no '}', no line terminator. */
  predicate ClozeName(n: string) {
    forall j :: 0 <= j < |n| ==> n[j] != '{' && n[j] != '}' && !IsLineTerminator(n[j])
  }

  /** After its first two characters, `{{cloze:N}}` holds no '{'. */
  lemma ClozePlaceholderBraces(n: string)
    requires ClozeName(n)
    ensures var s := Placeholder(ClozeField, n);
      |s| == 10 + |n| && s[..8] == "{{cloze:" && s[8..8 + |n|] == n && s[8 + |n|..] == "}}"
      && forall k :: 2 <= k < |s| ==> s[k] != '{'
  {
    var s := Placeholder(ClozeField, n);
    forall k | 2 <= k < |s| ensures s[k] != '{' {
      if 8 <= k < 8 + |n| { assert s[k] == n[k - 8]; }
    }
  }

  /** `{{FrontSide}}` does not occur in `{{cloze:N}}`. */
  lemma NoFrontSideInCloze(n: string)
    requires ClozeName(n)
    ensures !Includes(Placeholder(ClozeField, n), "{{FrontSide}}")
  {
    var s := Placeholder(ClozeField, n);
    ClozePlaceholderBraces(n);
    forall j: nat | j + 13 <= |s| ensures !OccursAt(s, "{{FrontSide}}", j) {
      var w := s[j..j + 13];
      if j > 0 {
        assert w[1] == s[j + 1] != '{';
      } else {
        assert w[2] == s[2] == 'c';
      }
    }
  }

  /** `{{cloze:N}}` is matched whole by the cloze pattern, with the name N. */
  lemma ClozeFieldFound(n: string)
    requires ClozeName(n)
    ensures var s := Placeholder(ClozeField, n);
      ClozeFieldAt(s, 0) == Some(FieldMatch(n, |s|))
  {
    var s := Placeholder(ClozeField, n);
    ClozePlaceholderBraces(n);
    assert OccursAt(s, "{{cloze:", 0);
    assert OccursAt(s, "}}", 8 + |n|) by {
      assert s[8 + |n|..8 + |n| + 2] == s[8 + |n|..];
    }
    forall k | 8 <= k < 8 + |n| ensures s[k] != '}' && !IsLineTerminator(s[k]) {
      assert s[k] == n[k - 8];
    }
    Cloze.HintScan(s, 8, 8 + |n|);
  }

  /**
   * A template that is just `{{cloze:N}}` renders as field N passed through
   * `renderCloze` for the card's ordinal and side ('' when the note has no
   * such field), followed by the plain field pass over that text.
   */
  lemma RenderSingleCloze(n: string, fieldsMap: map<string, string>, o: RenderOptions)
    requires ClozeName(n)
    ensures RenderTemplate(Placeholder(ClozeField, n), fieldsMap, o) ==
      FieldPass(Cloze.RenderCloze(Lookup(fieldsMap, n), o.ordinal, o.isBack), fieldsMap, o)
  {
    var s := Placeholder(ClozeField, n);
    assert JsReplace.ReplaceAllVerbatim(s, "{{FrontSide}}", o.frontContent) == s by {
      NoFrontSideInCloze(n);
    }
    assert ClozePass(s, fieldsMap, o) == Cloze.RenderCloze(Lookup(fieldsMap, n), o.ordinal, o.isBack) by {
      ClozePassSingle(n, fieldsMap, o);
    }
  }

  /** The cloze pass over `{{cloze:N}}` alone. */
  lemma ClozePassSingle(n: string, fieldsMap: map<string, string>, o: RenderOptions)
    requires ClozeName(n)
    ensures ClozePass(Placeholder(ClozeField, n), fieldsMap, o) == Cloze.RenderCloze(Lookup(fieldsMap, n), o.ordinal, o.isBack)
  {
    var s := Placeholder(ClozeField, n);
    ClozeFieldFound(n);
    assert FieldAt(s, 0, ClozeField) == Some(FieldMatch(n, |s|));
    assert ReplaceFields(s, |s|, ClozeField, ClozeValue(fieldsMap, o)) == [];
    assert ClozePass(s, fieldsMap, o) == Cloze.RenderCloze(Lookup(fieldsMap, n), o.ordinal, o.isBack) + [];
  }

  /** When the rendered cloze field holds no "{{", `{{cloze:N}}` renders as exactly `renderCloze` of field N. */
  lemma RenderSingleClozeText(n: string, fieldsMap: map<string, string>, o: RenderOptions)
    requires ClozeName(n)
    requires !Includes(Cloze.RenderCloze(Lookup(fieldsMap, n), o.ordinal, o.isBack), "{{")
    ensures RenderTemplate(Placeholder(ClozeField, n), fieldsMap, o) ==
      Cloze.RenderCloze(Lookup(fieldsMap, n), o.ordinal, o.isBack)
  {
    var c := Cloze.RenderCloze(Lookup(fieldsMap, n), o.ordinal, o.isBack);
    RenderSingleCloze(n, fieldsMap, o);
    NoBracesNoField(c, PlainField);
    assert c[0..] == c;
  }

  // ---------------------------------------------------------------- the `$` in the front content

  /**
   * `renderTemplate` as written: the first pass hands the front content to
   * `String.prototype.replace` as a replacement STRING, so `$$`, `$&`,
   * `` $` `` and `$'` in it are expanded.
   */
  function RenderTemplateAsWritten(template: string, fieldsMap: map<string, string>, o: RenderOptions): (r: string)
    ensures '$' !in o.frontContent ==> r == RenderTemplate(template, fieldsMap, o)
  {
    var r1 := JsReplace.ReplaceAll(template, "{{FrontSide}}", o.frontContent);
    if '$' !in o.frontContent then
      JsReplace.ReplaceAllWithoutDollar(template, "{{FrontSide}}", o.frontContent);
      FieldPass(ClozePass(r1, fieldsMap, o), fieldsMap, o)
    else
      FieldPass(ClozePass(r1, fieldsMap, o), fieldsMap, o)
  }

  /** `$$` is one `$`: GetSubstitution turns `$$x$$` into `$x$`. */
  lemma DollarsHalved(matched: string, str: string)
    requires |matched| <= |str|
    ensures JsReplace.Substitution("$$x$$", matched, str, 0) == "$x$"
  {
    var r := "$$x$$";
    assert r[2..] == "x$$" && r[2..][1..] == "$$" && r[2..][1..][2..] == [];
  }

  /** The first pass as written on the template `{{FrontSide}}`. */
  lemma FrontSideAsWrittenPass(t: string, front: string)
    requires t == "{{FrontSide}}" && front == "$$x$$"
    ensures JsReplace.ReplaceAll(t, t, front) == "$x$"
  {
    assert OccursAt(t, t, 0);
    assert IndexOf(t, t, 0) == Some(0);
    assert IndexOf(t, t, 13) == None;
    assert JsReplace.ReplaceAllFrom(t, t, front, 13) == [];
    DollarsHalved(t, t);
    assert t[0..0] == [];
  }

  /** A front holding display math `$$x$$` comes back as `$x$` on a back template `{{FrontSide}}`. */
  lemma FrontSideDollarLost(fieldsMap: map<string, string>, front: string)
    requires front == "$$x$$"
    ensures RenderTemplateAsWritten("{{FrontSide}}", fieldsMap, RenderOptions(1, true, front, true)) == "$x$"
  {
    var o := RenderOptions(1, true, front, true);
    var shown := "$x$";
    FrontSideAsWrittenPass("{{FrontSide}}", front);
    NoOpenBrace(shown);
    assert ClozePass(shown, fieldsMap, o) == shown;
  }

  /** A text without '{' contains no "{{". */
  lemma NoOpenBrace(s: string)
    requires forall i :: 0 <= i < |s| ==> s[i] != '{'
    ensures !Includes(s, "{{")
  {
    forall j: nat ensures !OccursAt(s, "{{", j) {
      if j + 2 <= |s| {
        assert s[j..j + 2][0] == s[j];
      }
    }
  }

  /** Inserted verbatim, the same front stays `$$x$$`. */
  lemma FrontSideDollarKept(fieldsMap: map<string, string>, front: string)
    requires front == "$$x$$"
    ensures RenderTemplate("{{FrontSide}}", fieldsMap, RenderOptions(1, true, front, true)) == front
  {
    var o := RenderOptions(1, true, front, true);
    NoOpenBrace(front);
    PrefixIncluded(front, "{{", "FrontSide}}");
    assert "{{" + "FrontSide}}" == "{{FrontSide}}";
    FrontSideThenFields(fieldsMap, o);
  }

  // ---------------------------------------------------------------- generateCardsFromNote

  /** One card template. */
  datatype Template = Template(front: string, back: string)

  /** The parsed `config` of a note type; a missing key is None. */
  datatype NoteTypeConfig = NoteTypeConfig(fields: Option<seq<string>>, templates: Option<seq<Template>>)

  datatype NoteType = NoteType(name: string, config: NoteTypeConfig)

  /** A note: its id, its field values in field order, and its source_url. */
  datatype Note = Note(id: int, fields: seq<string>, sourceUrl: Option<string>)

  /** One object pushed onto `cards`. */
  datatype Card = Card(noteId: int, deckId: int, ord: int, front: string, back: string, sourceUrl: Option<string>)

  /** The template a cloze note falls back on when its type has none. */
  const DefaultClozeTemplate: Template := Template("{{cloze:Text}}", "{{cloze:Text}}")

  /**
   * `noteType.name === 'Cloze' || templates.some(t => t.front && t.front.includes('{{cloze:'))`:
   * in particular a type one of whose fronts holds a `{{cloze:F}}` placeholder.
   */
  function IsClozeType(name: string, templates: seq<Template>): (b: bool)
    ensures name == "Cloze" ==> b
    ensures forall i: int, j: nat :: 0 <= i < |templates| && j <= |templates[i].front| && ClozeFieldAt(templates[i].front, j).Some? ==> b
  {
    ClozePlaceholderIncluded(templates);
    name == "Cloze" || exists i :: 0 <= i < |templates| && Includes(templates[i].front, "{{cloze:")
  }

  /** A front holding a cloze placeholder includes "{{cloze:". */
  lemma ClozePlaceholderIncluded(templates: seq<Template>)
    ensures forall i: int, j: nat :: 0 <= i < |templates| && j <= |templates[i].front| && ClozeFieldAt(templates[i].front, j).Some? ==>
      Includes(templates[i].front, "{{cloze:")
  {
    forall i: int, j: nat | 0 <= i < |templates| && j <= |templates[i].front| && ClozeFieldAt(templates[i].front, j).Some?
      ensures Includes(templates[i].front, "{{cloze:")
    {
      assert OccursAt(templates[i].front, "{{cloze:", j);
    }
  }

  /**
   * Card `ord` (ordinal `ord + 1`): front rendered with `{ ordinal, isBack: false }`,
   * back with `{ ordinal, isBack: true, frontContent }`.
   */
  function MakeCard(note: Note, deckId: int, t: Template, fieldsMap: map<string, string>, ord: nat): (c: Card)
    ensures c.ord == ord && c.noteId == note.id && c.deckId == deckId && c.sourceUrl == note.sourceUrl
    ensures !Includes(t.front, "{{") ==> c.front == t.front
    ensures t.back == "{{FrontSide}}" && !Includes(c.front, "{{FrontSide}}") ==>
      c.back == RenderTemplate(c.front, fieldsMap, RenderOptions(ord + 1, true, c.front, true))
  {
    var front := RenderTemplate(t.front, fieldsMap, Options(ord + 1, false));
    var o := RenderOptions(ord + 1, true, front, true);
    if t.back == "{{FrontSide}}" && !Includes(front, "{{FrontSide}}") then
      FrontSideThenFields(fieldsMap, o);
      Card(note.id, deckId, ord, front, RenderTemplate(t.back, fieldsMap, o), note.sourceUrl)
    else
      Card(note.id, deckId, ord, front, RenderTemplate(t.back, fieldsMap, o), note.sourceUrl)
  }

  /** The template a cloze card uses: `templates[0] || { front: '{{cloze:Text}}', back: '{{cloze:Text}}' }`. */
  function ClozeTemplate(templates: seq<Template>): Template {
    if |templates| > 0 then templates[0] else DefaultClozeTemplate
  }

  /** The cards of ordinals 1..n, all from template `t`: what the cloze loop pushes. */
  function ClozeCards(note: Note, deckId: int, t: Template, fieldsMap: map<string, string>, n: nat): (cs: seq<Card>)
    ensures |cs| == n
    ensures forall k :: 0 <= k < n ==> cs[k] == MakeCard(note, deckId, t, fieldsMap, k)
  {
    Tabulate((k: nat) => MakeCard(note, deckId, t, fieldsMap, k), n)
  }

  /** The cards of the first n templates: what the `forEach` over the templates pushes. */
  function TemplateCards(note: Note, deckId: int, templates: seq<Template>, fieldsMap: map<string, string>, n: nat): (cs: seq<Card>)
    requires n <= |templates|
    ensures |cs| == n
    ensures forall k :: 0 <= k < n ==> cs[k] == MakeCard(note, deckId, templates[k], fieldsMap, k)
  {
    Tabulate((k: nat) requires k < |templates| => MakeCard(note, deckId, templates[k], fieldsMap, k), n)
  }

  /**
   * What `generateCardsFromNote` returns, from the note type's fields and
   * templates (missing ones are []). A cloze type yields one card per cloze
   * index 1..M of the first field (M its largest index, so none when it has
   * no cloze), all from the first template; any other type one card per
   * template. Card k has ord k, the note's id and source_url, the given deck,
   * and a back rendered with that same card's front.
   */
  function GeneratedCards(note: Note, noteType: NoteType, deckId: int): (cards: seq<Card>)
    ensures var templates := noteType.config.templates.GetOr([]);
      var fieldNames := noteType.config.fields.GetOr([]);
      var fieldsMap := Notes.ZipFields(fieldNames, note.fields, |fieldNames|);
      (IsClozeType(noteType.name, templates) ==> |cards| == Cloze.GetMaxClozeIndex(Notes.FieldOr(note.fields, 0)))
      && (!IsClozeType(noteType.name, templates) ==> |cards| == |templates|)
      && forall k :: 0 <= k < |cards| ==>
        var t := if IsClozeType(noteType.name, templates) then ClozeTemplate(templates) else templates[k];
        cards[k].ord == k && cards[k].noteId == note.id && cards[k].deckId == deckId && cards[k].sourceUrl == note.sourceUrl
        && cards[k].front == RenderTemplate(t.front, fieldsMap, Options(k + 1, false))
        && cards[k].back == RenderTemplate(t.back, fieldsMap, RenderOptions(k + 1, true, cards[k].front, true))
  {
    var fieldNames := noteType.config.fields.GetOr([]);
    var templates := noteType.config.templates.GetOr([]);
    var fieldsMap := Notes.ZipFields(fieldNames, note.fields, |fieldNames|);
    if IsClozeType(noteType.name, templates) then
      var m := Cloze.GetMaxClozeIndex(Notes.FieldOr(note.fields, 0));
      ClozeCards(note, deckId, ClozeTemplate(templates), fieldsMap, m)
    else
      TemplateCards(note, deckId, templates, fieldsMap, |templates|)
  }

  /**
   * A note of the type named 'Cloze' that has no templates: card k shows the
   * field "Text" through `renderCloze` for ordinal k + 1, hidden on the front
   * and revealed on the back.
   */
  lemma DefaultClozeCards(note: Note, noteType: NoteType, deckId: int, k: nat)
    requires noteType.name == "Cloze" && noteType.config.templates.GetOr([]) == []
    requires k < |GeneratedCards(note, noteType, deckId)|
    ensures var fieldNames := noteType.config.fields.GetOr([]);
      var fieldsMap := Notes.ZipFields(fieldNames, note.fields, |fieldNames|);
      var card := GeneratedCards(note, noteType, deckId)[k];
      card.front == FieldPass(Cloze.RenderCloze(Lookup(fieldsMap, "Text"), k + 1, false), fieldsMap, Options(k + 1, false))
      && card.back == FieldPass(Cloze.RenderCloze(Lookup(fieldsMap, "Text"), k + 1, true), fieldsMap, RenderOptions(k + 1, true, card.front, true))
  {
    var fieldNames := noteType.config.fields.GetOr([]);
    var fieldsMap := Notes.ZipFields(fieldNames, note.fields, |fieldNames|);
    var card := GeneratedCards(note, noteType, deckId)[k];
    assert card == MakeCard(note, deckId, DefaultClozeTemplate, fieldsMap, k) by {
      ClozeTypeCard(note, noteType, deckId, k);
    }
    DefaultClozeTemplateRenders(fieldsMap, k + 1, card.front);
  }

  /** Card k of a cloze type without templates is made from the default template. */
  lemma ClozeTypeCard(note: Note, noteType: NoteType, deckId: int, k: nat)
    requires noteType.name == "Cloze" && noteType.config.templates.GetOr([]) == []
    requires k < |GeneratedCards(note, noteType, deckId)|
    ensures var fieldNames := noteType.config.fields.GetOr([]);
      var fieldsMap := Notes.ZipFields(fieldNames, note.fields, |fieldNames|);
      GeneratedCards(note, noteType, deckId)[k] == MakeCard(note, deckId, DefaultClozeTemplate, fieldsMap, k)
  {
    assert IsClozeType(noteType.name, []);
  }

  /** The default cloze template renders field "Text" through `renderCloze` on both sides. */
  lemma DefaultClozeTemplateRenders(fieldsMap: map<string, string>, ordinal: int, front: string)
    ensures RenderTemplate(DefaultClozeTemplate.front, fieldsMap, Options(ordinal, false)) ==
      FieldPass(Cloze.RenderCloze(Lookup(fieldsMap, "Text"), ordinal, false), fieldsMap, Options(ordinal, false))
    ensures RenderTemplate(DefaultClozeTemplate.back, fieldsMap, RenderOptions(ordinal, true, front, true)) ==
      FieldPass(Cloze.RenderCloze(Lookup(fieldsMap, "Text"), ordinal, true), fieldsMap, RenderOptions(ordinal, true, front, true))
  {
    assert DefaultClozeTemplate.front == DefaultClozeTemplate.back == Placeholder(ClozeField, "Text");
    RenderSingleCloze("Text", fieldsMap, Options(ordinal, false));
    RenderSingleCloze("Text", fieldsMap, RenderOptions(ordinal, true, front, true));
  }

  /** `generateCardsFromNote(note, noteType, deckId)`: the loops push exactly the specified cards. */
  method GenerateCardsFromNote(note: Note, noteType: NoteType, deckId: int) returns (cards: seq<Card>)
    ensures cards == GeneratedCards(note, noteType, deckId)
  {
    var fieldNames := noteType.config.fields.GetOr([]);
    var templates := noteType.config.templates.GetOr([]);
    // the same forEach as `Note.getFieldsObject`
    var fieldsMap := Notes.GetFieldsObject(note.fields, fieldNames);
    cards := [];
    if IsClozeType(noteType.name, templates) {
      var textField := Notes.FieldOr(note.fields, 0);
      var maxClozeIndex := Cloze.GetMaxClozeIndex(textField);
      if maxClozeIndex > 0 {
        var ordinal := 1;
        while ordinal <= maxClozeIndex
          invariant 1 <= ordinal <= maxClozeIndex + 1
          invariant cards == ClozeCards(note, deckId, ClozeTemplate(templates), fieldsMap, ordinal - 1)
        {
          var template := ClozeTemplate(templates);
          var frontContent := RenderTemplate(template.front, fieldsMap, Options(ordinal, false));
          var backContent := RenderTemplate(template.back, fieldsMap, RenderOptions(ordinal, true, frontContent, true));
          cards := cards + [Card(note.id, deckId, ordinal - 1, frontContent, backContent, note.sourceUrl)];
          ordinal := ordinal + 1;
        }
      }
    } else {
      var templateIndex := 0;
      while templateIndex < |templates|
        invariant 0 <= templateIndex <= |templates|
        invariant cards == TemplateCards(note, deckId, templates, fieldsMap, templateIndex)
      {
        var template := templates[templateIndex];
        var frontContent := RenderTemplate(template.front, fieldsMap, Options(templateIndex + 1, false));
        var backContent := RenderTemplate(template.back, fieldsMap, RenderOptions(templateIndex + 1, true, frontContent, true));
        cards := cards + [Card(note.id, deckId, templateIndex, frontContent, backContent, note.sourceUrl)];
        templateIndex := templateIndex + 1;
      }
    }
  }

  // ---------------------------------------------------------------- injectCSS

  const StyleOpen: string := "<style>"
  const StyleCloseCardOpen: string := "</style><div class=\"card\">"
  const CardClose: string := "</div>"

  /** `injectCSS(cardHtml, css)`: the style sheet first, then the card wrapped in `<div class="card">`. */
  function InjectCSS(cardHtml: string, css: string): (r: string)
    ensures |r| == |css| + |cardHtml| + 39
    ensures r[..7] == StyleOpen && r[7..7 + |css|] == css
    ensures r[7 + |css|..7 + |css| + 26] == StyleCloseCardOpen
    ensures r[7 + |css| + 26..|r| - 6] == cardHtml && r[|r| - 6..] == CardClose
  {
    StyleOpen + css + StyleCloseCardOpen + cardHtml + CardClose
  }
}
