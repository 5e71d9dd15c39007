/**
 * frontend/src/components/CardEditor.js: the three pieces of the editor that
 * re-implement backend logic in their own way: the next cloze index (a looser
 * regex `\{\{c(\d+)::` that needs no closing braces), the cloze-type test (by
 * name only), and the live preview (cloze pass first, then `{{FrontSide}}`,
 * then one regular expression per field, with a blank marker of its own).
 */
module CardEditor {
  import opened Common
  import opened JsText
  import JsReplace
  import Cloze
  import Notes
  import opened TemplateEngine

  // ---------------------------------------------------------------- the next cloze index

  /** One match of `/\{\{c(\d+)::/`: where it starts, `parseInt(match[1], 10)`, and where it ends. */
  datatype Header = Header(start: nat, index: nat, end: nat)

  /** The regex tried at exactly `p`: "{{c", the greedy digit run (at least one digit) and "::". */
  function HeaderAt(text: string, p: nat): (r: Option<Header>)
    requires p <= |text|
    ensures r.Some? ==> r.value.start == p && p + 6 <= r.value.end <= |text|
  {
    if !OccursAt(text, "{{c", p) then None
    else
      var digits := DigitPrefix(text[p + 3..]);
      var d := p + 3 + |digits|;
      if digits == [] || !OccursAt(text, "::", d) then None
      else Some(Header(p, DigitsValue(digits), d + 2))
  }

  /** `clozeRegex.exec(text)` with `lastIndex == from`: the leftmost header at or after `from`. */
  function ExecHeader(text: string, from: nat): (r: Option<Header>)
    requires from <= |text|
    ensures r.Some? ==> from <= r.value.start <= |text| && HeaderAt(text, r.value.start) == r
    ensures r.Some? ==> forall j :: from <= j < r.value.start ==> HeaderAt(text, j).None?
    ensures r.None? ==> forall j :: from <= j <= |text| ==> HeaderAt(text, j).None?
    decreases |text| - from
  {
    var h := HeaderAt(text, from);
    if h.Some? then h
    else if from == |text| then None
    else ExecHeader(text, from + 1)
  }

  /** The largest index the `exec` loop sees once `lastIndex` has reached `from`: 0 if none, else the index of a header it finds. */
  function MaxHeaderFrom(text: string, from: nat): (r: nat)
    requires from <= |text|
    ensures ExecHeader(text, from).None? ==> r == 0
    ensures r > 0 ==> exists p :: from <= p <= |text| && HeaderAt(text, p).Some? && HeaderAt(text, p).value.index == r
    decreases |text| - from
  {
    match ExecHeader(text, from)
    case None => 0
    case Some(h) =>
      var rest := MaxHeaderFrom(text, h.end);
      if h.index >= rest then h.index else rest
  }

  /** `maxIndex + 1` after the loop: the index the editor offers for the next cloze. */
  function LooseNextClozeIndex(text: string): (r: int)
    ensures r >= 1
  {
    MaxHeaderFrom(text, 0) + 1
  }

  /** The loop of the effect: `while ((match = clozeRegex.exec(text)) !== null) maxIndex = Math.max(...)`. */
  method ScanNextClozeIndex(text: string) returns (next: int)
    ensures next == LooseNextClozeIndex(text)
  {
    var maxIndex: nat := 0;
    var lastIndex: nat := 0;
    var found := ExecHeader(text, lastIndex);
    while found.Some?
      invariant lastIndex <= |text|
      invariant found == ExecHeader(text, lastIndex)
      invariant (if maxIndex >= MaxHeaderFrom(text, lastIndex) then maxIndex else MaxHeaderFrom(text, lastIndex)) == MaxHeaderFrom(text, 0)
      decreases |text| - lastIndex
    {
      var h := found.value;
      if h.index > maxIndex {
        maxIndex := h.index;
      }
      lastIndex := h.end;
      found := ExecHeader(text, lastIndex);
    }
    next := maxIndex + 1;
  }

  /**
   * The effect on `[fields, isClozeType]`: it recomputes the next index only
   * for a cloze type whose first field is present and not empty, and leaves
   * the current value otherwise.
   */
  method ClozeIndexEffect(isClozeType: bool, fields: seq<string>, current: int) returns (next: int)
    ensures isClozeType && |fields| > 0 && fields[0] != "" ==> next == LooseNextClozeIndex(fields[0])
    ensures !(isClozeType && |fields| > 0 && fields[0] != "") ==> next == current
  {
    next := current;
    if isClozeType && |fields| > 0 && fields[0] != "" {
      next := ScanNextClozeIndex(fields[0]);
    }
  }

  /** No header starts strictly inside another one: its characters after the first are "{c", digits and "::". */
  lemma NoHeaderInside(text: string, h: Header, q: nat)
    requires h.start <= |text| && HeaderAt(text, h.start) == Some(h)
    requires h.start < q < h.end
    ensures HeaderAt(text, q).None?
  {
    var p := h.start;
    var digits := DigitPrefix(text[p + 3..]);
    assert text[p..p + 3] == "{{c";
    if q == p + 1 {
      assert text[q + 1] == text[p..p + 3][2] == 'c';
      if q + 3 <= |text| {
        assert text[q..q + 3][1] == 'c' != "{{c"[1];
      }
    } else {
      if q < p + 3 + |digits| {
        assert text[q] == if q == p + 2 then text[p..p + 3][2] else digits[q - p - 3];
      } else {
        var d := p + 3 + |digits|;
        assert text[d..d + 2] == "::";
        assert text[q] == text[d..d + 2][q - d] == ':';
      }
      if q + 3 <= |text| {
        assert text[q..q + 3][0] == text[q] != "{{c"[0];
      }
    }
  }

  /** Every header anywhere at or after `from` is counted by the scan from `from`. */
  lemma {:induction false} MaxHeaderBound(text: string, from: nat, p: nat)
    requires from <= p <= |text| && HeaderAt(text, p).Some?
    ensures HeaderAt(text, p).value.index <= MaxHeaderFrom(text, from)
    decreases |text| - from
  {
    var h := ExecHeader(text, from).value;
    var m := MaxHeaderFrom(text, from);
    assert m >= h.index && m >= MaxHeaderFrom(text, h.end);
    if h.start < p {
      if p < h.end {
        NoHeaderInside(text, h, p);
      }
      MaxHeaderBound(text, h.end, p);
    } else {
      assert h.start == p;
    }
  }

  /** Where the backend's cloze regex matches, the editor's regex matches too, with the same index. */
  lemma MatchHasHeader(text: string, p: nat)
    requires p <= |text| && Cloze.MatchAt(text, p).Some?
    ensures HeaderAt(text, p).Some? && HeaderAt(text, p).value.index == DigitsValue(Cloze.MatchAt(text, p).value.digits)
  {
  }

  /**
   * The editor never offers an index below the backend's `getNextClozeIndex`:
   * every complete cloze the backend parses begins with a header the editor
   * counts.
   */
  lemma LooseIndexAtLeastBackend(text: string)
    ensures Cloze.GetNextClozeIndex(text) <= LooseNextClozeIndex(text)
  {
    var cs := Cloze.Clozes(text);
    if cs != [] {
      var i :| 0 <= i < |cs| && cs[i].index == Cloze.GetMaxClozeIndex(text);
      ClozeHeaderCounted(text, i);
    }
  }

  /** The editor's scan counts the index of each cloze the backend parses. */
  lemma ClozeHeaderCounted(text: string, i: nat)
    requires i < |Cloze.Clozes(text)|
    ensures Cloze.Clozes(text)[i].index <= MaxHeaderFrom(text, 0)
  {
    var ms := Cloze.AllMatchesFrom(text, 0);
    Cloze.AllMatchesLeftmost(text, 0);
    var from := if i == 0 then 0 else ms[i - 1].end;
    assert Cloze.Exec(text, from) == Some(ms[i]);
    var p := ms[i].start;
    assert Cloze.MatchAt(text, p) == Some(ms[i]);
    assert Cloze.Clozes(text)[i] == Cloze.ToCloze(text, ms[i]);
    MatchHasHeader(text, p);
    MaxHeaderBound(text, 0, p);
  }

  /** An unclosed "{{c2::" already moves the editor on to 3, while the backend, finding no cloze, still offers 1. */
  lemma UnclosedClozeCounted(s: string)
    requires s == "{{c2::"
    ensures LooseNextClozeIndex(s) == 3
    ensures Cloze.GetNextClozeIndex(s) == 1
  {
    assert DigitPrefix(s[3..]) == "2" by {
      assert s[3..] == "2::";
    }
    assert DigitsValue("2") == 2;
    assert HeaderAt(s, 0) == Some(Header(0, 2, 6));
    assert ExecHeader(s, 0) == Some(Header(0, 2, 6));
    assert ExecHeader(s, 6) == None;
    assert MaxHeaderFrom(s, 6) == 0;
    assert MaxHeaderFrom(s, 0) == 2;
    assert forall j :: 0 < j <= |s| ==> !OccursAt(s, "{{c", j) by {
      forall j | 0 < j <= |s| ensures !OccursAt(s, "{{c", j) {
        if j + 3 <= |s| {
          assert s[j..j + 3][1] == s[j + 1] != '{';
        }
      }
    }
    assert Cloze.MatchAt(s, 0).None? by {
      assert Cloze.LazyContent(s, 0, "2", 6, 6).None?;
    }
    assert Cloze.Exec(s, 0).None?;
  }

  // ---------------------------------------------------------------- isClozeType

  /** `selectedNoteType && selectedNoteType.name === 'Cloze'`: a type the editor treats as cloze the backend treats as cloze too. */
  function EditorIsClozeType(selected: Option<NoteType>): (b: bool)
    ensures b ==> selected.Some? && IsClozeType(selected.value.name, selected.value.config.templates.GetOr([]))
  {
    selected.Some? && selected.value.name == "Cloze"
  }

  /** The converse fails: a type named otherwise whose template uses `{{cloze:` is cloze only for the backend. */
  lemma BackendClozeNotEditorCloze(t: Template)
    requires t.front == "{{cloze:Text}}"
    ensures var noteType := NoteType("Basic", NoteTypeConfig(None, Some([t])));
      IsClozeType(noteType.name, [t]) && !EditorIsClozeType(Some(noteType))
  {
    assert OccursAt(t.front, "{{cloze:", 0);
    assert [t][0].front == t.front;
  }

  // ---------------------------------------------------------------- previewContent

  /** `config.fields || ['Front', 'Back']`, and `['Front', 'Back']` with no note type selected. */
  function EditorFieldNames(selected: Option<NoteType>): (names: seq<string>)
    ensures selected.None? || selected.value.config.fields.None? ==> names == ["Front", "Back"]
    ensures selected.Some? && selected.value.config.fields.Some? ==> names == selected.value.config.fields.value
  {
    if selected.None? then ["Front", "Back"] else selected.value.config.fields.GetOr(["Front", "Back"])
  }

  /** The front's cloze callback: an index-1 cloze becomes a blank showing its hint or "...", any other cloze its content. */
  function FrontBlank(m: Cloze.RegexMatch): (r: string)
    ensures ParseInt(m.digits) != Some(1) ==> r == m.content
  {
    if ParseInt(m.digits) == Some(1) then
      Cloze.BlankOpen + (if Cloze.Truthy(m.hint) then m.hint.value else "...") + Cloze.BlankClose
    else m.content
  }

  /** The back's cloze callback: every cloze, whatever its index, is revealed as the backend reveals a card's own cloze. */
  function BackReveal(m: Cloze.RegexMatch): (r: string)
    ensures ParseInt(m.digits).Some? ==> r == Cloze.RenderOne(m, ParseInt(m.digits).value, true)
  {
    Cloze.RevealOpen + m.content + Cloze.SpanClose
  }

  /** `{{cloze:F}}` on the front: field F with its clozes rendered by `FrontBlank`. */
  function FrontClozeValue(fieldsMap: map<string, string>): string -> string {
    (name: string) => Cloze.ReplaceMatches(Lookup(fieldsMap, name), 0, FrontBlank)
  }

  /** `{{cloze:F}}` on the back: field F with its clozes rendered by `BackReveal`. */
  function BackClozeValue(fieldsMap: map<string, string>): string -> string {
    (name: string) => Cloze.ReplaceMatches(Lookup(fieldsMap, name), 0, BackReveal)
  }

  /** The front after the cloze pass, which is also what `{{FrontSide}}` on the back becomes. */
  function ClozeFront(t: Template, fieldsMap: map<string, string>): string {
    ReplaceFields(t.front, 0, ClozeField, FrontClozeValue(fieldsMap))
  }

  function ClozeBack(t: Template, fieldsMap: map<string, string>): string {
    ReplaceFields(t.back, 0, ClozeField, BackClozeValue(fieldsMap))
  }

  /**
   * The keys of `fieldsMap` in the order `Object.entries` lists them: the
   * order in which `forEach` first assigned them.
   */
  function EntryOrder(names: seq<string>): (keys: seq<string>)
    ensures forall x :: x in keys <==> x in names
    ensures forall i, j :: 0 <= i < j < |keys| ==> keys[i] != keys[j]
    ensures forall i, j :: 0 <= i < j < |keys| ==> FirstIndex(names, keys[i]) < FirstIndex(names, keys[j])
    decreases |names|
  {
    if names == [] then []
    else
      var init, last := names[..|names| - 1], names[|names| - 1];
      assert names == init + [last];
      FirstIndexExtend(init, last);
      var rest := EntryOrder(init);
      if last in rest then rest else rest + [last]
  }

  /** The position of the first occurrence of `x` in `s`: where `forEach` first assigns the key. */
  function FirstIndex(s: seq<string>, x: string): (k: nat)
    requires x in s
    ensures k < |s| && s[k] == x && x !in s[..k]
  {
    if s[0] == x then 0
    else
      assert s == [s[0]] + s[1..];
      var k := FirstIndex(s[1..], x);
      assert s[..k + 1] == [s[0]] + s[1..][..k];
      k + 1
  }

  /** A position holding `x` with no `x` before it is the first occurrence. */
  lemma FirstIndexUnique(s: seq<string>, x: string, k: nat)
    requires k < |s| && s[k] == x && x !in s[..k]
    ensures FirstIndex(s, x) == k
  {
  }

  /** Appending a name keeps the first positions of the earlier names, and a new name comes last. */
  lemma FirstIndexExtend(init: seq<string>, last: string)
    ensures forall y :: y in init ==> FirstIndex(init + [last], y) == FirstIndex(init, y)
    ensures last !in init ==> FirstIndex(init + [last], last) == |init|
  {
    var s := init + [last];
    forall y | y in init ensures FirstIndex(s, y) == FirstIndex(init, y) {
      var k := FirstIndex(init, y);
      assert s[..k] == init[..k];
      FirstIndexUnique(s, y, k);
    }
    if last !in init {
      assert s[..|init|] == init;
      FirstIndexUnique(s, last, |init|);
    }
  }

  /**
   * The `Object.entries(fieldsMap).forEach` pass over the first `n` keys:
   * each `{{name}}` replaced, in turn, through `String.prototype.replace`
   * with the value as replacement string.
   */
  function ReplaceEach(text: string, keys: seq<string>, n: nat, fieldsMap: map<string, string>): (r: string)
    requires n <= |keys|
    ensures !Includes(text, "{{") ==> r == text
  {
    if n == 0 then text
    else if !Includes(text, "{{") then
      assert "{{" + keys[n - 1] + "}}" == "{{" + (keys[n - 1] + "}}");
      PrefixIncluded(text, "{{", keys[n - 1] + "}}");
      JsReplace.ReplaceAll(ReplaceEach(text, keys, n - 1, fieldsMap), "{{" + keys[n - 1] + "}}", Lookup(fieldsMap, keys[n - 1]))
    else
      JsReplace.ReplaceAll(ReplaceEach(text, keys, n - 1, fieldsMap), "{{" + keys[n - 1] + "}}", Lookup(fieldsMap, keys[n - 1]))
  }

  /** What `previewContent` shows. */
  datatype Preview = Preview(front: string, back: string)

  /**
   * `back.replace(/\{\{FrontSide\}\}/g, front)`: the front goes in as a
   * replacement string, which is the backend's verbatim insertion when the
   * front holds no `$`.
   */
  function FrontSidePass(back: string, front: string): (r: string)
    ensures '$' !in front ==> r == JsReplace.ReplaceAllVerbatim(back, "{{FrontSide}}", front)
    ensures !Includes(back, "{{FrontSide}}") ==> r == back
  {
    if '$' !in front then
      JsReplace.ReplaceAllWithoutDollar(back, "{{FrontSide}}", front);
      JsReplace.ReplaceAll(back, "{{FrontSide}}", front)
    else
      JsReplace.ReplaceAll(back, "{{FrontSide}}", front)
  }

  /** The preview of template `t`: the cloze pass, `{{FrontSide}}` on the back, then the field pass on both sides. */
  function TemplatePreview(t: Template, fieldsMap: map<string, string>, keys: seq<string>): (p: Preview)
    ensures !Includes(t.front, "{{") && !Includes(t.back, "{{") ==> p == Preview(t.front, t.back)
  {
    if !Includes(t.front, "{{") && !Includes(t.back, "{{") then
      TemplatePreviewWithoutBraces(t, fieldsMap, keys);
      TemplatePreviewOf(t, fieldsMap, keys)
    else
      TemplatePreviewOf(t, fieldsMap, keys)
  }

  /** The passes of the preview, in order. */
  function TemplatePreviewOf(t: Template, fieldsMap: map<string, string>, keys: seq<string>): Preview {
    var front := ClozeFront(t, fieldsMap);
    var back := FrontSidePass(ClozeBack(t, fieldsMap), front);
    Preview(ReplaceEach(front, keys, |keys|, fieldsMap), ReplaceEach(back, keys, |keys|, fieldsMap))
  }

  /**
   * `previewContent`: nothing without a note type; the first two fields
   * without templates; otherwise `templates[0]` previewed with the fields
   * mapped by name.
   */
  function PreviewOf(selected: Option<NoteType>, fields: seq<string>): (p: Preview)
    ensures selected.None? ==> p == Preview("", "")
    ensures selected.Some? && selected.value.config.templates.GetOr([]) == [] ==>
      p == Preview(Notes.FieldOr(fields, 0), Notes.FieldOr(fields, 1))
  {
    if selected.None? then Preview("", "")
    else
      var templates := selected.value.config.templates.GetOr([]);
      if templates == [] then Preview(Notes.FieldOr(fields, 0), Notes.FieldOr(fields, 1))
      else
        var names := EditorFieldNames(selected);
        TemplatePreview(templates[0], Notes.ZipFields(names, fields, |names|), EntryOrder(names))
  }

  /** The `Object.entries(fieldsMap).forEach` loop, run over both sides. */
  method ReplaceEntries(front0: string, back0: string, keys: seq<string>, fieldsMap: map<string, string>) returns (front: string, back: string)
    ensures front == ReplaceEach(front0, keys, |keys|, fieldsMap)
    ensures back == ReplaceEach(back0, keys, |keys|, fieldsMap)
  {
    front, back := front0, back0;
    var i := 0;
    while i < |keys|
      invariant 0 <= i <= |keys|
      invariant front == ReplaceEach(front0, keys, i, fieldsMap)
      invariant back == ReplaceEach(back0, keys, i, fieldsMap)
    {
      var name := keys[i];
      ReplaceEachStep(front0, keys, i, fieldsMap);
      ReplaceEachStep(back0, keys, i, fieldsMap);
      front := JsReplace.ReplaceAll(front, "{{" + name + "}}", Lookup(fieldsMap, name));
      back := JsReplace.ReplaceAll(back, "{{" + name + "}}", Lookup(fieldsMap, name));
      i := i + 1;
    }
  }

  /** One more key of the field pass. */
  lemma ReplaceEachStep(text: string, keys: seq<string>, i: nat, fieldsMap: map<string, string>)
    requires i < |keys|
    ensures ReplaceEach(text, keys, i + 1, fieldsMap) ==
      JsReplace.ReplaceAll(ReplaceEach(text, keys, i, fieldsMap), "{{" + keys[i] + "}}", Lookup(fieldsMap, keys[i]))
  {
  }

  /** `previewContent`, with the two `forEach` loops written out. */
  method PreviewContent(selected: Option<NoteType>, fields: seq<string>) returns (p: Preview)
    ensures p == PreviewOf(selected, fields)
  {
    if selected.None? {
      return Preview("", "");
    }
    var templates := selected.value.config.templates.GetOr([]);
    if |templates| == 0 {
      return Preview(Notes.FieldOr(fields, 0), Notes.FieldOr(fields, 1));
    }
    var template := templates[0];
    var names := EditorFieldNames(selected);
    var fieldsMap := Notes.GetFieldsObject(fields, names);
    var front := ClozeFront(template, fieldsMap);
    var back := ClozeBack(template, fieldsMap);
    back := FrontSidePass(back, front);
    front, back := ReplaceEntries(front, back, EntryOrder(names), fieldsMap);
    p := Preview(front, back);
  }

  lemma NoBracesNoFrontSide(s: string)
    requires !Includes(s, "{{")
    ensures !Includes(s, "{{FrontSide}}")
  {
    PrefixIncluded(s, "{{", "FrontSide}}");
    assert "{{" + "FrontSide}}" == "{{FrontSide}}";
  }

  /** The passes leave a template without "{{" as it is, on both sides. */
  lemma TemplatePreviewWithoutBraces(t: Template, fieldsMap: map<string, string>, keys: seq<string>)
    requires !Includes(t.front, "{{") && !Includes(t.back, "{{")
    ensures TemplatePreviewOf(t, fieldsMap, keys) == Preview(t.front, t.back)
  {
    NoBracesNoField(t.front, ClozeField);
    NoBracesNoField(t.back, ClozeField);
    assert t.front[0..] == t.front && t.back[0..] == t.back;
    NoBracesNoFrontSide(t.back);
  }

  /** A note type whose first template has no "{{" is previewed as that template, on both sides. */
  lemma PreviewWithoutBraces(noteType: NoteType, fields: seq<string>)
    requires noteType.config.templates.Some? && noteType.config.templates.value != []
    requires var t := noteType.config.templates.value[0]; !Includes(t.front, "{{") && !Includes(t.back, "{{")
    ensures PreviewOf(Some(noteType), fields) == Preview(noteType.config.templates.value[0].front, noteType.config.templates.value[0].back)
  {
  }

  /** "{{FrontSide}}" replaced by text without `$` is that text. */
  lemma FrontSideReplaced(t: string, front: string)
    requires t == "{{FrontSide}}" && '$' !in front
    ensures JsReplace.ReplaceAll(t, t, front) == front
  {
    JsReplace.VerbatimWhole(t, front);
    JsReplace.ReplaceAllWithoutDollar(t, t, front);
  }

  /** The back cloze pass leaves `{{FrontSide}}` alone: it has no ':'. */
  lemma FrontSideHasNoCloze(t: Template, fieldsMap: map<string, string>)
    requires t.back == "{{FrontSide}}"
    ensures ClozeBack(t, fieldsMap) == t.back
  {
    NoColonNoCloze(t.back);
    assert t.back[0..] == t.back;
  }

  /**
   * A back template that is just `{{FrontSide}}` previews exactly as the
   * front, provided the cloze-rendered front holds no `$`: the field pass
   * then runs over the same text on both sides.
   */
  lemma FrontSideBackIsFront(t: Template, fieldsMap: map<string, string>, keys: seq<string>)
    requires t.back == "{{FrontSide}}" && '$' !in ClozeFront(t, fieldsMap)
    ensures TemplatePreview(t, fieldsMap, keys).back == TemplatePreview(t, fieldsMap, keys).front
  {
    FrontSideHasNoCloze(t, fieldsMap);
    FrontSideReplaced(t.back, ClozeFront(t, fieldsMap));
  }

  /**
   * The editor's blank against the backend's card 1: the same with a hint;
   * without one the editor shows "[...]" where the backend shows "[[...]]";
   * a cloze of another index shows its content in both.
   */
  lemma FrontBlankVersusCardOne(m: Cloze.RegexMatch)
    ensures Cloze.Truthy(m.hint) ==> FrontBlank(m) == Cloze.RenderOne(m, 1, false)
    ensures ParseInt(m.digits) == Some(1) && !Cloze.Truthy(m.hint) ==>
      FrontBlank(m) == "<span class=\"cloze-blank\">[...]</span>"
      && Cloze.RenderOne(m, 1, false) == "<span class=\"cloze-blank\">[[...]]</span>"
    ensures ParseInt(m.digits) != Some(1) ==> FrontBlank(m) == Cloze.RenderOne(m, 1, false) == m.content
  {
  }

  /** A field whose index-1 clozes all carry a hint previews on the front as the backend renders card 1. */
  lemma FrontFieldAsCardOne(v: string)
    requires forall i :: 0 <= i < |Cloze.Clozes(v)| && Cloze.Clozes(v)[i].index == 1 ==> Cloze.Clozes(v)[i].hint.Some?
    ensures Cloze.ReplaceMatches(v, 0, FrontBlank) == Cloze.RenderCloze(v, 1, false)
  {
    var ms := Cloze.AllMatchesFrom(v, 0);
    forall i | 0 <= i < |ms| ensures FrontBlank(ms[i]) == Cloze.RenderOne(ms[i], 1, false) {
      Cloze.ClozeIndexIsParseInt(v, ms[i]);
      assert Cloze.Clozes(v)[i] == Cloze.ToCloze(v, ms[i]);
      FrontBlankVersusCardOne(ms[i]);
    }
    Cloze.ReplaceMatchesAgree(v, 0, FrontBlank, m => Cloze.RenderOne(m, 1, false));
  }

  /** A field whose clozes all carry index k previews on the back as the backend renders card k's back. */
  lemma BackFieldAsCard(v: string, k: int)
    requires forall i :: 0 <= i < |Cloze.Clozes(v)| ==> Cloze.Clozes(v)[i].index == k
    ensures Cloze.ReplaceMatches(v, 0, BackReveal) == Cloze.RenderCloze(v, k, true)
  {
    var ms := Cloze.AllMatchesFrom(v, 0);
    forall i | 0 <= i < |ms| ensures BackReveal(ms[i]) == Cloze.RenderOne(ms[i], k, true) {
      Cloze.ClozeIndexIsParseInt(v, ms[i]);
      assert Cloze.Clozes(v)[i] == Cloze.ToCloze(v, ms[i]);
    }
    Cloze.ReplaceMatchesAgree(v, 0, BackReveal, m => Cloze.RenderOne(m, k, true));
  }
}
