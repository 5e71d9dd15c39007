/**
 * backend/src/models/Note.js: `getFieldsObject` (the forEach that fills a
 * field-name dictionary), `getTagsArray`, and the WHERE clauses of
 * `findDuplicates` and `findByTags` as filters over the stored rows.
 * A JSON `fields` column is already a sequence of strings here.
 */
module Notes {
  import opened Common
  import opened JsText

  // ---------------------------------------------------------------- getFieldsObject

  /** `fields[index] || ''`: the value at `i`, or '' past the end (an empty value is '' anyway). */
  function FieldOr(values: seq<string>, i: nat): (r: string)
    ensures i < |values| ==> r == values[i]
    ensures i >= |values| ==> r == ""
  {
    if i < |values| then values[i] else ""
  }

  /** The dictionary after the first `n` steps of the forEach: later names overwrite earlier ones. */
  function ZipFields(names: seq<string>, values: seq<string>, n: nat): (m: map<string, string>)
    requires n <= |names|
    ensures m.Keys == set i | 0 <= i < n :: names[i]
  {
    if n == 0 then map[]
    else
      var m := ZipFields(names, values, n - 1);
      assert (set i | 0 <= i < n :: names[i]) == (set i | 0 <= i < n - 1 :: names[i]) + {names[n - 1]};
      m[names[n - 1] := FieldOr(values, n - 1)]
  }

  /** A name whose last occurrence among the first `n` is position `i` maps to the value at `i`. */
  lemma {:induction false} ZipFieldsLastWins(names: seq<string>, values: seq<string>, n: nat, i: nat)
    requires i < n <= |names|
    requires forall j :: i < j < n ==> names[j] != names[i]
    ensures ZipFields(names, values, n)[names[i]] == FieldOr(values, i)
    decreases n
  {
    if i < n - 1 {
      ZipFieldsLastWins(names, values, n - 1, i);
    }
  }

  /** Values past the last name are never read. */
  lemma {:induction false} ZipFieldsIgnoresExtra(names: seq<string>, values: seq<string>, extra: seq<string>, n: nat)
    requires n <= |names| <= |values|
    ensures ZipFields(names, values + extra, n) == ZipFields(names, values, n)
    decreases n
  {
    if n > 0 {
      ZipFieldsIgnoresExtra(names, values, extra, n - 1);
      assert (values + extra)[n - 1] == values[n - 1];
    }
  }

  /**
   * `Note.getFieldsObject(note, fieldNames)`: every name is a key, and each
   * name maps to the value at its LAST position (or '' when there is none).
   */
  method GetFieldsObject(fields: seq<string>, fieldNames: seq<string>) returns (fieldsMap: map<string, string>)
    ensures fieldsMap == ZipFields(fieldNames, fields, |fieldNames|)
    ensures fieldsMap.Keys == set i | 0 <= i < |fieldNames| :: fieldNames[i]
    ensures forall i :: 0 <= i < |fieldNames| && (forall j :: i < j < |fieldNames| ==> fieldNames[j] != fieldNames[i]) ==>
      fieldsMap[fieldNames[i]] == FieldOr(fields, i)
  {
    fieldsMap := map[];
    var index := 0;
    while index < |fieldNames|
      invariant 0 <= index <= |fieldNames|
      invariant fieldsMap == ZipFields(fieldNames, fields, index)
    {
      fieldsMap := fieldsMap[fieldNames[index] := if index < |fields| then fields[index] else ""];
      index := index + 1;
    }
    forall i | 0 <= i < |fieldNames| && (forall j :: i < j < |fieldNames| ==> fieldNames[j] != fieldNames[i])
      ensures fieldsMap[fieldNames[i]] == FieldOr(fields, i)
    {
      ZipFieldsLastWins(fieldNames, fields, |fieldNames|, i);
    }
  }

  // ---------------------------------------------------------------- getTagsArray

  predicate AllSpaces(s: string) {
    forall i :: 0 <= i < |s| ==> IsSpace(s[i])
  }

  /**
   * `Note.getTagsArray(note)`: no tags for a missing, empty or blank column;
   * otherwise the trimmed text split on whitespace runs, so every token is a
   * non-empty word and the tokens joined by single spaces are the trimmed text
   * with its whitespace runs collapsed.
   */
  function GetTagsArray(tags: Option<string>): (r: seq<string>)
    ensures r == [] <==> tags.None? || AllSpaces(tags.value)
    ensures forall i :: 0 <= i < |r| ==> r[i] != [] && NoSpace(r[i])
    ensures r != [] ==> Join(r, " ") == CollapseSpaces(Trim(tags.value))
  {
    if tags.None? || tags.value == [] || Trim(tags.value) == "" then []
    else
      var t := Trim(tags.value);
      SplitOnSpacesTokens(t);
      JoinSplitOnSpaces(t);
      SplitOnSpaces(t)
  }

  /** Tags written back as one space-separated string read back as the same tags. */
  lemma TagsRoundTrip(ts: seq<string>)
    requires ts != []
    requires forall i :: 0 <= i < |ts| ==> ts[i] != [] && NoSpace(ts[i])
    ensures GetTagsArray(Some(Join(ts, " "))) == ts
  {
    var s := Join(ts, " ");
    JoinFirstChar(ts, " ");
    JoinLastChar(ts, " ");
    TrimOfTrimmed(s);
    SplitJoinSpaces(ts);
  }

  lemma {:induction false} JoinLastChar(ts: seq<string>, sep: string)
    requires ts != [] && ts[|ts| - 1] != []
    ensures Join(ts, sep) != [] && Join(ts, sep)[|Join(ts, sep)| - 1] == ts[|ts| - 1][|ts[|ts| - 1]| - 1]
    decreases |ts|
  {
    if |ts| > 1 {
      JoinLastChar(ts[1..], sep);
      JoinCons(ts[0], ts[1..], sep);
      assert [ts[0]] + ts[1..] == ts;
    }
  }

  // ---------------------------------------------------------------- findDuplicates

  /** A `notes` row: id, note type, the JSON field array, and the tags column (NULL is None). */
  datatype NoteRow = NoteRow(id: int, noteTypeId: int, fields: seq<string>, tags: Option<string>)

  /** `if (excludeNoteId)`: the exclusion applies only to a present, non-zero id. */
  predicate Excludes(excludeNoteId: Option<int>) {
    excludeNoteId.Some? && excludeNoteId.value != 0
  }

  /** `note_type_id = $1 AND fields->0 = $2 [AND id != $3]`; an empty array has no element 0. */
  function IsDuplicate(row: NoteRow, noteTypeId: int, firstFieldValue: string, excludeNoteId: Option<int>): (b: bool)
    ensures b ==> row.fields != [] && row.fields[0] == firstFieldValue
    ensures excludeNoteId == Some(row.id) && row.id != 0 ==> !b
    ensures !Excludes(excludeNoteId) ==> (b <==> row.noteTypeId == noteTypeId && row.fields != [] && row.fields[0] == firstFieldValue)
  {
    row.noteTypeId == noteTypeId && |row.fields| > 0 && row.fields[0] == firstFieldValue
    && (Excludes(excludeNoteId) ==> row.id != excludeNoteId.value)
  }

  /**
   * `Note.findDuplicates`: the rows of the same note type whose first field is
   * the value, each kept as often as it occurs, never the excluded note.
   */
  function FindDuplicates(rows: seq<NoteRow>, noteTypeId: int, firstFieldValue: string, excludeNoteId: Option<int>): (r: seq<NoteRow>)
    ensures forall x :: x in r <==>
      x in rows && x.noteTypeId == noteTypeId && |x.fields| > 0 && x.fields[0] == firstFieldValue
      && (Excludes(excludeNoteId) ==> x.id != excludeNoteId.value)
    ensures forall x :: IsDuplicate(x, noteTypeId, firstFieldValue, excludeNoteId) ==> multiset(r)[x] == multiset(rows)[x]
  {
    var dup := (row: NoteRow) => IsDuplicate(row, noteTypeId, firstFieldValue, excludeNoteId);
    FilterCounts(rows, dup);
    Filter(rows, dup)
  }

  // ---------------------------------------------------------------- findByTags

  /**
   * PostgreSQL `s LIKE pat`: `%` matches any run, `_` any one character, and
   * a backslash makes the next character literal. A pattern ending in a lone
   * backslash is an error in PostgreSQL; it matches nothing here, and the
   * patterns `findByTags` builds never end in one.
   */
  function Like(s: string, pat: string): (b: bool)
    ensures PlainPattern(pat) ==> (b <==> s == pat)
    decreases |s| + |pat|
  {
    if pat == [] then s == []
    else if pat[0] == '%' then Like(s, pat[1..]) || (s != [] && Like(s[1..], pat))
    else if pat[0] == '\\' then |pat| >= 2 && s != [] && s[0] == pat[1] && Like(s[1..], pat[2..])
    else if pat[0] == '_' then s != [] && Like(s[1..], pat[1..])
    else
      assert PlainPattern(pat) ==> PlainPattern(pat[1..]);
      assert s != [] ==> (s == pat <==> s[0] == pat[0] && s[1..] == pat[1..]);
      s != [] && s[0] == pat[0] && Like(s[1..], pat[1..])
  }

  /** No LIKE metacharacter: the pattern text stands for itself. */
  predicate PlainPattern(p: string) {
    '%' !in p && '_' !in p && '\\' !in p
  }

  lemma {:induction false} LikeAnything(s: string)
    ensures Like(s, "%")
    decreases |s|
  {
    if s != [] {
      LikeAnything(s[1..]);
    }
  }

  /** A plain prefix of the pattern must be a prefix of the text. */
  lemma {:induction false} LikePlainPrefix(s: string, p: string, rest: string)
    requires PlainPattern(p)
    ensures Like(s, p + rest) <==> |p| <= |s| && s[..|p|] == p && Like(s[|p|..], rest)
    decreases |p|
  {
    if p != [] {
      var pat := p + rest;
      assert pat[0] == p[0] && pat[1..] == p[1..] + rest;
      assert p[0] in p;
      assert PlainPattern(p[1..]) by {
        assert forall c :: c in p[1..] ==> c in p;
      }
      if s != [] {
        LikePlainPrefix(s[1..], p[1..], rest);
        if |p| <= |s| {
          assert s[1..][|p| - 1..] == s[|p|..];
          assert s[..|p|] == [s[0]] + s[1..][..|p| - 1];
          assert p == [p[0]] + p[1..];
        }
      }
    } else {
      assert p + rest == rest && s[..0] == p && s[0..] == s;
    }
  }

  /** A leading `%` lets the rest of the pattern start anywhere. */
  lemma {:induction false} LikeLeadingPercent(s: string, q: string)
    ensures Like(s, "%" + q) <==> exists k :: 0 <= k <= |s| && Like(s[k..], q)
    decreases |s|
  {
    var pat := "%" + q;
    assert pat[0] == '%' && pat[1..] == q;
    assert s[0..] == s;
    if s != [] {
      LikeLeadingPercent(s[1..], q);
      if exists k :: 0 <= k <= |s| && Like(s[k..], q) {
        var k :| 0 <= k <= |s| && Like(s[k..], q);
        if k > 0 {
          assert s[1..][k - 1..] == s[k..];
        }
      }
      if exists k :: 0 <= k <= |s[1..]| && Like(s[1..][k..], q) {
        var k :| 0 <= k <= |s[1..]| && Like(s[1..][k..], q);
        assert s[1..][k..] == s[k + 1..];
      }
    }
  }

  /**
   * With a plain pattern, `tags LIKE '%' || p || '%'` is exactly the
   * substring test `tags.includes(p)`.
   */
  lemma LikeContains(s: string, p: string)
    requires PlainPattern(p)
    ensures Like(s, "%" + p + "%") <==> Includes(s, p)
  {
    assert "%" + p + "%" == "%" + (p + "%");
    LikeLeadingPercent(s, p + "%");
    forall k | 0 <= k <= |s| ensures Like(s[k..], p + "%") <==> OccursAt(s, p, k) {
      LikePlainPrefix(s[k..], p, "%");
      if |p| <= |s[k..]| {
        LikeAnything(s[k..][|p|..]);
        assert s[k..][..|p|] == s[k..k + |p|];
      }
    }
    if Includes(s, p) {
      var k := IndexOf(s, p, 0).value;
      assert OccursAt(s, p, k);
    }
  }

  /** The row filter of `findByTags`: a NULL tags column never matches. */
  function TagsMatch(row: NoteRow, tagPattern: string): (b: bool)
    ensures row.tags.None? ==> !b
    ensures PlainPattern(tagPattern) && row.tags.Some? ==> (b <==> Includes(row.tags.value, tagPattern))
  {
    if PlainPattern(tagPattern) && row.tags.Some? then
      LikeContains(row.tags.value, tagPattern);
      Like(row.tags.value, "%" + tagPattern + "%")
    else
      row.tags.Some? && Like(row.tags.value, "%" + tagPattern + "%")
  }

  /**
   * `Note.findByTags(tagPattern)`: the rows whose tags contain the pattern as
   * a substring (when it has no LIKE metacharacters), each as often as it occurs.
   */
  function FindByTags(rows: seq<NoteRow>, tagPattern: string): (r: seq<NoteRow>)
    ensures forall x :: x in r <==> x in rows && TagsMatch(x, tagPattern)
    ensures PlainPattern(tagPattern) ==>
      forall x :: x in r <==> x in rows && x.tags.Some? && Includes(x.tags.value, tagPattern)
    ensures forall x :: TagsMatch(x, tagPattern) ==> multiset(r)[x] == multiset(rows)[x]
  {
    var hit := (row: NoteRow) => TagsMatch(row, tagPattern);
    FilterCounts(rows, hit);
    Filter(rows, hit)
  }

  /** A substring of a larger text is found in it. */
  lemma IncludesInfix(x: string, b: string, y: string)
    ensures Includes(x + b + y, b)
  {
    var s := x + b + y;
    assert s[|x|..|x| + |b|] == b;
    assert OccursAt(s, b, |x|);
  }

  /** A middle segment such as "日语" finds the hierarchical tag "语言::日语::动词". */
  lemma SegmentMatches(a: string, b: string, c: string)
    requires PlainPattern(b)
    ensures Like(a + "::" + b + "::" + c, "%" + b + "%")
  {
    IncludesInfix(a + "::", b, "::" + c);
    assert a + "::" + b + "::" + c == (a + "::") + b + ("::" + c);
    LikeContains(a + "::" + b + "::" + c, b);
  }
}
