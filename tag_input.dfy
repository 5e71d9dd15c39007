/**
 * frontend/src/components/TagInput.js: the tag list the component derives
 * from its `value` prop, what its key handler and `removeTag` hand to
 * `onChange`, and how `renderTagLabel` cuts a hierarchical tag at "::".
 * React state is modelled as plain values: the handlers take the current
 * `value` and `inputValue` and return what they pass on.
 */
module TagInput {
  import opened Common
  import opened JsText
  import Notes

  /** `value.trim() ? value.trim().split(/\s+/) : []`. */
  function ParseTags(value: string): (tags: seq<string>)
    ensures forall i :: 0 <= i < |tags| ==> tags[i] != [] && NoSpace(tags[i])
  {
    ParseTagsAgreesWithBackend(value);
    if Trim(value) != "" then SplitOnSpaces(Trim(value)) else []
  }

  /** The editor parses a tag string exactly as `Note.getTagsArray` does on the backend. */
  lemma ParseTagsAgreesWithBackend(value: string)
    ensures (if Trim(value) != "" then SplitOnSpaces(Trim(value)) else []) == Notes.GetTagsArray(Some(value))
  {
    if value == [] {
      assert Trim(value) == [];
    }
  }

  /** Joining clean tags with spaces and parsing again gives the same tags. */
  lemma ParseJoined(ts: seq<string>)
    requires forall i :: 0 <= i < |ts| ==> ts[i] != [] && NoSpace(ts[i])
    ensures ParseTags(Join(ts, " ")) == ts
  {
    ParseTagsAgreesWithBackend(Join(ts, " "));
    if ts != [] {
      Notes.TagsRoundTrip(ts);
    } else {
      assert Trim(Join(ts, " ")) == [];
    }
  }

  // ---------------------------------------------------------------- handleKeyDown

  /** `e.key`: the two keys the handler looks at, and every other key. */
  datatype Key = Enter | Backspace | OtherKey

  /** What a key press does: the string passed to `onChange` (None: not called) and the input box afterwards. */
  datatype KeyOutcome = KeyOutcome(change: Option<string>, input: string)

  /**
   * `handleKeyDown`: Enter with a non-blank input adds the trimmed input
   * unless it is already a tag, and clears the input either way; Backspace in
   * an empty input removes the last tag; anything else does nothing.
   */
  function HandleKeyDown(key: Key, inputValue: string, value: string): (r: KeyOutcome)
    ensures key == Enter && Trim(inputValue) != "" ==>
      r.input == "" && (r.change.None? <==> Trim(inputValue) in ParseTags(value))
    ensures key == Enter && Trim(inputValue) != "" && Trim(inputValue) !in ParseTags(value) ==>
      r.change == Some(Join(ParseTags(value) + [Trim(inputValue)], " "))
    ensures key == Backspace && inputValue == "" && |ParseTags(value)| > 0 ==>
      r == KeyOutcome(Some(Join(ParseTags(value)[..|ParseTags(value)| - 1], " ")), inputValue)
    ensures !(key == Enter && Trim(inputValue) != "") && !(key == Backspace && inputValue == "" && |ParseTags(value)| > 0) ==>
      r == KeyOutcome(None, inputValue)
  {
    var tags := ParseTags(value);
    if key == Enter && Trim(inputValue) != "" then
      var newTag := Trim(inputValue);
      KeyOutcome(if newTag in tags then None else Some(Join(tags + [newTag], " ")), "")
    else if key == Backspace && inputValue == "" && |tags| > 0 then
      KeyOutcome(Some(Join(tags[..|tags| - 1], " ")), inputValue)
    else KeyOutcome(None, inputValue)
  }

  predicate NoDuplicates(ts: seq<string>) {
    forall i, j :: 0 <= i < j < |ts| ==> ts[i] != ts[j]
  }

  /**
   * Enter with a one-word input that is not yet a tag appends exactly that
   * tag: the new value parses as the old tags followed by it, so a list
   * without duplicates stays without.
   */
  lemma EnterAppendsTag(inputValue: string, value: string)
    requires Trim(inputValue) != "" && NoSpace(Trim(inputValue)) && Trim(inputValue) !in ParseTags(value)
    ensures var r := HandleKeyDown(Enter, inputValue, value);
      r.change.Some? && ParseTags(r.change.value) == ParseTags(value) + [Trim(inputValue)]
    ensures NoDuplicates(ParseTags(value)) ==> NoDuplicates(ParseTags(HandleKeyDown(Enter, inputValue, value).change.value))
  {
    var tags, newTag := ParseTags(value), Trim(inputValue);
    var ts := tags + [newTag];
    assert HandleKeyDown(Enter, inputValue, value).change == Some(Join(ts, " "));
    assert forall i :: 0 <= i < |ts| ==> ts[i] != [] && NoSpace(ts[i]) by {
      forall i | 0 <= i < |ts| ensures ts[i] != [] && NoSpace(ts[i]) {
        if i < |tags| { assert ts[i] == tags[i]; }
      }
    }
    ParseJoined(ts);
    if NoDuplicates(tags) {
      forall i, j | 0 <= i < j < |ts| ensures ts[i] != ts[j] {
        assert ts[i] == tags[i];
        if j == |tags| {
          assert tags[i] in tags;
        } else {
          assert ts[j] == tags[j];
        }
      }
    }
  }

  /** Three clean tags joined with spaces parse back to the three. */
  lemma ParseThree(x: string, y: string, z: string)
    requires x != [] && NoSpace(x) && y != [] && NoSpace(y) && z != [] && NoSpace(z)
    ensures ParseTags(x + " " + y + " " + z) == [x, y, z]
  {
    var ts := [x, y, z];
    JoinCons(x, [y, z], " ");
    JoinCons(y, [z], " ");
    assert [x] + [y, z] == ts && [y] + [z] == [y, z];
    assert Join(ts, " ") == x + " " + y + " " + z;
    ParseJoined(ts);
  }

  /**
   * An input with inner whitespace is added as one "tag" that the next parse
   * splits again, so a word already present comes back as a duplicate: with
   * the tag `x`, entering `x y` makes the value `x x y`.
   */
  lemma EnterSplitsSpacedInput(x: string, y: string)
    requires x != [] && NoSpace(x) && y != [] && NoSpace(y)
    ensures var r := HandleKeyDown(Enter, x + " " + y, x);
      r.change == Some(x + " " + x + " " + y)
      && ParseTags(r.change.value) == [x, x, y]
      && !NoDuplicates(ParseTags(r.change.value))
  {
    var input := x + " " + y;
    assert input[0] == x[0] && input[|input| - 1] == y[|y| - 1];
    TrimOfTrimmed(input);
    TrimOfTrimmed(x);
    SplitOnSpacesWord(x);
    assert ParseTags(x) == [x];
    assert input !in [x] by {
      assert |input| > |x|;
    }
    JoinCons(x, [input], " ");
    assert [x] + [input] == [x, input];
    assert x + " " + input == x + " " + x + " " + y;
    ParseThree(x, x, y);
    assert [x, x, y][0] == [x, x, y][1];
  }

  /** Backspace in an empty input removes exactly the last tag and keeps the others in order. */
  lemma BackspaceRemovesLast(value: string)
    requires |ParseTags(value)| > 0
    ensures var r := HandleKeyDown(Backspace, "", value);
      r.change.Some? && ParseTags(r.change.value) == ParseTags(value)[..|ParseTags(value)| - 1]
  {
    var tags := ParseTags(value);
    var ts := tags[..|tags| - 1];
    assert forall i :: 0 <= i < |ts| ==> ts[i] == tags[i];
    ParseJoined(ts);
  }

  // ---------------------------------------------------------------- removeTag

  function IsNot(tagToRemove: string): string -> bool {
    (tag: string) => tag != tagToRemove
  }

  /**
   * `removeTag(tagToRemove)`: the value with every occurrence of the tag
   * gone; the other tags keep their order and how often they occur.
   */
  function RemoveTag(tagToRemove: string, value: string): (r: string)
    ensures forall x :: x in ParseTags(r) <==> x in ParseTags(value) && x != tagToRemove
    ensures forall x :: x != tagToRemove ==> multiset(ParseTags(r))[x] == multiset(ParseTags(value))[x]
    ensures ParseTags(r) == Filter(ParseTags(value), IsNot(tagToRemove))
  {
    var tags := ParseTags(value);
    var kept := Filter(tags, IsNot(tagToRemove));
    assert forall i :: 0 <= i < |kept| ==> kept[i] in kept;
    ParseJoined(kept);
    FilterCounts(tags, IsNot(tagToRemove));
    Join(kept, " ")
  }

  // ---------------------------------------------------------------- renderTagLabel

  /** What `renderTagLabel` shows: the tag as it is, or its "::"-separated parts. */
  datatype TagLabel = Plain(tag: string) | Hierarchical(parts: seq<string>)

  /**
   * `renderTagLabel(tag)`: a tag containing "::" is shown part by part with a
   * "::" separator between neighbours; joining the parts with "::" is the tag,
   * and no part contains "::".
   */
  function RenderTagLabel(tag: string): (r: TagLabel)
    ensures r.Plain? <==> !Includes(tag, "::")
    ensures r.Plain? ==> r.tag == tag
    ensures r.Hierarchical? ==> |r.parts| > 1 && Join(r.parts, "::") == tag
    ensures r.Hierarchical? ==> forall i :: 0 <= i < |r.parts| ==> !Includes(r.parts[i], "::")
  {
    var parts := SplitOn(tag, "::");
    JoinSplitOn(tag, "::");
    SplitOnPartsFree(tag, "::");
    if |parts| > 1 then Hierarchical(parts) else Plain(tag)
  }
}
