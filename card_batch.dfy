/**
 * backend/src/models/Card.js: `createMany`, the batch INSERT. It builds one
 * placeholder group `($k+1, ..., $k+6)` per card and one flat parameter list
 * in the order of the INSERT's column list. The query itself and the rows it
 * returns are not modelled.
 */
module CardBatch {
  import opened Common
  import opened JsText

  /** `CARD_PARAM_COUNT`. */
  const CardParamCount: nat := 6

  /** The column list of `INSERT INTO cards (...)`. */
  const Columns: seq<string> := ["deck_id", "front", "back", "source_url", "note_id", "ord"]

  /** A query parameter as node-postgres receives it. */
  datatype SqlParam = IntParam(i: int) | TextParam(s: string) | NullParam

  /** A card object handed to `createMany`; the optional keys may be missing (None). */
  datatype NewCard = NewCard(deckId: int, front: string, back: string, sourceUrl: Option<string>, noteId: Option<int>, ord: Option<int>)

  /** What the INSERT stores in column `column` for the card: `|| null` and `|| 0` map falsy values. */
  function ColumnValue(c: NewCard, column: string): SqlParam {
    match column
    case "deck_id" => IntParam(c.deckId)
    case "front" => TextParam(c.front)
    case "back" => TextParam(c.back)
    case "source_url" => if c.sourceUrl.Some? && c.sourceUrl.value != "" then TextParam(c.sourceUrl.value) else NullParam
    case "note_id" => if c.noteId.Some? && c.noteId.value != 0 then IntParam(c.noteId.value) else NullParam
    case _ => IntParam(if c.ord.Some? then c.ord.value else 0)
  }

  /**
   * The six parameters `flatMap` contributes for one card. They follow the
   * INSERT's column list; a missing or empty source_url and a missing or zero
   * note_id become NULL, and a missing ord becomes 0.
   */
  function CardParams(c: NewCard): (ps: seq<SqlParam>)
    ensures |ps| == CardParamCount == |Columns|
    ensures forall j :: 0 <= j < CardParamCount ==> ps[j] == ColumnValue(c, Columns[j])
    ensures ps[3] == NullParam <==> c.sourceUrl.None? || c.sourceUrl.value == ""
    ensures ps[4] == NullParam <==> c.noteId.None? || c.noteId.value == 0
    ensures ps[5] == IntParam(c.ord.GetOr(0))
  {
    [IntParam(c.deckId), TextParam(c.front), TextParam(c.back),
     if c.sourceUrl.Some? && c.sourceUrl.value != "" then TextParam(c.sourceUrl.value) else NullParam,
     if c.noteId.Some? && c.noteId.value != 0 then IntParam(c.noteId.value) else NullParam,
     IntParam(if c.ord.Some? then c.ord.value else 0)]
  }

  /** `cards.flatMap(card => [...])` over the first `n` cards. */
  function Params(cards: seq<NewCard>, n: nat): (ps: seq<SqlParam>)
    requires n <= |cards|
    ensures |ps| == CardParamCount * n
    ensures forall k :: 0 <= k < |ps| ==> ps[k] == CardParams(cards[k / 6])[k % 6]
  {
    if n == 0 then []
    else
      var prev := Params(cards, n - 1);
      var ps := prev + CardParams(cards[n - 1]);
      forall k | 0 <= k < |ps| ensures ps[k] == CardParams(cards[k / 6])[k % 6] {
        if k >= |prev| {
          assert k / 6 == n - 1 && k % 6 == k - |prev|;
        }
      }
      ps
  }

  /** The placeholder numbers of card `i`'s group: `offset + 1` to `offset + 6`, with `offset = i * 6`. */
  function GroupNumbers(i: nat): (nums: seq<nat>)
    ensures |nums| == CardParamCount
    ensures forall j :: 0 <= j < |nums| ==> nums[j] == i * CardParamCount + j + 1
  {
    var offset := i * CardParamCount;
    [offset + 1, offset + 2, offset + 3, offset + 4, offset + 5, offset + 6]
  }

  /** Every placeholder number of the first `n` groups, in the order the text lists them. */
  function AllNumbers(n: nat): (nums: seq<nat>)
    ensures |nums| == CardParamCount * n
    ensures forall k :: 0 <= k < |nums| ==> nums[k] == k + 1
  {
    if n == 0 then []
    else
      var prev := AllNumbers(n - 1);
      var nums := prev + GroupNumbers(n - 1);
      forall k | 0 <= k < |nums| ensures nums[k] == k + 1 {
        if k >= |prev| {
          assert nums[k] == GroupNumbers(n - 1)[k - |prev|];
        }
      }
      nums
  }

  /** `"$" + k` for each placeholder number. */
  function Dollars(nums: seq<nat>): (r: seq<string>)
    ensures |r| == |nums|
    ensures forall j :: 0 <= j < |nums| ==> r[j] == "$" + NatToString(nums[j])
  {
    if nums == [] then [] else ["$" + NatToString(nums[0])] + Dollars(nums[1..])
  }

  /** `($${offset + 1}, $${offset + 2}, ..., $${offset + 6})`: the group's placeholders between parentheses, ", " apart. */
  function GroupText(i: nat): string {
    "(" + Join(Dollars(GroupNumbers(i)), ", ") + ")"
  }

  /** The `VALUES` list: the groups of all cards joined by ", ". */
  function ValuesText(n: nat): string {
    Join(Tabulate(GroupText, n), ", ")
  }

  /** What `createMany` sends: the `VALUES` text and the parameter list. */
  datatype Batch = Batch(values: string, params: seq<SqlParam>)

  /**
   * `createMany(cards)`: no query at all for an empty list; otherwise the
   * text joins one group per card, slot `k % 6` of group `k / 6` reads
   * `$k+1`, and that placeholder is bound to parameter k, which is column
   * `k % 6` of card `k / 6`.
   */
  function CreateMany(cards: seq<NewCard>): (r: Option<Batch>)
    ensures r.None? <==> cards == []
    ensures r.Some? ==> r.value.values == ValuesText(|cards|)
    ensures r.Some? ==> |r.value.params| == CardParamCount * |cards| == |AllNumbers(|cards|)|
    ensures r.Some? ==> forall k :: 0 <= k < |r.value.params| ==>
      Tabulate(GroupText, |cards|)[k / 6] == "(" + Join(Dollars(GroupNumbers(k / 6)), ", ") + ")"
      && Dollars(GroupNumbers(k / 6))[k % 6] == "$" + NatToString(k + 1)
      && r.value.params[k] == ColumnValue(cards[k / 6], Columns[k % 6])
  {
    if |cards| == 0 then None
    else
      PlaceholderSlots(|cards|);
      Some(Batch(ValuesText(|cards|), Params(cards, |cards|)))
  }

  /** Slot `k % 6` of group `k / 6` of the first `n` groups is the placeholder `$k+1`. */
  lemma PlaceholderSlots(n: nat)
    ensures forall k :: 0 <= k < CardParamCount * n ==>
      Tabulate(GroupText, n)[k / 6] == "(" + Join(Dollars(GroupNumbers(k / 6)), ", ") + ")"
      && Dollars(GroupNumbers(k / 6))[k % 6] == "$" + NatToString(k + 1)
  {
    forall k | 0 <= k < CardParamCount * n
      ensures Tabulate(GroupText, n)[k / 6] == "(" + Join(Dollars(GroupNumbers(k / 6)), ", ") + ")"
      ensures Dollars(GroupNumbers(k / 6))[k % 6] == "$" + NatToString(k + 1)
    {
      var i, j := k / 6, k % 6;
      assert k == i * CardParamCount + j;
      assert i < n;
      assert GroupNumbers(i)[j] == k + 1;
    }
  }

  /** The groups of the `VALUES` text list the placeholder numbers 1 to 6n, group by group. */
  lemma {:induction false} GroupsListAllNumbers(n: nat)
    ensures forall i :: 0 <= i < n ==> Tabulate(GroupText, n)[i] == "(" + Join(Dollars(GroupNumbers(i)), ", ") + ")"
    ensures forall i, j :: 0 <= i < n && 0 <= j < CardParamCount ==> GroupNumbers(i)[j] == AllNumbers(n)[i * CardParamCount + j]
  {
    forall i, j | 0 <= i < n && 0 <= j < CardParamCount
      ensures GroupNumbers(i)[j] == AllNumbers(n)[i * CardParamCount + j]
    {
      assert i * CardParamCount + j < CardParamCount * n by {
        assert i * CardParamCount + j < (i + 1) * CardParamCount;
        assert (i + 1) * CardParamCount <= n * CardParamCount;
      }
    }
  }

  /** A single card gets the placeholders `$1` to `$6`; a second card continues at `$7`. */
  lemma FirstGroups()
    ensures GroupNumbers(0) == [1, 2, 3, 4, 5, 6]
    ensures GroupNumbers(1) == [7, 8, 9, 10, 11, 12]
  {
  }
}
