/**
 * The request builder of `call_gpt_for_vocab` and `call_gpt_for_phrasal_verbs`:
 * the "do not reuse" block built from the forbidden words, and the parts of the
 * instruction it fills in (mode and topic, count, rarity level, seed).
 */
module Prompt {
  import opened Wrappers
  import opened Text
  import opened Sorting

  /** At most this many forbidden words are written into a request (`unique[:200]`). */
  const MaxForbidden: nat := 200

  /** The seed is drawn with `random.randint(1, 1_000_000)`. */
  const MaxSeed: int := 1_000_000

  /** `{w.strip() for w in forbidden_words if w}`; nothing when the argument is `None`. */
  function Candidates(words: Option<seq<string>>): set<string>
  {
    if words.None? then {} else set w | w in words.value && w != "" :: Strip(w)
  }

  /** The truthy entries of `ws`, stripped, in their original order. */
  function StrippedTruthy(ws: seq<string>): (r: seq<string>)
    ensures Elems(r) == Candidates(Some(ws))
  {
    if ws == [] then []
    else
      var head := if ws[0] != "" then [Strip(ws[0])] else [];
      var rest := StrippedTruthy(ws[1..]);
      assert ws == [ws[0]] + ws[1..];
      assert Elems(head + rest) == Elems(head) + Elems(rest);
      assert Candidates(Some(ws)) == Candidates(Some([ws[0]])) + Candidates(Some(ws[1..]));
      head + rest
  }

  /**
   * The words the request forbids: the stripped truthy entries, deduplicated,
   * sorted and cut to the first `MaxForbidden`. Empty when `forbidden_words`
   * is `None` or empty.
   */
  function ForbiddenList(words: Option<seq<string>>): (r: seq<string>)
    ensures StrictlySorted(r)
    ensures |r| == if |Candidates(words)| < MaxForbidden then |Candidates(words)| else MaxForbidden
    ensures Elems(r) <= Candidates(words)
    ensures forall x, y :: x in Candidates(words) && x !in Elems(r) && y in Elems(r) ==> Less(y, x)
  {
    if words.None? || words.value == [] then []
    else
      var unique := InsertAll(StrippedTruthy(words.value));
      SortedLength(unique);
      TakeKeepsSmallest(unique, MaxForbidden);
      Take(unique, MaxForbidden)
  }

  /** The forbidden list is exactly the first `MaxForbidden` elements of `sorted` of the candidates. */
  lemma ForbiddenIsFirstOfSorted(words: Option<seq<string>>)
    ensures ForbiddenList(words) == Take(SortedOf(Candidates(words)), MaxForbidden)
  {
    if words.Some? && words.value != [] {
      ListingUnique(InsertAll(StrippedTruthy(words.value)), SortedOf(Candidates(words)));
    }
  }

  /** Up to the cap, nothing is dropped: every candidate is forbidden. */
  lemma {:induction false} ForbiddenKeepsAllWhenSmall(words: Option<seq<string>>)
    requires |Candidates(words)| <= MaxForbidden
    ensures Elems(ForbiddenList(words)) == Candidates(words)
  {
    var r := ForbiddenList(words);
    SortedLength(r);
    var missing := Candidates(words) - Elems(r);
    assert |Candidates(words)| == |Elems(r)| + |missing|;
  }

  /**
   * Nothing is forbidden exactly when `forbidden_words` is `None`, or empty, or
   * holds only falsy (empty) entries.
   */
  lemma ForbiddenEmptyIff(words: Option<seq<string>>)
    ensures ForbiddenList(words) == [] <==> (words.None? || forall w :: w in words.value ==> w == "")
  {
    if words.Some? && exists w :: w in words.value && w != "" {
      var w :| w in words.value && w != "";
      assert Strip(w) in Candidates(words);
    }
  }

  /**
   * A whitespace-only entry is truthy, so its stripped form, the empty string,
   * is a candidate; being the least string, it always survives the cut and is
   * listed first.
   */
  lemma {:induction false} BlankEntryForbidsEmptyString(ws: seq<string>, w: string)
    requires w in ws && w != "" && AllSpace(w)
    ensures |ForbiddenList(Some(ws))| > 0 && ForbiddenList(Some(ws))[0] == ""
  {
    var r := ForbiddenList(Some(ws));
    StripShape(w);
    assert "" in Candidates(Some(ws));
    assert |r| > 0;
    EmptyIsLeast(r[0]);
  }

  /** Which generator a request is for; the vocabulary mode carries the topic. */
  datatype Mode = TopicalVocab(topic: string) | PhrasalVerbs

  /** The heading line of the block; it is never empty. */
  function BlockHead(mode: Mode): (r: string)
    ensures |r| > 0
  {
    var items := if mode.PhrasalVerbs? then "phrasal verbs" else "words or phrases";
    ['\n'] + "Important:\n- Do NOT include any of these previously generated " + items + " (avoid exact matches):\n  "
  }

  /** The closing line of the block. */
  function BlockTail(mode: Mode): string
  {
    match mode
    case TopicalVocab(_) => "\n- Prefer new vocabulary rather than repeating the same items.\n"
    case PhrasalVerbs => "\n- Prefer new phrasal verbs rather than repeating the same items.\n"
  }

  lemma ContainsInMiddle(a: string, m: string, b: string, w: string)
    requires Contains(m, w)
    ensures Contains(a + m + b, w)
  {
    var i :| OccursAt(m, w, i);
    assert (a + m + b)[|a| + i..|a| + i + |w|] == w;
    assert OccursAt(a + m + b, w, |a| + i);
  }

  /** Text framing a joined list still contains every word of the list. */
  lemma FramedListsAll(head: string, list: seq<string>, tail: string)
    ensures forall w :: w in list ==> Contains(head + Join(list, ", ") + tail, w)
  {
    var joined := Join(list, ", ");
    forall w | w in list
      ensures Contains(head + joined + tail, w)
    {
      var k :| 0 <= k < |list| && list[k] == w;
      assert OccursAt(joined, w, Offset(list, ", ", k));
      ContainsInMiddle(head, joined, tail, w);
    }
  }

  /**
   * The "do not reuse" block of the prompt: empty when nothing is forbidden,
   * otherwise the mode's heading, the forbidden list joined with ", ", and the
   * mode's closing line, so every forbidden word appears in it.
   */
  function ForbiddenBlock(mode: Mode, words: Option<seq<string>>): (r: string)
    ensures r == "" <==> ForbiddenList(words) == []
    ensures r != "" ==> r == BlockHead(mode) + Join(ForbiddenList(words), ", ") + BlockTail(mode)
    ensures forall w :: w in ForbiddenList(words) ==> Contains(r, w)
  {
    var list := ForbiddenList(words);
    if list == [] then ""
    else
      FramedListsAll(BlockHead(mode), list, BlockTail(mode));
      BlockHead(mode) + Join(list, ", ") + BlockTail(mode)
  }

  /**
   * What the request builder puts into a generation prompt: the mode (and topic), the
   * number of items asked for, the rarity level, the random seed and the
   * forbidden block. The rest of the prompt text is not modelled.
   */
  datatype Instruction = Instruction(mode: Mode, numItems: int, difficulty: int, seed: int, forbiddenBlock: string)

  /** Builds the prompt of `call_gpt_for_vocab` / `call_gpt_for_phrasal_verbs` for a drawn seed. */
  function BuildInstruction(mode: Mode, numItems: int, difficulty: int, words: Option<seq<string>>, seed: int): (r: Instruction)
    requires 1 <= seed <= MaxSeed
    ensures r.mode == mode && r.numItems == numItems && r.difficulty == difficulty
    ensures 1 <= r.seed <= MaxSeed && r.seed == seed
    ensures r.forbiddenBlock == ForbiddenBlock(mode, words)
    ensures r.forbiddenBlock == "" <==> ForbiddenList(words) == []
    ensures forall w :: w in ForbiddenList(words) ==> Contains(r.forbiddenBlock, w)
  {
    Instruction(mode, numItems, difficulty, seed, ForbiddenBlock(mode, words))
  }
}
