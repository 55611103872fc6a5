/**
 * The generation history: for each dedup context (the normalised topic, or the
 * rarity level for phrasal verbs) the set of normalised words generated so far
 * in the session, and how a generated batch is merged into it.
 */
module History {
  import opened Wrappers
  import opened Text
  import opened Items

  /** `(it.get("word") or "").strip().lower()`. */
  function WordKey(it: VocabItem): string
  {
    Normalise(it.word.GetOr(""))
  }

  /** The words a batch adds to its context: each non-empty `WordKey`. */
  function NewWords(items: seq<VocabItem>): set<string>
  {
    if items == [] then {}
    else
      var w := WordKey(items[|items| - 1]);
      NewWords(items[..|items| - 1]) + if w != "" then {w} else {}
  }

  /** Every word a batch adds is the non-empty normalised word of one of its items. */
  lemma {:induction false} NewWordsSound(items: seq<VocabItem>, w: string)
    requires w in NewWords(items)
    ensures w != "" && exists i :: 0 <= i < |items| && WordKey(items[i]) == w
  {
    var n := |items| - 1;
    if w in NewWords(items[..n]) {
      NewWordsSound(items[..n], w);
      var i :| 0 <= i < n && WordKey(items[..n][i]) == w;
      assert items[i] == items[..n][i];
    } else {
      assert WordKey(items[n]) == w;
    }
  }

  /** Every item with a non-empty normalised word contributes it. */
  lemma {:induction false} NewWordsComplete(items: seq<VocabItem>, i: nat)
    requires i < |items| && WordKey(items[i]) != ""
    ensures WordKey(items[i]) in NewWords(items)
  {
    var n := |items| - 1;
    if i < n {
      NewWordsComplete(items[..n], i);
      assert items[..n][i] == items[i];
    }
  }

  /** A batch adds exactly the non-empty normalised words of its items, and nothing else. */
  lemma NewWordsExactly(items: seq<VocabItem>, w: string)
    ensures w in NewWords(items) <==> w != "" && exists i :: 0 <= i < |items| && WordKey(items[i]) == w
  {
    if w in NewWords(items) {
      NewWordsSound(items, w);
    }
    if w != "" && exists i :: 0 <= i < |items| && WordKey(items[i]) == w {
      var i :| 0 <= i < |items| && WordKey(items[i]) == w;
      NewWordsComplete(items, i);
    }
  }

  /** What a batch adds is already normalised, so the history invariant below is kept. */
  lemma NewWordsNormalised(items: seq<VocabItem>)
    ensures Normalised(NewWords(items))
  {
    forall w | w in NewWords(items)
      ensures w != "" && Normalise(w) == w
    {
      NewWordsExactly(items, w);
      var i :| 0 <= i < |items| && WordKey(items[i]) == w;
      NormaliseIdempotent(items[i].word.GetOr(""));
    }
  }

  /** Every member is a non-empty word in normal form: case and whitespace variants collide. */
  predicate Normalised(s: set<string>)
  {
    forall w :: w in s ==> w != "" && Normalise(w) == w
  }

  /** The history invariant: every context's set is normalised. */
  predicate WellFormed<K>(m: map<K, set<string>>)
  {
    forall k :: k in m ==> Normalised(m[k])
  }

  /** `history.get(key, set())`. */
  function Lookup<K>(m: map<K, set<string>>, key: K): set<string>
  {
    if key in m then m[key] else {}
  }

  /**
   * The absorption loop of the generation pages, run on a copy of the context's
   * set: each element adds its normalised word when non-empty; the loop raises
   * at the first `NonObject` element, having absorbed the elements before it.
   */
  method Absorb(hist: set<string>, elems: seq<Element>) returns (grown: set<string>, failedAt: Option<nat>)
    ensures failedAt.None? <==> AllObjects(elems)
    ensures failedAt.None? ==> grown == hist + NewWords(ItemsOf(elems))
    ensures failedAt.Some? ==>
      var k := failedAt.value;
      k < |elems| && elems[k] == NonObject && AllObjects(elems[..k]) && grown == hist + NewWords(ItemsOf(elems[..k]))
  {
    grown := hist;
    var i := 0;
    while i < |elems|
      invariant 0 <= i <= |elems|
      invariant AllObjects(elems[..i])
      invariant grown == hist + NewWords(ItemsOf(elems[..i]))
    {
      if elems[i].NonObject? {
        return grown, Some(i);
      }
      var w := WordKey(elems[i].item);
      if w != "" {
        grown := grown + {w};
      }
      AbsorbStep(elems, i);
      i := i + 1;
    }
    assert elems[..i] == elems;
    failedAt := None;
  }

  /** One more object element adds its normalised word, when non-empty, to what the prefix added. */
  lemma AbsorbStep(elems: seq<Element>, i: nat)
    requires i < |elems| && AllObjects(elems[..i]) && elems[i].Obj?
    ensures AllObjects(elems[..i + 1])
    ensures NewWords(ItemsOf(elems[..i + 1])) ==
      NewWords(ItemsOf(elems[..i])) + if WordKey(elems[i].item) != "" then {WordKey(elems[i].item)} else {}
  {
    assert elems[..i + 1] == elems[..i] + [elems[i]];
    assert ItemsOf(elems[..i + 1])[..i] == ItemsOf(elems[..i]);
  }

  /** The outcome of merging a batch into the history: the new history, and whether the page raised. */
  datatype Merge<K> = Merge(history: map<K, set<string>>, raised: bool)

  /**
   * The merge as the generation pages write it: the loop runs after the result
   * fields are set and outside the `try`, mutating the context's set in place.
   * On a `NonObject` element it raises; words absorbed before it stay in the
   * set when that set was already stored under `key` (a fresh `set()` is lost).
   */
  function MergeAsWritten<K(!new)>(m: map<K, set<string>>, key: K, elems: seq<Element>): (r: Merge<K>)
    ensures r.raised <==> !AllObjects(elems)
    ensures forall k :: k != key ==> (k in r.history <==> k in m) && (k in m ==> r.history[k] == m[k])
    ensures Lookup(m, key) <= Lookup(r.history, key)
    ensures AllObjects(elems) ==> r == MergeBatch(m, key, elems)
    ensures !AllObjects(elems) ==>
      r.history == if key in m then m[key := m[key] + NewWords(ItemsOf(elems[..FirstNonObject(elems)]))] else m
  {
    if AllObjects(elems) then
      Merge(m[key := Lookup(m, key) + NewWords(ItemsOf(elems))], false)
    else
      var k := FirstNonObject(elems);
      Merge(if key in m then m[key := m[key] + NewWords(ItemsOf(elems[..k]))] else m, true)
  }

  /** The index of the first `NonObject` element of a batch that has one. */
  function FirstNonObject(elems: seq<Element>): (k: nat)
    requires !AllObjects(elems)
    ensures k < |elems| && elems[k] == NonObject && AllObjects(elems[..k])
  {
    if elems[0].NonObject? then 0
    else
      var k := 1 + FirstNonObject(elems[1..]);
      assert elems[..k] == [elems[0]] + elems[1..][..k - 1];
      k
  }

  /** The first `NonObject` element is the one before which every element is an object. */
  lemma {:induction false} FirstNonObjectUnique(elems: seq<Element>, k: nat)
    requires k < |elems| && elems[k] == NonObject && AllObjects(elems[..k])
    ensures FirstNonObject(elems) == k
  {
    if k > 0 {
      assert elems[0] == elems[..k][0];
      assert elems[1..][..k - 1] == elems[1..k];
      assert elems[1..][k - 1] == elems[k];
      assert AllObjects(elems[1..k]) by {
        var tail := elems[1..k];
        forall i | 0 <= i < |tail|
          ensures tail[i].Obj?
        {
          assert tail[i] == elems[..k][i + 1];
        }
      }
      FirstNonObjectUnique(elems[1..], k - 1);
    }
  }

  /**
   * The merge with the batch validated first: a batch holding a `NonObject`
   * element is rejected whole and changes nothing; otherwise the context's set
   * gains the batch's normalised words.
   */
  function MergeBatch<K(!new)>(m: map<K, set<string>>, key: K, elems: seq<Element>): (r: Merge<K>)
    ensures r.raised <==> !AllObjects(elems)
    ensures r.raised ==> r.history == m
    ensures !r.raised ==> key in r.history && r.history[key] == Lookup(m, key) + NewWords(ItemsOf(elems))
    ensures forall k :: k != key ==> (k in r.history <==> k in m) && (k in m ==> r.history[k] == m[k])
    ensures WellFormed(m) ==> WellFormed(r.history)
  {
    if AllObjects(elems) then
      NewWordsNormalised(ItemsOf(elems));
      Merge(m[key := Lookup(m, key) + NewWords(ItemsOf(elems))], false)
    else Merge(m, true)
  }

  /**
   * Merging only ever adds: no context loses a word, and a context gains only
   * words that some item of the batch normalises to.
   */
  lemma MergeOnlyGrows<K(!new)>(m: map<K, set<string>>, key: K, elems: seq<Element>, k: K, w: string)
    requires w in Lookup(MergeBatch(m, key, elems).history, k)
    requires w !in Lookup(m, k)
    ensures k == key && AllObjects(elems)
    ensures w != "" && exists i :: 0 <= i < |elems| && WordKey(elems[i].item) == w
  {
    NewWordsExactly(ItemsOf(elems), w);
  }

  /**
   * The as-written merge is not atomic. With "checkup" already in the history
   * of topic "doctor visit", a batch whose first element has word "Fever" and
   * whose second element is not an object makes the page raise, yet "fever"
   * has entered the history; the validated merge leaves the history as it was.
   */
  lemma PartialMergeOnMalformedBatch()
    ensures var m := map["doctor visit" := {"checkup"}];
            var elems := [Obj(VocabItem(Some("Fever"), None, None, None)), NonObject];
            && MergeAsWritten(m, "doctor visit", elems).raised
            && MergeAsWritten(m, "doctor visit", elems).history["doctor visit"] == {"checkup", "fever"}
            && MergeBatch(m, "doctor visit", elems).history == m
  {
    var elems := [Obj(VocabItem(Some("Fever"), None, None, None)), NonObject];
    assert elems[1] == NonObject;
    assert FirstNonObject(elems) == 1;
    assert elems[..1] == [elems[0]];
    assert Strip("Fever") == "Fever";
    assert Lower("Fever") == "fever";
    assert NewWords(ItemsOf(elems[..1])) == {"fever"};
  }
}
