/** The records the generation call yields once its JSON answer is parsed. */
module Items {
  import opened Wrappers

  /**
   * One generated vocabulary entry, a JSON object read with `it.get(...)`:
   * a field is `None` when the key is absent or its value is null.
   */
  datatype VocabItem = VocabItem(word: Option<string>, meaningEn: Option<string>, meaningZh: Option<string>, example: Option<string>)

  /**
   * One element of the parsed JSON array. `NonObject` stands for every element
   * on which `(it.get("word") or "").strip()` raises: an element that is not an
   * object, or an object whose `word` is a truthy non-string.
   */
  datatype Element = Obj(item: VocabItem) | NonObject

  predicate AllObjects(es: seq<Element>)
  {
    forall i :: 0 <= i < |es| ==> es[i].Obj?
  }

  /** The records of a batch made of objects only. */
  function ItemsOf(es: seq<Element>): (r: seq<VocabItem>)
    requires AllObjects(es)
    ensures |r| == |es|
    ensures forall i :: 0 <= i < |es| ==> es[i] == Obj(r[i])
  {
    seq(|es|, i requires 0 <= i < |es| => es[i].item)
  }
}
