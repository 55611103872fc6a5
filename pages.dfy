/**
 * The two generation pages, `page_generate_vocab` and
 * `page_generate_phrasal_verbs`, reduced to the session state they read and
 * write: the per-context generation histories and the last generated batch.
 */
module Pages {
  import opened Wrappers
  import opened Text
  import opened Sorting
  import opened Prompt
  import opened Items
  import opened History

  /** How a press of a "generate" button ends. */
  datatype PageOutcome =
    | MissingApiKey                     // no API key configured: error shown, no call made
    | GenerationFailed(message: string) // the call or the JSON parsing raised: error shown
    | Rejected(index: nat)              // element `index` of the batch is unusable: batch refused whole
    | Raised(index: nat)                // the history loop raised at element `index`
    | Generated(count: nat)             // a batch of `count` elements was accepted

  /** The model call together with `json.loads` of its answer: elements, or the exception raised. */
  type Client = Instruction -> Result<seq<Element>>

  /**
   * Builds the instruction from the context's history, sorted, and sends it,
   * unless no API key is configured, in which case nothing is sent.
   */
  method Ask(mode: Mode, numItems: int, difficulty: int, history: set<string>, apiKeySet: bool, seed: int, client: Client)
    returns (sent: Option<Instruction>, response: Option<Result<seq<Element>>>)
    requires 1 <= seed <= MaxSeed
    ensures sent == if apiKeySet then Some(BuildInstruction(mode, numItems, difficulty, Some(SortedOf(history)), seed)) else None
    ensures response == if apiKeySet then Some(client(sent.value)) else None
  {
    var forbidden := SortedListing(history);
    if !apiKeySet {
      return None, None;
    }
    var instruction := BuildInstruction(mode, numItems, difficulty, Some(forbidden), seed);
    sent := Some(instruction);
    response := Some(client(instruction));
  }

  /** The part of `st.session_state` the generation pages own. */
  class Session {
    var vocabHistory: map<string, set<string>>
    var phrasalHistory: map<int, set<string>>
    var lastVocabItems: Option<seq<Element>>
    var lastVocabTopic: Option<string>
    var lastVocabDifficulty: Option<int>
    var lastPhrasalItems: Option<seq<Element>>
    var lastPhrasalDifficulty: Option<int>

    /** Both histories hold non-empty normalised words only. */
    ghost predicate Valid()
      reads this
    {
      WellFormed(vocabHistory) && WellFormed(phrasalHistory)
    }

    /** A fresh session: no history, no last batch. */
    constructor ()
      ensures Valid()
      ensures vocabHistory == map[] && phrasalHistory == map[]
      ensures lastVocabItems.None? && lastVocabTopic.None? && lastVocabDifficulty.None?
      ensures lastPhrasalItems.None? && lastPhrasalDifficulty.None?
    {
      vocabHistory, phrasalHistory := map[], map[];
      lastVocabItems, lastVocabTopic, lastVocabDifficulty := None, None, None;
      lastPhrasalItems, lastPhrasalDifficulty := None, None;
    }

    /**
     * The vocabulary page's handling of a parsed answer for `topic`: the
     * batch is absorbed into a copy of the context's set, and the copy and the
     * batch are published only when every element is usable.
     */
    method ReceiveVocab(topic: string, difficulty: int, elems: seq<Element>) returns (outcome: PageOutcome)
      requires Valid()
      modifies this
      ensures Valid()
      ensures AllObjects(elems) ==> outcome == Generated(|elems|)
      ensures !AllObjects(elems) ==> outcome == Rejected(FirstNonObject(elems))
      ensures vocabHistory == MergeBatch(old(vocabHistory), Normalise(topic), elems).history
      ensures !outcome.Generated? ==> unchanged(this)
      ensures outcome.Generated? ==>
        && lastVocabItems == Some(elems) && lastVocabTopic == Some(topic) && lastVocabDifficulty == Some(difficulty)
        && phrasalHistory == old(phrasalHistory)
        && lastPhrasalItems == old(lastPhrasalItems) && lastPhrasalDifficulty == old(lastPhrasalDifficulty)
    {
      var key := Normalise(topic);
      var grown, failedAt := Absorb(Lookup(vocabHistory, key), elems);
      if failedAt.Some? {
        FirstNonObjectUnique(elems, failedAt.value);
        return Rejected(failedAt.value);
      }
      NewWordsNormalised(ItemsOf(elems));
      lastVocabItems := Some(elems);
      lastVocabTopic := Some(topic);
      lastVocabDifficulty := Some(difficulty);
      vocabHistory := vocabHistory[key := grown];
      outcome := Generated(|elems|);
    }

    /**
     * The "generate" button of the vocabulary page. The history context is the
     * normalised topic; its sorted history is the forbidden list of the prompt.
     * Any failure leaves the whole session as it was.
     */
    method GenerateVocab(topic: string, numItems: int, difficulty: int, apiKeySet: bool, seed: int, client: Client)
      returns (outcome: PageOutcome, sent: Option<Instruction>)
      requires Valid()
      requires 1 <= seed <= MaxSeed
      modifies this
      ensures Valid()
      ensures sent == if apiKeySet then Some(BuildInstruction(TopicalVocab(topic), numItems, difficulty,
                                                              Some(SortedOf(Lookup(old(vocabHistory), Normalise(topic)))), seed))
                      else None
      ensures !apiKeySet ==> outcome == MissingApiKey
      ensures sent.Some? && client(sent.value).Err? ==> outcome == GenerationFailed(client(sent.value).message)
      ensures sent.Some? && client(sent.value).Ok? ==>
        var elems := client(sent.value).value;
        && (AllObjects(elems) ==> outcome == Generated(|elems|))
        && (!AllObjects(elems) ==> outcome == Rejected(FirstNonObject(elems)))
        && vocabHistory == MergeBatch(old(vocabHistory), Normalise(topic), elems).history
      ensures !outcome.Generated? ==> unchanged(this)
      ensures outcome.Generated? ==>
        && lastVocabItems == Some(client(sent.value).value)
        && lastVocabTopic == Some(topic) && lastVocabDifficulty == Some(difficulty)
        && phrasalHistory == old(phrasalHistory)
        && lastPhrasalItems == old(lastPhrasalItems) && lastPhrasalDifficulty == old(lastPhrasalDifficulty)
    {
      var response;
      sent, response := Ask(TopicalVocab(topic), numItems, difficulty, Lookup(vocabHistory, Normalise(topic)), apiKeySet, seed, client);
      if response.None? {
        return MissingApiKey, sent;
      }
      if response.value.Err? {
        return GenerationFailed(response.value.message), sent;
      }
      outcome := ReceiveVocab(topic, difficulty, response.value.value);
    }

    /**
     * The vocabulary page's handling of a parsed answer as the page is
     * written: the last-batch fields are set first, then the history loop runs
     * outside the `try` on the context's stored set; an unusable element
     * raises there, after the words before it have been added to that set.
     */
    method ReceiveVocabAsWritten(topic: string, difficulty: int, elems: seq<Element>) returns (outcome: PageOutcome)
      requires Valid()
      modifies this
      ensures Valid()
      ensures
        var merge := MergeAsWritten(old(vocabHistory), Normalise(topic), elems);
        && (merge.raised ==> outcome == Raised(FirstNonObject(elems)))
        && (!merge.raised ==> outcome == Generated(|elems|))
        && vocabHistory == merge.history
      ensures lastVocabItems == Some(elems) && lastVocabTopic == Some(topic) && lastVocabDifficulty == Some(difficulty)
      ensures phrasalHistory == old(phrasalHistory)
      ensures lastPhrasalItems == old(lastPhrasalItems) && lastPhrasalDifficulty == old(lastPhrasalDifficulty)
    {
      var key := Normalise(topic);
      lastVocabItems := Some(elems);
      lastVocabTopic := Some(topic);
      lastVocabDifficulty := Some(difficulty);
      var grown, failedAt := Absorb(Lookup(vocabHistory, key), elems);
      if failedAt.Some? {
        var k := failedAt.value;
        FirstNonObjectUnique(elems, k);
        NewWordsNormalised(ItemsOf(elems[..k]));
        if key in vocabHistory {
          vocabHistory := vocabHistory[key := grown];
        }
        return Raised(k);
      }
      NewWordsNormalised(ItemsOf(elems));
      vocabHistory := vocabHistory[key := grown];
      outcome := Generated(|elems|);
    }

    /** The "generate" button of the vocabulary page as written, with `ReceiveVocabAsWritten`. */
    method GenerateVocabAsWritten(topic: string, numItems: int, difficulty: int, apiKeySet: bool, seed: int, client: Client)
      returns (outcome: PageOutcome, sent: Option<Instruction>)
      requires Valid()
      requires 1 <= seed <= MaxSeed
      modifies this
      ensures Valid()
      ensures sent == if apiKeySet then Some(BuildInstruction(TopicalVocab(topic), numItems, difficulty,
                                                              Some(SortedOf(Lookup(old(vocabHistory), Normalise(topic)))), seed))
                      else None
      ensures !apiKeySet ==> outcome == MissingApiKey
      ensures sent.Some? && client(sent.value).Err? ==> outcome == GenerationFailed(client(sent.value).message)
      ensures outcome.MissingApiKey? || outcome.GenerationFailed? ==> unchanged(this)
      ensures sent.Some? && client(sent.value).Ok? ==>
        var elems := client(sent.value).value;
        var merge := MergeAsWritten(old(vocabHistory), Normalise(topic), elems);
        && (merge.raised ==> outcome == Raised(FirstNonObject(elems)))
        && (!merge.raised ==> outcome == Generated(|elems|))
        && vocabHistory == merge.history
        && lastVocabItems == Some(elems) && lastVocabTopic == Some(topic) && lastVocabDifficulty == Some(difficulty)
        && phrasalHistory == old(phrasalHistory)
        && lastPhrasalItems == old(lastPhrasalItems) && lastPhrasalDifficulty == old(lastPhrasalDifficulty)
    {
      var response;
      sent, response := Ask(TopicalVocab(topic), numItems, difficulty, Lookup(vocabHistory, Normalise(topic)), apiKeySet, seed, client);
      if response.None? {
        return MissingApiKey, sent;
      }
      if response.value.Err? {
        return GenerationFailed(response.value.message), sent;
      }
      outcome := ReceiveVocabAsWritten(topic, difficulty, response.value.value);
    }

    /**
     * The phrasal-verb page's handling of a parsed answer: the batch is
     * absorbed into a copy of the level's set, and the copy and the batch are
     * published only when every element is usable.
     */
    method ReceivePhrasal(difficulty: int, elems: seq<Element>) returns (outcome: PageOutcome)
      requires Valid()
      modifies this
      ensures Valid()
      ensures AllObjects(elems) ==> outcome == Generated(|elems|)
      ensures !AllObjects(elems) ==> outcome == Rejected(FirstNonObject(elems))
      ensures phrasalHistory == MergeBatch(old(phrasalHistory), difficulty, elems).history
      ensures !outcome.Generated? ==> unchanged(this)
      ensures outcome.Generated? ==>
        && lastPhrasalItems == Some(elems) && lastPhrasalDifficulty == Some(difficulty)
        && vocabHistory == old(vocabHistory)
        && lastVocabItems == old(lastVocabItems) && lastVocabTopic == old(lastVocabTopic)
        && lastVocabDifficulty == old(lastVocabDifficulty)
    {
      var grown, failedAt := Absorb(Lookup(phrasalHistory, difficulty), elems);
      if failedAt.Some? {
        FirstNonObjectUnique(elems, failedAt.value);
        return Rejected(failedAt.value);
      }
      assert WellFormed(phrasalHistory[difficulty := grown]) by {
        NewWordsNormalised(ItemsOf(elems));
      }
      lastPhrasalItems := Some(elems);
      lastPhrasalDifficulty := Some(difficulty);
      phrasalHistory := phrasalHistory[difficulty := grown];
      outcome := Generated(|elems|);
    }

    /**
     * The "generate" button of the phrasal-verb page: as `GenerateVocab`, with
     * the rarity level itself as the history context and no topic.
     */
    method GeneratePhrasal(numItems: int, difficulty: int, apiKeySet: bool, seed: int, client: Client)
      returns (outcome: PageOutcome, sent: Option<Instruction>)
      requires Valid()
      requires 1 <= seed <= MaxSeed
      modifies this
      ensures Valid()
      ensures sent == if apiKeySet then Some(BuildInstruction(PhrasalVerbs, numItems, difficulty,
                                                              Some(SortedOf(Lookup(old(phrasalHistory), difficulty))), seed))
                      else None
      ensures !apiKeySet ==> outcome == MissingApiKey
      ensures sent.Some? && client(sent.value).Err? ==> outcome == GenerationFailed(client(sent.value).message)
      ensures sent.Some? && client(sent.value).Ok? ==>
        var elems := client(sent.value).value;
        && (AllObjects(elems) ==> outcome == Generated(|elems|))
        && (!AllObjects(elems) ==> outcome == Rejected(FirstNonObject(elems)))
        && phrasalHistory == MergeBatch(old(phrasalHistory), difficulty, elems).history
      ensures !outcome.Generated? ==> unchanged(this)
      ensures outcome.Generated? ==>
        && lastPhrasalItems == Some(client(sent.value).value) && lastPhrasalDifficulty == Some(difficulty)
        && vocabHistory == old(vocabHistory)
        && lastVocabItems == old(lastVocabItems) && lastVocabTopic == old(lastVocabTopic)
        && lastVocabDifficulty == old(lastVocabDifficulty)
    {
      var response;
      sent, response := Ask(PhrasalVerbs, numItems, difficulty, Lookup(phrasalHistory, difficulty), apiKeySet, seed, client);
      if response.None? {
        return MissingApiKey, sent;
      }
      if response.value.Err? {
        return GenerationFailed(response.value.message), sent;
      }
      outcome := ReceivePhrasal(difficulty, response.value.value);
    }
  

    /**
     * The phrasal-verb page's handling of a parsed answer as the page is
     * written: the last-batch fields are set first, then the history loop runs
     * outside the `try` on the level's stored set; an unusable element raises
     * there, after the words before it have been added to that set.
     */
    method ReceivePhrasalAsWritten(difficulty: int, elems: seq<Element>) returns (outcome: PageOutcome)
      requires Valid()
      modifies this
      ensures Valid()
      ensures
        var merge := MergeAsWritten(old(phrasalHistory), difficulty, elems);
        && (merge.raised ==> outcome == Raised(FirstNonObject(elems)))
        && (!merge.raised ==> outcome == Generated(|elems|))
        && phrasalHistory == merge.history
      ensures lastPhrasalItems == Some(elems) && lastPhrasalDifficulty == Some(difficulty)
      ensures vocabHistory == old(vocabHistory)
      ensures lastVocabItems == old(lastVocabItems) && lastVocabTopic == old(lastVocabTopic)
      ensures lastVocabDifficulty == old(lastVocabDifficulty)
    {
      lastPhrasalItems := Some(elems);
      lastPhrasalDifficulty := Some(difficulty);
      var grown, failedAt := Absorb(Lookup(phrasalHistory, difficulty), elems);
      if failedAt.Some? {
        var k := failedAt.value;
        FirstNonObjectUnique(elems, k);
        NewWordsNormalised(ItemsOf(elems[..k]));
        if difficulty in phrasalHistory {
          phrasalHistory := phrasalHistory[difficulty := grown];
        }
        return Raised(k);
      }
      NewWordsNormalised(ItemsOf(elems));
      phrasalHistory := phrasalHistory[difficulty := grown];
      outcome := Generated(|elems|);
    }

    /** The "generate" button of the phrasal-verb page as written, with `ReceivePhrasalAsWritten`. */
    method GeneratePhrasalAsWritten(numItems: int, difficulty: int, apiKeySet: bool, seed: int, client: Client)
      returns (outcome: PageOutcome, sent: Option<Instruction>)
      requires Valid()
      requires 1 <= seed <= MaxSeed
      modifies this
      ensures Valid()
      ensures sent == if apiKeySet then Some(BuildInstruction(PhrasalVerbs, numItems, difficulty,
                                                              Some(SortedOf(Lookup(old(phrasalHistory), difficulty))), seed))
                      else None
      ensures !apiKeySet ==> outcome == MissingApiKey
      ensures sent.Some? && client(sent.value).Err? ==> outcome == GenerationFailed(client(sent.value).message)
      ensures outcome.MissingApiKey? || outcome.GenerationFailed? ==> unchanged(this)
      ensures sent.Some? && client(sent.value).Ok? ==>
        var elems := client(sent.value).value;
        var merge := MergeAsWritten(old(phrasalHistory), difficulty, elems);
        && (merge.raised ==> outcome == Raised(FirstNonObject(elems)))
        && (!merge.raised ==> outcome == Generated(|elems|))
        && phrasalHistory == merge.history
        && lastPhrasalItems == Some(elems) && lastPhrasalDifficulty == Some(difficulty)
        && vocabHistory == old(vocabHistory)
        && lastVocabItems == old(lastVocabItems) && lastVocabTopic == old(lastVocabTopic)
        && lastVocabDifficulty == old(lastVocabDifficulty)
    {
      var response;
      sent, response := Ask(PhrasalVerbs, numItems, difficulty, Lookup(phrasalHistory, difficulty), apiKeySet, seed, client);
      if response.None? {
        return MissingApiKey, sent;
      }
      if response.value.Err? {
        return GenerationFailed(response.value.message), sent;
      }
      outcome := ReceivePhrasalAsWritten(difficulty, response.value.value);
    }
  }
}
