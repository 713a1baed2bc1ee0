/** Reading batch responses and the targeted repair loop
    (`indexed_reviews`, `call_intent_batch` and `call_semantic_batch` in
    src/analyzer_method_batch.rs). */
module BatchRepair {
  import opened Wrappers
  import opened MethodKeys

  /** One element of the response's reviews array: its `method_key`, if a string, and the rest. */
  datatype RawReview<J> = RawReview(key: Option<string>, body: J)

  datatype BatchError =
    | WrongCount(got: nat, expected: nat)
    | MissingKey
    | UnknownKey(key: string)
    | DuplicatedKey(key: string)
    | OmittedKey(index: nat)
    | InvalidReview(local: nat, why: string)
    | NoResponse
    | MissingArray

  // ---------------------------------------------------------------------
  // indexed_reviews
  // ---------------------------------------------------------------------

  /** The slot each review names. */
  function SlotsOf<J>(reviews: seq<RawReview<J>>, expected: nat): seq<Option<nat>> {
    seq(|reviews|, k requires 0 <= k < |reviews| => SlotIndex(reviews[k].key, expected))
  }

  lemma SlotsAreInRange<J>(reviews: seq<RawReview<J>>, expected: nat)
    ensures forall k :: 0 <= k < |reviews| && SlotsOf(reviews, expected)[k].Some? ==> SlotsOf(reviews, expected)[k].value < expected
  {
  }

  function Count(slots: seq<Option<nat>>, i: nat): nat {
    if slots == [] then 0 else Count(slots[..|slots| - 1], i) + if slots[|slots| - 1] == Some(i) then 1 else 0
  }

  /** What slot `i` holds after the reviews: a second use clears it, a third refills it. */
  function Held<J>(slots: seq<Option<nat>>, reviews: seq<RawReview<J>>, i: nat): Option<J>
    requires |slots| == |reviews|
  {
    if slots == [] then None
    else
      var n := |slots| - 1;
      var before := Held(slots[..n], reviews[..n], i);
      if slots[n] != Some(i) then before else if before.Some? then None else Some(reviews[n].body)
  }

  function Slot<J>(reviews: seq<RawReview<J>>, expected: nat, i: nat): Option<J> {
    Held(SlotsOf(reviews, expected), reviews, i)
  }

  /** The last of the reviews that name slot `i`. */
  ghost predicate IsLastUse(slots: seq<Option<nat>>, i: nat, k: nat) {
    k < |slots| && slots[k] == Some(i) && forall l :: k < l < |slots| ==> slots[l] != Some(i)
  }

  /** A slot is filled exactly when its key was used an odd number of times, and then by
      the body of the last review that carried this key. */
  lemma {:induction false} SlotIsFilledOnOddUses<J>(slots: seq<Option<nat>>, reviews: seq<RawReview<J>>, i: nat)
    requires |slots| == |reviews|
    ensures Held(slots, reviews, i).Some? <==> Count(slots, i) % 2 == 1
    ensures Held(slots, reviews, i).Some? ==>
              exists k: nat :: IsLastUse(slots, i, k) && Held(slots, reviews, i) == Some(reviews[k].body)
  {
    if slots != [] {
      var n := |slots| - 1;
      SlotIsFilledOnOddUses(slots[..n], reviews[..n], i);
      if slots[n] == Some(i) {
        assert IsLastUse(slots, i, n);
      } else if Held(slots, reviews, i).Some? {
        var k: nat :| IsLastUse(slots[..n], i, k) && Held(slots, reviews, i) == Some(reviews[..n][k].body);
        forall l | k < l < |slots| ensures slots[l] != Some(i) {
          assert l < n ==> slots[l] == slots[..n][l];
        }
        assert IsLastUse(slots, i, k);
      }
    }
  }

  ghost predicate KeysArePermutation(slots: seq<Option<nat>>, expected: nat) {
    && |slots| == expected
    && (forall k :: 0 <= k < |slots| ==> slots[k].Some?)
    && EachOnce(slots, expected)
  }

  ghost predicate EachOnce(slots: seq<Option<nat>>, n: nat) {
    forall i :: 0 <= i < n ==> Count(slots, i) == 1
  }

  /** No review seen so far has a missing, unknown or repeated key. */
  ghost predicate CleanSoFar(slots: seq<Option<nat>>, expected: nat) {
    && (forall k :: 0 <= k < |slots| ==> slots[k].Some? && slots[k].value < expected)
    && (forall i :: 0 <= i < expected ==> Count(slots, i) <= 1)
  }

  lemma CleanStep<J>(slots: seq<Option<nat>>, reviews: seq<RawReview<J>>, expected: nat, n: nat)
    requires n < |slots| == |reviews| && (slots[n].Some? ==> slots[n].value < expected)
    ensures CleanSoFar(slots[..n + 1], expected) <==>
              CleanSoFar(slots[..n], expected) && slots[n].Some? && Held(slots[..n], reviews[..n], slots[n].value).None?
  {
    var before, now := slots[..n], slots[..n + 1];
    assert now[..n] == before && now[n] == slots[n];
    forall i | 0 <= i < expected
      ensures Count(now, i) == Count(before, i) + if slots[n] == Some(i) then 1 else 0
      ensures Held(before, reviews[..n], i).Some? <==> Count(before, i) % 2 == 1
    {
      SlotIsFilledOnOddUses(before, reviews[..n], i);
    }
    if CleanSoFar(now, expected) {
      forall k | 0 <= k < n ensures before[k].Some? && before[k].value < expected {
        assert before[k] == now[k];
      }
      assert Count(now, slots[n].value) == Count(before, slots[n].value) + 1;
    }
  }

  /** `indexed_reviews`. The errors are empty exactly on a permutation of the expected keys. */
  method IndexedReviews<J>(response: Option<seq<RawReview<J>>>, expected: nat)
    returns (result: Result<(seq<Option<J>>, seq<BatchError>), BatchError>)
    ensures result.Success? <==> response.Some?
    ensures result.Success? ==>
              && |result.value.0| == expected
              && (forall i :: 0 <= i < expected ==> result.value.0[i] == Slot(response.value, expected, i))
              && (result.value.1 == [] <==> KeysArePermutation(SlotsOf(response.value, expected), expected))
  {
    if response.None? {
      return Failure(MissingArray);
    }
    var reviews := response.value;
    ghost var slots := SlotsOf(reviews, expected);
    SlotsAreInRange(reviews, expected);
    var errors: seq<BatchError> := [];
    if |reviews| != expected {
      errors := errors + [WrongCount(|reviews|, expected)];
    }
    var ordered: seq<Option<J>> := seq(expected, _ => None);
    for n := 0 to |reviews|
      invariant Holds(slots[..n], reviews[..n], ordered, expected)
      invariant errors == [] <==> |reviews| == expected && CleanSoFar(slots[..n], expected)
    {
      var more;
      ordered, more := PlaceReview(slots, reviews, n, ordered, expected);
      errors := errors + more;
    }
    assert slots[..|reviews|] == slots && reviews[..|reviews|] == reviews;
    var omitted := OmittedKeys(slots, reviews, ordered, expected);
    CleanIsPermutation(slots, expected);
    return Success((ordered, errors + omitted));
  }

  method OmittedKeys<J>(ghost slots: seq<Option<nat>>, ghost reviews: seq<RawReview<J>>, ordered: seq<Option<J>>, expected: nat)
    returns (errors: seq<BatchError>)
    requires Holds(slots, reviews, ordered, expected)
    ensures CleanSoFar(slots, expected) ==> (errors == [] <==> EachOnce(slots, expected))
  {
    errors := [];
    for i := 0 to expected
      invariant CleanSoFar(slots, expected) ==> (errors == [] <==> EachOnce(slots, i))
    {
      SlotIsFilledOnOddUses(slots, reviews, i);
      if ordered[i].None? {
        errors := errors + [OmittedKey(i)];
      }
    }
  }

  /** The slots hold what the reviews so far leave in them. */
  ghost predicate Holds<J>(slots: seq<Option<nat>>, reviews: seq<RawReview<J>>, ordered: seq<Option<J>>, expected: nat) {
    |slots| == |reviews| && |ordered| == expected && forall i :: 0 <= i < expected ==> ordered[i] == Held(slots, reviews, i)
  }

  /** One review goes to the slot its key names, if there is one and it is free; a filled
      slot is cleared. */
  method PlaceReview<J>(ghost slots: seq<Option<nat>>, reviews: seq<RawReview<J>>, n: nat, ordered: seq<Option<J>>, expected: nat)
    returns (ordered': seq<Option<J>>, errors: seq<BatchError>)
    requires n < |reviews| && slots == SlotsOf(reviews, expected) && Holds(slots[..n], reviews[..n], ordered, expected)
    ensures Holds(slots[..n + 1], reviews[..n + 1], ordered', expected)
    ensures CleanSoFar(slots[..n + 1], expected) <==> CleanSoFar(slots[..n], expected) && errors == []
  {
    var review := reviews[n];
    var slot := SlotIndex(review.key, expected);
    assert slot == slots[n];
    CleanStep(slots, reviews, expected, n);
    assert slots[..n + 1][..n] == slots[..n] && reviews[..n + 1][..n] == reviews[..n];
    ordered', errors := ordered, [];
    if review.key.None? {
      errors := [MissingKey];
    } else if slot.None? {
      errors := [UnknownKey(review.key.value)];
    } else if ordered[slot.value].Some? {
      ordered' := ordered[slot.value := None];
      errors := [DuplicatedKey(review.key.value)];
    } else {
      ordered' := ordered[slot.value := Some(review.body)];
    }
  }

  lemma CleanIsPermutation(slots: seq<Option<nat>>, expected: nat)
    requires forall k :: 0 <= k < |slots| && slots[k].Some? ==> slots[k].value < expected
    ensures KeysArePermutation(slots, expected)
       <==> |slots| == expected && CleanSoFar(slots, expected) && EachOnce(slots, expected)
  {
  }

  /** Review `k` carries slot `i`'s name as its key. */
  ghost predicate Carries<J>(reviews: seq<RawReview<J>>, k: nat, i: nat) {
    k < |reviews| && reviews[k].key.Some? && Names(reviews[k].key.value, i)
  }

  lemma CarriedIsNamed<J>(reviews: seq<RawReview<J>>, expected: nat, k: nat, i: nat)
    requires k < |reviews| && i < expected
    ensures SlotsOf(reviews, expected)[k] == Some(i) <==> Carries(reviews, k, i)
  {
    KeysNameSlots(reviews[k].key, expected, i);
  }

  /** A filled slot holds the body of the last review whose key is its name as a text. */
  lemma SlotsHoldNamedReviews<J>(reviews: seq<RawReview<J>>, expected: nat, i: nat) returns (k: nat)
    requires i < expected && Slot(reviews, expected, i).Some?
    ensures Carries(reviews, k, i) && Slot(reviews, expected, i) == Some(reviews[k].body)
    ensures forall l: nat :: k < l ==> !Carries(reviews, l, i)
  {
    var slots := SlotsOf(reviews, expected);
    SlotIsFilledOnOddUses(slots, reviews, i);
    k :| IsLastUse(slots, i, k) && Slot(reviews, expected, i) == Some(reviews[k].body);
    CarriedIsNamed(reviews, expected, k, i);
    forall l: nat | k < l < |reviews| ensures !Carries(reviews, l, i) {
      CarriedIsNamed(reviews, expected, l, i);
    }
  }

  /** With no errors there is a review for each slot that carries its name, and the slot
      holds its body. */
  lemma PermutationsNameEachSlot<J>(reviews: seq<RawReview<J>>, expected: nat, i: nat) returns (k: nat)
    requires KeysArePermutation(SlotsOf(reviews, expected), expected) && i < expected
    ensures Carries(reviews, k, i) && Slot(reviews, expected, i) == Some(reviews[k].body)
  {
    SlotIsFilledOnOddUses(SlotsOf(reviews, expected), reviews, i);
    k := SlotsHoldNamedReviews(reviews, expected, i);
  }

  // ---------------------------------------------------------------------
  // The repair loop
  // ---------------------------------------------------------------------

  const LAST_ATTEMPT: nat := 3

  datatype CallReply<J> =
    | TransportError(error: string)
    | EmptyReply
    | Response(reviews: Option<seq<RawReview<J>>>)

  /** Everything around the loop, arbitrary: the prompt renderer, the model's reply to an
      attempt over the pending items, the validating parser of one item's review, and the
      explicit unresolved review built from the last errors. */
  datatype Surroundings<!J, !V> = Surroundings(
    render: seq<nat> -> Option<string>,
    reply: (nat, seq<nat>) -> CallReply<J>,
    parse: (J, nat) -> Result<V, string>,
    unresolved: seq<BatchError> -> V)

  /** What parsing, as item `item`, the body that attempt `attempt` over `pending` filled
      into this item's slot gives. */
  function CreditFrom<J, V>(s: Surroundings<J, V>, attempt: nat, pending: seq<nat>, local: nat, item: nat): Option<V> {
    if !(local < |pending| && pending[local] == item) then None
    else
      match s.reply(attempt, pending)
      case Response(Some(reviews)) =>
        (match Slot(reviews, |pending|, local)
         case None => None
         case Some(body) =>
           match s.parse(body, item)
           case Success(value) => Some(value)
           case Failure(_) => None)
      case _ => None
  }

  /** Credited in some attempt, and in no later one asked again. */
  ghost predicate CreditedOnce<J, V>(s: Surroundings<J, V>, asked: seq<seq<nat>>, item: nat, value: V) {
    exists attempt, local ::
      && 0 <= attempt < |asked| && 0 <= local
      && CreditFrom(s, attempt, asked[attempt], local, item) == Some(value)
      && forall later :: attempt < later < |asked| ==> item !in asked[later]
  }

  /** In attempt `attempt` the item stood at position `local` of what was asked, and review `k`
      of the reply carried that position's name as its key and is parsed, as this item, to
      the value; a later review does not carry the name. */
  ghost predicate CarriedAt<J, V>(s: Surroundings<J, V>, asked: seq<seq<nat>>, attempt: nat, local: nat, k: nat,
                                  item: nat, value: V)
  {
    && attempt < |asked| && local < |asked[attempt]| && asked[attempt][local] == item
    && var reply := s.reply(attempt, asked[attempt]);
       && reply.Response? && reply.reviews.Some?
       && var reviews := reply.reviews.value;
          && Carries(reviews, k, local) && (forall l: nat :: k < l ==> !Carries(reviews, l, local))
          && s.parse(reviews[k].body, item) == Success(value)
  }

  /** A value comes from a review under the item's own key, of the last attempt that asked it. */
  ghost predicate CreditedByKey<J, V>(s: Surroundings<J, V>, asked: seq<seq<nat>>, item: nat, value: V) {
    exists attempt: nat, local: nat, k: nat ::
      && CarriedAt(s, asked, attempt, local, k, item, value)
      && forall later :: attempt < later < |asked| ==> item !in asked[later]
  }

  lemma CreditsAreCarried<J, V>(s: Surroundings<J, V>, asked: seq<seq<nat>>, item: nat, value: V)
    requires CreditedOnce(s, asked, item, value)
    ensures CreditedByKey(s, asked, item, value)
  {
    var attempt, local :|
      && 0 <= attempt < |asked| && 0 <= local
      && CreditFrom(s, attempt, asked[attempt], local, item) == Some(value)
      && forall later :: attempt < later < |asked| ==> item !in asked[later];
    var k := SlotsHoldNamedReviews(s.reply(attempt, asked[attempt]).reviews.value, |asked[attempt]|, local);
    assert CarriedAt(s, asked, attempt, local, k, item, value);
  }

  ghost predicate StillPending(asked: seq<seq<nat>>, item: nat) {
    forall attempt :: 0 <= attempt < |asked| ==> item in asked[attempt]
  }

  /** None of the first `judged` attempts returned a valid review under the item's key. */
  ghost predicate NeverValid<J, V>(s: Surroundings<J, V>, asked: seq<seq<nat>>, judged: nat, item: nat) {
    forall attempt, local :: 0 <= attempt < |asked| && attempt < judged && 0 <= local ==>
      CreditFrom(s, attempt, asked[attempt], local, item).None?
  }

  ghost predicate Tracked<J, V>(s: Surroundings<J, V>, asked: seq<seq<nat>>, judged: nat, completed: seq<Option<V>>) {
    forall item :: 0 <= item < |completed| ==> ItemTracked(s, asked, judged, item, completed[item])
  }

  ghost predicate ItemTracked<J, V>(s: Surroundings<J, V>, asked: seq<seq<nat>>, judged: nat, item: nat, slot: Option<V>) {
    match slot
    case None => StillPending(asked, item) && NeverValid(s, asked, judged, item)
    case Some(value) => CreditedOnce(s, asked, item, value)
  }

  function PendingItems<V>(completed: seq<Option<V>>): (pending: seq<nat>)
    ensures forall k :: 0 <= k < |pending| ==> pending[k] < |completed| && completed[pending[k]].None?
    ensures forall i :: 0 <= i < |completed| && completed[i].None? ==> i in pending
    ensures forall k, l :: 0 <= k < l < |pending| ==> pending[k] < pending[l]
  {
    if completed == [] then []
    else
      var n := |completed| - 1;
      PendingItems(completed[..n]) + if completed[n].None? then [n] else []
  }

  lemma {:induction false} AskAgain<J, V>(s: Surroundings<J, V>, asked: seq<seq<nat>>, completed: seq<Option<V>>)
    requires Tracked(s, asked, |asked|, completed)
    ensures Tracked(s, asked + [PendingItems(completed)], |asked|, completed)
  {
    var pending := PendingItems(completed);
    var more := asked + [pending];
    forall item | 0 <= item < |completed| ensures ItemTracked(s, more, |asked|, item, completed[item]) {
      assert ItemTracked(s, asked, |asked|, item, completed[item]);
      if completed[item].Some? {
        var value := completed[item].value;
        var attempt, local :|
          && 0 <= attempt < |asked| && 0 <= local
          && CreditFrom(s, attempt, asked[attempt], local, item) == Some(value)
          && forall later :: attempt < later < |asked| ==> item !in asked[later];
        assert more[attempt] == asked[attempt];
        assert item !in pending;
        assert forall later :: attempt < later < |more| ==> item !in more[later];
      }
    }
  }

  /** An attempt whose reply fills no slot judges no item. */
  lemma NothingToCredit<J, V>(s: Surroundings<J, V>, asked: seq<seq<nat>>, attempt: nat, completed: seq<Option<V>>)
    requires asked != [] && attempt == |asked| - 1 && Tracked(s, asked, attempt, completed)
    requires var reply := s.reply(attempt, asked[attempt]); !reply.Response? || reply.reviews.None?
    ensures Tracked(s, asked, |asked|, completed)
  {
    forall item | 0 <= item < |completed| ensures ItemTracked(s, asked, |asked|, item, completed[item]) {
      assert ItemTracked(s, asked, attempt, item, completed[item]);
    }
  }

  /** One slot of a response, parsed as its own item. */
  method CreditSlot<J, V>(s: Surroundings<J, V>, ghost attempt: nat, ghost pending: seq<nat>, ghost reviews: seq<RawReview<J>>,
                          slot: Option<J>, local: nat, item: nat)
    returns (value: Option<V>, errors: seq<BatchError>)
    requires local < |pending| && pending[local] == item && s.reply(attempt, pending) == Response(Some(reviews))
    requires slot == Slot(reviews, |pending|, local)
    ensures value == CreditFrom(s, attempt, pending, local, item)
  {
    value, errors := None, [];
    if slot.Some? {
      match s.parse(slot.value, item) {
        case Failure(why) => errors := [InvalidReview(local, why)];
        case Success(review) => value := Some(review);
      }
    }
  }

  /** The inner loop over one response: each filled slot is parsed as its own item. */
  method Credit<J, V>(s: Surroundings<J, V>, ghost asked: seq<seq<nat>>, attempt: nat, pending: seq<nat>,
                      reviews: seq<RawReview<J>>, slots: seq<Option<J>>, completed: seq<Option<V>>)
    returns (completed': seq<Option<V>>, errors: seq<BatchError>)
    requires asked != [] && attempt == |asked| - 1 && asked[attempt] == pending == PendingItems(completed)
    requires s.reply(attempt, pending) == Response(Some(reviews))
    requires |slots| == |pending| && forall i :: 0 <= i < |slots| ==> slots[i] == Slot(reviews, |pending|, i)
    requires Tracked(s, asked, attempt, completed)
    ensures |completed'| == |completed| && Tracked(s, asked, |asked|, completed')
    ensures forall i :: 0 <= i < |completed| && completed[i].Some? ==> completed'[i] == completed[i]
  {
    completed', errors := completed, [];
    for local := 0 to |slots|
      invariant |completed'| == |completed|
      invariant forall i :: 0 <= i < |completed| && completed[i].Some? ==> completed'[i] == completed[i]
      invariant forall k :: local <= k < |pending| ==> completed'[pending[k]].None?
      invariant forall k :: 0 <= k < local ==> Judged(s, asked, attempt, pending, k, completed'[pending[k]])
    {
      var value, why := CreditSlot(s, attempt, pending, reviews, slots[local], local, pending[local]);
      assert forall k :: 0 <= k < |pending| && k != local ==> pending[k] != pending[local];
      completed' := completed'[pending[local] := value];
      errors := errors + why;
      assert Judged(s, asked, attempt, pending, local, completed'[pending[local]]);
    }
    AllJudged(s, asked, attempt, pending, completed, completed');
  }

  /** The outcome of one slot of the current attempt. */
  ghost predicate Judged<J, V>(s: Surroundings<J, V>, asked: seq<seq<nat>>, attempt: nat, pending: seq<nat>,
                               local: nat, slot: Option<V>)
    requires local < |pending|
  {
    CreditFrom(s, attempt, pending, local, pending[local]) == slot
  }

  lemma {:induction false} AllJudged<J, V>(s: Surroundings<J, V>, asked: seq<seq<nat>>, attempt: nat, pending: seq<nat>,
                                           completed: seq<Option<V>>, completed': seq<Option<V>>)
    requires asked != [] && attempt == |asked| - 1 && asked[attempt] == pending == PendingItems(completed)
    requires Tracked(s, asked, attempt, completed) && |completed'| == |completed|
    requires forall i :: 0 <= i < |completed| && completed[i].Some? ==> completed'[i] == completed[i]
    requires forall k :: 0 <= k < |pending| ==> Judged(s, asked, attempt, pending, k, completed'[pending[k]])
    ensures Tracked(s, asked, |asked|, completed')
  {
    forall item | 0 <= item < |completed| ensures ItemTracked(s, asked, |asked|, item, completed'[item]) {
      assert ItemTracked(s, asked, attempt, item, completed[item]);
      if completed[item].None? {
        var local :| 0 <= local < |pending| && pending[local] == item;
        assert Judged(s, asked, attempt, pending, local, completed'[item]);
      }
    }
  }

  predicate AllSome<V>(completed: seq<Option<V>>) {
    forall i :: 0 <= i < |completed| ==> completed[i].Some?
  }

  function Values<V>(completed: seq<Option<V>>): seq<V>
    requires AllSome(completed)
  {
    seq(|completed|, i requires 0 <= i < |completed| => completed[i].value)
  }

  /** The final fill: what no attempt could validate becomes an explicit unresolved review. */
  function Explicit<V>(completed: seq<Option<V>>, unresolved: V): seq<V> {
    seq(|completed|, i requires 0 <= i < |completed| =>
      match completed[i] case Some(value) => value case None => unresolved)
  }

  /** An Ok result: one value per item, each credited to its own item in exactly one
      attempt and not asked again, or the unresolved review of an item that was asked in
      all four attempts and never got a valid review under its key. */
  ghost predicate NeverMiscredited<J, V>(s: Surroundings<J, V>, asked: seq<seq<nat>>, values: seq<V>) {
    exists errors: seq<BatchError> ::
      forall item :: 0 <= item < |values| ==>
        || CreditedByKey(s, asked, item, values[item])
        || (values[item] == s.unresolved(errors) && Exhausted(s, asked, item))
  }

  ghost predicate Exhausted<J, V>(s: Surroundings<J, V>, asked: seq<seq<nat>>, item: nat) {
    |asked| == LAST_ATTEMPT + 1 && StillPending(asked, item) && NeverValid(s, asked, |asked|, item)
  }

  /** The loop's state: every attempt asked exactly what was left, and none broke off. */
  ghost predicate Asking<J, V>(s: Surroundings<J, V>, items: nat, asked: seq<seq<nat>>, completed: seq<Option<V>>) {
    && |completed| == items && Tracked(s, asked, |asked|, completed)
    && (forall a :: 0 <= a < |asked| ==> asked[a] != [] && AsksWhatIsLeft(s, items, asked, a))
    && (forall a :: 0 <= a < |asked| ==> !s.reply(a, asked[a]).TransportError?)
  }

  /** `call_intent_batch` and `call_semantic_batch`, which differ only in prompt, parser and
      unresolved review. `asked` lists the pending items of every call made. */
  method CallBatch<J, V>(s: Surroundings<J, V>, items: nat)
    returns (result: Result<seq<V>, string>, asked: seq<seq<nat>>)
    ensures |asked| <= LAST_ATTEMPT + 1
    ensures result.Success? ==> |result.value| == items && NeverMiscredited(s, asked, result.value)
    ensures forall a :: 0 <= a < |asked| ==> asked[a] != [] && AsksWhatIsLeft(s, items, asked, a)
    ensures forall a, b, item :: 0 <= a < b < |asked| && item in asked[b] ==> item in asked[a]
    ensures result.Failure? ==> Breaks(s, asked, result.error)
    ensures (forall pending :: s.render(pending).None?) && (forall a :: 0 <= a < |asked| ==> !s.reply(a, asked[a]).TransportError?)
            ==> result.Success?
  {
    var repair: seq<BatchError> := [];
    var completed: seq<Option<V>> := seq(items, _ => None);
    asked := [];
    for attempt := 0 to LAST_ATTEMPT + 1
      invariant |asked| == attempt && Asking(s, items, asked, completed)
    {
      var pending := PendingItems(completed);
      if pending == [] {
        CompletedAreCredited(s, asked, completed, Values(completed), repair);
        LaterAsksLess(s, items, asked);
        result := Success(Values(completed));
        return;
      }
      var broken;
      broken, asked, completed, repair := Attempt(s, items, asked, pending, completed);
      if broken.Some? {
        LaterAsksLess(s, items, asked);
        result := Failure(broken.value);
        return;
      }
    }
    CompletedAreCredited(s, asked, completed, Explicit(completed, s.unresolved(repair)), repair);
    LaterAsksLess(s, items, asked);
    result := Success(Explicit(completed, s.unresolved(repair)));
  }

  /** One attempt over the pending items. */
  method Attempt<J, V>(s: Surroundings<J, V>, ghost items: nat, asked: seq<seq<nat>>, pending: seq<nat>, completed: seq<Option<V>>)
    returns (broken: Option<string>, asked': seq<seq<nat>>, completed': seq<Option<V>>, repair: seq<BatchError>)
    requires Asking(s, items, asked, completed) && pending == PendingItems(completed) != []
    ensures broken.None? ==> asked' == asked + [pending] && Asking(s, items, asked', completed')
    ensures broken.Some? ==>
              && (forall a :: 0 <= a < |asked'| ==> asked'[a] != [] && AsksWhatIsLeft(s, items, asked', a))
              && |asked'| <= |asked| + 1 && Breaks(s, asked', broken.value)
              && (s.render(pending).Some? || (s.reply(|asked|, pending).TransportError? && asked' == asked + [pending]))
  {
    asked', completed', repair, broken := asked, completed, [], s.render(pending);
    if broken.Some? {
      return;
    }
    AskAgain(s, asked, completed);
    PendingIsLeft(s, asked, completed);
    asked' := asked + [pending];
    assert forall a :: 0 <= a < |asked| ==> asked'[a] == asked[a];
    match s.reply(|asked|, pending) {
      case TransportError(error) =>
        broken := Some(error);
      case EmptyReply =>
        NothingToCredit(s, asked', |asked|, completed);
        repair := [NoResponse];
      case Response(response) =>
        completed', repair := CreditResponse(s, asked', |asked|, pending, response, completed);
    }
  }

  method CreditResponse<J, V>(s: Surroundings<J, V>, ghost asked: seq<seq<nat>>, attempt: nat, pending: seq<nat>,
                              response: Option<seq<RawReview<J>>>, completed: seq<Option<V>>)
    returns (completed': seq<Option<V>>, repair: seq<BatchError>)
    requires asked != [] && attempt == |asked| - 1 && asked[attempt] == pending == PendingItems(completed)
    requires s.reply(attempt, pending) == Response(response) && Tracked(s, asked, attempt, completed)
    ensures |completed'| == |completed| && Tracked(s, asked, |asked|, completed')
  {
    completed' := completed;
    var indexed := IndexedReviews(response, |pending|);
    if indexed.Failure? {
      NothingToCredit(s, asked, attempt, completed);
      repair := [indexed.error];
    } else {
      var errors;
      completed', errors := Credit(s, asked, attempt, pending, response.value, indexed.value.0, completed);
      repair := indexed.value.1 + errors;
    }
  }

  /** Later attempts ask a subset of earlier ones. */
  lemma LaterAsksLess<J, V>(s: Surroundings<J, V>, items: nat, asked: seq<seq<nat>>)
    requires forall a :: 0 <= a < |asked| ==> AsksWhatIsLeft(s, items, asked, a)
    ensures forall a, b, item :: 0 <= a < b < |asked| && item in asked[b] ==> item in asked[a]
  {
    forall a, b, item | 0 <= a < b < |asked| && item in asked[b] ensures item in asked[a] {
      assert AsksWhatIsLeft(s, items, asked, a) && AsksWhatIsLeft(s, items, asked, b);
      if c: nat, local: nat :| c < a && c < |asked| && CreditFrom(s, c, asked[c], local, item).Some? {
        assert CreditedBefore(s, asked, b, item);
      }
    }
  }

  /** Attempt `a` asks, in order, exactly the items that no earlier attempt credited. */
  ghost predicate AsksWhatIsLeft<J, V>(s: Surroundings<J, V>, items: nat, asked: seq<seq<nat>>, a: nat) {
    && a < |asked|
    && (forall k, l :: 0 <= k < l < |asked[a]| ==> asked[a][k] < asked[a][l])
    && forall item: nat :: item in asked[a] <==> item < items && !CreditedBefore(s, asked, a, item)
  }

  ghost predicate CreditedBefore<J, V>(s: Surroundings<J, V>, asked: seq<seq<nat>>, a: nat, item: nat) {
    exists b: nat, local: nat :: b < a && b < |asked| && CreditFrom(s, b, asked[b], local, item).Some?
  }

  /** How the loop can break off: the prompt cannot be rendered, or the last call failed. */
  ghost predicate Breaks<J, V>(s: Surroundings<J, V>, asked: seq<seq<nat>>, error: string) {
    || (exists pending :: s.render(pending) == Some(error))
    || (asked != [] && s.reply(|asked| - 1, asked[|asked| - 1]) == TransportError(error))
  }

  lemma PendingIsLeft<J, V>(s: Surroundings<J, V>, asked: seq<seq<nat>>, completed: seq<Option<V>>)
    requires Tracked(s, asked, |asked|, completed)
    requires forall a :: 0 <= a < |asked| ==> AsksWhatIsLeft(s, |completed|, asked, a)
    ensures forall a :: 0 <= a <= |asked| ==> AsksWhatIsLeft(s, |completed|, asked + [PendingItems(completed)], a)
  {
    var more := asked + [PendingItems(completed)];
    forall a, item: nat | 0 <= a <= |asked| ensures CreditedBefore(s, more, a, item) <==> CreditedBefore(s, asked, a, item) {
      if b: nat, local: nat :| b < a && b < |asked| && CreditFrom(s, b, asked[b], local, item).Some? {
        assert more[b] == asked[b];
      }
      if b: nat, local: nat :| b < a && b < |more| && CreditFrom(s, b, more[b], local, item).Some? {
        assert more[b] == asked[b];
      }
    }
    forall a | 0 <= a < |asked| ensures AsksWhatIsLeft(s, |completed|, more, a) {
      assert more[a] == asked[a] && AsksWhatIsLeft(s, |completed|, asked, a);
    }
    forall item: nat ensures item in more[|asked|] <==> item < |completed| && !CreditedBefore(s, more, |asked|, item) {
      if item < |completed| {
        assert ItemTracked(s, asked, |asked|, item, completed[item]);
        if completed[item].Some? {
          var attempt, local :| 0 <= attempt < |asked| && 0 <= local
            && CreditFrom(s, attempt, asked[attempt], local, item) == Some(completed[item].value);
          assert CreditedBefore(s, asked, |asked|, item);
        }
      }
    }
  }

  lemma CompletedAreCredited<J, V>(
      s: Surroundings<J, V>, asked: seq<seq<nat>>, completed: seq<Option<V>>, values: seq<V>, errors: seq<BatchError>)
    requires Tracked(s, asked, |asked|, completed) && values == Explicit(completed, s.unresolved(errors))
    requires AllSome(completed) || |asked| == LAST_ATTEMPT + 1
    ensures NeverMiscredited(s, asked, values)
  {
    forall item | 0 <= item < |values|
      ensures CreditedByKey(s, asked, item, values[item])
        || (values[item] == s.unresolved(errors) && Exhausted(s, asked, item))
    {
      assert ItemTracked(s, asked, |asked|, item, completed[item]);
      if completed[item].Some? {
        CreditsAreCarried(s, asked, item, values[item]);
      }
    }
  }
}
