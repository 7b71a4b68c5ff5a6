/**
 * `fetchOffersAction`: the thunk that loads the offer list. It dispatches a
 * fixed sequence of offers-slice actions around one GET request; the outcome
 * of the request is a parameter here.
 */
module Action {
  import opened Types
  import opened OffersProcess

  /** What the request threw: an `Error` object with its message, or any other value. */
  datatype FetchFailure = ErrorInstance(message: string) | NonErrorValue

  /** The outcome of `GET /offers`. */
  datatype FetchResponse = Success(data: seq<Offer>) | Failure(failure: FetchFailure)

  /** The text recorded when the thrown value is not an `Error`. */
  const FallbackErrorMessage: string := "Не удалось загрузить данные. Сервер недоступен."

  /** The error text stored for a failed request. */
  function ErrorMessage(failure: FetchFailure): string
  {
    match failure
    case ErrorInstance(message) => message
    case NonErrorValue => FallbackErrorMessage
  }

  /**
   * The actions `fetchOffersAction` dispatches, in order: loading on, error
   * cleared, then the list or the error text, then loading off.
   */
  function FetchDispatches(response: FetchResponse): (r: seq<OffersAction>)
    ensures |r| == 4
    ensures r[0] == SetOffersDataLoading(true) && r[1] == SetOffersDataError(None)
    ensures r[3] == SetOffersDataLoading(false)
    ensures response.Success? ==> r[2] == LoadOffers(response.data)
    ensures response.Failure? ==> r[2] == SetOffersDataError(Some(ErrorMessage(response.failure)))
  {
    var outcome :=
      match response
      case Success(data) => LoadOffers(data)
      case Failure(failure) => SetOffersDataError(Some(ErrorMessage(failure)));
    [SetOffersDataLoading(true), SetOffersDataError(None), outcome, SetOffersDataLoading(false)]
  }

  /**
   * Each call dispatches exactly one result action: `loadOffers` on success,
   * or a non-null `setOffersDataError` on failure, never both.
   */
  lemma ExactlyOneResultAction(response: FetchResponse)
    ensures var r := FetchDispatches(response);
      (r[2].LoadOffers? <==> response.Success?) &&
      (r[2].SetOffersDataError? <==> response.Failure?) &&
      (r[2].SetOffersDataError? ==> r[2].error.Some?)
    ensures forall k :: 0 <= k < 4 && k != 2 ==> !FetchDispatches(response)[k].LoadOffers?
  {
  }

  /** Before any result applies, loading is on, the error cleared, and the list untouched. */
  lemma LoadingBeforeResult(s: OffersSlice, response: FetchResponse)
    ensures ReduceAll(s, FetchDispatches(response)[..2]) ==
            OffersSlice(s.offers, true, None)
  {
    var r := FetchDispatches(response);
    assert r[..2] == [r[0], r[1]];
    ReduceAllPair(s, r[0], r[1]);
  }

  /** Dispatching two actions is reducing by the first, then by the second. */
  lemma ReduceAllPair(s: OffersSlice, a: OffersAction, b: OffersAction)
    ensures ReduceAll(s, [a, b]) == Reduce(Reduce(s, a), b)
  {
    assert [a, b][0] == a && [a, b][1..] == [b];
    assert [b][0] == b && [b][1..] == [];
    assert ReduceAll(s, [a, b]) == ReduceAll(Reduce(s, a), [b]);
    assert ReduceAll(Reduce(s, a), [b]) == ReduceAll(Reduce(Reduce(s, a), b), []);
  }

  /** A successful fetch ends with exactly the response's list, not loading, and no error. */
  lemma {:induction false} FetchSuccessState(s: OffersSlice, data: seq<Offer>)
    ensures ReduceAll(s, FetchDispatches(Success(data))) == OffersSlice(data, false, None)
  {
    var r := FetchDispatches(Success(data));
    assert r == r[..2] + [r[2], r[3]];
    ReduceAllAppend(s, r[..2], [r[2], r[3]]);
    LoadingBeforeResult(s, Success(data));
    ReduceAllPair(ReduceAll(s, r[..2]), r[2], r[3]);
  }

  /**
   * A failed fetch ends with the list as it was, the error text of the
   * failure recorded (never null), and not loading.
   */
  lemma {:induction false} FetchFailureState(s: OffersSlice, failure: FetchFailure)
    ensures ReduceAll(s, FetchDispatches(Failure(failure))) ==
            OffersSlice(s.offers, false, Some(ErrorMessage(failure)))
    ensures failure.ErrorInstance? ==>
            ReduceAll(s, FetchDispatches(Failure(failure))).offersDataError == Some(failure.message)
    ensures failure.NonErrorValue? ==>
            ReduceAll(s, FetchDispatches(Failure(failure))).offersDataError == Some(FallbackErrorMessage)
  {
    var r := FetchDispatches(Failure(failure));
    assert r == r[..2] + [r[2], r[3]];
    ReduceAllAppend(s, r[..2], [r[2], r[3]]);
    LoadingBeforeResult(s, Failure(failure));
    ReduceAllPair(ReduceAll(s, r[..2]), r[2], r[3]);
  }

  /** Whatever the outcome, loading is off when the thunk returns. */
  lemma LoadingClearedAtEnd(s: OffersSlice, response: FetchResponse)
    ensures !ReduceAll(s, FetchDispatches(response)).isOffersDataLoading
  {
    match response
    case Success(data) => FetchSuccessState(s, data);
    case Failure(failure) => FetchFailureState(s, failure);
  }

  /**
   * `fetchOffersAction()` run against the offers slice of a store, with the
   * outcome of the request given; it returns the actions it dispatched.
   */
  method FetchOffersAction(store: OffersState, response: FetchResponse) returns (dispatched: seq<OffersAction>)
    modifies store
    ensures dispatched == FetchDispatches(response)
    ensures store.Snapshot() == ReduceAll(old(store.Snapshot()), dispatched)
    ensures response.Success? ==> store.Snapshot() == OffersSlice(response.data, false, None)
    ensures response.Failure? ==>
              store.Snapshot() == OffersSlice(old(store.offers), false, Some(ErrorMessage(response.failure)))
  {
    ghost var before := store.Snapshot();
    store.Dispatch(SetOffersDataLoading(true));
    store.Dispatch(SetOffersDataError(None));
    dispatched := [SetOffersDataLoading(true), SetOffersDataError(None)];
    match response {
      case Success(data) =>
        store.Dispatch(LoadOffers(data));
        dispatched := dispatched + [LoadOffers(data)];
      case Failure(failure) =>
        var errorMessage := ErrorMessage(failure);
        store.Dispatch(SetOffersDataError(Some(errorMessage)));
        dispatched := dispatched + [SetOffersDataError(Some(errorMessage))];
    }
    store.Dispatch(SetOffersDataLoading(false));
    dispatched := dispatched + [SetOffersDataLoading(false)];
    assert dispatched == FetchDispatches(response);
    match response {
      case Success(data) => FetchSuccessState(before, data);
      case Failure(failure) => FetchFailureState(before, failure);
    }
  }

  /** The two offers of the action tests (details abbreviated). */
  const TestOffer1: Offer := Offer("1", "Paris", false, OfferDetails("Test Offer 1", "apartment", 100, false, "test.jpg"))
  const TestOffer2: Offer := Offer("2", "Amsterdam", true, OfferDetails("Test Offer 2", "house", 200, true, "test2.jpg"))

  /**
   * The favourites-merge test: from `[offer1]`, merging `[offer1 (not
   * favourite), offer2]` gives two offers, offer1 now favourite and offer2
   * appended as favourite.
   */
  lemma MergeFavoritesExample()
    ensures var r := MergeFavorites([TestOffer1], [TestOffer1.(isFavorite := false), TestOffer2]);
      |r| == 2 && r[0] == TestOffer1.(isFavorite := true) && r[1] == TestOffer2.(isFavorite := true)
  {
    var favorites := [TestOffer1.(isFavorite := false), TestOffer2];
    var s1 := Upsert([TestOffer1], TestOffer1.(isFavorite := true));
    assert FirstIndex([TestOffer1], "1") == 0;
    assert s1 == [TestOffer1.(isFavorite := true)];
    assert FirstIndex(s1, "2") == -1 by { assert s1[0].id == "1"; }
    var s2 := Upsert(s1, TestOffer2.(isFavorite := true));
    assert s2 == s1 + [TestOffer2.(isFavorite := true)];
    assert favorites[0].(isFavorite := true) == TestOffer1.(isFavorite := true);
    assert favorites[1..] == [TestOffer2];
    assert MergeFavorites([TestOffer1], favorites) == MergeFavorites(s1, [TestOffer2]);
    assert [TestOffer2][1..] == [];
    assert MergeFavorites(s1, [TestOffer2]) == MergeFavorites(s2, []);
  }

  /**
   * The toggle-favourite test: on an empty list, `updateOffer` makes the
   * offer findable by id. This reads the test as `toggleFavoriteAction`
   * dispatching `updateOffer` with the server's response; that thunk's source
   * is not part of this model.
   */
  lemma ToggleFavoriteExample()
    ensures var r := Upsert([], TestOffer1.(isFavorite := true));
      r[FirstIndex(r, "1")] == TestOffer1.(isFavorite := true)
  {
    UpsertThenFind([], TestOffer1.(isFavorite := true));
  }
}
