/**
 * The offers slice of the store: the list of offers, a loading flag and a
 * nullable error text, and the reducer that updates them in place.
 *
 * The reducer is given twice, as it is read in two ways: `Reduce` is the
 * transition from a slice value and an action to the next slice value, and
 * the class `OffersState` is the draft object whose fields each reducer case
 * assigns. Every method of the class is proved to perform `Reduce`.
 */
module OffersProcess {
  import opened Types

  /** The slice as a value (`OffersState` in the source). */
  datatype OffersSlice = OffersSlice(
    offers: seq<Offer>,
    isOffersDataLoading: bool,
    offersDataError: Option<string>)

  /** The actions the offers reducer handles; `Unhandled` is any other action. */
  datatype OffersAction =
    | LoadOffers(payload: seq<Offer>)
    | SetOffersDataLoading(loading: bool)
    | SetOffersDataError(error: Option<string>)
    | UpdateOfferFavorite(id: string, isFavorite: bool)
    | UpdateOffer(offer: Offer)
    | Unhandled

  /** The slice before any action: no offers, not loading, no error. */
  const InitialState: OffersSlice := OffersSlice([], false, None)

  /** `j` is the first index of `s` holding an offer with id `id`. */
  predicate IsFirst(s: seq<Offer>, id: string, j: int)
  {
    0 <= j < |s| && s[j].id == id && forall k :: 0 <= k < j ==> s[k].id != id
  }

  /**
   * `findIndex((o) => o.id === id)`: the index of the first offer with id
   * `id`, or -1 when there is none.
   */
  function FirstIndex(s: seq<Offer>, id: string): (r: int)
    ensures -1 <= r < |s|
    ensures r == -1 <==> forall j :: 0 <= j < |s| ==> s[j].id != id
    ensures r != -1 ==> IsFirst(s, id, r)
  {
    if s == [] then -1
    else if s[0].id == id then 0
    else
      var k := FirstIndex(s[1..], id);
      if k == -1 then -1 else k + 1
  }

  /** There is at most one first index, so `FirstIndex` finds exactly it. */
  lemma FirstIndexUnique(s: seq<Offer>, id: string, j: int)
    requires IsFirst(s, id, j)
    ensures FirstIndex(s, id) == j
  {
    assert s[j].id == id;
  }

  /**
   * The offer list after `updateOfferFavorite(id, isFavorite)`: the flag of
   * the first offer with that id is set, nothing else changes.
   */
  function SetFavorite(s: seq<Offer>, id: string, isFavorite: bool): (r: seq<Offer>)
    ensures |r| == |s|
    ensures (forall j :: 0 <= j < |s| ==> s[j].id != id) ==> r == s
    ensures forall j :: IsFirst(s, id, j) ==> r[j] == s[j].(isFavorite := isFavorite)
    ensures forall j :: 0 <= j < |s| && !IsFirst(s, id, j) ==> r[j] == s[j]
    ensures forall j :: 0 <= j < |s| ==> r[j].id == s[j].id
  {
    var index := FirstIndex(s, id);
    if index == -1 then s
    else
      assert forall j :: IsFirst(s, id, j) ==> j == index by {
        forall j | IsFirst(s, id, j) ensures j == index { FirstIndexUnique(s, id, j); }
      }
      s[index := s[index].(isFavorite := isFavorite)]
  }

  /**
   * The offer list after `updateOffer(o)`: the first offer with `o.id` is
   * replaced by `o`, or `o` is appended when no offer has that id.
   */
  function Upsert(s: seq<Offer>, o: Offer): (r: seq<Offer>)
    ensures forall j :: IsFirst(s, o.id, j) ==> |r| == |s| && r[j] == o
    ensures forall j :: 0 <= j < |s| && !IsFirst(s, o.id, j) ==> j < |r| && r[j] == s[j]
    ensures (forall j :: 0 <= j < |s| ==> s[j].id != o.id) ==> r == s + [o]
  {
    var index := FirstIndex(s, o.id);
    if index != -1 then
      assert forall j :: IsFirst(s, o.id, j) ==> j == index by {
        forall j | IsFirst(s, o.id, j) ensures j == index { FirstIndexUnique(s, o.id, j); }
      }
      s[index := o]
    else
      s + [o]
  }

  /**
   * Upserting keeps ids distinct, and afterwards exactly one offer carries
   * the payload's id.
   */
  lemma UpsertKeepsIdsDistinct(s: seq<Offer>, o: Offer)
    requires DistinctIds(s)
    ensures DistinctIds(Upsert(s, o))
    ensures CountId(Upsert(s, o), o.id) == 1
  {
    var r := Upsert(s, o);
    var index := FirstIndex(s, o.id);
    if index != -1 {
      assert r == s[index := o];
      assert forall j :: 0 <= j < |s| ==> r[j].id == s[j].id;
      CountIdDistinct(r, index);
    } else {
      assert r == s + [o];
      assert forall j :: 0 <= j < |s| ==> r[j] == s[j];
      CountIdDistinct(r, |s|);
    }
  }

  /** After `updateOffer(o)`, looking `o.id` up finds `o` itself. */
  lemma UpsertThenFind(s: seq<Offer>, o: Offer)
    ensures FirstIndex(Upsert(s, o), o.id) != -1
    ensures Upsert(s, o)[FirstIndex(Upsert(s, o), o.id)] == o
  {
    var r := Upsert(s, o);
    var index := FirstIndex(s, o.id);
    if index != -1 {
      assert forall k :: 0 <= k < index ==> r[k] == s[k];
      FirstIndexUnique(r, o.id, index);
    } else {
      assert forall k :: 0 <= k < |s| ==> r[k] == s[k];
      FirstIndexUnique(r, o.id, |s|);
    }
  }

  /** `SetFavorite` never changes an id, so distinct ids stay distinct. */
  lemma SetFavoriteKeepsIdsDistinct(s: seq<Offer>, id: string, isFavorite: bool)
    requires DistinctIds(s)
    ensures DistinctIds(SetFavorite(s, id, isFavorite))
  {
  }

  /** The offers reducer as a function from a slice and an action to the next slice. */
  function Reduce(s: OffersSlice, a: OffersAction): OffersSlice
  {
    match a
    case LoadOffers(payload) => s.(offers := payload)
    case SetOffersDataLoading(loading) => s.(isOffersDataLoading := loading)
    case SetOffersDataError(error) => s.(offersDataError := error)
    case UpdateOfferFavorite(id, isFavorite) => s.(offers := SetFavorite(s.offers, id, isFavorite))
    case UpdateOffer(offer) => s.(offers := Upsert(s.offers, offer))
    case Unhandled => s
  }

  /**
   * Each field has its own actions: the flag changes only under
   * `setOffersDataLoading`, the error only under `setOffersDataError`, the
   * list only under the three list actions; only `loadOffers` can shorten
   * the list, and `updateOffer` adds at most one offer.
   */
  lemma ReduceFieldOwnership(s: OffersSlice, a: OffersAction)
    ensures Reduce(s, a).isOffersDataLoading != s.isOffersDataLoading ==> a.SetOffersDataLoading?
    ensures Reduce(s, a).offersDataError != s.offersDataError ==> a.SetOffersDataError?
    ensures Reduce(s, a).offers != s.offers ==> a.LoadOffers? || a.UpdateOfferFavorite? || a.UpdateOffer?
    ensures |Reduce(s, a).offers| < |s.offers| ==> a.LoadOffers?
    ensures a.UpdateOffer? ==> |s.offers| <= |Reduce(s, a).offers| <= |s.offers| + 1
  {
    if a.UpdateOffer? && FirstIndex(s.offers, a.offer.id) != -1 {
      assert IsFirst(s.offers, a.offer.id, FirstIndex(s.offers, a.offer.id));
    }
  }

  /** Dispatching the actions of `actions` one after another. */
  function ReduceAll(s: OffersSlice, actions: seq<OffersAction>): OffersSlice
    decreases |actions|
  {
    if actions == [] then s
    else ReduceAll(Reduce(s, actions[0]), actions[1..])
  }

  /** Dispatching `xs` and then `ys` is dispatching `xs + ys`. */
  lemma {:induction false} ReduceAllAppend(s: OffersSlice, xs: seq<OffersAction>, ys: seq<OffersAction>)
    ensures ReduceAll(s, xs + ys) == ReduceAll(ReduceAll(s, xs), ys)
    decreases |xs|
  {
    if xs == [] {
      assert xs + ys == ys;
    } else {
      assert (xs + ys)[0] == xs[0] && (xs + ys)[1..] == xs[1..] + ys;
      ReduceAllAppend(Reduce(s, xs[0]), xs[1..], ys);
    }
  }

  /**
   * Every action except `loadOffers` keeps the ids of the offer list
   * distinct; `loadOffers` does so when its payload has distinct ids.
   */
  lemma ReduceKeepsIdsDistinct(s: OffersSlice, a: OffersAction)
    requires DistinctIds(s.offers)
    requires a.LoadOffers? ==> DistinctIds(a.payload)
    ensures DistinctIds(Reduce(s, a).offers)
  {
    match a
    case UpdateOffer(offer) => UpsertKeepsIdsDistinct(s.offers, offer);
    case UpdateOfferFavorite(id, isFavorite) => SetFavoriteKeepsIdsDistinct(s.offers, id, isFavorite);
    case _ =>
  }

  /**
   * Reference model of the favourites merge (`fetchFavoriteOffersAction`):
   * each fetched favourite, marked favourite, is upserted in turn.
   */
  function MergeFavorites(s: seq<Offer>, favorites: seq<Offer>): seq<Offer>
    decreases |favorites|
  {
    if favorites == [] then s
    else MergeFavorites(Upsert(s, favorites[0].(isFavorite := true)), favorites[1..])
  }

  /** The merge never duplicates an id. */
  lemma {:induction false} MergeKeepsIdsDistinct(s: seq<Offer>, favorites: seq<Offer>)
    requires DistinctIds(s)
    ensures DistinctIds(MergeFavorites(s, favorites))
    decreases |favorites|
  {
    if favorites != [] {
      UpsertKeepsIdsDistinct(s, favorites[0].(isFavorite := true));
      MergeKeepsIdsDistinct(Upsert(s, favorites[0].(isFavorite := true)), favorites[1..]);
    }
  }

  /** An upsert keeps the id at every old index and adds at most one offer. */
  lemma UpsertKeepsIdsAt(s: seq<Offer>, o: Offer)
    ensures |s| <= |Upsert(s, o)| <= |s| + 1
    ensures forall j :: 0 <= j < |s| ==> Upsert(s, o)[j].id == s[j].id
  {
    var r := Upsert(s, o);
    if FirstIndex(s, o.id) != -1 {
      assert IsFirst(s, o.id, FirstIndex(s, o.id));
    }
    forall j | 0 <= j < |s| ensures r[j].id == s[j].id {
      if IsFirst(s, o.id, j) { assert r[j] == o; }
    }
  }

  /**
   * The merge keeps every existing offer's id at its index, and leaves the
   * offers whose id no favourite carries untouched; it adds at most one
   * offer per favourite.
   */
  lemma {:induction false} MergeKeepsUnmentioned(s: seq<Offer>, favorites: seq<Offer>)
    ensures |s| <= |MergeFavorites(s, favorites)| <= |s| + |favorites|
    ensures forall j :: 0 <= j < |s| ==> MergeFavorites(s, favorites)[j].id == s[j].id
    ensures forall j :: 0 <= j < |s| && (forall k :: 0 <= k < |favorites| ==> favorites[k].id != s[j].id)
              ==> MergeFavorites(s, favorites)[j] == s[j]
    decreases |favorites|
  {
    if favorites != [] {
      var o := favorites[0].(isFavorite := true);
      var t := Upsert(s, o);
      UpsertKeepsIdsAt(s, o);
      MergeKeepsUnmentioned(t, favorites[1..]);
      forall j | 0 <= j < |s| && (forall k :: 0 <= k < |favorites| ==> favorites[k].id != s[j].id)
        ensures MergeFavorites(s, favorites)[j] == s[j]
      {
        assert favorites[0].id != s[j].id;
        assert t[j] == s[j];
        forall k | 0 <= k < |favorites[1..]| ensures favorites[1..][k].id != t[j].id {
          assert favorites[1..][k] == favorites[k + 1];
        }
      }
    }
  }

  /**
   * An offer found by `id` that no remaining favourite carries is still the
   * offer found by `id` after the rest of the merge.
   */
  lemma MergeKeepsFoundUnmentioned(s: seq<Offer>, favorites: seq<Offer>, id: string)
    requires FirstIndex(s, id) != -1
    requires forall k :: 0 <= k < |favorites| ==> favorites[k].id != id
    ensures FirstIndex(MergeFavorites(s, favorites), id) == FirstIndex(s, id)
    ensures MergeFavorites(s, favorites)[FirstIndex(s, id)] == s[FirstIndex(s, id)]
  {
    var j := FirstIndex(s, id);
    var m := MergeFavorites(s, favorites);
    MergeKeepsUnmentioned(s, favorites);
    assert IsFirst(s, id, j);
    assert m[j] == s[j];
    assert forall k :: 0 <= k < j ==> m[k].id == s[k].id;
    FirstIndexUnique(m, id, j);
  }

  /**
   * When the fetched favourites carry distinct ids, looking up any of them
   * after the merge finds that very favourite, marked favourite.
   */
  lemma {:induction false} MergeInstallsFavorites(s: seq<Offer>, favorites: seq<Offer>)
    requires DistinctIds(favorites)
    ensures forall k :: 0 <= k < |favorites| ==>
              FirstIndex(MergeFavorites(s, favorites), favorites[k].id) != -1 &&
              MergeFavorites(s, favorites)[FirstIndex(MergeFavorites(s, favorites), favorites[k].id)] ==
                favorites[k].(isFavorite := true)
    decreases |favorites|
  {
    if favorites != [] {
      var o := favorites[0].(isFavorite := true);
      var t := Upsert(s, o);
      var rest := favorites[1..];
      var m := MergeFavorites(s, favorites);
      assert m == MergeFavorites(t, rest);
      assert DistinctIds(rest) by {
        forall i, j | 0 <= i < |rest| && 0 <= j < |rest| && rest[i].id == rest[j].id ensures i == j {
          assert rest[i] == favorites[i + 1] && rest[j] == favorites[j + 1];
        }
      }
      MergeInstallsFavorites(t, rest);
      UpsertThenFind(s, o);
      assert forall k :: 0 <= k < |rest| ==> rest[k].id != o.id by {
        forall k | 0 <= k < |rest| ensures rest[k].id != o.id {
          assert rest[k] == favorites[k + 1];
        }
      }
      MergeKeepsFoundUnmentioned(t, rest, o.id);
      forall k | 1 <= k < |favorites|
        ensures FirstIndex(m, favorites[k].id) != -1 &&
                m[FirstIndex(m, favorites[k].id)] == favorites[k].(isFavorite := true)
      {
        assert favorites[k] == rest[k - 1];
      }
    }
  }

  /**
   * An offer found by id that is a favourite is still found, still a
   * favourite, after a favourite offer is upserted.
   */
  lemma UpsertKeepsFoundFavorite(s: seq<Offer>, o: Offer, id: string)
    requires o.isFavorite
    requires FirstIndex(s, id) != -1 && s[FirstIndex(s, id)].isFavorite
    ensures FirstIndex(Upsert(s, o), id) != -1
    ensures Upsert(s, o)[FirstIndex(Upsert(s, o), id)].isFavorite
  {
    var r := Upsert(s, o);
    if id == o.id {
      UpsertThenFind(s, o);
    } else {
      var i := FirstIndex(s, id);
      assert !IsFirst(s, o.id, i);
      forall k | 0 <= k < i ensures r[k].id != id {
        if IsFirst(s, o.id, k) { assert r[k] == o; } else { assert r[k] == s[k]; }
      }
      FirstIndexUnique(r, id, i);
    }
  }

  /**
   * After the merge, looking up the id of any fetched favourite finds an
   * offer, and that offer is marked favourite.
   */
  lemma {:induction false} MergeMarksFavorites(s: seq<Offer>, favorites: seq<Offer>)
    ensures forall k :: 0 <= k < |favorites| ==>
              FirstIndex(MergeFavorites(s, favorites), favorites[k].id) != -1 &&
              MergeFavorites(s, favorites)[FirstIndex(MergeFavorites(s, favorites), favorites[k].id)].isFavorite
    decreases |favorites|
  {
    if favorites != [] {
      var o := favorites[0].(isFavorite := true);
      var t := Upsert(s, o);
      var rest := favorites[1..];
      MergeMarksFavorites(t, rest);
      UpsertThenFind(s, o);
      MergeKeepsFound(t, rest, o.id);
      forall k | 1 <= k < |favorites|
        ensures FirstIndex(MergeFavorites(s, favorites), favorites[k].id) != -1
      {
        assert favorites[k] == rest[k - 1];
      }
    }
  }

  /** A favourite found by `id` stays found and favourite through the rest of a merge. */
  lemma {:induction false} MergeKeepsFound(s: seq<Offer>, favorites: seq<Offer>, id: string)
    requires FirstIndex(s, id) != -1 && s[FirstIndex(s, id)].isFavorite
    ensures FirstIndex(MergeFavorites(s, favorites), id) != -1
    ensures MergeFavorites(s, favorites)[FirstIndex(MergeFavorites(s, favorites), id)].isFavorite
    decreases |favorites|
  {
    if favorites != [] {
      var o := favorites[0].(isFavorite := true);
      UpsertKeepsFoundFavorite(s, o, id);
      MergeKeepsFound(Upsert(s, o), favorites[1..], id);
    }
  }

  /** The draft of the offers slice, whose fields the reducer cases assign. */
  class OffersState {
    var offers: seq<Offer>
    var isOffersDataLoading: bool
    var offersDataError: Option<string>

    /** The current value of the slice. */
    function Snapshot(): OffersSlice
      reads this
    {
      OffersSlice(offers, isOffersDataLoading, offersDataError)
    }

    /** `initialState`. */
    constructor ()
      ensures offers == [] && !isOffersDataLoading && offersDataError == None
      ensures Snapshot() == InitialState
    {
      offers := [];
      isOffersDataLoading := false;
      offersDataError := None;
    }

    /** The `loadOffers` case: the list becomes the payload. */
    method LoadOffers(payload: seq<Offer>)
      modifies this
      ensures offers == payload
      ensures isOffersDataLoading == old(isOffersDataLoading) && offersDataError == old(offersDataError)
    {
      offers := payload;
    }

    /** The `setOffersDataLoading` case. */
    method SetOffersDataLoading(loading: bool)
      modifies this
      ensures isOffersDataLoading == loading
      ensures offers == old(offers) && offersDataError == old(offersDataError)
    {
      isOffersDataLoading := loading;
    }

    /** The `setOffersDataError` case. */
    method SetOffersDataError(error: Option<string>)
      modifies this
      ensures offersDataError == error
      ensures offers == old(offers) && isOffersDataLoading == old(isOffersDataLoading)
    {
      offersDataError := error;
    }

    /** The `updateOfferFavorite` case: flag the first offer with `id`, if any. */
    method UpdateOfferFavorite(id: string, isFavorite: bool)
      modifies this
      ensures offers == SetFavorite(old(offers), id, isFavorite)
      ensures |offers| == |old(offers)|
      ensures isOffersDataLoading == old(isOffersDataLoading) && offersDataError == old(offersDataError)
    {
      var index := FirstIndex(offers, id);
      if index != -1 {
        offers := offers[index := offers[index].(isFavorite := isFavorite)];
      }
    }

    /** The `updateOffer` case: replace the first offer with the same id, or append. */
    method UpdateOffer(updatedOffer: Offer)
      modifies this
      ensures offers == Upsert(old(offers), updatedOffer)
      ensures DistinctIds(old(offers)) ==> DistinctIds(offers)
      ensures isOffersDataLoading == old(isOffersDataLoading) && offersDataError == old(offersDataError)
    {
      if DistinctIds(offers) {
        UpsertKeepsIdsDistinct(offers, updatedOffer);
      }
      var index := FirstIndex(offers, updatedOffer.id);
      if index != -1 {
        offers := offers[index := updatedOffer];
      } else {
        offers := offers + [updatedOffer];
      }
    }

    /** `dispatch(action)` on this slice: the case of the action runs, others are ignored. */
    method Dispatch(a: OffersAction)
      modifies this
      ensures Snapshot() == Reduce(old(Snapshot()), a)
    {
      match a
      case LoadOffers(payload) => LoadOffers(payload);
      case SetOffersDataLoading(loading) => SetOffersDataLoading(loading);
      case SetOffersDataError(error) => SetOffersDataError(error);
      case UpdateOfferFavorite(id, isFavorite) => UpdateOfferFavorite(id, isFavorite);
      case UpdateOffer(offer) => UpdateOffer(offer);
      case Unhandled =>
    }
  }
}
