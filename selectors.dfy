/**
 * Selectors: the root state as a record of its slices, the accessors that
 * read one field of it, and the derived views (offers of the selected city,
 * number of favourites).
 */
module Selectors {
  import opened Types
  import OffersProcess
  import UserProcess

  /** The app slice: the selected city. */
  datatype AppSlice = AppSlice(city: string)

  /** The combined store: one field per registered slice. */
  datatype RootState = RootState(
    app: AppSlice,
    offers: OffersProcess.OffersSlice,
    user: UserProcess.UserSlice)

  function GetSelectedCity(state: RootState): string { state.app.city }
  function GetAllOffers(state: RootState): seq<Offer> { state.offers.offers }
  function GetOffersLoadingStatus(state: RootState): bool { state.offers.isOffersDataLoading }
  function GetOffersError(state: RootState): Option<string> { state.offers.offersDataError }
  function GetAuthorizationStatus(state: RootState): AuthorizationStatus { state.user.authorizationStatus }
  function GetUser(state: RootState): Option<User> { state.user.user }

  /** Each accessor reads back the slice field it names, whatever the other slices hold. */
  lemma AccessorsReadTheirField(app: AppSlice, offers: OffersProcess.OffersSlice, user: UserProcess.UserSlice)
    ensures var state := RootState(app, offers, user);
      GetSelectedCity(state) == app.city &&
      GetAllOffers(state) == offers.offers &&
      GetOffersLoadingStatus(state) == offers.isOffersDataLoading &&
      GetOffersError(state) == offers.offersDataError &&
      GetAuthorizationStatus(state) == user.authorizationStatus &&
      GetUser(state) == user.user
  {
  }

  /**
   * `r` occurs in `s` in order, possibly with gaps: matching from the back,
   * each element of `r` is found at or before the last unmatched one of `s`.
   */
  predicate IsSubsequence(r: seq<Offer>, s: seq<Offer>)
    decreases |s|
  {
    if r == [] then true
    else if s == [] then false
    else if r[|r| - 1] == s[|s| - 1] then IsSubsequence(r[..|r| - 1], s[..|s| - 1])
    else IsSubsequence(r, s[..|s| - 1])
  }

  /**
   * `Array.prototype.filter`: the offers of `s` that `keep` accepts, in their
   * order, each as often as it occurs in `s`.
   */
  function Filter(s: seq<Offer>, keep: Offer -> bool): (r: seq<Offer>)
    ensures |r| <= |s|
    ensures forall i :: 0 <= i < |r| ==> keep(r[i])
    decreases |s|
  {
    if s == [] then []
    else Filter(s[..|s| - 1], keep) + (if keep(s[|s| - 1]) then [s[|s| - 1]] else [])
  }

  /** Filtering a list extended by one offer extends the result by that offer if it is kept. */
  lemma FilterSnoc(s: seq<Offer>, x: Offer, keep: Offer -> bool)
    ensures Filter(s + [x], keep) == Filter(s, keep) + (if keep(x) then [x] else [])
  {
    assert (s + [x])[..|s|] == s;
  }

  /** Every kept offer occurs in the result as often as in the input, every other not at all. */
  lemma {:induction false} FilterCounts(s: seq<Offer>, keep: Offer -> bool)
    ensures forall x :: multiset(Filter(s, keep))[x] == if keep(x) then multiset(s)[x] else 0
    decreases |s|
  {
    if s != [] {
      var init, last := s[..|s| - 1], s[|s| - 1];
      assert s == init + [last];
      FilterCounts(init, keep);
      FilterSnoc(init, last, keep);
    }
  }

  /** The result keeps the relative order of the input. */
  lemma {:induction false} FilterIsSubsequence(s: seq<Offer>, keep: Offer -> bool)
    ensures IsSubsequence(Filter(s, keep), s)
    decreases |s|
  {
    if s != [] {
      var init, last := s[..|s| - 1], s[|s| - 1];
      var r := Filter(init, keep);
      FilterIsSubsequence(init, keep);
      if keep(last) {
        assert Filter(s, keep) == r + [last];
        assert (r + [last])[..|r|] == r;
      } else {
        assert Filter(s, keep) == r;
        assert r != [] ==> keep(r[|r| - 1]);
      }
    }
  }

  /** Nothing is kept exactly when no offer is accepted; everything exactly when all are. */
  lemma {:induction false} FilterEmptyOrFull(s: seq<Offer>, keep: Offer -> bool)
    ensures Filter(s, keep) == [] <==> forall i :: 0 <= i < |s| ==> !keep(s[i])
    ensures |Filter(s, keep)| == |s| <==> forall i :: 0 <= i < |s| ==> keep(s[i])
    decreases |s|
  {
    if s != [] {
      var init, last := s[..|s| - 1], s[|s| - 1];
      FilterEmptyOrFull(init, keep);
      assert forall i :: 0 <= i < |init| ==> init[i] == s[i];
    }
  }

  /** The test `offer.city.name === city`, as a function value. */
  function CityIs(city: string): Offer -> bool
  {
    (o: Offer) => o.cityName == city
  }

  /** `getFilteredOffers` on a list: the offers whose city is `city`. */
  function OffersInCity(offers: seq<Offer>, city: string): (r: seq<Offer>)
    ensures |r| <= |offers|
    ensures forall i :: 0 <= i < |r| ==> r[i].cityName == city
  {
    Filter(offers, CityIs(city))
  }

  /**
   * The offers of a city are exactly the input's offers of that city: each
   * is returned as often as it occurs, no other offer is, and the input's
   * order is kept.
   */
  lemma OffersInCityExact(offers: seq<Offer>, city: string)
    ensures forall i :: 0 <= i < |offers| && offers[i].cityName == city ==> offers[i] in OffersInCity(offers, city)
    ensures forall x :: multiset(OffersInCity(offers, city))[x] ==
              if x.cityName == city then multiset(offers)[x] else 0
    ensures IsSubsequence(OffersInCity(offers, city), offers)
  {
    var r := OffersInCity(offers, city);
    FilterCounts(offers, CityIs(city));
    FilterIsSubsequence(offers, CityIs(city));
    assert forall i :: 0 <= i < |offers| && offers[i].cityName == city ==> multiset(r)[offers[i]] > 0;
  }

  /** Extending the list by one offer extends its city's filter by that offer. */
  lemma OffersInCitySnoc(offers: seq<Offer>, x: Offer, city: string)
    ensures OffersInCity(offers + [x], city) ==
            OffersInCity(offers, city) + (if x.cityName == city then [x] else [])
  {
    FilterSnoc(offers, x, CityIs(city));
  }

  /** A city that no offer names has no offers. */
  lemma OffersInCityEmpty(offers: seq<Offer>, city: string)
    requires forall i :: 0 <= i < |offers| ==> offers[i].cityName != city
    ensures OffersInCity(offers, city) == []
  {
    FilterEmptyOrFull(offers, CityIs(city));
  }

  /** `getFilteredOffers`: the offers of the selected city, in list order. */
  function GetFilteredOffers(state: RootState): (r: seq<Offer>)
    ensures |r| <= |GetAllOffers(state)|
    ensures forall i :: 0 <= i < |r| ==> r[i].cityName == GetSelectedCity(state)
    ensures forall i :: 0 <= i < |GetAllOffers(state)| && GetAllOffers(state)[i].cityName == GetSelectedCity(state)
              ==> GetAllOffers(state)[i] in r
    ensures forall x :: x in r ==> x in GetAllOffers(state)
    ensures IsSubsequence(r, GetAllOffers(state))
  {
    var r := OffersInCity(GetAllOffers(state), GetSelectedCity(state));
    OffersInCityExact(GetAllOffers(state), GetSelectedCity(state));
    assert forall x :: x in r ==> multiset(r)[x] > 0;
    r
  }

  /** Whether an offer is marked favourite. */
  predicate IsFavoriteOffer(o: Offer) { o.isFavorite }

  /** `offers.filter((offer) => offer.isFavorite)`. */
  function FavoriteOffers(offers: seq<Offer>): (r: seq<Offer>)
    ensures |r| <= |offers|
    ensures forall i :: 0 <= i < |r| ==> r[i].isFavorite
    ensures r == [] <==> forall i :: 0 <= i < |offers| ==> !offers[i].isFavorite
    ensures |r| == |offers| <==> forall i :: 0 <= i < |offers| ==> offers[i].isFavorite
  {
    FilterEmptyOrFull(offers, IsFavoriteOffer);
    Filter(offers, IsFavoriteOffer)
  }

  /**
   * The favourites are exactly the input's favourite offers, each as often
   * as it occurs, in the input's order.
   */
  lemma FavoriteOffersExact(offers: seq<Offer>)
    ensures forall x :: multiset(FavoriteOffers(offers))[x] == if x.isFavorite then multiset(offers)[x] else 0
    ensures IsSubsequence(FavoriteOffers(offers), offers)
  {
    FilterCounts(offers, IsFavoriteOffer);
    FilterIsSubsequence(offers, IsFavoriteOffer);
  }

  /** An offer is among the favourites exactly when it is a favourite offer of the list. */
  lemma FavoriteOffersMembers(offers: seq<Offer>)
    ensures forall i :: 0 <= i < |offers| && offers[i].isFavorite ==> offers[i] in FavoriteOffers(offers)
    ensures forall x :: x in FavoriteOffers(offers) ==> x in offers
  {
    var r := FavoriteOffers(offers);
    FavoriteOffersExact(offers);
    forall i | 0 <= i < |offers| && offers[i].isFavorite ensures offers[i] in r {
      assert multiset(offers)[offers[i]] > 0;
      assert multiset(r)[offers[i]] > 0;
    }
    forall x | x in r ensures x in offers {
      assert multiset(r)[x] > 0;
    }
  }

  /** The indices of the offers of `s` that `keep` accepts. */
  function KeptIndices(s: seq<Offer>, keep: Offer -> bool): set<int>
  {
    set i | 0 <= i < |s| && keep(s[i])
  }

  /** The length of a filtered list is the number of indices whose offer is kept. */
  lemma {:induction false} FilterLengthIsIndexCount(s: seq<Offer>, keep: Offer -> bool)
    ensures |Filter(s, keep)| == |KeptIndices(s, keep)|
    decreases |s|
  {
    if s != [] {
      var init, last := s[..|s| - 1], s[|s| - 1];
      FilterLengthIsIndexCount(init, keep);
      var n := |s| - 1;
      assert forall i :: 0 <= i < n ==> s[i] == init[i];
      if keep(last) {
        assert KeptIndices(s, keep) == KeptIndices(init, keep) + {n};
        assert n !in KeptIndices(init, keep);
      } else {
        assert KeptIndices(s, keep) == KeptIndices(init, keep);
      }
    }
  }

  /**
   * `getFavoriteOffersCount`: the number of favourite offers, between 0 and
   * the list length; 0 exactly when no offer is favourite.
   */
  function GetFavoriteOffersCount(state: RootState): (n: nat)
    ensures n <= |GetAllOffers(state)|
    ensures n == 0 <==> forall i :: 0 <= i < |GetAllOffers(state)| ==> !GetAllOffers(state)[i].isFavorite
    ensures n == |GetAllOffers(state)| <==> forall i :: 0 <= i < |GetAllOffers(state)| ==> GetAllOffers(state)[i].isFavorite
    ensures GetAllOffers(state) == [] ==> n == 0
  {
    |FavoriteOffers(GetAllOffers(state))|
  }

  /** The count selector equals the number of indices holding a favourite offer. */
  lemma FavoriteCountOfState(state: RootState)
    ensures GetFavoriteOffersCount(state) ==
            |set i | 0 <= i < |GetAllOffers(state)| && GetAllOffers(state)[i].isFavorite|
  {
    FilterLengthIsIndexCount(GetAllOffers(state), IsFavoriteOffer);
    assert KeptIndices(GetAllOffers(state), IsFavoriteOffer) ==
           set i | 0 <= i < |GetAllOffers(state)| && GetAllOffers(state)[i].isFavorite;
  }
}
