/**
 * The logic of the favourites page: grouping the favourite offers by city,
 * whether there is anything to show, and what a click on a card's favourite
 * button dispatches.
 */
module FavoritesPage {
  import opened Types
  import opened Selectors
  import OffersProcess

  /**
   * The city names of `favorites`, each once, in the order in which they
   * first occur: the key order of the grouped record.
   */
  function CityOrder(favorites: seq<Offer>): seq<string>
    decreases |favorites|
  {
    if favorites == [] then []
    else
      var order := CityOrder(favorites[..|favorites| - 1]);
      var c := favorites[|favorites| - 1].cityName;
      if c in order then order else order + [c]
  }

  /** The key order names exactly the cities of the favourites, each once. */
  lemma {:induction false} CityOrderMembers(favorites: seq<Offer>)
    ensures forall c :: c in CityOrder(favorites) <==> exists i :: 0 <= i < |favorites| && favorites[i].cityName == c
    ensures forall i, j :: 0 <= i < j < |CityOrder(favorites)| ==> CityOrder(favorites)[i] != CityOrder(favorites)[j]
    decreases |favorites|
  {
    if favorites != [] {
      var init := favorites[..|favorites| - 1];
      CityOrderMembers(init);
      assert forall i :: 0 <= i < |init| ==> init[i] == favorites[i];
    }
  }

  /** The sum of the sizes of the groups named by `cities`. */
  function TotalSize(groups: map<string, seq<Offer>>, cities: seq<string>): nat
    decreases |cities|
  {
    if cities == [] then 0
    else
      var last := cities[|cities| - 1];
      TotalSize(groups, cities[..|cities| - 1]) + (if last in groups then |groups[last]| else 0)
  }

  /** Changing a group that `cities` does not name leaves the total unchanged. */
  lemma {:induction false} TotalSizeUnlisted(groups: map<string, seq<Offer>>, cities: seq<string>, c: string, v: seq<Offer>)
    requires c !in cities
    ensures TotalSize(groups[c := v], cities) == TotalSize(groups, cities)
    decreases |cities|
  {
    if cities != [] {
      TotalSizeUnlisted(groups, cities[..|cities| - 1], c, v);
    }
  }

  /** Replacing a group that `cities` names once changes the total by the change in its size. */
  lemma {:induction false} TotalSizeReplace(groups: map<string, seq<Offer>>, cities: seq<string>, c: string, v: seq<Offer>)
    requires forall i, j :: 0 <= i < j < |cities| ==> cities[i] != cities[j]
    requires c in cities && c in groups
    ensures TotalSize(groups[c := v], cities) == TotalSize(groups, cities) - |groups[c]| + |v|
    decreases |cities|
  {
    var init, last := cities[..|cities| - 1], cities[|cities| - 1];
    if last == c {
      assert c !in init;
      TotalSizeUnlisted(groups, init, c, v);
    } else {
      assert c in init;
      TotalSizeReplace(groups, init, c, v);
    }
  }

  /**
   * `groups` with key order `cities` is the grouped record of `favorites`:
   * one key per city in first-occurrence order, each holding exactly the
   * offers of that city in list order, none empty, sizes summing to the length.
   */
  ghost predicate Grouped(favorites: seq<Offer>, groups: map<string, seq<Offer>>, cities: seq<string>)
  {
    && cities == CityOrder(favorites)
    && (forall c :: c in groups <==> c in cities)
    && (forall c :: c in groups ==> groups[c] == OffersInCity(favorites, c))
    && (forall c :: c in groups ==> groups[c] != [])
    && TotalSize(groups, cities) == |favorites|
  }

  /** The record before the first offer is reduced. */
  lemma GroupedEmpty()
    ensures Grouped([], map[], [])
  {
  }

  /** The record after one step of the reduce: the key created if missing, then the offer pushed. */
  function PushOffer(groups: map<string, seq<Offer>>, offer: Offer): map<string, seq<Offer>>
  {
    var c := offer.cityName;
    var created := if c in groups then groups else groups[c := []];
    created[c := created[c] + [offer]]
  }

  /** The key order after one step: a new city goes last. */
  function PushCity(cities: seq<string>, c: string): seq<string>
  {
    if c in cities then cities else cities + [c]
  }

  /** The city order of a longer list follows `PushCity`. */
  lemma CityOrderSnoc(favorites: seq<Offer>, offer: Offer)
    ensures CityOrder(favorites + [offer]) == PushCity(CityOrder(favorites), offer.cityName)
  {
    assert (favorites + [offer])[..|favorites|] == favorites;
  }

  /** Each group after a step is its city's filter of the longer list. */
  lemma PushOfferContents(favorites: seq<Offer>, offer: Offer, groups: map<string, seq<Offer>>)
    requires forall c :: c in groups ==> groups[c] == OffersInCity(favorites, c)
    requires forall c :: c in groups <==> c in CityOrder(favorites)
    ensures forall c :: c in PushOffer(groups, offer) ==>
              PushOffer(groups, offer)[c] == OffersInCity(favorites + [offer], c)
  {
    var g := PushOffer(groups, offer);
    CityOrderMembers(favorites);
    forall c | c in g ensures g[c] == OffersInCity(favorites + [offer], c) {
      OffersInCitySnoc(favorites, offer, c);
      if c == offer.cityName && c !in groups {
        assert forall j :: 0 <= j < |favorites| ==> favorites[j].cityName != c;
        OffersInCityEmpty(favorites, c);
      }
    }
  }

  /** Each step adds one to the total size. */
  lemma PushOfferTotal(groups: map<string, seq<Offer>>, cities: seq<string>, offer: Offer)
    requires forall i, j :: 0 <= i < j < |cities| ==> cities[i] != cities[j]
    requires forall c :: c in groups <==> c in cities
    ensures TotalSize(PushOffer(groups, offer), PushCity(cities, offer.cityName)) == TotalSize(groups, cities) + 1
  {
    var c := offer.cityName;
    if c in groups {
      TotalSizeReplace(groups, cities, c, groups[c] + [offer]);
    } else {
      TotalSizeUnlisted(groups, cities, c, [offer]);
      assert [] + [offer] == [offer];
      assert PushOffer(groups, offer) == groups[c := [offer]];
      var order := cities + [c];
      assert order[..|order| - 1] == cities;
    }
  }

  /** One step of the reduce keeps the record the grouping of the list read so far. */
  lemma GroupStep(favorites: seq<Offer>, offer: Offer, groups: map<string, seq<Offer>>, cities: seq<string>)
    requires Grouped(favorites, groups, cities)
    ensures Grouped(favorites + [offer], PushOffer(groups, offer), PushCity(cities, offer.cityName))
  {
    CityOrderSnoc(favorites, offer);
    CityOrderMembers(favorites);
    PushOfferKeys(groups, offer);
    PushCityMembers(cities, offer.cityName);
    PushOfferContents(favorites, offer, groups);
    PushOfferTotal(groups, cities, offer);
  }

  /** A step adds the offer's city as a key and leaves every list non-empty. */
  lemma PushOfferKeys(groups: map<string, seq<Offer>>, offer: Offer)
    requires forall c :: c in groups ==> groups[c] != []
    ensures forall c :: c in PushOffer(groups, offer) <==> c in groups || c == offer.cityName
    ensures forall c :: c in PushOffer(groups, offer) ==> PushOffer(groups, offer)[c] != []
  {
  }

  /** The key order after a step names the old cities and the offer's city. */
  lemma PushCityMembers(cities: seq<string>, c: string)
    ensures forall x :: x in PushCity(cities, c) <==> x in cities || x == c
  {
  }

  /**
   * The step lemma at position `i` of the list being reduced, in the shape
   * of the reduce callback: a missing key is created and its city appended
   * to the key order, then the offer is pushed.
   */
  lemma GroupStepAt(favorites: seq<Offer>, i: nat, groups: map<string, seq<Offer>>, cities: seq<string>)
    requires i < |favorites|
    requires Grouped(favorites[..i], groups, cities)
    ensures var c := favorites[i].cityName;
      var created := if c in groups then groups else groups[c := []];
      Grouped(favorites[..i + 1], created[c := created[c] + [favorites[i]]],
              if c in groups then cities else cities + [c])
  {
    PrefixSnoc(favorites, i);
    GroupStep(favorites[..i], favorites[i], groups, cities);
  }

  /** The prefix as long as the list is the list. */
  lemma WholePrefix(favorites: seq<Offer>)
    ensures favorites[..|favorites|] == favorites
  {
  }

  /** The prefix one longer is the prefix extended by the next element. */
  lemma PrefixSnoc(favorites: seq<Offer>, i: nat)
    requires i < |favorites|
    ensures favorites[..i + 1] == favorites[..i] + [favorites[i]]
  {
  }

  /**
   * `groupedByCity`: the favourite offers, reduced into a record keyed by
   * city name, each key created on the first offer of its city and each
   * offer pushed onto its city's list. `cities` is the record's key order.
   */
  method GroupByCity(allOffers: seq<Offer>) returns (groups: map<string, seq<Offer>>, cities: seq<string>)
    ensures Grouped(FavoriteOffers(allOffers), groups, cities)
    ensures forall c :: c in groups <==>
              exists i :: 0 <= i < |allOffers| && allOffers[i].isFavorite && allOffers[i].cityName == c
    ensures forall c, k :: c in groups && 0 <= k < |groups[c]| ==>
              groups[c][k].isFavorite && groups[c][k].cityName == c
    ensures forall i :: 0 <= i < |allOffers| && allOffers[i].isFavorite ==>
              allOffers[i].cityName in groups && allOffers[i] in groups[allOffers[i].cityName]
  {
    var favoriteOffers := FavoriteOffers(allOffers);
    groups, cities := map[], [];
    var i := 0;
    GroupedEmpty();
    assert favoriteOffers[..0] == [];
    while i < |favoriteOffers|
      invariant 0 <= i <= |favoriteOffers|
      invariant Grouped(favoriteOffers[..i], groups, cities)
    {
      var offer := favoriteOffers[i];
      var cityName := offer.cityName;
      GroupStepAt(favoriteOffers, i, groups, cities);
      if cityName !in groups {
        groups := groups[cityName := []];
        cities := cities + [cityName];
      }
      groups := groups[cityName := groups[cityName] + [offer]];
      i := i + 1;
    }
    WholePrefix(favoriteOffers);
    GroupedFavorites(allOffers, groups, cities);
  }

  /** What the grouping of the favourite offers says about the whole offer list. */
  lemma GroupedFavorites(allOffers: seq<Offer>, groups: map<string, seq<Offer>>, cities: seq<string>)
    requires Grouped(FavoriteOffers(allOffers), groups, cities)
    ensures forall c :: c in groups <==>
              exists i :: 0 <= i < |allOffers| && allOffers[i].isFavorite && allOffers[i].cityName == c
    ensures forall c, k :: c in groups && 0 <= k < |groups[c]| ==>
              groups[c][k].isFavorite && groups[c][k].cityName == c
    ensures forall i :: 0 <= i < |allOffers| && allOffers[i].isFavorite ==>
              allOffers[i].cityName in groups && allOffers[i] in groups[allOffers[i].cityName]
  {
    GroupKeysAreFavoriteCities(allOffers, groups);
    FavoritesAreGrouped(allOffers, groups);
    GroupsHoldOwnFavorites(allOffers, groups);
  }

  /** The keys of the grouped favourites are the cities of the favourite offers. */
  lemma GroupKeysAreFavoriteCities(allOffers: seq<Offer>, groups: map<string, seq<Offer>>)
    requires forall c :: c in groups <==> c in CityOrder(FavoriteOffers(allOffers))
    ensures forall c :: c in groups <==>
              exists i :: 0 <= i < |allOffers| && allOffers[i].isFavorite && allOffers[i].cityName == c
  {
    var favorites := FavoriteOffers(allOffers);
    FavoriteOffersMembers(allOffers);
    CityOrderMembers(favorites);
    forall c | c in groups
      ensures exists i :: 0 <= i < |allOffers| && allOffers[i].isFavorite && allOffers[i].cityName == c
    {
      var j :| 0 <= j < |favorites| && favorites[j].cityName == c;
      assert favorites[j] in allOffers;
      var i :| 0 <= i < |allOffers| && allOffers[i] == favorites[j];
    }
    forall c | exists i :: 0 <= i < |allOffers| && allOffers[i].isFavorite && allOffers[i].cityName == c
      ensures c in groups
    {
      var i :| 0 <= i < |allOffers| && allOffers[i].isFavorite && allOffers[i].cityName == c;
      assert allOffers[i] in favorites;
      var j :| 0 <= j < |favorites| && favorites[j] == allOffers[i];
    }
  }

  /** Every favourite offer is in the group of its city. */
  lemma FavoritesAreGrouped(allOffers: seq<Offer>, groups: map<string, seq<Offer>>)
    requires forall c :: c in groups <==> c in CityOrder(FavoriteOffers(allOffers))
    requires forall c :: c in groups ==> groups[c] == OffersInCity(FavoriteOffers(allOffers), c)
    ensures forall i :: 0 <= i < |allOffers| && allOffers[i].isFavorite ==>
              allOffers[i].cityName in groups && allOffers[i] in groups[allOffers[i].cityName]
  {
    var favorites := FavoriteOffers(allOffers);
    FavoriteOffersMembers(allOffers);
    CityOrderMembers(favorites);
    forall i | 0 <= i < |allOffers| && allOffers[i].isFavorite
      ensures allOffers[i].cityName in groups && allOffers[i] in groups[allOffers[i].cityName]
    {
      var x := allOffers[i];
      assert x in favorites;
      var j :| 0 <= j < |favorites| && favorites[j] == x;
      assert x.cityName in groups;
      OffersInCityExact(favorites, x.cityName);
    }
  }

  /** A group holds only favourites of its own city. */
  lemma GroupsHoldOwnFavorites(allOffers: seq<Offer>, groups: map<string, seq<Offer>>)
    requires forall c :: c in groups ==> groups[c] == OffersInCity(FavoriteOffers(allOffers), c)
    ensures forall c, k :: c in groups && 0 <= k < |groups[c]| ==>
              groups[c][k].isFavorite && groups[c][k].cityName == c
  {
    var favorites := FavoriteOffers(allOffers);
    forall c, k | c in groups && 0 <= k < |groups[c]|
      ensures groups[c][k].isFavorite && groups[c][k].cityName == c
    {
      var x := groups[c][k];
      assert x in OffersInCity(favorites, c);
      InCityIsListed(favorites, c, x);
      var j :| 0 <= j < |favorites| && favorites[j] == x;
    }
  }

  /** An offer of a city's filter comes from the filtered list. */
  lemma InCityIsListed(offers: seq<Offer>, city: string, x: Offer)
    requires x in OffersInCity(offers, city)
    ensures x in offers && x.cityName == city
  {
    OffersInCityExact(offers, city);
    assert multiset(OffersInCity(offers, city))[x] > 0;
  }

  /** `hasFavorites`: the grouped record has at least one key. */
  predicate HasFavorites(groups: map<string, seq<Offer>>)
  {
    |groups| > 0
  }

  /** The page has favourites to show exactly when some offer is a favourite. */
  lemma HasFavoritesIffSomeFavorite(allOffers: seq<Offer>, groups: map<string, seq<Offer>>)
    requires forall c :: c in groups <==>
               exists i :: 0 <= i < |allOffers| && allOffers[i].isFavorite && allOffers[i].cityName == c
    ensures HasFavorites(groups) <==> exists i :: 0 <= i < |allOffers| && allOffers[i].isFavorite
  {
    if exists i :: 0 <= i < |allOffers| && allOffers[i].isFavorite {
      var i :| 0 <= i < |allOffers| && allOffers[i].isFavorite;
      assert allOffers[i].cityName in groups;
      assert groups.Keys != {};
    }
    if HasFavorites(groups) {
      assert groups.Keys != {};
      var c :| c in groups.Keys;
    }
  }

  /** What a favourite click dispatches: `toggleFavoriteAction(offerId, status)`. */
  datatype ToggleFavoriteIntent = ToggleFavorite(offerId: string, status: bool)

  /**
   * `handleFavoriteClick(offerId)`: nothing unless the user is authorized
   * and the offer found by that id is a favourite; then un-favourite it.
   */
  function HandleFavoriteClick(authorizationStatus: AuthorizationStatus, allOffers: seq<Offer>, offerId: string)
    : (r: Option<ToggleFavoriteIntent>)
    ensures r.Some? <==>
              authorizationStatus == Auth &&
              exists j :: OffersProcess.IsFirst(allOffers, offerId, j) && allOffers[j].isFavorite
    ensures r.Some? ==> r.value == ToggleFavorite(offerId, false)
  {
    if authorizationStatus != Auth then None
    else
      var index := OffersProcess.FirstIndex(allOffers, offerId);
      if index != -1 && allOffers[index].isFavorite then
        Some(ToggleFavorite(offerId, false))
      else
        assert forall j :: OffersProcess.IsFirst(allOffers, offerId, j) ==> j == index by {
          forall j | OffersProcess.IsFirst(allOffers, offerId, j) ensures j == index {
            OffersProcess.FirstIndexUnique(allOffers, offerId, j);
          }
        }
        None
  }
}
