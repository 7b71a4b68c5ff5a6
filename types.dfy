/**
 * Value types shared by the store slices and the pages: an offer, a user,
 * the authorization status, and a nullable value.
 */
module Types {

  /** A value that may be absent; stands for TypeScript's `T | null`. */
  datatype Option<+T> = None | Some(value: T)

  /**
   * The fields of an offer that no state transition inspects: they are carried
   * along unchanged. Coordinates, zoom and rating (floating point) are not
   * represented.
   */
  datatype OfferDetails = OfferDetails(
    title: string,
    kind: string,
    price: int,
    isPremium: bool,
    previewImage: string)

  /** A rental listing. Its identity is `id`; `cityName` is `offer.city.name`. */
  datatype Offer = Offer(
    id: string,
    cityName: string,
    isFavorite: bool,
    details: OfferDetails)

  /** The authenticated user record returned by the login endpoint. */
  datatype User = User(
    email: string,
    token: string,
    name: string,
    avatarUrl: string,
    isPro: bool)

  /** `AuthorizationStatus`: the three states of the authentication machine. */
  datatype AuthorizationStatus = Auth | NoAuth | Unknown

  /** The named routes of the application that the modelled code refers to. */
  datatype AppRoute = Main | Login | Favorites

  /** No two offers of `s` share an id. */
  predicate DistinctIds(s: seq<Offer>)
  {
    forall i, j :: 0 <= i < |s| && 0 <= j < |s| && s[i].id == s[j].id ==> i == j
  }

  /** The number of offers of `s` whose id is `id`. */
  function CountId(s: seq<Offer>, id: string): nat
  {
    if s == [] then 0
    else CountId(s[..|s| - 1], id) + (if s[|s| - 1].id == id then 1 else 0)
  }

  /** With distinct ids, an id that occurs at index `k` occurs exactly once. */
  lemma {:induction false} CountIdDistinct(s: seq<Offer>, k: nat)
    requires DistinctIds(s)
    requires k < |s|
    ensures CountId(s, s[k].id) == 1
  {
    var init := s[..|s| - 1];
    assert DistinctIds(init) by {
      forall i, j | 0 <= i < |init| && 0 <= j < |init| && init[i].id == init[j].id
        ensures i == j
      {
        assert s[i] == init[i] && s[j] == init[j];
      }
    }
    if k == |s| - 1 {
      CountIdAbsent(init, s[k].id);
    } else {
      CountIdDistinct(init, k);
      assert init[k] == s[k];
    }
  }

  /** An id that no offer carries is counted zero times. */
  lemma {:induction false} CountIdAbsent(s: seq<Offer>, id: string)
    requires forall i :: 0 <= i < |s| ==> s[i].id != id
    ensures CountId(s, id) == 0
  {
    if s != [] {
      var init := s[..|s| - 1];
      assert forall i :: 0 <= i < |init| ==> init[i] == s[i];
      CountIdAbsent(init, id);
    }
  }
}
