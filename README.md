# Six Cities state layer, modelled in Dafny

This project models the client-side state layer of the "Six Cities" rental
listing application: a reducer-based store with three slices (`app`, `offers`,
`user`), the selectors that derive views from it, the `fetchOffersAction`
thunk, the favourites page's grouping and click logic, and the private-route
guard.

Modules, one file each:

- `Types` (`types.dfy`): offers, users, authorization status, routes, and the
  "ids are distinct" invariant of an offer list.
- `OffersProcess` (`offers_process.dfy`): the offers slice. `Reduce` is the
  reducer read as a function. `OffersState` is the draft object whose fields
  the reducer cases assign, with one method per case and `Dispatch`. Each
  method is proved to match `Reduce`. `Array.prototype.find`/`findIndex`
  become `FirstIndex`, which returns -1 when nothing matches. The reducer's
  two list updates become the specification functions `SetFavorite` and
  `Upsert`.
- `UserProcess` (`user_process.dfy`): the user slice, in the same two readings.
- `Selectors` (`selectors.dfy`): the root state, the field accessors,
  `getFilteredOffers` and `getFavoriteOffersCount`. `Array.prototype.filter`
  is the generic `Filter`.
- `Action` (`action.dfy`): `fetchOffersAction` as a method against an
  `OffersState` store. The outcome of `GET /offers` is a parameter, and the
  method returns the actions it dispatched.
- `FavoritesPage` (`favorites_page.dfy`): `groupedByCity` as a loop that
  builds a map from city name to offers, together with the record's key
  order. Also `hasFavorites` and the `handleFavoriteClick` decision.
- `PrivateRoute` (`private_route.dfy`): the guard as a function of the
  authorization status.

`fetchOffersAction` dispatches four actions: loading on, error cleared, the
list or the error text, loading off (src/store/action.ts:15-27). The guard
reads the status at the top of the store, not from the user slice; see
"## Findings".

## Model

| member | source | states |
|---|---|---|
| OffersProcess.FirstIndex | src/store/offers-process/offers-process.ts:37 | `findIndex`: -1 exactly when no offer has the id; otherwise the result is the first index whose offer has it |
| OffersProcess.FirstIndexUnique | src/store/offers-process/offers-process.ts:30 | `find` and `findIndex` agree: any first index carrying the id is the one `FirstIndex` returns |
| OffersProcess.SetFavorite | src/store/offers-process/offers-process.ts:28-34 | the first offer with the id gets the new flag, every other offer and every id is unchanged, the length is kept; an unknown id changes nothing |
| OffersProcess.SetFavoriteKeepsIdsDistinct | src/store/offers-process/offers-process.ts:28-34 | flagging an offer keeps the ids distinct |
| OffersProcess.Upsert | src/store/offers-process/offers-process.ts:35-43 | the first offer with the same id is replaced and all others kept, or the offer is appended when its id is absent |
| OffersProcess.UpsertKeepsIdsDistinct | src/store/offers-process/offers-process.ts:35-43 | upserting into a list with distinct ids keeps them distinct, and the upserted id then occurs exactly once |
| OffersProcess.UpsertThenFind | src/store/offers-process/offers-process.ts:35-43 | after an upsert, looking the id up finds exactly the upserted offer |
| OffersProcess.Reduce | src/store/offers-process/offers-process.ts:17-44 | the reducer read as a function, one case per action and unhandled actions ignored; what it guarantees is stated by `ReduceFieldOwnership`, `ReduceKeepsIdsDistinct` and `OffersState.Dispatch` |
| OffersProcess.ReduceFieldOwnership | src/store/offers-process/offers-process.ts:17-44 | each field changes only under its own actions; only `loadOffers` can shorten the list; `updateOffer` adds at most one offer |
| OffersProcess.ReduceAllAppend | src/store/offers-process/offers-process.ts:17-44 | dispatching two runs of actions one after the other is dispatching their concatenation |
| OffersProcess.ReduceKeepsIdsDistinct | src/store/offers-process/offers-process.ts:17-44 | every action keeps the ids distinct, `loadOffers` when its payload has distinct ids |
| OffersProcess.OffersState.constructor | src/store/offers-process/offers-process.ts:11-15 | empty list, not loading, no error |
| OffersProcess.OffersState.LoadOffers | src/store/offers-process/offers-process.ts:19-21 | the list becomes the payload; the flags are kept |
| OffersProcess.OffersState.SetOffersDataLoading | src/store/offers-process/offers-process.ts:22-24 | only the loading flag changes, to the payload |
| OffersProcess.OffersState.SetOffersDataError | src/store/offers-process/offers-process.ts:25-27 | only the error changes, to the payload |
| OffersProcess.OffersState.UpdateOfferFavorite | src/store/offers-process/offers-process.ts:28-34 | the list becomes `SetFavorite` of the old list; its length and the flags are kept |
| OffersProcess.OffersState.UpdateOffer | src/store/offers-process/offers-process.ts:35-43 | the list becomes `Upsert` of the old list; distinct ids stay distinct; the flags are kept |
| OffersProcess.OffersState.Dispatch | src/store/offers-process/offers-process.ts:17-44 | the new slice is `Reduce` of the old slice and the action; unhandled actions change nothing |
| OffersProcess.MergeFavorites | src/store/action.test.ts:261-298 | reference model of the favourites merge: each fetched favourite, flagged, upserted in turn; its properties are the `Merge…` lemmas below |
| OffersProcess.MergeKeepsIdsDistinct | src/store/action.test.ts:261-298 | the favourites merge never duplicates an id |
| OffersProcess.UpsertKeepsIdsAt | src/store/offers-process/offers-process.ts:35-43 | an upsert keeps the id at every old index and adds at most one offer |
| OffersProcess.MergeKeepsUnmentioned | src/store/action.test.ts:261-298 | every existing offer keeps its id at its index, those that no favourite mentions are untouched, and at most one offer is added per favourite |
| OffersProcess.MergeKeepsFoundUnmentioned | src/store/action.test.ts:261-298 | an offer that no remaining favourite mentions is found at the same index, unchanged, after the rest of the merge |
| OffersProcess.MergeMarksFavorites | src/store/action.test.ts:261-298 | after the merge every fetched favourite's id is found, and the offer found is marked favourite |
| OffersProcess.MergeInstallsFavorites | src/store/action.test.ts:294-297 | with distinct fetched ids, the offer found by a fetched id after the merge is that fetched offer with `isFavorite` true |
| OffersProcess.MergeKeepsFound | src/store/action.test.ts:261-298 | an offer found as a favourite stays found and favourite through the rest of the merge |
| OffersProcess.UpsertKeepsFoundFavorite | src/store/action.test.ts:261-298 | upserting a favourite offer never hides or un-flags an offer already found as a favourite |
| UserProcess.Reduce | src/store/user-process/user-process.ts:16-28 | the reducer read as a function; what it guarantees is stated by the lemmas below and `UserState.Dispatch` |
| UserProcess.InitialStateOnUnknownAction | src/store/user-process/user-process.test.ts:16-22 | an unknown action on the initial state gives Unknown with no user |
| UserProcess.UnhandledKeepsState | src/store/user-process/user-process.ts:16-28 | an action without a case leaves the slice as it is |
| UserProcess.RequireAuthorizationSetsStatus | src/store/user-process/user-process.ts:18-20 | the status becomes the payload, whatever it is; the user is kept |
| UserProcess.SetUserSetsUser | src/store/user-process/user-process.ts:21-23 | the user becomes the payload, null included; the status is kept |
| UserProcess.LogoutResets | src/store/user-process/user-process.ts:24-27 | from any state the result is NoAuth with no user; a second logout changes nothing |
| UserProcess.ReduceFieldOwnership | src/store/user-process/user-process.ts:16-28 | the status changes only under `requireAuthorization` or `logout`, the user only under `setUser` or `logout` |
| UserProcess.LogoutThenUnhandled | src/store/user-process/user-process.ts:24-27 | after any history, a logout followed only by unhandled actions leaves the slice logged out |
| UserProcess.UnhandledSequence | src/store/user-process/user-process.ts:16-28 | a run of unhandled actions changes nothing |
| UserProcess.UserState.constructor | src/store/user-process/user-process.ts:11-14 | status Unknown, no user |
| UserProcess.UserState.RequireAuthorization | src/store/user-process/user-process.ts:18-20 | only the status changes, to the payload |
| UserProcess.UserState.SetUser | src/store/user-process/user-process.ts:21-23 | only the user changes, to the payload |
| UserProcess.UserState.Logout | src/store/user-process/user-process.ts:24-27 | NoAuth and no user, from any state |
| UserProcess.UserState.Dispatch | src/store/user-process/user-process.ts:16-28 | the new slice is `Reduce` of the old slice and the action |
| Action.ErrorMessage | src/store/action.ts:21-23 | the message of an `Error`, otherwise the fixed fallback text; `FetchFailureState` states both cases of the stored error |
| Action.FetchDispatches | src/store/action.ts:13-28 | exactly four actions: loading on, error cleared, then the list on success or the error text on failure, then loading off |
| Action.ExactlyOneResultAction | src/store/action.ts:19-26 | exactly one result action per call: `loadOffers` exactly on success, a non-null error exactly on failure |
| Action.LoadingBeforeResult | src/store/action.ts:15-16 | before the result applies, loading is on, the error cleared and the list untouched |
| Action.FetchSuccessState | src/store/action.ts:17-21 | a successful fetch ends with the response's list, not loading, no error |
| Action.FetchFailureState | src/store/action.ts:22-26 | a failed fetch keeps the list and records the error's message, or the fixed fallback text when the thrown value is not an `Error`; loading ends off |
| Action.LoadingClearedAtEnd | src/store/action.ts:25-27 | whatever the outcome, loading is off at the end |
| Action.FetchOffersAction | src/store/action.ts:13-28 | dispatches `FetchDispatches(response)`; the store ends as `ReduceAll` of those actions, which is the success or failure state above |
| Action.MergeFavoritesExample | src/store/action.test.ts:261-298 | merging `[offer1 unflagged, offer2]` into `[offer1]` gives two offers, offer1 now favourite and offer2 appended as favourite |
| Action.ToggleFavoriteExample | src/store/action.test.ts:236-247 | after `updateOffer` on an empty list, the offer found by id is the server's offer |
| Selectors.GetSelectedCity | src/store/selectors.ts:5 | `state.app.city`; stated by `AccessorsReadTheirField` |
| Selectors.GetAllOffers | src/store/selectors.ts:6 | `state.offers.offers`; stated by `AccessorsReadTheirField` |
| Selectors.GetOffersLoadingStatus | src/store/selectors.ts:7 | `state.offers.isOffersDataLoading`; stated by `AccessorsReadTheirField` |
| Selectors.GetOffersError | src/store/selectors.ts:8 | `state.offers.offersDataError`; stated by `AccessorsReadTheirField` |
| Selectors.GetAuthorizationStatus | src/store/selectors.ts:9 | `state.user.authorizationStatus`; stated by `AccessorsReadTheirField` |
| Selectors.GetUser | src/store/selectors.ts:10 | `state.user.user`; stated by `AccessorsReadTheirField` |
| Selectors.AccessorsReadTheirField | src/store/selectors.ts:5-10 | each accessor returns its slice field, whatever the other slices hold |
| Selectors.Filter | src/store/selectors.ts:12-15 | no longer than the input, and every element is accepted by the predicate |
| Selectors.FilterSnoc | src/store/selectors.ts:12-15 | filtering a list extended by one offer extends the result by that offer exactly when it is accepted |
| Selectors.FilterCounts | src/store/selectors.ts:12-15 | every accepted offer occurs as often as in the input, every rejected one not at all |
| Selectors.FilterIsSubsequence | src/store/selectors.ts:12-15 | the result keeps the input's order |
| Selectors.FilterEmptyOrFull | src/store/selectors.ts:17-20 | the result is empty exactly when nothing is accepted, and has the input's length exactly when everything is |
| Selectors.OffersInCity | src/store/selectors.ts:12-15 | only offers of the city, no more than the input |
| Selectors.OffersInCityExact | src/store/selectors.ts:12-15 | every offer of the city is returned, as often as it occurs and in the input's order; no other offer is |
| Selectors.OffersInCitySnoc | src/store/selectors.ts:12-15 | a new offer extends its own city's list and no other |
| Selectors.OffersInCityEmpty | src/store/selectors.ts:12-15 | a city that no offer names has no offers |
| Selectors.GetFilteredOffers | src/store/selectors.ts:12-15 | the result holds exactly the store's offers of the selected city, in store order |
| Selectors.FavoriteOffers | src/store/selectors.ts:17-20 | only favourites; empty exactly when no offer is a favourite; full length exactly when all are |
| Selectors.FavoriteOffersExact | src/store/selectors.ts:17-20 | every favourite is kept as often as it occurs, in order; nothing else is |
| Selectors.FavoriteOffersMembers | src/pages/favorites-page.tsx:40 | an offer is among the favourites exactly when it is a favourite offer of the list |
| Selectors.FilterLengthIsIndexCount | src/store/selectors.ts:17-20 | the length of a filtered list is the number of accepted indices |
| Selectors.GetFavoriteOffersCount | src/store/selectors.ts:17-20 | between 0 and the list length; 0 exactly when no offer is a favourite; the length exactly when all are |
| Selectors.FavoriteCountOfState | src/store/selectors.ts:17-20 | the count is the number of indices that hold a favourite offer |
| FavoritesPage.CityOrderMembers | src/pages/favorites-page.tsx:39-49 | the record's key order names each city of a favourite exactly once, and nothing else |
| FavoritesPage.GroupedEmpty | src/pages/favorites-page.tsx:48 | the empty record groups the empty favourites list |
| FavoritesPage.CityOrderSnoc | src/pages/favorites-page.tsx:43-46 | one more offer adds its city to the key order exactly when the city is new |
| FavoritesPage.PushOffer | src/pages/favorites-page.tsx:42-47 | the reduce callback on the record: create the key if missing, then push; stated by `PushOfferKeys`, `PushOfferContents` and `PushOfferTotal` |
| FavoritesPage.PushOfferContents | src/pages/favorites-page.tsx:43-46 | pushing an offer extends its city's list and leaves every other city's list alone |
| FavoritesPage.PushOfferTotal | src/pages/favorites-page.tsx:43-46 | pushing an offer adds one to the total size of the record |
| FavoritesPage.GroupStep | src/pages/favorites-page.tsx:41-47 | one reduce step keeps the record a grouping of the favourites seen so far |
| FavoritesPage.PushOfferKeys | src/pages/favorites-page.tsx:43-46 | a step adds the offer's city as a key, no other, and leaves every list non-empty |
| FavoritesPage.GroupStepAt | src/pages/favorites-page.tsx:41-47 | the same step for the offer at index i, in the callback's shape: create the key and append the city when the key is missing, then push |
| FavoritesPage.GroupByCity | src/pages/favorites-page.tsx:39-49 | the keys are exactly the cities of the favourite offers, in first-seen order; each list holds its city's favourites in list order; every favourite is in its city's list; no list is empty and the sizes add up |
| FavoritesPage.GroupedFavorites | src/pages/favorites-page.tsx:39-49 | the grouping of the favourites, read against the whole offer list: keys are the favourites' cities, lists hold only their city's favourites, every favourite is listed |
| FavoritesPage.GroupKeysAreFavoriteCities | src/pages/favorites-page.tsx:39-49 | a city is a key exactly when some favourite offer names it |
| FavoritesPage.FavoritesAreGrouped | src/pages/favorites-page.tsx:39-49 | every favourite offer is in the list of its city |
| FavoritesPage.GroupsHoldOwnFavorites | src/pages/favorites-page.tsx:39-49 | a city's list holds only favourites of that city |
| FavoritesPage.HasFavorites | src/pages/favorites-page.tsx:66 | `Object.keys(groupedByCity).length > 0`; stated by `HasFavoritesIffSomeFavorite` |
| FavoritesPage.HasFavoritesIffSomeFavorite | src/pages/favorites-page.tsx:66 | `hasFavorites` holds exactly when some offer is a favourite |
| FavoritesPage.HandleFavoriteClick | src/pages/favorites-page.tsx:55-64 | an intent is produced exactly when the user is authorized and the offer found by id is a favourite, and then it is to un-favourite that offer |
| PrivateRoute.PrivateRoute | src/components/private-route/PrivateRoute.tsx:14-16 | the children are rendered exactly when the status is Auth; otherwise a redirect to the login route |
| PrivateRoute.UnknownRedirectsToLogin | src/components/private-route/private-route.test.tsx:59-72 | an Unknown status redirects to login, as NoAuth does |
| PrivateRoute.OutcomeDependsOnlyOnStatus | src/components/private-route/PrivateRoute.tsx:10-18 | the decision depends on the status alone, not on the children |
| PrivateRoute.PrivateRouteAsWritten | src/components/private-route/PrivateRoute.tsx:11 | the guard as written renders only when a top-level `authorizationStatus` of the store is Auth |
| PrivateRoute.AsWrittenRedirectsAuthorizedUser | src/components/private-route/PrivateRoute.tsx:11-16 | a store whose user slice says Auth is still redirected by the guard as written |
| PrivateRoute.PrivateRouteOfStore | src/store/reducer.ts:6-10 | reading the status from the user slice renders exactly when that slice says Auth |

## Left out

- Rendering, layout and routing configuration: only the decisions the pages and the guard take are modelled.
- The HTTP client, axios, error objects and `localStorage`: the outcome of `GET /offers` is the parameter `FetchResponse`.
- Asynchrony: the thunk's awaits are modelled as a straight-line run of dispatches. Interleaved concurrent thunks are not modelled, nor a stale response arriving late.
- Immer drafts, `createReducer` and `combineReducers`: each slice's draft is a class whose fields the reducer cases assign. The combined store is a record of the three slices.
- `createSelector` memoisation: selectors are plain functions of the state.
- Offer fields that no modelled code reads are grouped in `OfferDetails`. Ratings and coordinates are floats in the source; they are left out.
- The offers list is a `seq` field that the methods reassign. The source mutates the offer object that `find` returned; the model rebuilds that element of the list. No other holder of that object is modelled, so aliasing is not captured.
- `getReviews` and `getReviewsLoadingStatus` (src/store/selectors.ts:22-23): src/store/reducer.ts:6-10 registers no reviews slice, and the reviews slice's source is not part of this model.
- `changeCity` and the app slice's reducer: its source is not part of this model. The app slice is a record holding the selected city.
- `toggleFavoriteAction`, `fetchFavoriteOffersAction`, `checkAuthAction`, `loginAction` and `logoutAction`: their source is not part of this model.
- `MergeFavorites` is a reference model of the favourites merge: each fetched favourite is marked favourite and upserted in turn. It is built from the test at src/store/action.test.ts:261-298 and the `updateOffer` reducer, not from the thunk's own code.
- FavoritesPage.GroupByCity: the record is a map with no inherited keys, and its keys are ordered by insertion. The source reduces into a `{}` literal, which inherits `Object.prototype`. For a city named after an inherited property (`constructor`, `toString`, `hasOwnProperty`, `__proto__`, and so on), `acc[cityName]` is already truthy, so no list is created and `acc[cityName].push` throws a `TypeError`. The model instead groups such an offer like any other. JavaScript also lists integer-like keys first, which the model does not capture.
- OffersProcess.MergeInstallsFavorites: requires the fetched favourites to carry distinct ids. When an id repeats, the later copy is the one found, and this is not stated.
- The favourites page's loading effect (src/pages/favorites-page.tsx:20-37) and `handleLogout`: they only dispatch thunks whose source is not part of this model.
- `PrivateRoute.PrivateRoute` takes the status as a parameter. Where the source reads it from the store is the subject of the finding below.

## Findings

| source | as written | input that shows it | evidently intended | confidence | as-written member | corrected member |
|---|---|---|---|---|---|---|
| src/components/private-route/PrivateRoute.tsx:11 | the guard reads `state.authorizationStatus`, but the combined store (src/store/reducer.ts:6-10) keeps the status under `state.user`, so the lookup is `undefined` | a store whose user slice is `{authorizationStatus: Auth}` is redirected to login | read `state.user.authorizationStatus`, as `getAuthorizationStatus` does for the favourites page (src/pages/favorites-page.tsx:15) | not executed; medium: the tests and `App.tsx` import a lower-case `private-route` module that is not part of this model and may be the one in use | PrivateRoute.AsWrittenRedirectsAuthorizedUser | PrivateRoute.PrivateRouteOfStore |
