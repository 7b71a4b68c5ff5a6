/**
 * `PrivateRoute`: the guard in front of pages that need a logged-in user.
 * It reads only the authorization status.
 */
module PrivateRoute {
  import opened Types
  import Selectors
  import OffersProcess
  import UserProcess

  /** What the guard renders: the protected children, or a redirect. */
  datatype Outcome<T> = RenderChildren(children: T) | Navigate(to: AppRoute)

  /** The children when the status is `Auth`, otherwise `<Navigate to={AppRoute.Login}/>`. */
  function PrivateRoute<T>(authorizationStatus: AuthorizationStatus, children: T): (r: Outcome<T>)
    ensures r == RenderChildren(children) <==> authorizationStatus == Auth
    ensures r.Navigate? <==> authorizationStatus != Auth
    ensures r.Navigate? ==> r.to == Login
  {
    if authorizationStatus == Auth then RenderChildren(children) else Navigate(Login)
  }

  /** An unknown status (the session check not yet answered) redirects like NoAuth. */
  lemma UnknownRedirectsToLogin<T>(children: T)
    ensures PrivateRoute(Unknown, children) == Navigate(Login)
    ensures PrivateRoute(Unknown, children) == PrivateRoute(NoAuth, children)
  {
  }

  /**
   * The decision depends on the status alone: whatever the children, both
   * are rendered or both are redirected to the same route.
   */
  lemma OutcomeDependsOnlyOnStatus<T>(status: AuthorizationStatus, a: T, b: T)
    ensures PrivateRoute(status, a).RenderChildren? == PrivateRoute(status, b).RenderChildren?
    ensures PrivateRoute(status, a).Navigate? ==> PrivateRoute(status, a) == PrivateRoute(status, b)
  {
  }

  /**
   * `state.authorizationStatus` on the combined store. The store's top-level
   * keys are `app`, `offers` and `user`, so the lookup finds nothing
   * (`undefined`).
   */
  function TopLevelAuthorizationStatus(state: Selectors.RootState): Option<AuthorizationStatus>
  {
    None
  }

  /** The guard as written: it compares the top-level lookup with `Auth`. */
  function PrivateRouteAsWritten<T>(state: Selectors.RootState, children: T): (r: Outcome<T>)
    ensures r.Navigate? ==> r.to == Login
    ensures r.RenderChildren? <==> TopLevelAuthorizationStatus(state) == Some(Auth)
  {
    if TopLevelAuthorizationStatus(state) == Some(Auth) then RenderChildren(children) else Navigate(Login)
  }

  /** A logged-in user is redirected to the login page by the guard as written. */
  lemma AsWrittenRedirectsAuthorizedUser<T>(children: T)
    ensures var state := Selectors.RootState(
              Selectors.AppSlice("Paris"),
              OffersProcess.InitialState,
              UserProcess.UserSlice(Auth, None));
      state.user.authorizationStatus == Auth &&
      PrivateRouteAsWritten(state, children) == Navigate(Login)
  {
  }

  /**
   * The guard reading the status where the store keeps it
   * (`state.user.authorizationStatus`): protected content is rendered exactly
   * when the user slice says `Auth`, otherwise the login page.
   */
  function PrivateRouteOfStore<T>(state: Selectors.RootState, children: T): (r: Outcome<T>)
    ensures r == RenderChildren(children) <==> state.user.authorizationStatus == Auth
    ensures r.Navigate? ==> r == Navigate(Login)
  {
    PrivateRoute(Selectors.GetAuthorizationStatus(state), children)
  }
}
