/**
 * The user slice of the store: a three-state authorization status and the
 * nullable current user, with the reducer that assigns them.
 *
 * As for the offers slice, `Reduce` is the reducer read as a function and the
 * class `UserState` is the draft object the reducer cases assign.
 */
module UserProcess {
  import opened Types

  /** The slice as a value (`UserState` in the source). */
  datatype UserSlice = UserSlice(authorizationStatus: AuthorizationStatus, user: Option<User>)

  /** The actions the user reducer handles; `Unhandled` is any other action. */
  datatype UserAction =
    | RequireAuthorization(status: AuthorizationStatus)
    | SetUser(newUser: Option<User>)
    | Logout
    | Unhandled

  /** The slice before any action: status unknown, no user. */
  const InitialState: UserSlice := UserSlice(Unknown, None)

  /** The slice every `logout` leaves behind. */
  const LoggedOut: UserSlice := UserSlice(NoAuth, None)

  /** The user reducer as a function from a slice and an action to the next slice. */
  function Reduce(s: UserSlice, a: UserAction): UserSlice
  {
    match a
    case RequireAuthorization(status) => s.(authorizationStatus := status)
    case SetUser(newUser) => s.(user := newUser)
    case Logout => UserSlice(NoAuth, None)
    case Unhandled => s
  }

  /** Dispatching the actions of `actions` one after another. */
  function ReduceAll(s: UserSlice, actions: seq<UserAction>): UserSlice
    decreases |actions|
  {
    if actions == [] then s
    else ReduceAll(Reduce(s, actions[0]), actions[1..])
  }

  /** The reducer called on no state and an unknown action yields the initial state. */
  lemma InitialStateOnUnknownAction()
    ensures Reduce(InitialState, Unhandled) == UserSlice(Unknown, None)
  {
  }

  /** An action the reducer has no case for leaves the slice as it is. */
  lemma UnhandledKeepsState(s: UserSlice)
    ensures Reduce(s, Unhandled) == s
  {
  }

  /** `requireAuthorization(status)` sets exactly the status, whatever it is. */
  lemma RequireAuthorizationSetsStatus(s: UserSlice, status: AuthorizationStatus)
    ensures Reduce(s, RequireAuthorization(status)).authorizationStatus == status
    ensures Reduce(s, RequireAuthorization(status)).user == s.user
  {
  }

  /** `setUser(u)` sets exactly the user, null included. */
  lemma SetUserSetsUser(s: UserSlice, u: Option<User>)
    ensures Reduce(s, SetUser(u)).user == u
    ensures Reduce(s, SetUser(u)).authorizationStatus == s.authorizationStatus
  {
  }

  /** `logout` resets every state to NoAuth with no user, and doing it twice is doing it once. */
  lemma LogoutResets(s: UserSlice)
    ensures Reduce(s, Logout) == LoggedOut
    ensures Reduce(Reduce(s, Logout), Logout) == Reduce(s, Logout)
  {
  }

  /**
   * Whatever happened before, a `logout` followed only by actions that touch
   * neither field leaves the slice logged out.
   */
  lemma {:induction false} LogoutThenUnhandled(s: UserSlice, before: seq<UserAction>, after: seq<UserAction>)
    requires forall k :: 0 <= k < |after| ==> after[k] == Unhandled
    ensures ReduceAll(s, before + [Logout] + after) == LoggedOut
    decreases |before|
  {
    if before == [] {
      assert before + [Logout] + after == [Logout] + after;
      assert ([Logout] + after)[0] == Logout && ([Logout] + after)[1..] == after;
      UnhandledSequence(LoggedOut, after);
    } else {
      assert (before + [Logout] + after)[0] == before[0];
      assert (before + [Logout] + after)[1..] == before[1..] + [Logout] + after;
      LogoutThenUnhandled(Reduce(s, before[0]), before[1..], after);
    }
  }

  /**
   * Each field has its own actions: the status changes only under
   * `requireAuthorization` or `logout`, the user only under `setUser` or
   * `logout`.
   */
  lemma ReduceFieldOwnership(s: UserSlice, a: UserAction)
    ensures Reduce(s, a).authorizationStatus != s.authorizationStatus ==> a.RequireAuthorization? || a.Logout?
    ensures Reduce(s, a).user != s.user ==> a.SetUser? || a.Logout?
  {
  }

  /** A run of unhandled actions changes nothing. */
  lemma {:induction false} UnhandledSequence(s: UserSlice, actions: seq<UserAction>)
    requires forall k :: 0 <= k < |actions| ==> actions[k] == Unhandled
    ensures ReduceAll(s, actions) == s
    decreases |actions|
  {
    if actions != [] {
      assert actions[0] == Unhandled;
      UnhandledSequence(s, actions[1..]);
    }
  }

  /** The draft of the user slice, whose fields the reducer cases assign. */
  class UserState {
    var authorizationStatus: AuthorizationStatus
    var user: Option<User>

    /** The current value of the slice. */
    function Snapshot(): UserSlice
      reads this
    {
      UserSlice(authorizationStatus, user)
    }

    /** `initialState`. */
    constructor ()
      ensures authorizationStatus == Unknown && user == None
      ensures Snapshot() == InitialState
    {
      authorizationStatus := Unknown;
      user := None;
    }

    /** The `requireAuthorization` case. */
    method RequireAuthorization(status: AuthorizationStatus)
      modifies this
      ensures authorizationStatus == status && user == old(user)
    {
      authorizationStatus := status;
    }

    /** The `setUser` case. */
    method SetUser(newUser: Option<User>)
      modifies this
      ensures user == newUser && authorizationStatus == old(authorizationStatus)
    {
      user := newUser;
    }

    /** The `logout` case: back to NoAuth with no user, from any state. */
    method Logout()
      modifies this
      ensures authorizationStatus == NoAuth && user == None
    {
      authorizationStatus := NoAuth;
      user := None;
    }

    /** `dispatch(action)` on this slice: the case of the action runs, others are ignored. */
    method Dispatch(a: UserAction)
      modifies this
      ensures Snapshot() == Reduce(old(Snapshot()), a)
    {
      match a
      case RequireAuthorization(status) => RequireAuthorization(status);
      case SetUser(newUser) => SetUser(newUser);
      case Logout => Logout();
      case Unhandled =>
    }
  }
}
