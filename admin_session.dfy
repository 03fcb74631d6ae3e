/**
 * The state cells of the admin page and the steps that change them: the
 * stored token (browser storage key "token"), `isAuth`, the fetched
 * appointments, the search text and the loading flag.
 */
module AdminSession {
  import opened Wrappers
  import opened AdminView

  /** `!!localStorage.getItem("token")`: a missing item and an empty string both read as no token. */
  predicate TokenPresent(stored: Option<string>) {
    stored.Some? && stored.value != ""
  }

  /** The network result of `GET /appointments`; `status` is `err.response?.status`. */
  datatype FetchOutcome =
    | Loaded(data: seq<Appointment>)
    | Failed(status: Option<int>)

  /** A failure that ends the session: the response carried status 401. */
  predicate IsUnauthorized(outcome: FetchOutcome) {
    outcome.Failed? && outcome.status == Some(401)
  }

  class Session {
    var token: Option<string>
    var isAuth: bool
    var appointments: seq<Appointment>
    var search: string
    var loading: bool

    /** The page shows the admin view exactly when a token is stored. */
    ghost predicate Valid()
      reads this
    {
      isAuth == TokenPresent(token)
    }

    /** The page's initial state, read from storage. */
    constructor (stored: Option<string>)
      ensures Valid()
      ensures token == stored && isAuth == TokenPresent(stored)
      ensures appointments == [] && search == "" && !loading
    {
      token := stored;
      isAuth := TokenPresent(stored);
      appointments := [];
      search := "";
      loading := false;
    }

    /** The first step of `fetchAppointments`: the request is under way. */
    method StartFetch()
      requires Valid()
      modifies this
      ensures Valid()
      ensures loading
      ensures token == old(token) && isAuth == old(isAuth)
      ensures appointments == old(appointments) && search == old(search)
    {
      loading := true;
    }

    /**
     * The rest of `fetchAppointments` once the request settles: a success
     * replaces the list; a 401 removes the token and ends the session; any
     * other failure keeps both. Loading ends on every path.
     */
    method FinishFetch(outcome: FetchOutcome)
      requires Valid()
      modifies this
      ensures Valid()
      ensures !loading && search == old(search)
      ensures appointments == (if outcome.Loaded? then outcome.data else old(appointments))
      ensures IsUnauthorized(outcome) ==> token == None && !isAuth
      ensures !IsUnauthorized(outcome) ==> token == old(token) && isAuth == old(isAuth)
      ensures IsUnauthorized(outcome) ==> View() == LoginScreen
    {
      match outcome {
        case Loaded(data) =>
          appointments := data;
        case Failed(status) =>
          if status == Some(401) {
            token := None;
            isAuth := false;
          }
      }
      loading := false;
    }

    /** The Logout button: always removes the token and ends the session. */
    method Logout()
      requires Valid()
      modifies this
      ensures Valid()
      ensures token == None && !isAuth
      ensures appointments == old(appointments) && search == old(search) && loading == old(loading)
      ensures View() == LoginScreen
    {
      token := None;
      isAuth := false;
    }

    /** Typing in the search box. */
    method SetSearch(text: string)
      requires Valid()
      modifies this
      ensures Valid()
      ensures search == text
      ensures token == old(token) && isAuth == old(isAuth)
      ensures appointments == old(appointments) && loading == old(loading)
    {
      search := text;
    }

    /** What the page renders in the current state. */
    function View(): (s: Screen)
      reads this
      ensures s == LoginScreen <==> !isAuth
      ensures s == NoAppointmentsMessage <==>
                isAuth && !loading && forall a :: a in appointments ==> !Matches(a, search)
    {
      Render(isAuth, loading, appointments, search)
    }
  }
}
