# Beauty Cabin booking app: CORS origin rule and admin page logic

This project models the two pieces of decision logic in the booking application that can be
read in full:

- **Backend entry point** (`backend/index.js`). The CORS origin rule admits or refuses a
  browser origin against a constant allow-list of five origins. It passes `callback(null, allow)`
  to the CORS middleware, so `err` is `null` on every path. The two liveness endpoints `GET /`
  and `GET /db-check` return constant bodies. Module `Backend` in `backend.dfy`.
- **Admin page** (`frontend/src/pages/Admin.jsx`). Three render-time rules:
  - the search filter, which keeps an appointment whose lower-cased name contains the
    lower-cased query, or whose phone contains the query exactly as typed;
  - the Confirm/Delete buttons on each card;
  - the choice between the login screen, the loading message, "No appointments found" and the
    card grid.

  These are in module `AdminView` in `admin_view.dfy`. The page's state cells (the stored token,
  `isAuth`, the appointments, the search text and `loading`) are fields of class
  `AdminSession.Session` in `admin_session.dfy`. Its methods are the steps of `fetchAppointments`
  and the Logout button.
- `JsText` (`js_text.dfy`) models `toLowerCase` for ASCII letters and `String.prototype.includes`.
  `Includes` is proved equal to "the query occurs at some index". `Wrappers` (`wrappers.dfy`) holds
  `Option`, which stands for JavaScript's `undefined`/`null`.

The class keeps the invariant `Valid()`: `isAuth` is true exactly when a non-empty token is
stored. This holds at construction (line 7 reads storage with `!!`). A 401 and a logout clear
both. Every other step leaves both alone.

Two details of the code that the model keeps:
- `!origin` is also true for an empty `Origin` string, so an empty origin is admitted
  (`Backend.OriginPresent`).
- `GET /db-check` answers `{ok: true, message: "Backend is live"}`.

## Model

| member | source | states |
|---|---|---|
| `Backend.OriginCallback` | backend/index.js:28-37 | the error argument is always null; an origin that is not present (`OriginPresent`: absent or empty, the falsy values of line 30) is allowed; a present origin is allowed exactly when it is in the given list |
| `Backend.AdmitOrigin` | backend/index.js:17-37 | over the constant list, an origin is admitted exactly when it is absent, empty, or one of the five listed strings |
| `Backend.ListIncludes` | backend/index.js:32 | `Array.prototype.includes` on the allow-list holds exactly when some list entry equals the string |
| `Backend.AllowListShape` | backend/index.js:17-24 | the allow-list has exactly five entries, all distinct |
| `Backend.ExactMatchExamples` | backend/index.js:17-33 | matching is exact: `http://localhost:5173` is admitted, and `:5176`, a trailing slash and an upper-case scheme are refused; absent and empty origins are admitted |
| `Backend.AdmitRequests` | backend/index.js:17-37 | over any series of requests, equal origins always get equal verdicts, and a request without an origin is always admitted |
| `Backend.HealthResponse` | backend/index.js:49-55 | `GET /` answers the fixed status string; `GET /db-check` answers `ok: true` with the fixed message; neither reads any state |
| `JsText.LowerChar` | frontend/src/pages/Admin.jsx:66 | the result is never an ASCII capital; non-capitals are unchanged; capitals map to their lower-case letter |
| `JsText.ToLower` | frontend/src/pages/Admin.jsx:66 | same length as the input, lower-cased at every position |
| `JsText.ToLowerIdempotent` | frontend/src/pages/Admin.jsx:66 | a lower-cased string has no capitals, so lower-casing it again changes nothing |
| `JsText.Includes` | frontend/src/pages/Admin.jsx:66-67 | `s.includes(q)` holds exactly when `q` occurs in `s` at some index (`OccursAt`) |
| `JsText.IncludesEmpty` | frontend/src/pages/Admin.jsx:66-67 | the empty query is included in every string |
| `JsText.IncludesLower` | frontend/src/pages/Admin.jsx:66 | an occurrence of `q` in `s` is still an occurrence after lower-casing both |
| `AdminView.Filter` | frontend/src/pages/Admin.jsx:64-68 | the filtered list is no longer than the input, and every kept appointment comes from the input and satisfies `Matches`: `NameMatches` (a present name whose `ToLower` includes the lower-cased query) or `PhoneMatches` (a present phone that includes the query as typed) |
| `AdminView.FilterComplete` | frontend/src/pages/Admin.jsx:64-68 | every appointment that satisfies `Matches` (by name or by phone) is kept |
| `AdminView.FilterKeepsExactlyMatching` | frontend/src/pages/Admin.jsx:64-68 | an appointment of the list is kept if and only if it matches |
| `AdminView.FilterIsSubsequence` | frontend/src/pages/Admin.jsx:64 | the filtered list is a subsequence of the appointments, in their original order |
| `AdminView.FilterAppend` | frontend/src/pages/Admin.jsx:64 | filtering a concatenation gives the concatenation of the filtered parts |
| `AdminView.FilterEmptyIff` | frontend/src/pages/Admin.jsx:64-68 | the filtered list is empty exactly when no appointment matches |
| `AdminView.NoContactNeverKept` | frontend/src/pages/Admin.jsx:66-67 | an appointment with neither name nor phone is never kept |
| `AdminView.EmptySearchKeepsContactable` | frontend/src/pages/Admin.jsx:66-67 | with an empty query, an appointment is kept exactly when it has a name or a phone |
| `AdminView.NameMatchIgnoresCase` | frontend/src/pages/Admin.jsx:66 | for `NameMatches`: queries equal up to case match the same names, names equal up to case are matched by the same queries, and a name containing the query as typed is matched |
| `AdminView.CaseExamples` | frontend/src/pages/Admin.jsx:66-67 | "ANN" finds the name "Anna"; the phone "ext-X1" is found by "X1" but not by "x1" |
| `AdminView.Cards` | frontend/src/pages/Admin.jsx:123-146 | one card per shown appointment, in order; Delete on every card; Confirm (`OffersConfirm`, line 132) exactly when the status is not "Confirmed", a missing status included |
| `AdminView.Render` | frontend/src/pages/Admin.jsx:117-151 | login screen exactly when not authenticated; loading message exactly while loading; "No appointments found" exactly when no appointment matches; otherwise a non-empty grid of the filtered cards |
| `AdminSession.Session.constructor` | frontend/src/pages/Admin.jsx:7-10 | `isAuth` starts as `TokenPresent` of the stored item (present and non-empty, as `!!` reads it); the list and the search are empty and nothing is loading |
| `AdminSession.Session.StartFetch` | frontend/src/pages/Admin.jsx:13-14 | loading is set and nothing else changes |
| `AdminSession.Session.FinishFetch` | frontend/src/pages/Admin.jsx:15-28 | success replaces the list; a 401 (`IsUnauthorized`: the failure's response status is 401, line 22) removes the token, clears `isAuth` and leads to the login screen; any other failure keeps token and `isAuth`; loading ends on every path; the invariant is kept |
| `AdminSession.Session.Logout` | frontend/src/pages/Admin.jsx:88-90 | always removes the token and clears `isAuth`, leading to the login screen; nothing else changes |
| `AdminSession.Session.SetSearch` | frontend/src/pages/Admin.jsx:114 | only the search text changes |
| `AdminSession.Session.View` | frontend/src/pages/Admin.jsx:36-120 | the login screen (lines 36-38) is shown exactly when `isAuth` is false; "No appointments found" (lines 117-120) exactly when authenticated, not loading and nothing matches |

## Left out

- The appointment and auth route handlers (`backend/routes/*`) are not part of this model, so nothing about create, list, confirm, delete, login or token checking is modelled.
- `frontend/src/pages/AdminLogin.jsx` is not part of this model. The login screen's `onSuccess` (Admin.jsx line 37) is left out with it, because what it stores is not visible. `Session.Valid()` relies on that: only the modelled steps change the token.
- Server bootstrap is process setup and I/O: `dotenv`, `trust proxy`, `express.json`, route mounting, the database connection and `listen`.
- How the CORS middleware turns the verdict into headers and answers preflight requests is in a library outside this model. The methods, headers, credentials and status options are kept only as constants.
- Express path matching (case-insensitive paths, trailing slashes, HEAD for GET) is library behaviour. `HealthResponse` takes the route as already chosen.
- `JsText.ToLower`: lower-cases only ASCII letters, not full Unicode `toLowerCase`.
- Network calls, `toast` messages, `window.confirm`, `useEffect` scheduling and the JSX markup are not modelled. The result of `GET /appointments` is an input to `FinishFetch`. `confirmBooking` and `deleteBooking` only issue a request and re-fetch, so they add no state change beyond `StartFetch`/`FinishFetch`.
- Interleavings of concurrent fetches are not modelled: each fetch is a `StartFetch` followed by its own `FinishFetch`.
