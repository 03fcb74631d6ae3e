/**
 * The decision logic of the backend entry point: the CORS origin rule that
 * admits or refuses a browser origin, and the two liveness endpoints.
 * Everything else in the entry point (server setup, database connection,
 * route mounting) is process bootstrap and is not modelled.
 */
module Backend {
  import opened Wrappers

  /** The fixed list of browser origins allowed to receive credentialed responses. */
  const AllowedOrigins: seq<string> := [
    "https://newbeauty.onrender.com",
    "http://localhost:5173",
    "http://localhost:5174",
    "http://localhost:5175",
    "https://beautycabin-2.onrender.com"
  ]

  /** Options handed to the CORS middleware alongside the origin rule (data only). */
  const CorsCredentials: bool := true
  const CorsMethods: seq<string> := ["GET", "POST", "PUT", "PATCH", "DELETE", "OPTIONS"]
  const CorsAllowedHeaders: seq<string> := ["Content-Type", "Authorization", "Accept"]
  const CorsOptionsSuccessStatus: int := 200

  /**
   * The arguments the origin rule passes to the middleware's callback:
   * `callback(err, allow)`. `err` is `None` for `null`.
   */
  datatype Verdict = Verdict(err: Option<string>, allow: bool)

  /** JavaScript truthiness of the `Origin` header value: absent and "" are both falsy. */
  predicate OriginPresent(origin: Option<string>) {
    origin.Some? && origin.value != ""
  }

  /** `Array.prototype.includes` on strings: a scan from the left using exact equality. */
  function ListIncludes(list: seq<string>, x: string): (r: bool)
    ensures r <==> exists i :: 0 <= i < |list| && list[i] == x
  {
    if list == [] then false
    else if list[0] == x then true
    else
      var rest := ListIncludes(list[1..], x);
      assert rest ==> exists i :: 0 < i < |list| && list[i] == x by {
        if rest {
          var j :| 0 <= j < |list[1..]| && list[1..][j] == x;
          assert list[j + 1] == x;
        }
      }
      assert (exists i :: 0 <= i < |list| && list[i] == x) ==> rest by {
        if i :| 0 <= i < |list| && list[i] == x {
          assert i != 0 && list[1..][i - 1] == x;
        }
      }
      rest
  }

  /**
   * The origin rule over a given allow-list: no origin is admitted, a listed
   * origin is admitted, anything else is refused — always without an error.
   */
  function OriginCallback(origin: Option<string>, allowed: seq<string>): (v: Verdict)
    ensures v.err == None
    ensures !OriginPresent(origin) ==> v.allow
    ensures OriginPresent(origin) ==> (v.allow <==> origin.value in allowed)
  {
    if !OriginPresent(origin) then Verdict(None, true)
    else if ListIncludes(allowed, origin.value) then Verdict(None, true)
    else Verdict(None, false)
  }

  /** The origin rule as the server applies it, over the constant allow-list. */
  function AdmitOrigin(origin: Option<string>): (admitted: bool)
    ensures admitted <==> !OriginPresent(origin) || origin.value in AllowedOrigins
  {
    OriginCallback(origin, AllowedOrigins).allow
  }

  /** The allow-list has exactly five distinct entries. */
  lemma AllowListShape()
    ensures |AllowedOrigins| == 5
    ensures forall i, j :: 0 <= i < j < |AllowedOrigins| ==> AllowedOrigins[i] != AllowedOrigins[j]
  {
  }

  /**
   * Membership is exact string equality: a listed origin is admitted, while a
   * different port, a trailing slash or a change of case is refused.
   */
  lemma ExactMatchExamples()
    ensures AdmitOrigin(Some("http://localhost:5173"))
    ensures AdmitOrigin(Some("https://beautycabin-2.onrender.com"))
    ensures !AdmitOrigin(Some("http://localhost:5176"))
    ensures !AdmitOrigin(Some("http://localhost:5173/"))
    ensures !AdmitOrigin(Some("HTTP://localhost:5173"))
    ensures AdmitOrigin(None) && AdmitOrigin(Some(""))
  {
    assert AllowedOrigins[1] == "http://localhost:5173";
    assert AllowedOrigins[4] == "https://beautycabin-2.onrender.com";
    assert "http://localhost:5176" !in AllowedOrigins by {
      forall i | 0 <= i < |AllowedOrigins| ensures AllowedOrigins[i] != "http://localhost:5176" {
        assert AllowedOrigins[i][20] != "http://localhost:5176"[20] || |AllowedOrigins[i]| != 21;
      }
    }
    assert "http://localhost:5173/" !in AllowedOrigins by {
      forall i | 0 <= i < |AllowedOrigins| ensures |AllowedOrigins[i]| != 22 {
      }
    }
    assert "HTTP://localhost:5173" !in AllowedOrigins by {
      forall i | 0 <= i < |AllowedOrigins| ensures AllowedOrigins[i][0] != 'H' {
      }
    }
  }

  /**
   * Every request gets the same verdict for the same origin, whatever came
   * before it: the list is a constant, and the rule reads nothing else.
   */
  function AdmitRequests(origins: seq<Option<string>>): (verdicts: seq<bool>)
    ensures |verdicts| == |origins|
    ensures forall i :: 0 <= i < |origins| ==> verdicts[i] == AdmitOrigin(origins[i])
    ensures forall i, j :: 0 <= i < |origins| && 0 <= j < |origins| && origins[i] == origins[j]
              ==> verdicts[i] == verdicts[j]
    ensures forall i :: 0 <= i < |origins| && !OriginPresent(origins[i]) ==> verdicts[i]
  {
    if origins == [] then [] else [AdmitOrigin(origins[0])] + AdmitRequests(origins[1..])
  }

  /** The body of a liveness response. */
  datatype HealthBody =
    | StatusBody(status: string)
    | DbCheckBody(ok: bool, message: string)

  /** The two liveness routes. */
  datatype HealthRoute = Root | DbCheck

  /**
   * `GET /` and `GET /db-check`: constant bodies. The handlers take no input
   * and read no state, so the database connection cannot change the answer.
   */
  function HealthResponse(route: HealthRoute): (body: HealthBody)
    ensures route == Root ==> body.StatusBody? && body.status == "Backend running \U{1F680}"
    ensures route == DbCheck ==> body.DbCheckBody? && body.ok && body.message == "Backend is live"
  {
    match route
    case Root => StatusBody("Backend running \U{1F680}")
    case DbCheck => DbCheckBody(true, "Backend is live")
  }
}
