/**
 * The pure, render-time rules of the admin page: the name/phone search
 * filter, which actions a card offers, and which of the login screen, the
 * loading message, the "No appointments found" message or the card grid is
 * shown.
 */
module AdminView {
  import opened Wrappers
  import opened JsText

  /**
   * An appointment record as the page receives it. Fields the server may
   * omit are optional; only `name`, `phone` and `status` drive any decision.
   */
  datatype Appointment = Appointment(
    id: string,
    name: Option<string>,
    phone: Option<string>,
    service: Option<string>,
    date: Option<string>,
    time: Option<string>,
    status: Option<string>)

  /** `a.name?.toLowerCase().includes(search.toLowerCase())`: a missing name never matches. */
  predicate NameMatches(a: Appointment, search: string) {
    a.name.Some? && Includes(ToLower(a.name.value), ToLower(search))
  }

  /** `a.phone?.includes(search)`: the query is used exactly as typed. */
  predicate PhoneMatches(a: Appointment, search: string) {
    a.phone.Some? && Includes(a.phone.value, search)
  }

  /** The filter's callback: name match or phone match. */
  predicate Matches(a: Appointment, search: string) {
    NameMatches(a, search) || PhoneMatches(a, search)
  }

  /** `appointments.filter(...)`: keeps the matching appointments, left to right. */
  function Filter(appointments: seq<Appointment>, search: string): (kept: seq<Appointment>)
    ensures |kept| <= |appointments|
    ensures forall a :: a in kept ==> a in appointments && Matches(a, search)
  {
    if appointments == [] then []
    else if Matches(appointments[0], search) then [appointments[0]] + Filter(appointments[1..], search)
    else Filter(appointments[1..], search)
  }

  /** `xs` is obtained from `ys` by deleting elements, keeping the order of the rest. */
  ghost predicate IsSubsequence<T>(xs: seq<T>, ys: seq<T>)
    decreases |ys|
  {
    xs == [] ||
    (ys != [] &&
     ((xs[0] == ys[0] && IsSubsequence(xs[1..], ys[1..])) || IsSubsequence(xs, ys[1..])))
  }

  /** The filtered list keeps the original order. */
  lemma {:induction false} FilterIsSubsequence(appointments: seq<Appointment>, search: string)
    ensures IsSubsequence(Filter(appointments, search), appointments)
    decreases |appointments|
  {
    if appointments != [] {
      var rest := appointments[1..];
      FilterIsSubsequence(rest, search);
      var kept := Filter(appointments, search);
      if Matches(appointments[0], search) {
        assert kept[0] == appointments[0] && kept[1..] == Filter(rest, search);
      } else if kept != [] {
        assert kept == Filter(rest, search);
      }
    }
  }

  /** Filtering a concatenation filters each part: the search never reorders across elements. */
  lemma {:induction false} FilterAppend(xs: seq<Appointment>, ys: seq<Appointment>, search: string)
    ensures Filter(xs + ys, search) == Filter(xs, search) + Filter(ys, search)
    decreases |xs|
  {
    if xs != [] {
      assert (xs + ys)[1..] == xs[1..] + ys;
      FilterAppend(xs[1..], ys, search);
    } else {
      assert xs + ys == ys;
    }
  }

  /** Every matching appointment is kept. */
  lemma {:induction false} FilterComplete(appointments: seq<Appointment>, search: string)
    ensures forall a :: a in appointments && Matches(a, search) ==> a in Filter(appointments, search)
    decreases |appointments|
  {
    if appointments != [] {
      FilterComplete(appointments[1..], search);
      forall a | a in appointments && Matches(a, search)
        ensures a in Filter(appointments, search)
      {
        if a != appointments[0] {
          assert a in appointments[1..];
        }
      }
    }
  }

  /** An appointment is kept exactly when it matches (soundness and completeness together). */
  lemma FilterKeepsExactlyMatching(appointments: seq<Appointment>, search: string)
    ensures forall a :: a in appointments ==> (a in Filter(appointments, search) <==> Matches(a, search))
  {
    FilterComplete(appointments, search);
  }

  /** The filtered list is empty exactly when no appointment matches. */
  lemma FilterEmptyIff(appointments: seq<Appointment>, search: string)
    ensures Filter(appointments, search) == [] <==> forall a :: a in appointments ==> !Matches(a, search)
  {
    FilterComplete(appointments, search);
    var kept := Filter(appointments, search);
    if kept != [] {
      assert kept[0] in kept;
    }
  }

  /** An appointment with neither a name nor a phone is never kept, whatever the query. */
  lemma NoContactNeverKept(appointments: seq<Appointment>, search: string)
    ensures forall a :: a in Filter(appointments, search) ==> a.name.Some? || a.phone.Some?
  {
  }

  /** With an empty query, exactly the appointments that have a name or a phone are kept. */
  lemma EmptySearchKeepsContactable(appointments: seq<Appointment>)
    ensures forall a :: a in appointments ==>
              (a in Filter(appointments, "") <==> a.name.Some? || a.phone.Some?)
  {
    FilterKeepsExactlyMatching(appointments, "");
    IncludesEmpty(ToLower(""));
    forall a | a in appointments
      ensures Matches(a, "") <==> a.name.Some? || a.phone.Some?
    {
      if a.name.Some? {
        IncludesEmpty(ToLower(a.name.value));
        assert ToLower("") == "";
      }
      if a.phone.Some? {
        IncludesEmpty(a.phone.value);
      }
    }
  }

  /**
   * Name matching ignores case on both sides: a name that contains the query
   * as typed is matched, queries that differ only in case match the same names,
   * and names that differ only in case are matched by the same queries.
   */
  lemma NameMatchIgnoresCase(a: Appointment, b: Appointment, q1: string, q2: string)
    requires ToLower(q1) == ToLower(q2)
    ensures NameMatches(a, q1) <==> NameMatches(a, q2)
    ensures a.name.Some? && b.name.Some? && ToLower(a.name.value) == ToLower(b.name.value) ==>
              (NameMatches(a, q1) <==> NameMatches(b, q1))
    ensures a.name.Some? && Includes(a.name.value, q1) ==> NameMatches(a, q1)
  {
    if a.name.Some? && Includes(a.name.value, q1) {
      IncludesLower(a.name.value, q1);
    }
  }

  /** Two concrete appointments: one found by name in any case, one found by phone only as typed. */
  lemma CaseExamples()
    ensures Matches(Appointment("1", Some("Anna"), None, None, None, None, None), "ANN")
    ensures Matches(Appointment("2", None, Some("ext-X1"), None, None, None, None), "X1")
    ensures !Matches(Appointment("2", None, Some("ext-X1"), None, None, None, None), "x1")
  {
    assert ToLower("ANN") == "ann";
    assert ToLower("Anna") == "anna";
    assert "anna"[..3] == "ann";
    assert OccursAt("ext-X1", "X1", 4);
    forall i | 0 <= i <= 4 ensures !OccursAt("ext-X1", "x1", i) {
      assert "ext-X1"[i..i + 2] == ["ext-X1"[i], "ext-X1"[i + 1]];
    }
  }

  /** Line 132: the Confirm button is shown for every status other than "Confirmed", including a missing one. */
  predicate OffersConfirm(a: Appointment) {
    a.status != Some("Confirmed")
  }

  /** One appointment card and the actions it offers. */
  datatype Card = Card(appointment: Appointment, confirm: bool, delete: bool)

  /** What the page renders. */
  datatype Screen =
    | LoginScreen
    | LoadingMessage
    | NoAppointmentsMessage
    | CardGrid(cards: seq<Card>)

  function Cards(shown: seq<Appointment>): (cards: seq<Card>)
    ensures |cards| == |shown|
    ensures forall i :: 0 <= i < |shown| ==>
              cards[i].appointment == shown[i] && cards[i].delete &&
              (cards[i].confirm <==> shown[i].status != Some("Confirmed"))
  {
    if shown == [] then [] else [Card(shown[0], OffersConfirm(shown[0]), true)] + Cards(shown[1..])
  }

  /** The page: login when not authenticated, then loading, then the empty message or the cards. */
  function Render(isAuth: bool, loading: bool, appointments: seq<Appointment>, search: string): (s: Screen)
    ensures s == LoginScreen <==> !isAuth
    ensures s == LoadingMessage <==> isAuth && loading
    ensures s == NoAppointmentsMessage <==>
              isAuth && !loading && forall a :: a in appointments ==> !Matches(a, search)
    ensures s.CardGrid? ==>
              |s.cards| == |Filter(appointments, search)| && |s.cards| > 0 &&
              forall i :: 0 <= i < |s.cards| ==>
                s.cards[i].appointment == Filter(appointments, search)[i] && s.cards[i].delete &&
                (s.cards[i].confirm <==> s.cards[i].appointment.status != Some("Confirmed"))
  {
    FilterEmptyIff(appointments, search);
    if !isAuth then LoginScreen
    else if loading then LoadingMessage
    else
      var filtered := Filter(appointments, search);
      if |filtered| == 0 then NoAppointmentsMessage else CardGrid(Cards(filtered))
  }
}
