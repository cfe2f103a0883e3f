/**
 The signup form of app/page.tsx: four pieces of React state (`email`, `loading`,
 `message`, `error`) changed by the input's `onChange` and by `handleSubmit`.
 `handleSubmit` runs in two halves: up to the `fetch` (checks, then `loading` set), and
 from the settled request on (message or error, then `loading` cleared in `finally`).
 The request's result is a parameter; the confetti is counted, not drawn.
 */
module SignupPage {
  import opened Wrappers
  import opened Email
  import WaitlistRoute

  datatype FormState = FormState(email: string, loading: bool, message: string, error: string)

  /** How `fetch` and `response.json()` settle: a throw, or a response with its `ok` flag and its body's `error`. */
  datatype FetchOutcome = Thrown | Responded(ok: bool, error: Option<string>)

  /** The state after the first half of `handleSubmit`, and the email sent, if a request was made. */
  datatype Dispatch = Dispatch(state: FormState, request: Option<string>)

  const EmptyEmailText := "Please enter your email address"
  const GuidanceText := "Please enter a valid email address (e.g., yourname@example.com)"
  const ThanksText := "Thanks a lot ! we'll see you on the other side ! "
  const FallbackText := "Something went wrong"
  const FailedToJoinText := "Failed to join waitlist. Please try again."

  const Initial := FormState("", false, "", "")

  /** While a request is out, the email it carries passes the shape rule and nothing is shown. */
  predicate Consistent(st: FormState) {
    st.loading ==> ValidEmail(st.email) && st.message == "" && st.error == ""
  }

  /** The input's `onChange`: the input is disabled while `loading`. */
  function Typed(st: FormState, value: string): (r: FormState)
    requires !st.loading
    ensures r.email == value && r.error == ""
    ensures r.message == st.message && !r.loading
  {
    var st' := st.(email := value);
    if st.error != "" then st'.(error := "") else st'
  }

  /** The first half of `handleSubmit`, up to and including the dispatch of the request. */
  function Begin(st: FormState): (d: Dispatch)
    requires !st.loading
    ensures d.request.Some? <==> ValidEmail(st.email)
    ensures d.request.Some? ==> d.request.value == st.email
    ensures d.request.Some? ==> d.state == FormState(st.email, true, "", "")
    ensures d.request.None? ==> d.state == st.(error := d.state.error)
    ensures st.email == "" ==> d.state.error == EmptyEmailText
    ensures st.email != "" && !ValidEmail(st.email) ==> d.state.error == GuidanceText
    ensures Consistent(d.state)
  {
    if st.email == "" then Dispatch(st.(error := EmptyEmailText), None)
    else if !ValidEmail(st.email) then Dispatch(st.(error := GuidanceText), None)
    else
      var st' := st.(loading := true).(error := "").(message := "");
      Dispatch(st', Some(st.email))
  }

  /** The body's `error` if it is a non-empty string, else the fallback (`data.error || 'Something went wrong'`). */
  function ShownError(error: Option<string>): (r: string)
    ensures r != ""
    ensures error.Some? && error.value != "" ==> r == error.value
    ensures error.None? || error.value == "" ==> r == FallbackText
  {
    if error.Some? && error.value != "" then error.value else FallbackText
  }

  /** The second half of `handleSubmit`: the branches on the settled request, then `finally`. */
  function Settle(st: FormState, outcome: FetchOutcome): (r: FormState)
    ensures !r.loading
    ensures outcome == Thrown ==> r == st.(loading := false, error := FailedToJoinText)
    ensures outcome.Responded? && outcome.ok ==>
      r.message == ThanksText && r.email == "" && r.error == st.error
    ensures outcome.Responded? && !outcome.ok ==>
      r.error == ShownError(outcome.error) && r.email == st.email && r.message == st.message
  {
    var st' :=
      match outcome
      case Thrown => st.(error := FailedToJoinText)
      case Responded(ok, error) =>
        if !ok then st.(error := ShownError(error))
        else st.(message := ThanksText).(email := "");
    st'.(loading := false)
  }

  /** Whether settling fires `triggerConfetti`. */
  predicate Celebrates(outcome: FetchOutcome) {
    outcome.Responded? && outcome.ok
  }

  /** What the browser makes of the endpoint's answer: `response.ok` is a 2xx status, and the body's `error` field. */
  function Observe(resp: WaitlistRoute.Response): (r: FetchOutcome)
    ensures r.Responded?
    ensures r.ok <==> 200 <= resp.status < 300
    ensures r.error.Some? <==> resp.body.Error?
    ensures resp.body.Error? ==> r.error == Some(resp.body.error)
  {
    Responded(200 <= resp.status < 300, if resp.body.Error? then Some(resp.body.error) else None)
  }

  class SignupForm {
    var email: string
    var loading: bool
    var message: string
    var error: string
    var celebrations: nat

    function State(): FormState
      reads this
    {
      FormState(email, loading, message, error)
    }

    ghost predicate Valid()
      reads this
    {
      Consistent(State())
    }

    constructor ()
      ensures Valid() && State() == Initial && celebrations == 0
    {
      email, loading, message, error := "", false, "", "";
      celebrations := 0;
    }

    /** `onChange`: set `email`, and clear `error` if one is shown. */
    method OnInput(value: string)
      requires Valid() && !loading
      modifies this
      ensures Valid() && State() == Typed(old(State()), value)
      ensures celebrations == old(celebrations)
    {
      email := value;
      if error != "" {
        error := "";
      }
    }

    /** `handleSubmit` up to the `fetch`; returns the email sent, if a request is made. */
    method BeginSubmit() returns (request: Option<string>)
      requires Valid() && !loading
      modifies this
      ensures Valid() && Dispatch(State(), request) == Begin(old(State()))
      ensures celebrations == old(celebrations)
    {
      if email == "" {
        error := EmptyEmailText;
        return None;
      }
      if !ValidEmail(email) {
        error := GuidanceText;
        return None;
      }
      loading := true;
      error := "";
      message := "";
      request := Some(email);
    }

    /** `handleSubmit` from the settled request on, through `finally`. */
    method FinishSubmit(outcome: FetchOutcome)
      requires Valid() && loading
      modifies this
      ensures Valid() && State() == Settle(old(State()), outcome)
      ensures celebrations == old(celebrations) + (if Celebrates(outcome) then 1 else 0)
    {
      match outcome {
        case Thrown =>
          error := FailedToJoinText;
        case Responded(ok, err) =>
          if !ok {
            error := ShownError(err);
          } else {
            message := ThanksText;
            email := "";
            celebrations := celebrations + 1;
          }
      }
      loading := false;
    }

    /** One whole `handleSubmit`: a request is made only for a well-shaped email, and `loading` ends false. */
    method HandleSubmit(outcome: FetchOutcome) returns (request: Option<string>)
      requires Valid() && !loading
      modifies this
      ensures Valid() && !loading
      ensures request == Begin(old(State())).request
      ensures request.None? ==> State() == Begin(old(State())).state
      ensures request.Some? ==> State() == Settle(Begin(old(State())).state, outcome)
      ensures celebrations == old(celebrations) + (if request.Some? && Celebrates(outcome) then 1 else 0)
    {
      request := BeginSubmit();
      if request.Some? {
        FinishSubmit(outcome);
      }
    }
  }

  /**
   The form sends a request exactly when the endpoint's own checks would let the email
   through: the client rejects what the server answers 400, and nothing else.
   */
  lemma ClientAgreesWithServer(st: FormState, stored: set<string>, outage: WaitlistRoute.Outage)
    requires !st.loading
    ensures Begin(st).request.Some? <==>
      WaitlistRoute.Classify(stored, WaitlistRoute.Decoded(WaitlistRoute.Text(st.email)), outage)
        !in {WaitlistRoute.EmailRequired, WaitlistRoute.InvalidFormat}
  {
    ValidEmailMatchesPattern(st.email);
    if st.email == "" {
      assert !MatchesEmailPattern(st.email);
    }
  }

  /** Submitting an address the store already holds, in any letter case, shows the endpoint's 409 message and keeps the input. */
  lemma DuplicateShownToUser(st: FormState, stored: set<string>, outage: WaitlistRoute.Outage, id: nat)
    requires !st.loading && ValidEmail(st.email)
    requires Lower(st.email) in stored && !outage.LookupFails?
    ensures
      var d := Begin(st);
      var resp := WaitlistRoute.Render(WaitlistRoute.Classify(stored, WaitlistRoute.Decoded(WaitlistRoute.Text(st.email)), outage), id);
      d.request == Some(st.email) && resp.status == 409 &&
      Settle(d.state, Observe(resp)) == FormState(st.email, false, "", WaitlistRoute.AlreadyRegisteredText)
  {
    ValidEmailMatchesPattern(st.email);
  }

  /** Submitting a new address against a healthy store shows the thanks message, clears the input and celebrates. */
  lemma JoinShownToUser(st: FormState, stored: set<string>, id: nat)
    requires !st.loading && ValidEmail(st.email)
    requires Lower(st.email) !in stored
    ensures
      var d := Begin(st);
      var resp := WaitlistRoute.Render(WaitlistRoute.Classify(stored, WaitlistRoute.Decoded(WaitlistRoute.Text(st.email)), WaitlistRoute.Healthy), id);
      d.request == Some(st.email) && resp.status == 201 && Celebrates(Observe(resp)) &&
      Settle(d.state, Observe(resp)) == FormState("", false, ThanksText, "")
  {
    ValidEmailMatchesPattern(st.email);
  }
}
