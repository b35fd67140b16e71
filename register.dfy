/** The registration page: two ordered password checks, then an account
    creation whose result is either a move to the events page or an error. */
module Register {
  import opened Wrappers

  const MismatchMessage: string := "Passwords do not match"
  const TooShortMessage: string := "Password must be at least 6 characters long"
  const MinPasswordLength: nat := 6
  const EventsPath: string := "/events"

  /** The guards of the handler, in order: the error the first failing one
      sets, or nothing when both pass. */
  function PasswordCheck(password: string, confirmPassword: string): (r: Option<string>)
    ensures r == Some(MismatchMessage) <==> password != confirmPassword
    ensures r == Some(TooShortMessage) <==> password == confirmPassword && |password| < MinPasswordLength
    ensures r.None? <==> password == confirmPassword && |password| >= MinPasswordLength
  {
    if password != confirmPassword then Some(MismatchMessage)
    else if |password| < MinPasswordLength then Some(TooShortMessage)
    else None
  }

  /** How the abstract account creation and profile update end. */
  datatype AuthOutcome =
    | CreateFailed(message: string)
    | ProfileFailed(message: string)
    | Registered

  /** What the handler does that can be observed, in order. */
  datatype Effect =
    | SetError(message: string)
    | SetLoading(loading: bool)
    | CreateUser(email: string, password: string)
    | UpdateProfile(displayName: string)
    | Navigate(path: string)

  /** The two state variables the page renders from. */
  datatype View = View(error: string, isLoading: bool)

  /** The effect of one step on the view. */
  function Step(v: View, e: Effect): View {
    match e
    case SetError(m) => v.(error := m)
    case SetLoading(b) => v.(isLoading := b)
    case _ => v
  }

  /** The view after a sequence of steps, starting from `v`. */
  function Replay(v: View, trace: seq<Effect>): View
    decreases |trace|
  {
    if trace == [] then v else Step(Replay(v, trace[..|trace| - 1]), trace[|trace| - 1])
  }

  /** Replaying two traces one after the other is replaying their concatenation. */
  lemma {:induction false} ReplayConcat(v: View, a: seq<Effect>, b: seq<Effect>)
    ensures Replay(v, a + b) == Replay(Replay(v, a), b)
    decreases |b|
  {
    if b == [] {
      assert a + b == a;
    } else {
      assert (a + b)[..|a + b| - 1] == a + b[..|b| - 1];
      ReplayConcat(v, a, b[..|b| - 1]);
    }
  }

  /** One more step is one more application of `Step`. */
  lemma ReplaySnoc(v: View, done: seq<Effect>, e: Effect)
    ensures Replay(v, done + [e]) == Step(Replay(v, done), e)
  {
  }

  /** Steps that neither set the error nor the loading flag leave the view alone. */
  lemma {:induction false} ReplayQuiet(v: View, trace: seq<Effect>)
    requires forall k :: 0 <= k < |trace| ==> !trace[k].SetError? && !trace[k].SetLoading?
    ensures Replay(v, trace) == v
    decreases |trace|
  {
    if trace != [] {
      ReplayQuiet(v, trace[..|trace| - 1]);
    }
  }

  /** The steps after a successful account creation call. */
  function AttemptTrace(name: string, outcome: AuthOutcome): seq<Effect> {
    match outcome
    case CreateFailed(m) => [SetError(m)]
    case ProfileFailed(m) => [UpdateProfile(name), SetError(m)]
    case Registered => [UpdateProfile(name), Navigate(EventsPath)]
  }

  /** The steps of `handleRegister` for the given form values. */
  function RegisterTrace(name: string, email: string, password: string, confirmPassword: string,
                         outcome: AuthOutcome): (r: seq<Effect>)
    ensures |r| >= 2 && r[0] == SetError("")
    ensures PasswordCheck(password, confirmPassword).Some? ==>
      r == [SetError(""), SetError(PasswordCheck(password, confirmPassword).value)]
    ensures PasswordCheck(password, confirmPassword).None? ==>
      |r| >= 4 && r[..3] == [SetError(""), SetLoading(true), CreateUser(email, password)] &&
      r[|r| - 1] == SetLoading(false)
  {
    [SetError("")] +
    match PasswordCheck(password, confirmPassword)
    case Some(message) => [SetError(message)]
    case None =>
      [SetLoading(true), CreateUser(email, password)] + AttemptTrace(name, outcome) + [SetLoading(false)]
  }

  /** Whether the trace asks the backend to create an account. */
  predicate Attempts(trace: seq<Effect>) {
    exists k :: 0 <= k < |trace| && trace[k].CreateUser?
  }

  /** Account creation is attempted exactly when the passwords are equal and
      long enough, and then with the entered email and password. */
  lemma AttemptIff(name: string, email: string, password: string, confirmPassword: string,
                   outcome: AuthOutcome)
    ensures var tr := RegisterTrace(name, email, password, confirmPassword, outcome);
      Attempts(tr) <==> password == confirmPassword && |password| >= MinPasswordLength
    ensures var tr := RegisterTrace(name, email, password, confirmPassword, outcome);
      Attempts(tr) ==> tr[2] == CreateUser(email, password)
  {
    var tr := RegisterTrace(name, email, password, confirmPassword, outcome);
    if PasswordCheck(password, confirmPassword).None? {
      assert tr[2].CreateUser?;
    }
  }

  /** Different passwords: the mismatch error, nothing else, and no attempt,
      whatever the length of the password. */
  lemma MismatchStops(name: string, email: string, password: string, confirmPassword: string,
                      outcome: AuthOutcome, v: View)
    requires password != confirmPassword
    ensures var tr := RegisterTrace(name, email, password, confirmPassword, outcome);
      !Attempts(tr) &&
      Replay(v, tr) == View(MismatchMessage, v.isLoading)
  {
    assert PasswordCheck(password, confirmPassword) == Some(MismatchMessage);
    var tr := RegisterTrace(name, email, password, confirmPassword, outcome);
    assert tr == [SetError("")] + [SetError(MismatchMessage)];
    ReplaySnoc(v, [], SetError(""));
    ReplaySnoc(v, [SetError("")], SetError(MismatchMessage));
  }

  /** Equal but short passwords: the length error and no attempt. */
  lemma ShortPasswordStops(name: string, email: string, password: string, confirmPassword: string,
                           outcome: AuthOutcome, v: View)
    requires password == confirmPassword && |password| < MinPasswordLength
    ensures var tr := RegisterTrace(name, email, password, confirmPassword, outcome);
      !Attempts(tr) &&
      Replay(v, tr) == View(TooShortMessage, v.isLoading)
  {
    assert PasswordCheck(password, confirmPassword) == Some(TooShortMessage);
    var tr := RegisterTrace(name, email, password, confirmPassword, outcome);
    assert tr == [SetError("")] + [SetError(TooShortMessage)];
    ReplaySnoc(v, [], SetError(""));
    ReplaySnoc(v, [SetError("")], SetError(TooShortMessage));
  }

  /** When both checks pass, the error has been cleared and the loading flag
      raised by the time the account is requested: no error of an earlier
      submission is left on screen. */
  lemma ClearedBeforeAttempt(name: string, email: string, password: string, confirmPassword: string,
                             outcome: AuthOutcome, v: View)
    requires password == confirmPassword && |password| >= MinPasswordLength
    ensures var tr := RegisterTrace(name, email, password, confirmPassword, outcome);
      tr[..3] == [SetError(""), SetLoading(true), CreateUser(email, password)] &&
      Replay(v, tr[..3]) == View("", true)
  {
    var tr := RegisterTrace(name, email, password, confirmPassword, outcome);
    assert tr[..3] == [SetError("")] + [SetLoading(true)] + [CreateUser(email, password)];
    ReplaySnoc(v, [], SetError(""));
    ReplaySnoc(v, [SetError("")], SetLoading(true));
    ReplaySnoc(v, [SetError("")] + [SetLoading(true)], CreateUser(email, password));
  }

  /** The outcome of an attempt: the loading flag is down again, a failure
      shows its message and stays on the page, a success navigates with no error. */
  lemma AttemptOutcome(name: string, email: string, password: string, confirmPassword: string,
                       outcome: AuthOutcome, v: View)
    requires password == confirmPassword && |password| >= MinPasswordLength
    ensures var tr := RegisterTrace(name, email, password, confirmPassword, outcome);
      !Replay(v, tr).isLoading &&
      (outcome.Registered? ==> Replay(v, tr).error == "" && Navigate(EventsPath) in tr) &&
      (!outcome.Registered? ==> (Replay(v, tr).error == outcome.message &&
         forall k :: 0 <= k < |tr| ==> !tr[k].Navigate?))
  {
    var tr := RegisterTrace(name, email, password, confirmPassword, outcome);
    var head := [SetError(""), SetLoading(true), CreateUser(email, password)];
    var tail := AttemptTrace(name, outcome) + [SetLoading(false)];
    assert tr == head + tail;
    ClearedBeforeAttempt(name, email, password, confirmPassword, outcome, v);
    assert tr[..3] == head;
    ReplayConcat(v, head, tail);
    var mid := Replay(v, head);
    assert mid == View("", true);
    match outcome
    case CreateFailed(m) =>
      assert tail == [SetError(m), SetLoading(false)];
      assert tail[..1] == [SetError(m)];
    case ProfileFailed(m) =>
      assert tail == [UpdateProfile(name), SetError(m), SetLoading(false)];
      assert tail[..2] == [UpdateProfile(name), SetError(m)];
      assert tail[..2][..1] == [UpdateProfile(name)];
    case Registered =>
      assert tail == [UpdateProfile(name), Navigate(EventsPath), SetLoading(false)];
      ReplayQuiet(mid, tail[..2]);
      assert tr[4] == Navigate(EventsPath);
  }

  /** The loading flag is raised only on the way to an attempt. */
  lemma LoadingOnlyWhenAttempting(name: string, email: string, password: string, confirmPassword: string,
                                  outcome: AuthOutcome)
    ensures var tr := RegisterTrace(name, email, password, confirmPassword, outcome);
      SetLoading(true) in tr <==> Attempts(tr)
  {
    AttemptIff(name, email, password, confirmPassword, outcome);
    var tr := RegisterTrace(name, email, password, confirmPassword, outcome);
    if PasswordCheck(password, confirmPassword).None? {
      assert tr[1] == SetLoading(true);
    }
  }

  /** The registration form: the controlled inputs, the error line, the
      loading flag, and a log of the effects so far. */
  class RegisterPage {
    var name: string
    var email: string
    var password: string
    var confirmPassword: string
    var error: string
    var isLoading: bool
    ghost var effects: seq<Effect>

    constructor ()
      ensures name == "" && email == "" && password == "" && confirmPassword == ""
      ensures error == "" && !isLoading && effects == []
    {
      name, email, password, confirmPassword := "", "", "", "";
      error, isLoading := "", false;
      effects := [];
    }

    /** `handleRegister`, with the backend's answer given as `outcome`. */
    method HandleRegister(outcome: AuthOutcome)
      modifies this
      ensures name == old(name) && email == old(email)
      ensures password == old(password) && confirmPassword == old(confirmPassword)
      ensures effects == old(effects) + RegisterTrace(name, email, password, confirmPassword, outcome)
      ensures View(error, isLoading) ==
        Replay(View(old(error), old(isLoading)), RegisterTrace(name, email, password, confirmPassword, outcome))
    {
      ghost var start := View(error, isLoading);
      ghost var tr := RegisterTrace(name, email, password, confirmPassword, outcome);

      error := "";

      if password != confirmPassword {
        error := MismatchMessage;
        effects := effects + [SetError(""), SetError(MismatchMessage)];
        MismatchStops(name, email, password, confirmPassword, outcome, start);
        return;
      }

      if |password| < MinPasswordLength {
        error := TooShortMessage;
        effects := effects + [SetError(""), SetError(TooShortMessage)];
        ShortPasswordStops(name, email, password, confirmPassword, outcome, start);
        return;
      }

      isLoading := true;
      ghost var done := [SetError(""), SetLoading(true), CreateUser(email, password)];

      match outcome {
        case CreateFailed(m) =>
          error := m;
          done := done + [SetError(m)];
        case ProfileFailed(m) =>
          done := done + [UpdateProfile(name)];
          error := m;
          done := done + [SetError(m)];
        case Registered =>
          done := done + [UpdateProfile(name), Navigate(EventsPath)];
      }

      isLoading := false;
      done := done + [SetLoading(false)];
      assert done == tr;
      effects := effects + done;
      AttemptOutcome(name, email, password, confirmPassword, outcome, start);
    }
  }
}
