/**
 * login_server of dashboard/modules/login.py: two reactive values,
 * `logged_in` and `auth_error`, and the login modal, driven by the
 * "Log In" button and by edits of the username and password fields.
 * LoginState and the functions over it say what each event does; the class
 * LoginSession holds the two cells and updates them statement by statement,
 * and each of its methods is proved to do what the function says.
 */
module Login {
  import opened Wrappers

  /** The text auth_error is set to when a login attempt fails. */
  const InvalidCredentials := "Invalid user credentials."

  /** The session's state: the two reactive values and whether the login modal is on screen. */
  datatype LoginState = LoginState(loggedIn: bool, authError: string, modalOpen: bool)

  /** At the start nobody is logged in, there is no error, and the effect has shown the modal. */
  const Initial := LoginState(false, "", true)

  /**
   * The "Log In" button. Matching username and password log the user in and
   * clear the error; then a logged-in session closes the modal and any other
   * sets the error.
   */
  function OnTrigger(s: LoginState, username: string, password: string): (t: LoginState)
    ensures username == password ==> t == LoginState(true, "", false)
    ensures username != password && !s.loggedIn ==> t == LoginState(false, InvalidCredentials, s.modalOpen)
    ensures username != password && s.loggedIn ==> t == s.(modalOpen := false)
  {
    var s1 := if username == password then s.(loggedIn := true, authError := "") else s;
    if s1.loggedIn then s1.(modalOpen := false) else s1.(authError := InvalidCredentials)
  }

  /** Editing the username or the password clears the error and nothing else. */
  function OnCredentialsEdited(s: LoginState): (t: LoginState)
    ensures t.authError == "" && t.loggedIn == s.loggedIn && t.modalOpen == s.modalOpen
  {
    s.(authError := "")
  }

  /** What the user can do. */
  datatype Event = Trigger(username: string, password: string) | CredentialsEdited

  function Step(s: LoginState, e: Event): LoginState
  {
    match e
    case Trigger(u, p) => OnTrigger(s, u, p)
    case CredentialsEdited => OnCredentialsEdited(s)
  }

  /** The state after a sequence of events, applied in order. */
  function Run(s: LoginState, events: seq<Event>): LoginState
    decreases |events|
  {
    if events == [] then s
    else Step(Run(s, events[..|events| - 1]), events[|events| - 1])
  }

  /** Whether an event is a successful login attempt. */
  predicate Succeeds(e: Event)
  {
    e.Trigger? && e.username == e.password
  }

  /** The app body renders only for a logged-in session (`req(logged_in.get())`). */
  predicate ShowsApp(s: LoginState)
  {
    s.loggedIn
  }

  /** The error line: `req` hides it while auth_error is empty. */
  function ErrorText(s: LoginState): (r: Option<string>)
    ensures r.None? <==> s.authError == ""
    ensures r.Some? ==> r.value == s.authError
  {
    if s.authError == "" then None else Some(s.authError)
  }

  /**
   * What every reachable state satisfies: the modal is open exactly while
   * nobody is logged in, and the only error ever shown is the failed-login
   * message, and only to a session that is not logged in.
   */
  predicate Consistent(s: LoginState)
  {
    s.modalOpen == !s.loggedIn &&
    (s.authError == "" || (s.authError == InvalidCredentials && !s.loggedIn))
  }

  /** Each event keeps the state consistent. */
  lemma StepConsistent(s: LoginState, e: Event)
    requires Consistent(s)
    ensures Consistent(Step(s, e))
  {
  }

  /** Every state reachable from the start is consistent. */
  lemma {:induction false} RunConsistent(events: seq<Event>)
    ensures Consistent(Run(Initial, events))
    decreases |events|
  {
    if events != [] {
      RunConsistent(events[..|events| - 1]);
      StepConsistent(Run(Initial, events[..|events| - 1]), events[|events| - 1]);
    }
  }

  /** Nothing logs a user out: once logged in, a session stays logged in. */
  lemma {:induction false} LoggedInStays(s: LoginState, events: seq<Event>)
    requires s.loggedIn
    ensures Run(s, events).loggedIn
    decreases |events|
  {
    if events != [] {
      LoggedInStays(s, events[..|events| - 1]);
    }
  }

  /** A session is logged in exactly when some attempt had matching username and password. */
  lemma {:induction false} LoggedInIffSomeSuccess(events: seq<Event>)
    ensures Run(Initial, events).loggedIn <==> exists i :: 0 <= i < |events| && Succeeds(events[i])
    decreases |events|
  {
    if events != [] {
      var init := events[..|events| - 1];
      var last := events[|events| - 1];
      LoggedInIffSomeSuccess(init);
      assert forall i :: 0 <= i < |init| ==> init[i] == events[i];
      if Succeeds(last) {
        assert Succeeds(events[|events| - 1]);
      } else if exists i :: 0 <= i < |events| && Succeeds(events[i]) {
        var i :| 0 <= i < |events| && Succeeds(events[i]);
        assert i < |init| && Succeeds(init[i]);
      }
    }
  }

  /** An error on screen means the latest event was a failed login attempt. */
  lemma {:induction false} ErrorMeansLastAttemptFailed(events: seq<Event>)
    requires Run(Initial, events).authError != ""
    ensures events != [] && events[|events| - 1].Trigger? && !Succeeds(events[|events| - 1])
    ensures Run(Initial, events).authError == InvalidCredentials && !ShowsApp(Run(Initial, events))
  {
    RunConsistent(events);
  }

  /** A wrong password after a successful login leaves the session logged in and the modal closed. */
  lemma MismatchAfterLogin(u: string, p: string, u2: string, p2: string)
    requires u == p && u2 != p2
    ensures var s := Run(Initial, [Trigger(u, p), Trigger(u2, p2)]);
      s.loggedIn && !s.modalOpen && ErrorText(s).None? && ShowsApp(s)
  {
    assert [Trigger(u, p), Trigger(u2, p2)][..1] == [Trigger(u, p)];
    assert [Trigger(u, p)][..0] == [];
  }

  /** One login session: the two reactive cells and the modal. */
  class LoginSession {
    var loggedIn: bool
    var authError: string
    var modalOpen: bool

    function State(): LoginState
      reads this
    {
      LoginState(loggedIn, authError, modalOpen)
    }

    /** `reactive.value(False)`, `reactive.value("")`, and the effect that shows the modal. */
    constructor ()
      ensures State() == Initial
    {
      loggedIn := false;
      authError := "";
      modalOpen := true;
    }

    /** The handler of the "Log In" button. */
    method Trigger(username: string, password: string)
      modifies this
      ensures State() == OnTrigger(old(State()), username, password)
      ensures old(Consistent(State())) ==> Consistent(State())
    {
      if username == password {
        loggedIn := true;
        authError := "";
      }
      if loggedIn {
        modalOpen := false;
      } else {
        authError := InvalidCredentials;
      }
    }

    /** The handler of an edit of the username or password field. */
    method CredentialsEdited()
      modifies this
      ensures State() == OnCredentialsEdited(old(State()))
      ensures old(Consistent(State())) ==> Consistent(State())
    {
      authError := "";
    }
  }
}
