/**
 * The mock sign-up and sign-in of app/auth/signup/page.tsx and
 * app/auth/login/page.tsx.  Neither page talks to a server: a submission
 * either reports an error or builds a user and puts it in the store.  The
 * random draw, the clock (as an ISO time stamp) and the navigation are
 * outside the model; the draw and the time stamp are parameters.
 */
module Auth {
  import opened Wrappers
  import opened Types
  import Text
  import Store

  /** The outcome of a submission: an error message, or the user that was signed in. */
  datatype Outcome = Failed(message: string) | SignedIn(user: User)

  /** Apply an outcome to the store: only a sign-in changes it. */
  function Commit(store: Store.StoreState, outcome: Outcome): (r: Store.StoreState)
    ensures outcome.Failed? ==> r == store
    ensures outcome.SignedIn? ==> r.user == Some(outcome.user) && r.isAuthenticated && r.cartItems == store.cartItems
  {
    match outcome
    case Failed(_) => store
    case SignedIn(u) => Store.SetUser(store, Some(u))
  }

  lemma CommitKeepsValid(store: Store.StoreState, outcome: Outcome)
    requires Store.Valid(store)
    ensures Store.Valid(Commit(store, outcome))
  {
  }

  // ---------------------------------------------------------------------------
  // Sign-up

  datatype SignupForm = SignupForm(fullName: string, email: string, password: string, confirmPassword: string, role: Role)

  /** The form as the page first shows it: every text field empty and the role select on customer. */
  function InitialSignupForm(): (f: SignupForm)
    ensures f.role == Customer
  {
    SignupForm("", "", "", "", Customer)
  }

  /** `Math.floor(Math.random() * 10000)` for a draw in `[0, 1)`. */
  function MockId(draw: real): (id: int)
    requires 0.0 <= draw < 1.0
    ensures 0 <= id <= 9999
    ensures id as real <= draw * 10000.0 < id as real + 1.0
  {
    (draw * 10000.0).Floor
  }

  /**
   * `handleSubmit` of the sign-up page.  The password check comes first; then
   * every one of name, e-mail and password must be non-empty (white space
   * counts as filled in).
   */
  function Signup(form: SignupForm, draw: real, now: string): (r: Outcome)
    requires 0.0 <= draw < 1.0
    ensures form.password != form.confirmPassword ==> r == Failed("Passwords do not match")
    ensures form.password == form.confirmPassword && (form.fullName == "" || form.email == "" || form.password == "") ==>
      r == Failed("Please fill in all fields")
    ensures r.SignedIn? <==>
      form.password == form.confirmPassword && form.fullName != "" && form.email != "" && form.password != ""
    ensures r.SignedIn? ==>
      && r.user.email == form.email && r.user.fullName == form.fullName && r.user.role == form.role
      && r.user.avatarUrl.None? && r.user.createdAt == now && 0 <= r.user.id <= 9999
  {
    if form.password != form.confirmPassword then Failed("Passwords do not match")
    else if form.fullName != "" && form.email != "" && form.password != "" then
      SignedIn(User(MockId(draw), form.email, form.fullName, form.role, None, now))
    else Failed("Please fill in all fields")
  }

  /** A mismatch is reported even when other fields are empty: the order of the checks matters. */
  lemma MismatchReportedFirst(form: SignupForm, draw: real, now: string)
    requires 0.0 <= draw < 1.0
    requires form.password != form.confirmPassword && form.fullName == ""
    ensures Signup(form, draw, now) == Failed("Passwords do not match")
  {
  }

  /** A successful sign-up leaves the session authenticated as the new user, with the cart untouched. */
  lemma SignupAuthenticates(store: Store.StoreState, form: SignupForm, draw: real, now: string)
    requires 0.0 <= draw < 1.0
    requires form.password == form.confirmPassword && form.fullName != "" && form.email != "" && form.password != ""
    ensures var s := Commit(store, Signup(form, draw, now));
      s.isAuthenticated && s.user.Some? && s.user.value.email == form.email && s.cartItems == store.cartItems
  {
  }

  /** Filling in only the text fields, without touching the role select, signs up a customer. */
  lemma DefaultRoleIsCustomer(fullName: string, email: string, password: string, draw: real, now: string)
    requires 0.0 <= draw < 1.0
    requires fullName != "" && email != "" && password != ""
    ensures var form := InitialSignupForm().(fullName := fullName, email := email,
                                             password := password, confirmPassword := password);
      Signup(form, draw, now).SignedIn? && Signup(form, draw, now).user.role == Customer
  {
  }

  // ---------------------------------------------------------------------------
  // Sign-in

  /** `email.split('@')[0]`: the e-mail up to its first '@'. */
  function LocalPart(email: string): (r: string)
    ensures r <= email && '@' !in r
    ensures '@' !in email ==> r == email
    ensures |r| < |email| ==> email[|r|] == '@'
  {
    Text.SplitHead(email, '@');
    Text.Split(email, '@')[0]
  }

  /**
   * `handleSubmit` of the sign-in page: any non-empty e-mail and password
   * sign in user 1 as a customer named after the e-mail's local part.  The
   * password is never compared with anything.
   */
  function Login(email: string, password: string, now: string): (r: Outcome)
    ensures r.Failed? <==> email == "" || password == ""
    ensures r.Failed? ==> r.message == "Please fill in all fields"
    ensures r.SignedIn? ==>
      && r.user.id == 1 && r.user.email == email && r.user.role == Customer
      && r.user.fullName == LocalPart(email) && r.user.fullName <= email && '@' !in r.user.fullName
      && r.user.avatarUrl.None? && r.user.createdAt == now
  {
    if email != "" && password != "" then SignedIn(User(1, email, LocalPart(email), Customer, None, now))
    else Failed("Please fill in all fields")
  }

  /** The password plays no part beyond being non-empty. */
  lemma LoginIgnoresPassword(email: string, p1: string, p2: string, now: string)
    requires p1 != "" && p2 != ""
    ensures Login(email, p1, now) == Login(email, p2, now)
  {
  }

  /** The display name is everything before the first '@', and the whole address when there is none. */
  lemma {:induction false} LoginName(local: string, domain: string, now: string)
    requires local != "" && '@' !in local
    ensures Login(local + "@" + domain, "x", now).user.fullName == local
    ensures Login(local, "x", now).user.fullName == local
  {
    var email := local + "@" + domain;
    assert email[..|local|] == local;
    assert email[|local|] == '@';
  }
}
