/** The account registry of the login page: registered users, the session
    user and the display pseudonym, all kept in browser storage, and the one
    form that either registers a new account or signs an existing one in. */
module Accounts {
  import opened Basics

  datatype User = User(username: string, password: string)

  /** The three storage keys the registry touches: `users` (a missing key
      reads as the empty list), `user` (the session) and `pseudo`. */
  datatype Store = Store(users: seq<User>, session: Option<User>, pseudo: Option<string>)

  /** The messages the form shows, one constructor per distinct text. */
  datatype Notice =
    | NoNotice
    | FillAllFields     // "Veuillez remplir tous les champs."
    | PasswordsDiffer   // "Les mots de passe ne correspondent pas."
    | UsernameTaken     // "Ce pseudo existe déjà."
    | BadCredentials    // "Pseudo ou mot de passe incorrect."
    | SignedIn          // "Connexion réussie !"
    | Registered        // "Inscription réussie ! Vous pouvez vous connecter."

  /** The form: login mode or registration mode, its three fields and the
      error and success messages on display. */
  datatype Form = Form(isLogin: bool, username: string, password: string,
                       confirm: string, error: Notice, success: Notice)

  datatype State = State(form: Form, store: Store)

  /** No two stored accounts share a username. */
  ghost predicate UniqueNames(users: seq<User>) {
    forall i, j :: 0 <= i < j < |users| ==> users[i].username != users[j].username
  }

  predicate NamedAs(name: string, u: User) {
    u.username == name
  }

  /** `findUser`: the first stored account with that username. */
  function FindUser(users: seq<User>, name: string): (r: Option<User>)
    ensures r.None? <==> forall i :: 0 <= i < |users| ==> users[i].username != name
    ensures r.Some? ==> r.value in users && r.value.username == name
    ensures r.Some? ==> exists i :: 0 <= i < |users| && users[i] == r.value
                                    && forall j :: 0 <= j < i ==> users[j].username != name
  {
    Find(u => NamedAs(name, u), users)
  }

  /** `saveUser`: append one account at the end of the list. */
  function SaveUser(users: seq<User>, name: string, password: string): (r: seq<User>)
    ensures |r| == |users| + 1
    ensures r[..|users|] == users
    ensures r[|users|] == User(name, password)
  {
    users + [User(name, password)]
  }

  /** Why a registration is refused, checked in the source's order: an empty
      field, then a password mismatch, then a taken username. */
  function RegistrationError(users: seq<User>, f: Form): (e: Notice)
    ensures e in {NoNotice, FillAllFields, PasswordsDiffer, UsernameTaken}
    ensures (f.username == "" || f.password == "" || f.confirm == "") <==> e == FillAllFields
    ensures e == PasswordsDiffer <==>
              f.username != "" && f.password != "" && f.confirm != "" && f.password != f.confirm
    ensures e == NoNotice <==>
              && f.username != "" && f.password != "" && f.confirm != ""
              && f.password == f.confirm
              && forall i :: 0 <= i < |users| ==> users[i].username != f.username
  {
    if f.username == "" || f.password == "" || f.confirm == "" then FillAllFields
    else if f.password != f.confirm then PasswordsDiffer
    else if FindUser(users, f.username).Some? then UsernameTaken
    else NoNotice
  }

  /** True when the credentials open a session: the first account with that
      username exists and its password is the one typed. */
  predicate LoginAccepted(users: seq<User>, name: string, password: string) {
    FindUser(users, name).Some? && FindUser(users, name).value.password == password
  }

  /** `handleSubmit`: both messages are cleared, then the login branch or the
      registration branch runs. */
  function Submit(s: State): (r: State)
    // login mode
    ensures s.form.isLogin && !LoginAccepted(s.store.users, s.form.username, s.form.password) ==>
              r == State(s.form.(error := BadCredentials, success := NoNotice), s.store)
    ensures s.form.isLogin && LoginAccepted(s.store.users, s.form.username, s.form.password) ==>
              && r.form == s.form.(error := NoNotice, success := SignedIn)
              && r.store.users == s.store.users
              && r.store.session.Some? && r.store.session.value.username == s.form.username
              && r.store.session.value.password == s.form.password
              && r.store.pseudo == Some(s.form.username)
    // registration mode, refused
    ensures !s.form.isLogin && RegistrationError(s.store.users, s.form) != NoNotice ==>
              r == State(s.form.(error := RegistrationError(s.store.users, s.form), success := NoNotice), s.store)
    // registration mode, accepted
    ensures !s.form.isLogin && RegistrationError(s.store.users, s.form) == NoNotice ==>
              && r.store.users == s.store.users + [User(s.form.username, s.form.password)]
              && r.store.session == s.store.session
              && r.store.pseudo == Some(s.form.username)
              && r.form == Form(true, "", "", "", NoNotice, Registered)
  {
    var f := s.form.(error := NoNotice, success := NoNotice);
    if f.isLogin then
      var found := FindUser(s.store.users, f.username);
      if found.None? || found.value.password != f.password then
        State(f.(error := BadCredentials), s.store)
      else
        State(f.(success := SignedIn),
              s.store.(session := Some(found.value), pseudo := Some(found.value.username)))
    else
      var e := RegistrationError(s.store.users, f);
      if e != NoNotice then State(f.(error := e), s.store)
      else
        State(Form(true, "", "", "", NoNotice, Registered),
              s.store.(users := SaveUser(s.store.users, f.username, f.password),
                       pseudo := Some(f.username)))
  }

  /** The link under the form: switch between login and registration and
      clear both messages; the typed fields stay. */
  function ToggleMode(f: Form): (r: Form)
    ensures r.isLogin == !f.isLogin
    ensures r.error == NoNotice && r.success == NoNotice
    ensures r.username == f.username && r.password == f.password && r.confirm == f.confirm
  {
    f.(isLogin := !f.isLogin, error := NoNotice, success := NoNotice)
  }

  /** Whatever the form holds, a submit never stores two accounts with the
      same username. */
  lemma {:induction false} SubmitKeepsNamesUnique(s: State)
    requires UniqueNames(s.store.users)
    ensures UniqueNames(Submit(s).store.users)
  {
    var r := Submit(s);
    if !s.form.isLogin && RegistrationError(s.store.users, s.form) == NoNotice {
      var us := s.store.users;
      var ns := r.store.users;
      forall i, j | 0 <= i < j < |ns|
        ensures ns[i].username != ns[j].username
      {
        if j == |us| {
          assert ns[i] == us[i];
        } else {
          assert ns[i] == us[i] && ns[j] == us[j];
        }
      }
    }
  }

  /** A login attempt either opens the session on a stored account whose
      name and password are the ones typed, or changes no storage at all. */
  lemma LoginOutcome(s: State)
    requires s.form.isLogin
    ensures Submit(s).store == s.store || (
              && Submit(s).store.session.Some?
              && Submit(s).store.session.value in s.store.users
              && Submit(s).store.session.value == User(s.form.username, s.form.password))
  {
  }

  /** Registering (u, p) and then signing in: the right password opens a
      session for u and any other password is refused. */
  lemma {:induction false} RegisterThenLogin(users: seq<User>, u: string, p: string, q: string)
    requires RegistrationError(users, Form(false, u, p, p, NoNotice, NoNotice)) == NoNotice
    ensures
      var after := Submit(State(Form(false, u, p, p, NoNotice, NoNotice), Store(users, None, None))).store.users;
      && LoginAccepted(after, u, p)
      && (q != p ==> !LoginAccepted(after, u, q))
  {
    var after := SaveUser(users, u, p);
    assert forall i :: 0 <= i < |users| ==> after[i] == users[i];
    assert FindUser(after, u) == Some(User(u, p));
  }

  /** The registration checks run in a fixed order: a form with any empty
      field is refused for that reason, whatever the stored accounts and
      whether or not its passwords differ or its username is taken, and
      nothing is stored. */
  lemma EmptyFieldReportedFirst(s: State)
    requires !s.form.isLogin && (s.form.username == "" || s.form.password == "" || s.form.confirm == "")
    ensures Submit(s) == State(s.form.(error := FillAllFields, success := NoNotice), s.store)
  {
  }
}
