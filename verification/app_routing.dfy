/**
 The top-level component of the React client (frontendApp/src/App.js): the
 `isAuthenticated` flag with the storage it is derived from, the login and
 logout transitions, and the route table that decides, for a path, which
 screen is rendered or where the browser is redirected.
 */
module AppRouting {
  import opened JsValues

  /** The two `localStorage` entries the client uses. */
  datatype Storage = Storage(token: Option<string>, username: Option<string>)

  datatype AppState = AppState(authenticated: bool, storage: Storage)

  /** What a route renders: a form, the chat, or `<Navigate to=...>`. */
  datatype View = LoginForm | RegisterForm | ChatScreen | Redirect(to: string)

  /** The header's logout button and the routed view. */
  datatype Screen = Screen(logoutButton: bool, view: View)

  /** The state of the first render, `useState(false)`, before the mount effect has run. */
  function Initial(storage: Storage): (r: AppState)
    ensures !r.authenticated && r.storage == storage
  {
    AppState(false, storage)
  }

  /** The mount-time check, run after the first render: authenticated exactly when a token is stored. */
  function Mount(storage: Storage): (r: AppState)
    ensures r.authenticated <==> Truthy(storage.token)
    ensures r.storage == storage
  {
    var initial := Initial(storage);
    if Truthy(storage.token) then initial.(authenticated := true) else initial
  }

  /** `logout`: both storage entries are removed and the flag is cleared. */
  function Logout(st: AppState): (r: AppState)
    ensures !r.authenticated
    ensures r.storage.token.None? && r.storage.username.None?
  {
    AppState(false, Storage(None, None))
  }

  /**
   A successful login or registration form stores the token and username it
   received and calls `setIsAuthenticated(true)`.
   */
  function SignIn(st: AppState, token: string, username: string): (r: AppState)
    ensures r.authenticated
    ensures r.storage == Storage(Some(token), Some(username))
  {
    AppState(true, Storage(Some(token), Some(username)))
  }

  /** The `<Routes>` table: `/login`, `/register`, `/chat`, and `*` for every other path. */
  function Route(path: string, authenticated: bool): (v: View)
    ensures v == ChatScreen ==> authenticated
    ensures (path == "/login" || path == "/register") && authenticated ==> v == Redirect("/chat")
    ensures path == "/login" && !authenticated ==> v == LoginForm
    ensures path == "/register" && !authenticated ==> v == RegisterForm
    ensures path == "/chat" ==> v == (if authenticated then ChatScreen else Redirect("/login"))
    ensures path !in {"/login", "/register", "/chat"} ==> v == Redirect(if authenticated then "/chat" else "/login")
  {
    if path == "/login" then (if authenticated then Redirect("/chat") else LoginForm)
    else if path == "/register" then (if authenticated then Redirect("/chat") else RegisterForm)
    else if path == "/chat" then (if authenticated then ChatScreen else Redirect("/login"))
    else Redirect(if authenticated then "/chat" else "/login")
  }

  /** What the app shows at `path`: the logout button exactly when authenticated, and the routed view. */
  function Render(st: AppState, path: string): (r: Screen)
    ensures r.logoutButton <==> st.authenticated
    ensures r.view == ChatScreen ==> st.authenticated
  {
    Screen(st.authenticated, Route(path, st.authenticated))
  }

  /** Following a redirect once always lands on a rendered screen: no redirect chains or loops. */
  lemma RedirectSettles(path: string, authenticated: bool)
    ensures Route(path, authenticated).Redirect? ==> !Route(Route(path, authenticated).to, authenticated).Redirect?
    ensures Route(path, authenticated).Redirect? ==>
      Route(Route(path, authenticated).to, authenticated) == (if authenticated then ChatScreen else LoginForm)
  {
  }

  /** The first render never shows the chat, whatever is stored and whatever the path. */
  lemma FirstRenderNoChat(storage: Storage, path: string)
    ensures Render(Initial(storage), path).view != ChatScreen
    ensures !Render(Initial(storage), path).logoutButton
  {
  }

  /**
   Opening `/chat` directly with a stored token: the first render redirects
   to `/login`; once the mount effect has run, `/login` redirects back to
   `/chat`, which now shows the chat.
   */
  lemma DeepLinkBounce(storage: Storage)
    requires Truthy(storage.token)
    ensures Render(Initial(storage), "/chat").view == Redirect("/login")
    ensures Render(Mount(storage), "/login").view == Redirect("/chat")
    ensures Render(Mount(storage), "/chat").view == ChatScreen
  {
  }

  /** The transitions after mount. */
  datatype AppEvent = SignedIn(token: string, username: string) | LoggedOut

  function Apply(st: AppState, ev: AppEvent): AppState {
    match ev
    case SignedIn(token, username) => SignIn(st, token, username)
    case LoggedOut => Logout(st)
  }

  /** The state after mounting with `storage` and then applying `events` in order. */
  function Session(storage: Storage, events: seq<AppEvent>): AppState
    decreases |events|
  {
    if events == [] then Mount(storage) else Apply(Session(storage, events[..|events| - 1]), events[|events| - 1])
  }

  /** Every sign-in carried a non-empty token, as the server always issues one. */
  predicate TokensIssued(events: seq<AppEvent>) {
    forall i :: 0 <= i < |events| && events[i].SignedIn? ==> events[i].token != ""
  }

  /**
   Over this tab's own sign-ins and logouts after mount, the app is
   authenticated only while a token is stored, so the chat screen is never
   shown without one.
   */
  lemma ChatNeedsToken(storage: Storage, events: seq<AppEvent>, path: string)
    requires TokensIssued(events)
    ensures Session(storage, events).authenticated ==> Truthy(Session(storage, events).storage.token)
    ensures Render(Session(storage, events), path).view == ChatScreen ==> Truthy(Session(storage, events).storage.token)
  {
  }

  /**
   The flag is read from storage only at mount: when storage is cleared from
   outside (another tab logs out), an authenticated tab keeps showing the chat.
   */
  lemma ExternalLogoutKeepsChat(storage: Storage)
    requires Truthy(storage.token)
    ensures Render(Mount(storage).(storage := Storage(None, None)), "/chat").view == ChatScreen
  {
  }
}
