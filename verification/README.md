# Simple Chat — a Dafny model of its message routing and session core

Simple Chat is a one-to-one chat application. A Node.js backend persists
messages in MongoDB and relays them live over socket.io. A React client shows
one conversation at a time. This project models the three event-driven state
machines at the heart of it. Each is a set of pure step functions over
immutable state, with properties proved about single steps and about whole
runs of events.

- **Backend socket server** (`SocketServer`). A socket starts with no user.
  `authenticate` with a token that verifies sets `socket.user` and joins the
  socket to the room named after the username. `send_message` from an
  unauthenticated socket does nothing. Otherwise the message is built with
  the session's username as sender and then saved. Only after the save
  succeeds does `receive_message` go to the recipient's room and
  `message_sent` go back to the sending socket. Disconnecting removes the
  socket from every room. The run-level lemmas show three things: the room
  invariant holds in every reachable state, the log only grows, and every
  emitted event matches a stored record ("nothing is delivered unless
  stored").
- **Backend HTTP API** (`HttpApi`, `History`, `Schema`). This covers the
  bearer-token middleware (401 / 403 / admit), the conversation query and the
  user list it guards, and the register and login decisions. The query
  returns exactly the pair's messages, sorted by timestamp, whichever of the
  two users asks.
- **Client conversation view** (`ChatView`). These are the reducer-like
  transitions of `Chat.js`: the incoming-message filter, the send guard with
  its optimistic append, the self-exclusion filter on the user list, the
  selection effect, and the connect handshake.
- **Client routing** (`AppRouting`). This is the route table of `App.js` and
  the transitions of its `isAuthenticated` flag. The chat screen is never
  rendered while unauthenticated. Over this tab's own sign-ins and logouts
  after mount, it is never rendered without a stored token either.

`JsValues` and `Seqs` hold the JavaScript semantics the models rely on:
truthiness, `trim`, `split(' ')`, and order-preserving filter and sort.

Environment inputs are parameters:
- `jwt.verify` is an oracle `Token -> Option<Claims>`, with expiry folded into it.
- `jwt.sign` and bcrypt's `hash` and `compare` are function parameters.
- `Date.now()` is a natural number supplied with each event.
- Whether the database call succeeds is a boolean supplied with each event.
- `localStorage` appears in three forms:
  - in `AppRouting` it is part of the state (`AppState.storage`);
  - in `ChatView` the stored username is the fixed parameter `me`;
  - the stored token is part of the `Connected` event that reads it.

Some behaviours of the code that the model keeps as written:
- Re-authenticating a socket as a different user leaves it in the room of the
  earlier username, so it keeps receiving that user's messages
  (`SocketServer.ReauthenticationKeepsOldRoom`).
- The server accepts whitespace-only content; only the client trims.
- `authenticateToken` reads the second space-separated field of the header
  and never looks at the scheme word in front of it.
- `Chat.js` never sets `socketConnected` back to false.
- A history response replaces the message list whatever user is selected
  when it arrives.
- The first render happens before the mount effect reads the token, so
  opening `/chat` with a stored token redirects to `/login` once and then back
  to `/chat` (`AppRouting.DeepLinkBounce`).

## Model

| member | source | states |
|---|---|---|
| `JsValues.Trim` | frontendApp/src/components/Chat.js:156 | `trim` gives a slice of its input whose prefix before it and suffix after it are all JavaScript whitespace and which itself neither starts nor ends with whitespace; it is empty exactly when every character is whitespace |
| `JsValues.Split` | backend/server.js:135 | `split(' ')` gives at least one piece, no piece contains the separator, and joining the pieces with it gives back the input |
| `JsValues.SplitJoin` | backend/server.js:135 | splitting undoes joining when no piece contains the separator |
| `JsValues.SplitCons` | backend/server.js:135 | splitting at the first separator gives the piece before it followed by the split of what follows it |
| `JsValues.SplitSecondOf` | backend/server.js:135 | the second piece of `scheme + sep + field + rest` is `field` when neither holds the separator and `rest` is empty or starts with it |
| `Seqs.Filter` | backend/server.js:157-161 | a filter returns no more elements than it was given, and every one of them satisfies the predicate |
| `Seqs.FilterMultiset` | backend/server.js:157-161 | a filter keeps each element that satisfies the predicate exactly as often as it occurs and drops every other element |
| `Seqs.FilterAppend` | frontendApp/src/components/Chat.js:109 | filtering commutes with concatenation, so the kept elements stay in their original order |
| `Seqs.SortBy` | backend/server.js:162 | sorting by a key gives a permutation of the input in non-decreasing key order |
| `Schema.SaveMessage` | backend/server.js:47-53 | a save succeeds exactly when the store answers and sender, recipient and content are all non-empty; the record keeps those fields, gets the current time and an id not used before, and keeps the log valid |
| `Schema.FindUser` | backend/server.js:63 | `findOne({ username })` finds nothing exactly when no account has that username, and otherwise returns the first account with it |
| `Schema.SaveUser` | backend/server.js:40-43 | saving an account succeeds exactly when both required fields are non-empty and the username is unused (the unique index); usernames stay unique |
| `History.Query` | backend/server.js:157-162 | the history holds exactly the messages from a to b or from b to a, each as often as stored, in non-decreasing timestamp order |
| `History.QuerySymmetric` | backend/server.js:157-162 | the history is the same whichever of the two users asks |
| `History.ConversationAppend` | backend/server.js:157-162 | storing a message between the two users extends their conversation by exactly that message; storing any other message leaves it unchanged |
| `HttpApi.BearerToken` | backend/server.js:134-135 | a token exists only for a truthy header; it is non-empty, contains no space, and sits in the header right after the first space, ending at the next space or the end |
| `HttpApi.BearerTokenRoundTrip` | frontendApp/src/components/Chat.js:103-107 | the header the client builds, `Bearer <token>`, or any other one-word scheme, yields that token back, whatever further space-separated fields follow |
| `HttpApi.BearerTokenEmptyField` | backend/server.js:134-139 | an empty second field, as in `Bearer ` or `Bearer  token`, yields no token, so the request gets 401 |
| `HttpApi.BearerTokenNoSpace` | backend/server.js:134-139 | a header without a space yields no token |
| `HttpApi.AuthenticateToken` | backend/server.js:133-148 | 401 exactly when no token is present, 403 exactly when the token fails verification, otherwise admit with the verified claims |
| `HttpApi.GetMessages` | backend/server.js:151-169 | a refused request gets the gate's answer; an admitted one gets 500 when the store fails, and otherwise exactly the requester's conversation with the named user, each message as often as stored, sorted by timestamp |
| `HttpApi.GetUsers` | backend/server.js:172-180 | a refused request gets the gate's answer; an admitted one gets 500 when the store fails, and otherwise every account's username, one per account, in collection order |
| `HttpApi.Register` | backend/server.js:58-96 | a store failure or a failed validation gets 500 and adds nothing; a taken username gets 400 and adds nothing; otherwise one account with the hashed password is appended and a token for it is issued with 201; the accounts only grow and usernames stay unique |
| `HttpApi.Login` | backend/server.js:98-130 | a store failure, and only that, gets 500; an unknown user and a wrong password get the same 400 answer; a token is issued exactly for a known user whose password matches |
| `HttpApi.FindAppended` | backend/server.js:103 | an account appended under an unused username is the one `findOne` finds |
| `HttpApi.RegisterThenLogin` | backend/server.js:58-130 | a successful registration followed by a login with the same password succeeds with 200, the same username and the token the login request signs for the new account, given bcrypt's contract |
| `SocketServer.OnConnect` | backend/server.js:186-187 | a new socket is known and unauthenticated; nothing else changes |
| `SocketServer.OnAuthenticate` | backend/server.js:190-199 | an invalid token changes nothing; a valid one sets the user and adds the socket to that username's room, keeping every earlier room membership; the invariant is kept |
| `SocketServer.OnSendMessage` | backend/server.js:202-237 | nothing happens without an authenticated socket; emits occur exactly when one record is appended; the stored sender is the session's username; every room member gets `receive_message` and only the sender gets `message_sent`, with the stored id and timestamp; in a valid state only authenticated sockets receive anything |
| `SocketServer.Leave` | backend/server.js:239-241 | leaving removes the socket from every room and drops exactly the rooms it leaves empty |
| `SocketServer.OnDisconnect` | backend/server.js:239-241 | the socket is gone and is a member of no room; other sockets and the log are unchanged; the invariant is kept |
| `SocketServer.Handle` | backend/server.js:186-242 | only `send_message` emits; an event emits exactly when it appends to the log; the log grows by at most one record; the invariant is kept |
| `SocketServer.RunKeepsInv` | backend/server.js:186-242 | every state reachable from a valid state is valid: rooms are non-empty and hold only connected, authenticated sockets, each authenticated socket is in its username's room, and the log is valid |
| `SocketServer.RunAppendOnly` | backend/server.js:211-218 | over any run the log only grows and every stored message stays where it was |
| `SocketServer.RunEmitsBacked` | backend/server.js:218-233 | over any run, every emitted `receive_message` and `message_sent` matches a record of the final log |
| `SocketServer.InitValid` | backend/server.js:186-242 | the server's start, with no sockets, no rooms and an empty store, is a valid state |
| `SocketServer.ReachableValid` | backend/server.js:186-242 | every state reachable from the start is valid, and every event emitted on the way matches a stored record |
| `SocketServer.OtherConnectionStillDelivers` | backend/server.js:221-225 | with two connections of one user, after one disconnects a message to that user still reaches the other and never the closed one |
| `SocketServer.SenderNotSpoofable` | backend/server.js:208-216 | the sender named in a payload has no effect on the step |
| `SocketServer.OfflineRecipient` | backend/server.js:218-233 | a message to a user with no socket online is stored and shows up in the history, and only its sender is sent anything |
| `SocketServer.SentMessageInHistory` | backend/server.js:218 | a sent message is in both participants' history, whichever of them asks |
| `SocketServer.ReauthenticationKeepsOldRoom` | backend/server.js:190-199 | a socket that re-authenticates as another user still receives messages sent to its earlier username |
| `ChatView.OnConnect` | frontendApp/src/components/Chat.js:37-49 | on connect only `socketConnected` changes, and `authenticate` is emitted exactly when a truthy token is stored |
| `ChatView.OnReceive` | frontendApp/src/components/Chat.js:65-75 | an incoming message is appended exactly when its sender is the selected user; otherwise nothing changes; nothing but `messages` ever changes |
| `ChatView.OtherUsers` | frontendApp/src/components/Chat.js:109-110 | the displayed list drops every occurrence of the current user and keeps every other user as often as listed; with no current user the list is unchanged |
| `ChatView.OtherUsersAppend` | frontendApp/src/components/Chat.js:109 | removing the current user keeps the other users in their server order |
| `ChatView.OnSelectionChange` | frontendApp/src/components/Chat.js:119-125 | a truthy selection asks for its history and leaves the messages in place until the history arrives; a falsy selection empties the messages |
| `ChatView.OnUserClicked` | frontendApp/src/components/Chat.js:204 | clicking the already selected user changes nothing and fetches nothing; any other click runs the selection effect |
| `ChatView.OnSubmit` | frontendApp/src/components/Chat.js:153-185 | the guard holds exactly for non-blank input, a truthy selection and a connected socket; a failed guard changes nothing; an accepted send emits exactly one untrimmed `send_message`, appends one message from the current user and clears the input |
| `ChatView.Handle` | frontendApp/src/components/Chat.js:78-81 | `message_sent` changes nothing; a loaded history replaces the messages wholesale; a connected socket never becomes disconnected |
| `ChatView.RunKeepsInvariants` | frontendApp/src/components/Chat.js:37-185 | over any run, the current user is never listed, the socket stays connected once connected, and every requested emit or fetch is well formed (no empty token, blank message or falsy recipient) |
| `ChatView.InitViewInv` | frontendApp/src/components/Chat.js:6-11 | the initial view lists nobody, so the current user is not listed |
| `ChatView.ReachableView` | frontendApp/src/components/Chat.js:6-185 | from the initial view, whatever happens, the current user is never listed and every requested effect is well formed |
| `AppRouting.Mount` | frontendApp/src/App.js:9-17 | after the mount effect the app is authenticated exactly when a truthy token is stored |
| `AppRouting.Initial` | frontendApp/src/App.js:9 | the first render is unauthenticated whatever is stored |
| `AppRouting.Logout` | frontendApp/src/App.js:19-23 | logout removes both storage entries and clears the flag |
| `AppRouting.SignIn` | frontendApp/src/App.js:38-45 | a successful form submission stores what it received and sets the flag |
| `AppRouting.Route` | frontendApp/src/App.js:37-53 | `/login` and `/register` redirect to `/chat` when authenticated and show their form otherwise; `/chat` shows the chat only when authenticated and otherwise redirects to `/login`; every other path redirects to `/chat` or `/login`; no path shows the chat while unauthenticated |
| `AppRouting.Render` | frontendApp/src/App.js:28-53 | the logout button is shown exactly when authenticated, and the chat screen only then |
| `AppRouting.RedirectSettles` | frontendApp/src/App.js:37-53 | following a redirect once always reaches a rendered screen: the chat when authenticated, the login form otherwise |
| `AppRouting.FirstRenderNoChat` | frontendApp/src/App.js:9-53 | the first render, before the mount effect, never shows the chat or the logout button |
| `AppRouting.DeepLinkBounce` | frontendApp/src/App.js:9-49 | opening `/chat` with a stored token first redirects to `/login`, and after the mount effect `/login` redirects back to `/chat`, which shows the chat |
| `AppRouting.ChatNeedsToken` | frontendApp/src/App.js:9-53 | after mount and any run of this tab's own sign-ins (each with an issued token) and logouts, the app is authenticated only while a token is stored, so the chat is never shown without one |
| `AppRouting.ExternalLogoutKeepsChat` | frontendApp/src/App.js:9-49 | after mount with a stored token, clearing the storage from outside this tab leaves the chat shown at `/chat`, since the flag is read only at mount |

## Left out

- Cryptography is not modelled. bcrypt hashing and comparison, JWT signing and verification, and token expiry are function parameters. Expiry is part of the verification oracle.
- The `iat` and `exp` time stamps that `jwt.sign` puts into a token are abstracted: each request signs with its own function, so two requests may get different tokens for the same claims.
- MongoDB's ObjectId is modelled as the record's position in the collection.
- Database failures are one boolean per event: a failed call throws, and the handler turns that into a 500 answer or a silent no-op.
- The race between the register route's `findOne` and the unique index is not modelled, because handlers are atomic steps.
- History.Query: it does not promise how messages with equal timestamps are ordered. MongoDB leaves that open. The model happens to keep insertion order.
- socket.io's transport, reconnection and acknowledgement machinery are not modelled. The private room that socket.io gives every socket under its own id is not modelled either: socket ids and usernames are separate types here.
- Disconnect cleanup is socket.io's work, not the handler's. It appears as one transport step.
- The `authenticated` and `authentication_failed` events are not modelled. `Chat.js` listens for them but the server never emits them, and the listeners only log.
- The handlers are `async` but are modelled as atomic steps. Interleaving between sockets and between HTTP requests is not modelled.
- Values whose JavaScript type is wrong are not modelled: a non-string token, recipient or content, or a missing `username` or `password` in a request body. Missing payload fields and a missing `data` object are modelled.
- Express, CORS, the `OPTIONS` pre-flight route, `dotenv`, `server.listen` and all `console` logging are plumbing.
- Client UI code is not modelled: JSX rendering, the `loading` flag, `scrollIntoView`, date formatting, and the axios calls themselves. The axios calls appear as effects and response events. A failed fetch leaves the state unchanged and has no event.
- Storage changes made outside this `App` instance are not modelled: another tab's logout, or site data being cleared. `App.js` reads the token only at mount and has no `storage` listener, so such a change leaves a tab authenticated, showing the chat without a stored token. `AppRouting.ChatNeedsToken` covers only this tab's own sign-ins and logouts.
- React Router's path matching rules are not modelled (case-insensitivity, trailing slashes). Paths are compared exactly.
- `Login.js` and `Register.js` are not part of this model beyond the `SignIn` transition they trigger in `App.js`.
