/**
 The conversation view of the React client (frontendApp/src/components/Chat.js)
 as a reducer: the state `(users, selectedUser, messages, messageInput,
 socketConnected)` and one transition per handler, each returning the new
 state and the requests it makes of the socket or the HTTP API.

 `currentUser` is the `username` read from `localStorage`, fixed for the
 life of the component; the token read on connect is part of that event.
 */
module ChatView {
  import opened JsValues
  import Seqs

  /** A message as the view holds it: from history, from `receive_message` or added optimistically. */
  datatype ChatMessage = ChatMessage(sender: Option<string>, recipient: Option<string>, content: string, timestamp: nat)

  datatype ChatState = ChatState(
    users: seq<string>,
    selected: Option<string>,
    messages: seq<ChatMessage>,
    input: string,
    connected: bool)

  /** The initial state; the mount-time selection effect with no selection leaves `messages` empty. */
  const Init := ChatState([], None, [], "", false)

  /** What a transition asks of the outside world. */
  datatype Effect =
    | EmitAuthenticate(token: string)
    | EmitSend(recipient: string, content: string)
    | FetchMessages(user: string)

  /** The events the view reacts to. */
  datatype ChatEvent =
    | Connected(storedToken: Option<string>)
    | Received(sender: string, content: string, timestamp: nat)
    | Acknowledged(id: nat, recipient: string, content: string, timestamp: nat)
    | UsersLoaded(usernames: seq<string>)
    | UserClicked(username: string)
    | HistoryLoaded(history: seq<ChatMessage>)
    | InputChanged(text: string)
    | Submitted(now: nat)

  datatype Update = Update(state: ChatState, effects: seq<Effect>)

  /**
   `connect`: the socket is marked connected, and `authenticate` is emitted
   with the stored token only when there is one.
   */
  function OnConnect(st: ChatState, storedToken: Option<string>): (r: Update)
    ensures r.state == st.(connected := true)
    ensures Truthy(storedToken) ==> r.effects == [EmitAuthenticate(storedToken.value)]
    ensures !Truthy(storedToken) ==> r.effects == []
  {
    Update(st.(connected := true), if Truthy(storedToken) then [EmitAuthenticate(storedToken.value)] else [])
  }

  /**
   `receive_message`: the message joins the open conversation exactly when
   it comes from the selected user; anything else leaves the state as it is.
   */
  function OnReceive(st: ChatState, sender: string, content: string, timestamp: nat): (r: ChatState)
    ensures st.selected == Some(sender) ==> |r.messages| == |st.messages| + 1 && r.messages[..|st.messages|] == st.messages
    ensures st.selected == Some(sender) ==> r.messages[|st.messages|] == ChatMessage(Some(sender), None, content, timestamp)
    ensures st.selected != Some(sender) ==> r == st
    ensures r.(messages := st.messages) == st
  {
    if st.selected == Some(sender) then
      var msgs := st.messages + [ChatMessage(Some(sender), None, content, timestamp)];
      assert msgs[..|st.messages|] == st.messages;
      st.(messages := msgs)
    else st
  }

  /** The user list with the current user removed; with no current user nothing is removed. */
  function OtherUsers(usernames: seq<string>, me: Option<string>): (r: seq<string>)
    ensures forall u :: multiset(r)[u] == if Some(u) == me then 0 else multiset(usernames)[u]
    ensures forall i :: 0 <= i < |r| ==> Some(r[i]) != me
    ensures me.None? ==> r == usernames
  {
    var r := Seqs.Filter(u => Some(u) != me, usernames);
    Seqs.FilterMultiset(u => Some(u) != me, usernames);
    assert me.None? ==> r == usernames by {
      if me.None? { FilterAll(usernames, me); }
    }
    r
  }

  /** With no current user the filter keeps everything. */
  lemma {:induction false} FilterAll(usernames: seq<string>, me: Option<string>)
    requires me.None?
    ensures Seqs.Filter(u => Some(u) != me, usernames) == usernames
    decreases |usernames|
  {
    if usernames != [] {
      FilterAll(usernames[1..], me);
      assert usernames == [usernames[0]] + usernames[1..];
    }
  }

  /** Removing the current user keeps the others in their order: it commutes with concatenation. */
  lemma OtherUsersAppend(a: seq<string>, b: seq<string>, me: Option<string>)
    ensures OtherUsers(a + b, me) == OtherUsers(a, me) + OtherUsers(b, me)
  {
    Seqs.FilterAppend(u => Some(u) != me, a, b);
  }

  /**
   The selection effect, run when `selectedUser` changes: a truthy selection
   asks for its history, any other one empties the conversation.
   */
  function OnSelectionChange(st: ChatState, selection: Option<string>): (r: Update)
    ensures r.state.selected == selection
    ensures Truthy(selection) ==> r.state == st.(selected := selection) && r.effects == [FetchMessages(selection.value)]
    ensures !Truthy(selection) ==> r.state.messages == [] && r.effects == []
    ensures r.state.users == st.users && r.state.input == st.input && r.state.connected == st.connected
  {
    if Truthy(selection) then Update(st.(selected := selection), [FetchMessages(selection.value)])
    else Update(st.(selected := selection, messages := []), [])
  }

  /**
   A click on a user in the list. Selecting the user already selected does
   not change `selectedUser`, so the effect does not run again.
   */
  function OnUserClicked(st: ChatState, username: string): (r: Update)
    ensures st.selected == Some(username) ==> r == Update(st, [])
    ensures st.selected != Some(username) ==> r == OnSelectionChange(st, Some(username))
  {
    if st.selected == Some(username) then Update(st, []) else OnSelectionChange(st, Some(username))
  }

  /** The send guard of `sendMessage`: non-blank input, a truthy selection, a connected socket. */
  predicate CanSend(st: ChatState) {
    Trim(st.input) != "" && Truthy(st.selected) && st.connected
  }

  /**
   `sendMessage`: when the guard fails, nothing at all happens. Otherwise
   exactly one `send_message` goes out with the input as typed (untrimmed),
   the same message is appended locally from the current user, and the input
   is cleared.
   */
  function OnSubmit(st: ChatState, me: Option<string>, now: nat): (r: Update)
    ensures CanSend(st) <==> !Blank(st.input) && Truthy(st.selected) && st.connected
    ensures !CanSend(st) ==> r == Update(st, [])
    ensures CanSend(st) ==>
      && r.effects == [EmitSend(st.selected.value, st.input)]
      && r.state.messages == st.messages + [ChatMessage(me, st.selected, st.input, now)]
      && r.state.input == ""
      && r.state.users == st.users && r.state.selected == st.selected && r.state.connected == st.connected
  {
    if !CanSend(st) then Update(st, [])
    else
      Update(st.(messages := st.messages + [ChatMessage(me, st.selected, st.input, now)], input := ""),
             [EmitSend(st.selected.value, st.input)])
  }

  /** One event of the view. */
  function Handle(st: ChatState, me: Option<string>, ev: ChatEvent): (r: Update)
    ensures st.connected ==> r.state.connected
    ensures ev.Acknowledged? ==> r == Update(st, [])
    ensures ev.HistoryLoaded? ==> r.state == st.(messages := ev.history) && r.effects == []
    ensures ev.UsersLoaded? ==> r.state == st.(users := OtherUsers(ev.usernames, me)) && r.effects == []
    ensures ev.InputChanged? ==> r.state == st.(input := ev.text) && r.effects == []
  {
    match ev
    case Connected(token) => OnConnect(st, token)
    case Received(sender, content, timestamp) => Update(OnReceive(st, sender, content, timestamp), [])
    case Acknowledged(_, _, _, _) => Update(st, [])
    case UsersLoaded(usernames) => Update(st.(users := OtherUsers(usernames, me)), [])
    case UserClicked(username) => OnUserClicked(st, username)
    case HistoryLoaded(history) => Update(st.(messages := history), [])
    case InputChanged(text) => Update(st.(input := text), [])
    case Submitted(now) => OnSubmit(st, me, now)
  }

  /** A run of events: the final state and every effect, in order. */
  function Run(st: ChatState, me: Option<string>, events: seq<ChatEvent>): Update
    decreases |events|
  {
    if events == [] then Update(st, [])
    else
      var first := Handle(st, me, events[0]);
      var rest := Run(first.state, me, events[1..]);
      Update(rest.state, first.effects + rest.effects)
  }

  /** An effect the server side can act on: no empty token, no blank message, no falsy recipient. */
  predicate WellFormed(e: Effect) {
    match e
    case EmitAuthenticate(token) => token != ""
    case EmitSend(recipient, content) => recipient != "" && !Blank(content)
    case FetchMessages(user) => user != ""
  }

  /** What every reachable view keeps: the current user is never listed. */
  predicate ViewInv(st: ChatState, me: Option<string>) {
    forall i :: 0 <= i < |st.users| ==> Some(st.users[i]) != me
  }

  /**
   Over any run from a state where the current user is not listed: they are
   still not listed at the end, a connected socket stays connected, and
   every effect requested is well formed.
   */
  lemma {:induction false} RunKeepsInvariants(st: ChatState, me: Option<string>, events: seq<ChatEvent>)
    requires ViewInv(st, me)
    ensures ViewInv(Run(st, me, events).state, me)
    ensures st.connected ==> Run(st, me, events).state.connected
    ensures forall e :: e in Run(st, me, events).effects ==> WellFormed(e)
    decreases |events|
  {
    if events != [] {
      var first := Handle(st, me, events[0]);
      assert ViewInv(first.state, me);
      assert forall e :: e in first.effects ==> WellFormed(e);
      RunKeepsInvariants(first.state, me, events[1..]);
    }
  }

  /** The view starts with nobody listed, so the current user is not listed. */
  lemma InitViewInv(me: Option<string>)
    ensures ViewInv(Init, me)
  {
  }

  /**
   From the view's start, whatever happens, the current user is never listed
   and every effect requested is well formed.
   */
  lemma ReachableView(me: Option<string>, events: seq<ChatEvent>)
    ensures ViewInv(Run(Init, me, events).state, me)
    ensures forall e :: e in Run(Init, me, events).effects ==> WellFormed(e)
  {
    InitViewInv(me);
    RunKeepsInvariants(Init, me, events);
  }
}
