/**
 The socket.io side of the chat backend (backend/server.js:185-242) as a
 state machine: one pure step per inbound event, returning the new state
 and the emits the handler performs, in the order it performs them.

 State is the per-socket `socket.user`, socket.io's rooms (room name to the
 set of sockets joined to it) and the `Message` collection. `jwt.verify`,
 the clock and the availability of the database are supplied by the
 environment at every event.
 */
module SocketServer {
  import opened JsValues
  import opened Schema
  import History

  type SocketId = nat

  /** One connected socket; `user` is `socket.user`, unset until an `authenticate` succeeds. */
  datatype Socket = Socket(user: Option<Claims>)

  datatype ServerState = ServerState(
    sockets: map<SocketId, Socket>,
    rooms: map<string, set<SocketId>>,
    store: seq<Message>)

  /** No socket connected, no room, nothing stored. */
  const Init := ServerState(map[], map[], [])

  /**
   The `data` of a `send_message` event. `sender` stands for whatever
   identity a client may put into the payload; the handler never reads it.
   */
  datatype SendData = SendData(recipient: Option<string>, content: Option<string>, sender: Option<string>)

  /** The events a socket can raise; `data` of `send_message` may itself be missing. */
  datatype Inbound =
    | Connect(sid: SocketId)
    | Authenticate(sid: SocketId, token: Token)
    | SendMessage(sid: SocketId, data: Option<SendData>)
    | Disconnect(sid: SocketId)

  /** The events the server emits. */
  datatype OutEvent =
    | ReceiveMessage(sender: string, content: string, timestamp: nat)
    | MessageSent(id: nat, recipient: string, content: string, timestamp: nat)

  /** `io.to(room).emit(...)` or `socket.emit(...)`. */
  datatype Emit = ToRoom(room: string, event: OutEvent) | ToSocket(target: SocketId, event: OutEvent)

  /** What the environment supplies to one event: `jwt.verify` now, `Date.now()`, and whether the database answers. */
  datatype Env = Env(verify: Verifier, now: nat, available: bool)

  /** The state after an event together with the emits the handler made. */
  datatype Step = Step(state: ServerState, emits: seq<Emit>)

  /** The sockets joined to `room`. */
  function Members(st: ServerState, room: string): set<SocketId> {
    if room in st.rooms then st.rooms[room] else {}
  }

  /** `sid` is connected and `socket.user` is set. */
  predicate IsAuthenticated(st: ServerState, sid: SocketId) {
    sid in st.sockets && st.sockets[sid].user.Some?
  }

  /** The username of an authenticated socket. */
  function UserOf(st: ServerState, sid: SocketId): string
    requires IsAuthenticated(st, sid)
  {
    st.sockets[sid].user.value.username
  }

  /**
   The invariant every reachable state keeps: the log is valid, rooms are
   never empty and hold only connected, authenticated sockets, and an
   authenticated socket is in the room named after its current username.
   */
  ghost predicate Inv(st: ServerState) {
    && ValidLog(st.store)
    && (forall room :: room in st.rooms ==> st.rooms[room] != {})
    && (forall room, s :: room in st.rooms && s in st.rooms[room] ==> s in st.sockets && st.sockets[s].user.Some?)
    && (forall sid :: sid in st.sockets && st.sockets[sid].user.Some? ==>
          sid in Members(st, st.sockets[sid].user.value.username))
  }

  /** The sockets an emit reaches. */
  function Targets(st: ServerState, e: Emit): set<SocketId> {
    match e
    case ToRoom(room, _) => Members(st, room)
    case ToSocket(target, _) => {target}
  }

  /** The events socket `s` receives from `emits`, in emission order. */
  function Inbox(st: ServerState, emits: seq<Emit>, s: SocketId): seq<OutEvent>
    decreases |emits|
  {
    if emits == [] then []
    else (if s in Targets(st, emits[0]) then [emits[0].event] else []) + Inbox(st, emits[1..], s)
  }

  /** What a socket receives from two consecutive emits. */
  lemma InboxPair(st: ServerState, a: Emit, b: Emit, s: SocketId)
    ensures Inbox(st, [a, b], s) ==
      (if s in Targets(st, a) then [a.event] else []) + (if s in Targets(st, b) then [b.event] else [])
  {
    assert [a, b][1..] == [b];
    assert [b][1..] == [];
    var y: seq<OutEvent> := if s in Targets(st, b) then [b.event] else [];
    assert Inbox(st, [b], s) == y + Inbox(st, [], s);
    assert y + [] == y;
  }

  /** A new connection: the socket exists and has no user; rooms and log are untouched. */
  function OnConnect(st: ServerState, sid: SocketId): (r: ServerState)
    ensures r.sockets.Keys == st.sockets.Keys + {sid}
    ensures sid !in st.sockets ==> !IsAuthenticated(r, sid)
    ensures forall s :: s in st.sockets ==> s in r.sockets && r.sockets[s] == st.sockets[s]
    ensures r.rooms == st.rooms && r.store == st.store
    ensures Inv(st) ==> Inv(r)
  {
    if sid in st.sockets then st else st.(sockets := st.sockets[sid := Socket(None)])
  }

  /**
   `authenticate`: a token that verifies sets `socket.user` and joins the
   socket to the room named after the username, keeping every room it had
   joined before; any other token changes nothing and emits nothing.
   */
  function OnAuthenticate(st: ServerState, sid: SocketId, token: Token, verify: Verifier): (r: ServerState)
    ensures sid !in st.sockets || verify(token).None? ==> r == st
    ensures sid in st.sockets && verify(token).Some? ==>
      && r.sockets == st.sockets[sid := Socket(verify(token))]
      && (forall room, s :: s in Members(r, room) <==>
            s in Members(st, room) || (room == verify(token).value.username && s == sid))
    ensures r.store == st.store
    ensures Inv(st) ==> Inv(r)
  {
    if sid !in st.sockets then st
    else
      match verify(token)
      case None => st
      case Some(claims) =>
        var room := claims.username;
        st.(sockets := st.sockets[sid := Socket(Some(claims))],
            rooms := st.rooms[room := Members(st, room) + {sid}])
  }

  /**
   `send_message`: from an unauthenticated socket, nothing. Otherwise the
   message is built with the socket's own username as sender and saved; only
   if the save succeeds does `receive_message` go to the recipient's room and
   `message_sent` to the sending socket, both carrying the stored timestamp.
   */
  function OnSendMessage(st: ServerState, sid: SocketId, data: Option<SendData>, env: Env): (r: Step)
    ensures !IsAuthenticated(st, sid) ==> r == Step(st, [])
    ensures r.state.sockets == st.sockets && r.state.rooms == st.rooms
    ensures r.emits == [] <==> r.state.store == st.store
    ensures r.emits != [] <==>
      && IsAuthenticated(st, sid) && data.Some? && env.available
      && Required(data.value.recipient) && Required(data.value.content) && UserOf(st, sid) != ""
    ensures r.emits != [] ==>
      && |r.state.store| == |st.store| + 1 && r.state.store[..|st.store|] == st.store
      && var m := r.state.store[|st.store|];
      && m.sender == UserOf(st, sid)
      && Some(m.recipient) == data.value.recipient && Some(m.content) == data.value.content
      && m.timestamp == env.now
      && (forall s :: Inbox(r.state, r.emits, s) ==
            (if s in Members(st, m.recipient) then [ReceiveMessage(m.sender, m.content, m.timestamp)] else [])
            + (if s == sid then [MessageSent(m.id, m.recipient, m.content, m.timestamp)] else []))
    ensures Inv(st) ==> forall s :: Inbox(r.state, r.emits, s) != [] ==> IsAuthenticated(st, s)
    ensures Inv(st) ==> Inv(r.state)
  {
    if !IsAuthenticated(st, sid) || data.None? then Step(st, [])
    else
      var sender := UserOf(st, sid);
      var draft := MessageDraft(Some(sender), data.value.recipient, data.value.content);
      match SaveMessage(st.store, draft, env.now, env.available)
      case None => Step(st, [])
      case Some(m) =>
        var st' := st.(store := st.store + [m]);
        var emits := [ToRoom(m.recipient, ReceiveMessage(m.sender, m.content, m.timestamp)),
                      ToSocket(sid, MessageSent(m.id, m.recipient, m.content, m.timestamp))];
        assert st'.store[..|st.store|] == st.store;
        assert (forall s ::
                  Inbox(st', emits, s) ==
                  (if s in Members(st, m.recipient) then [emits[0].event] else [])
                  + (if s == sid then [emits[1].event] else [])) by {
          forall s ensures Inbox(st', emits, s) ==
            (if s in Members(st, m.recipient) then [emits[0].event] else [])
            + (if s == sid then [emits[1].event] else []) {
            InboxPair(st', emits[0], emits[1], s);
            assert emits == [emits[0], emits[1]];
          }
        }
        Step(st', emits)
  }

  /** `room` after `sid` leaves it, or nothing when it would be left empty. */
  function Leave(rooms: map<string, set<SocketId>>, sid: SocketId): (r: map<string, set<SocketId>>)
    ensures forall room :: room in r <==> room in rooms && rooms[room] - {sid} != {}
    ensures forall room :: room in r ==> r[room] == rooms[room] - {sid}
  {
    map room | room in rooms && rooms[room] - {sid} != {} :: rooms[room] - {sid}
  }

  /**
   A disconnect (transport-level; the handler itself only logs): the socket
   is gone, it has left every room, and a room left empty is dropped.
   */
  function OnDisconnect(st: ServerState, sid: SocketId): (r: ServerState)
    ensures r.sockets.Keys == st.sockets.Keys - {sid}
    ensures forall s :: s in r.sockets ==> r.sockets[s] == st.sockets[s]
    ensures forall room, s :: s in Members(r, room) <==> s in Members(st, room) && s != sid
    ensures r.store == st.store
    ensures Inv(st) ==> Inv(r)
  {
    var r := st.(sockets := st.sockets - {sid}, rooms := Leave(st.rooms, sid));
    assert forall room, s :: s in Members(r, room) <==> s in Members(st, room) && s != sid by {
      forall room, s ensures s in Members(r, room) <==> s in Members(st, room) && s != sid {
        if room in st.rooms && s in st.rooms[room] && s != sid {
          assert s in st.rooms[room] - {sid};
        }
      }
    }
    r
  }

  /** One inbound event. */
  function Handle(st: ServerState, ev: Inbound, env: Env): (r: Step)
    ensures !ev.SendMessage? ==> r.emits == []
    ensures r.emits == [] <==> r.state.store == st.store
    ensures r.state.store == st.store || (|r.state.store| == |st.store| + 1 && r.state.store[..|st.store|] == st.store)
    ensures Inv(st) ==> Inv(r.state)
  {
    match ev
    case Connect(sid) => Step(OnConnect(st, sid), [])
    case Authenticate(sid, token) => Step(OnAuthenticate(st, sid, token, env.verify), [])
    case SendMessage(sid, data) =>
      OnSendMessage(st, sid, data, env)
    case Disconnect(sid) => Step(OnDisconnect(st, sid), [])
  }

  /** An emitted event agrees with a record in `store`: nothing goes out that was not stored. */
  ghost predicate Backed(store: seq<Message>, e: Emit) {
    match e.event
    case ReceiveMessage(sender, content, timestamp) =>
      e.ToRoom? && exists m :: m in store && m == Message(m.id, sender, e.room, content, timestamp)
    case MessageSent(id, recipient, content, timestamp) =>
      e.ToSocket? && id < |store| && store[id].id == id
      && store[id].recipient == recipient && store[id].content == content && store[id].timestamp == timestamp
  }

  /** One event together with the environment it meets. */
  datatype Input = Input(event: Inbound, env: Env)

  /** A run of events from `st`: the final state and every emit, in order. */
  function Run(st: ServerState, inputs: seq<Input>): Step
    decreases |inputs|
  {
    if inputs == [] then Step(st, [])
    else
      var first := Handle(st, inputs[0].event, inputs[0].env);
      var rest := Run(first.state, inputs[1..]);
      Step(rest.state, first.emits + rest.emits)
  }

  /** Every state reached from a state satisfying `Inv` satisfies it too. */
  lemma {:induction false} RunKeepsInv(st: ServerState, inputs: seq<Input>)
    requires Inv(st)
    ensures Inv(Run(st, inputs).state)
    decreases |inputs|
  {
    if inputs != [] {
      RunKeepsInv(Handle(st, inputs[0].event, inputs[0].env).state, inputs[1..]);
    }
  }

  /** The log only grows: a run keeps every stored message where it was. */
  lemma {:induction false} RunAppendOnly(st: ServerState, inputs: seq<Input>)
    ensures |st.store| <= |Run(st, inputs).state.store|
    ensures Run(st, inputs).state.store[..|st.store|] == st.store
    decreases |inputs|
  {
    if inputs != [] {
      var first := Handle(st, inputs[0].event, inputs[0].env);
      RunAppendOnly(first.state, inputs[1..]);
    }
  }

  /** `Backed` survives appending to the log. */
  lemma BackedGrows(store: seq<Message>, more: seq<Message>, e: Emit)
    requires Backed(store, e)
    ensures Backed(store + more, e)
  {
  }

  /** Nothing is delivered unless stored: every emit of a run from a valid state matches a record of the final log. */
  lemma {:induction false} RunEmitsBacked(st: ServerState, inputs: seq<Input>)
    requires Inv(st)
    ensures forall e :: e in Run(st, inputs).emits ==> Backed(Run(st, inputs).state.store, e)
    decreases |inputs|
  {
    if inputs != [] {
      var ev := inputs[0].event;
      var first := Handle(st, ev, inputs[0].env);
      var rest := Run(first.state, inputs[1..]);
      var final := rest.state.store;
      RunKeepsInv(st, inputs[..1]);
      assert Run(st, inputs[..1]).state == first.state by {
        assert inputs[..1][1..] == [];
      }
      RunEmitsBacked(first.state, inputs[1..]);
      RunAppendOnly(first.state, inputs[1..]);
      assert final == first.state.store + final[|first.state.store|..];
      forall e | e in first.emits
        ensures Backed(final, e)
      {
        var sid := ev.sid;
        var m := first.state.store[|st.store|];
        assert m in first.state.store;
        assert m.id == |st.store| && first.state.store[m.id] == m;
        assert Backed(first.state.store, e);
        BackedGrows(first.state.store, final[|first.state.store|..], e);
      }
    }
  }

  /** The server starts with no sockets, no rooms and an empty store, which is a valid state. */
  lemma InitValid()
    ensures Inv(Init)
  {
  }

  /**
   Every state reachable from the server's start is valid, and every event
   emitted on the way matches a stored record.
   */
  lemma ReachableValid(inputs: seq<Input>)
    ensures Inv(Run(Init, inputs).state)
    ensures forall e :: e in Run(Init, inputs).emits ==> Backed(Run(Init, inputs).state.store, e)
  {
    InitValid();
    RunKeepsInv(Init, inputs);
    RunEmitsBacked(Init, inputs);
  }

  /**
   Two connections of one user: after one of them disconnects, a message to
   that user still reaches the other one, and never the closed one.
   */
  lemma OtherConnectionStillDelivers(st: ServerState, gone: SocketId, kept: SocketId, from: SocketId,
                                     data: SendData, env: Env)
    requires Inv(st)
    requires gone != kept && from != gone
    requires IsAuthenticated(st, kept) && data.recipient == Some(UserOf(st, kept))
    ensures
      var after := OnDisconnect(st, gone);
      var r := OnSendMessage(after, from, Some(data), env);
      r.emits != [] ==>
        && ReceiveMessage(UserOf(after, from), data.content.value, env.now) in Inbox(r.state, r.emits, kept)
        && Inbox(r.state, r.emits, gone) == []
  {
  }

  /** The sender is taken from the session: whatever `sender` a payload claims, the step is the same. */
  lemma SenderNotSpoofable(st: ServerState, sid: SocketId, data: SendData, claimed: Option<string>, env: Env)
    ensures OnSendMessage(st, sid, Some(data), env) == OnSendMessage(st, sid, Some(data.(sender := claimed)), env)
  {
  }

  /**
   A message to a recipient with no socket in its room is still stored and
   acknowledged to the sender, and no socket but the sender receives anything.
   */
  lemma OfflineRecipient(st: ServerState, sid: SocketId, data: SendData, env: Env, s: SocketId)
    requires data.recipient.Some? && Members(st, data.recipient.value) == {}
    ensures
      var r := OnSendMessage(st, sid, Some(data), env);
      r.emits != [] ==>
        && Inbox(r.state, r.emits, s) == (if s == sid then [MessageSent(|st.store|, data.recipient.value, data.content.value, env.now)] else [])
        && r.state.store[|st.store|] in History.Query(r.state.store, UserOf(st, sid), data.recipient.value)
  {
    var r := OnSendMessage(st, sid, Some(data), env);
    if r.emits != [] {
      var m := r.state.store[|st.store|];
      assert m in r.state.store;
      assert m.id == |st.store| by {
        var d := MessageDraft(Some(UserOf(st, sid)), data.recipient, data.content);
        assert SaveMessage(st.store, d, env.now, env.available) == Some(m);
      }
    }
  }

  /**
   A sent message is in the history of both participants, whichever of the
   two asks for it.
   */
  lemma SentMessageInHistory(st: ServerState, sid: SocketId, data: SendData, env: Env)
    ensures
      var r := OnSendMessage(st, sid, Some(data), env);
      r.emits != [] ==>
        var m := r.state.store[|st.store|];
        && m in History.Query(r.state.store, m.sender, m.recipient)
        && m in History.Query(r.state.store, m.recipient, m.sender)
  {
  }

  /**
   Re-authenticating as another user keeps the socket in the room of the
   earlier username, so it keeps receiving that user's messages.
   */
  lemma ReauthenticationKeepsOldRoom(st: ServerState, sid: SocketId, token: Token,
                                     verify: Verifier, from: SocketId, data: SendData, env: Env)
    requires Inv(st) && IsAuthenticated(st, sid)
    requires verify(token).Some? && data.recipient == Some(UserOf(st, sid))
    ensures
      var after := OnAuthenticate(st, sid, token, verify);
      var r := OnSendMessage(after, from, Some(data), env);
      && UserOf(after, sid) == verify(token).value.username
      && (r.emits != [] ==> ReceiveMessage(UserOf(after, from), data.content.value, env.now) in Inbox(r.state, r.emits, sid))
  {
  }
}
