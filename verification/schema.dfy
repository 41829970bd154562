/**
 The two mongoose collections of the chat backend, `User` and `Message`
 (backend/server.js:39-55), the claims a session token carries, and the
 validation mongoose performs on `save()`.
 */
module Schema {
  import opened JsValues

  /** What `jwt.sign` puts into a session token and `jwt.verify` hands back: `{ id, username }`. */
  datatype Claims = Claims(id: nat, username: string)

  /** A JSON Web Token as the client holds and sends it. */
  type Token = string

  /** `jwt.verify` with the server secret at the current time: the claims of a valid, unexpired token. */
  type Verifier = Token -> Option<Claims>

  /** A registered account; `password` holds the bcrypt hash, never the password itself. */
  datatype User = User(id: nat, username: string, password: string)

  /** A stored direct message; `id` is the record's `_id`, `timestamp` its `Date.now` default. */
  datatype Message = Message(id: nat, sender: string, recipient: string, content: string, timestamp: nat)

  /** The sort key of the history query. */
  function Timestamp(m: Message): int {
    m.timestamp
  }

  /** mongoose's `required: true` on a String path: the value is present and not the empty string. */
  predicate Required(v: Option<string>) {
    Truthy(v)
  }

  /** The fields handed to `new Message({...})`; any of them may be missing. */
  datatype MessageDraft = MessageDraft(sender: Option<string>, recipient: Option<string>, content: Option<string>)

  /** Every record passed validation and carries its position in the log as its id. */
  predicate ValidLog(log: seq<Message>) {
    forall i :: 0 <= i < |log| ==>
      && log[i].id == i
      && log[i].sender != "" && log[i].recipient != "" && log[i].content != ""
  }

  /**
   `new Message(draft).save()` at time `now`: the record appended to `log`, or
   `None` when validation rejects the draft or the write itself fails
   (`available` is false).
   */
  function SaveMessage(log: seq<Message>, d: MessageDraft, now: nat, available: bool): (r: Option<Message>)
    ensures r.Some? <==> available && Required(d.sender) && Required(d.recipient) && Required(d.content)
    ensures r.Some? ==>
      && Some(r.value.sender) == d.sender && Some(r.value.recipient) == d.recipient
      && Some(r.value.content) == d.content
      && r.value.timestamp == now
    ensures r.Some? && ValidLog(log) ==>
      && (forall i :: 0 <= i < |log| ==> log[i].id != r.value.id)
      && ValidLog(log + [r.value])
  {
    if available && Required(d.sender) && Required(d.recipient) && Required(d.content) then
      var m := Message(|log|, d.sender.value, d.recipient.value, d.content.value, now);
      Some(m)
    else
      None
  }

  /** Every account passed validation, sits at its id, and no two share a username. */
  predicate ValidUsers(users: seq<User>) {
    && (forall i :: 0 <= i < |users| ==> users[i].id == i && users[i].username != "" && users[i].password != "")
    && (forall i, j :: 0 <= i < j < |users| ==> users[i].username != users[j].username)
  }

  /** No account before position `i` has `username`. */
  predicate NoneNamedBefore(users: seq<User>, username: string, i: nat)
    requires i <= |users|
  {
    forall j :: 0 <= j < i ==> users[j].username != username
  }

  /** `User.findOne({ username })`: the first account with that username, if any. */
  function FindUser(users: seq<User>, username: string): (r: Option<User>)
    ensures r.None? <==> forall i :: 0 <= i < |users| ==> users[i].username != username
    ensures r.Some? ==> r.value in users && r.value.username == username
    ensures r.Some? ==> exists i :: 0 <= i < |users| && users[i] == r.value && NoneNamedBefore(users, username, i)
    decreases |users|
  {
    if users == [] then None
    else if users[0].username == username then Some(users[0])
    else
      var r := FindUser(users[1..], username);
      assert forall i :: 1 <= i < |users| ==> users[i] == users[1..][i - 1];
      r
  }

  /**
   `new User({ username, password }).save()`: the account appended, or `None`
   when a required field is empty, the username is already taken (the
   `unique` index) or the write fails.
   */
  function SaveUser(users: seq<User>, username: string, hash: string, available: bool): (r: Option<User>)
    ensures r.Some? <==> available && username != "" && hash != "" && FindUser(users, username).None?
    ensures r.Some? ==> r.value.username == username && r.value.password == hash
    ensures r.Some? && ValidUsers(users) ==> ValidUsers(users + [r.value])
  {
    if available && username != "" && hash != "" && FindUser(users, username).None? then
      Some(User(|users|, username, hash))
    else
      None
  }
}
