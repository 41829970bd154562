/**
 The conversation query behind `GET /api/messages/:recipient`
 (backend/server.js:157-162): every message between two users, in either
 direction, sorted by ascending timestamp.
 */
module History {
  import opened Schema
  import Seqs

  /** `m` was sent from `a` to `b` or from `b` to `a`. */
  predicate Between(m: Message, a: string, b: string) {
    (m.sender == a && m.recipient == b) || (m.sender == b && m.recipient == a)
  }

  /** The messages of the conversation between `a` and `b`, in store order. */
  function Conversation(log: seq<Message>, a: string, b: string): seq<Message> {
    Seqs.Filter(m => Between(m, a, b), log)
  }

  /**
   `Message.find({ $or: [{ sender: a, recipient: b }, { sender: b, recipient: a }] })
   .sort({ timestamp: 1 })`: exactly the pair's messages, each as often as it
   is stored, in non-decreasing timestamp order.
   */
  function Query(log: seq<Message>, a: string, b: string): (r: seq<Message>)
    ensures Seqs.SortedBy(Timestamp, r)
    ensures forall m :: multiset(r)[m] == if Between(m, a, b) then multiset(log)[m] else 0
    ensures forall m :: m in r <==> m in log && Between(m, a, b)
  {
    var c := Conversation(log, a, b);
    Seqs.FilterMultiset(m => Between(m, a, b), log);
    var r := Seqs.SortBy(Timestamp, c);
    assert forall m :: m in r <==> multiset(r)[m] > 0;
    assert forall m :: m in log <==> multiset(log)[m] > 0;
    r
  }

  /** The query does not depend on which of the two users asks. */
  lemma QuerySymmetric(log: seq<Message>, a: string, b: string)
    ensures Query(log, a, b) == Query(log, b, a)
  {
    Seqs.FilterCongruent(m => Between(m, a, b), m => Between(m, b, a), log);
  }

  /** Storing a message between `a` and `b` extends their conversation by exactly that message. */
  lemma ConversationAppend(log: seq<Message>, m: Message, a: string, b: string)
    ensures Conversation(log + [m], a, b) ==
      if Between(m, a, b) then Conversation(log, a, b) + [m] else Conversation(log, a, b)
  {
    Seqs.FilterAppend(m => Between(m, a, b), log, [m]);
  }
}
