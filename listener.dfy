/**
 * The global message listener: on every realtime INSERT that involves the current
 * hospital, the counterparty moves to the front of the persisted conversation order,
 * and then the `conversationOrderUpdated` event is dispatched.
 */
module MessageListener {
  import Seqs
  import Messages

  /** The name of the event dispatched after the order is persisted. */
  const OrderUpdatedEvent: string := "conversationOrderUpdated"

  /** Observable effects of the handler, in the order they happen. */
  datatype Effect = Persisted(order: seq<string>) | Dispatched(event: string)

  /** A row involves `self` when it is the sender or the recipient. */
  predicate IsRelevant(m: Messages.Message, self: string)
    ensures IsRelevant(m, self) <==> self in {m.sender, m.recipient}
  {
    m.sender == self || m.recipient == self
  }

  /** The other hospital of the conversation. */
  function Counterparty(m: Messages.Message, self: string): (other: string)
    ensures m.sender == self ==> other == m.recipient
    ensures m.sender != self ==> other == m.sender
    ensures IsRelevant(m, self) ==> {other, self} == {m.sender, m.recipient}
  {
    if m.sender == self then m.recipient else m.sender
  }

  /** `[id, ...order.filter(x => x !== id)]`. */
  function BumpToFront(order: seq<string>, id: string): (r: seq<string>)
    ensures |r| >= 1 && r[0] == id
    ensures id !in r[1..]
    ensures r[1..] == Seqs.RemoveAll(order, id)
    ensures |r| <= |order| + 1
    ensures forall i :: 0 <= i < |order| ==> order[i] in r
    ensures forall i :: 0 <= i < |r| ==> r[i] == id || r[i] in order
  {
    [id] + Seqs.RemoveAll(order, id)
  }

  /** The ids after the bump are the old ones plus the counterparty. */
  lemma BumpToFrontIds(order: seq<string>, id: string)
    ensures (set x | x in BumpToFront(order, id)) == (set x | x in order) + {id}
  {
  }

  /** Bumping the same id twice gives the order of bumping it once. */
  lemma BumpToFrontIdempotent(order: seq<string>, id: string)
    ensures BumpToFront(BumpToFront(order, id), id) == BumpToFront(order, id)
  {
    var r := BumpToFront(order, id);
    assert r == [id] + r[1..];
    Seqs.RemoveAllAbsent(r[1..], id);
    assert Seqs.RemoveAll(r, id) == Seqs.RemoveAll(r[1..], id);
  }

  /** The others keep their relative order, and a duplicate-free order stays duplicate-free. */
  lemma BumpToFrontKeepsOrder(order: seq<string>, id: string)
    ensures Seqs.IsSubsequence(BumpToFront(order, id)[1..], order)
    ensures Seqs.NoDuplicates(order) ==> Seqs.NoDuplicates(BumpToFront(order, id))
  {
    Seqs.RemoveAllIsSubsequence(order, id);
    if Seqs.NoDuplicates(order) {
      var rest := Seqs.RemoveAll(order, id);
      Seqs.RemoveAllNoDuplicates(order, id);
      var r := [id] + rest;
      forall i, j | 0 <= i < j < |r| ensures r[i] != r[j] {
        assert r[j] == rest[j - 1];
        if i > 0 {
          assert r[i] == rest[i - 1];
        }
      }
    }
  }

  /** The persisted `conversationOrder` key and the effects the handler has produced. */
  class ConversationLedger {
    /** The identity of the listening hospital. */
    const self: string
    /** The parsed value stored under `conversationOrder` (`[]` when the key is absent). */
    var order: seq<string>
    /** Every write and dispatch so far, oldest first. */
    var effects: seq<Effect>

    constructor (self: string, order: seq<string>)
      ensures this.self == self && this.order == order && effects == []
    {
      this.self := self;
      this.order := order;
      effects := [];
    }

    /**
     * The INSERT handler: an irrelevant row changes nothing; otherwise the new order
     * is persisted and only then the event is dispatched.
     */
    method Handle(m: Messages.Message)
      modifies this`order, this`effects
      ensures !IsRelevant(m, self) ==> order == old(order) && effects == old(effects)
      ensures IsRelevant(m, self) ==>
                order == BumpToFront(old(order), Counterparty(m, self)) &&
                effects == old(effects) + [Persisted(order), Dispatched(OrderUpdatedEvent)]
    {
      if !IsRelevant(m, self) {
        return;
      }
      var other := Counterparty(m, self);
      var updated := BumpToFront(order, other);
      order := updated;
      effects := effects + [Persisted(updated)];
      effects := effects + [Dispatched(OrderUpdatedEvent)];
    }
  }
}
