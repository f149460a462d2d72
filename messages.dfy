/**
 * The conversation hook of one hospital: the message list of the open conversation
 * and the per-sender unread counts, kept in step with realtime INSERT and UPDATE
 * events, optimistic sends and mark-as-read.
 */
module Messages {
  import opened Base
  import Counts
  import Decimal

  /** `messages_type` of a row. */
  datatype Kind = Text | File | System

  /** A row of the `mensajes` relation (the joined sender name is not modelled). */
  datatype Message = Message(
    id: string,
    sender: string,
    recipient: string,
    content: string,
    kind: Kind,
    createdAt: string,
    readAt: Option<string>)

  /** What a caller hands to `sendMessage`. */
  datatype Outgoing = Outgoing(sender: string, recipient: string, content: string, kind: Kind)

  /** Prefix that marks a locally generated, not yet confirmed id. */
  const TempPrefix: string := "temp-"

  predicate HasId(s: seq<Message>, id: string)
  {
    exists i :: 0 <= i < |s| && s[i].id == id
  }

  /** The list never shows two entries with the same id. */
  predicate NoDuplicateIds(s: seq<Message>)
  {
    forall i, j :: 0 <= i < j < |s| ==> s[i].id != s[j].id
  }

  /** Both lists hold the same ids at the same positions. */
  predicate SameIds(s: seq<Message>, t: seq<Message>)
  {
    |s| == |t| && forall i :: 0 <= i < |s| ==> s[i].id == t[i].id
  }

  /** The INSERT handler's test that a row belongs to the conversation open with `selected`. */
  predicate BelongsToConversation(m: Message, self: string, selected: string)
    ensures BelongsToConversation(m, self, selected) ==>
              selected != "" && (m.sender == self || m.recipient == self) &&
              (m.sender == selected || m.recipient == selected)
    ensures self != selected && BelongsToConversation(m, self, selected) ==> m.sender != m.recipient
  {
    selected != "" &&
    ((m.sender == self && m.recipient == selected) ||
     (m.recipient == self && m.sender == selected))
  }

  /** A row belongs to the open conversation iff its unordered pair of hospitals is {self, selected}. */
  lemma BelongsIffSamePair(m: Message, self: string, selected: string)
    ensures BelongsToConversation(m, self, selected) <==>
            selected != "" && multiset{m.sender, m.recipient} == multiset{self, selected}
  {
  }

  /** Append a realtime row at the tail unless an entry with its id is already shown. */
  function AppendIfAbsent(s: seq<Message>, m: Message): (r: seq<Message>)
    ensures |r| == |s| + (if HasId(s, m.id) then 0 else 1)
    ensures r[..|s|] == s
    ensures |r| > |s| ==> r[|s|] == m
    ensures HasId(r, m.id)
    ensures NoDuplicateIds(s) ==> NoDuplicateIds(r)
  {
    if exists i :: 0 <= i < |s| && s[i].id == m.id then s else s + [m]
  }

  /** The optimistic entry `sendMessage` shows before the backend answers. */
  function Optimistic(out: Outgoing, tempId: string, now: string): (m: Message)
    ensures m.readAt == None && m.id == tempId
  {
    Message(tempId, out.sender, out.recipient, out.content, out.kind, now, None)
  }

  /** Replace every entry carrying `id` by the row the server confirmed. */
  function ReplaceById(s: seq<Message>, id: string, row: Message): (r: seq<Message>)
    ensures |r| == |s|
    ensures forall i :: 0 <= i < |s| && s[i].id != id ==> r[i] == s[i]
    ensures forall i :: 0 <= i < |s| && s[i].id == id ==> r[i] == row
    ensures row.id != id ==> !HasId(r, id)
  {
    seq(|s|, i requires 0 <= i < |s| => if s[i].id == id then row else s[i])
  }

  /** Stamp `readAt` on every entry carrying `id`. */
  function MarkReadById(s: seq<Message>, id: string, readAt: Option<string>): (r: seq<Message>)
    ensures SameIds(s, r)
    ensures forall i :: 0 <= i < |s| && s[i].id != id ==> r[i] == s[i]
    ensures forall i :: 0 <= i < |s| && s[i].id == id ==> r[i] == s[i].(readAt := readAt)
  {
    seq(|s|, i requires 0 <= i < |s| => if s[i].id == id then s[i].(readAt := readAt) else s[i])
  }

  /** The entry is a message from `other` to `self` that is still unread (`read_at === null`). */
  predicate UnreadFromTo(m: Message, other: string, self: string)
  {
    m.sender == other && m.recipient == self && m.readAt.None?
  }

  /** The local half of `markAsRead`: stamp every unread message from `other` to `self`. */
  function MarkConversationRead(s: seq<Message>, self: string, other: string, now: string): (r: seq<Message>)
    ensures SameIds(s, r)
    ensures forall i :: 0 <= i < |s| && !UnreadFromTo(s[i], other, self) ==> r[i] == s[i]
    ensures forall i :: 0 <= i < |s| && UnreadFromTo(s[i], other, self) ==> r[i] == s[i].(readAt := Some(now))
  {
    seq(|s|, i requires 0 <= i < |s| =>
      if UnreadFromTo(s[i], other, self) then s[i].(readAt := Some(now)) else s[i])
  }

  /**
   * The UPDATE handler's decrement: a sender without a count stays absent; otherwise
   * the count becomes max(0, v - 1) and the key is deleted when that is 0.
   */
  function DecrementUnread(m: map<string, int>, k: string): (r: map<string, int>)
    ensures k !in m ==> r == m
    ensures k in m && m[k] > 1 ==> k in r && r[k] == m[k] - 1
    ensures k in m && m[k] <= 1 ==> k !in r
    ensures forall j :: j != k ==> (j in r <==> j in m)
    ensures forall j :: j != k && j in r ==> r[j] == m[j]
    ensures Counts.Positive(m) ==> Counts.Positive(r)
  {
    if k !in m then m
    else
      var v := if m[k] - 1 > 0 then m[k] - 1 else 0;
      if v == 0 then m - {k} else m[k := v]
  }

  /** Whether a row is one the unread query returns: addressed to `me`, `read_at` null. */
  predicate UnreadFor(m: Message, me: string)
  {
    m.recipient == me && m.readAt.None?
  }

  /** Sender ids of the rows of `table` that the unread query returns, in table order. */
  function UnreadSenders(table: seq<Message>, me: string): seq<string>
    decreases |table|
  {
    if table == [] then []
    else
      var init := UnreadSenders(table[..|table| - 1], me);
      var last := table[|table| - 1];
      if UnreadFor(last, me) then init + [last.sender] else init
  }

  /** Number of unread rows from `k` to `me` in `table`. */
  function UnreadFrom(table: seq<Message>, me: string, k: string): nat
    decreases |table|
  {
    if table == [] then 0
    else
      var last := table[|table| - 1];
      UnreadFrom(table[..|table| - 1], me, k) + (if UnreadFor(last, me) && last.sender == k then 1 else 0)
  }

  /** The sender list of the unread query counts each sender as often as it has unread rows. */
  lemma {:induction false} UnreadSendersCount(table: seq<Message>, me: string, k: string)
    ensures Counts.Occurrences(UnreadSenders(table, me), k) == UnreadFrom(table, me, k)
    decreases |table|
  {
    if table != [] {
      var init := table[..|table| - 1];
      UnreadSendersCount(init, me, k);
      var s := UnreadSenders(init, me);
      var last := table[|table| - 1];
      if UnreadFor(last, me) {
        assert (s + [last.sender])[..|s|] == s;
      }
    }
  }

  /** The per-sender count map `fetchUnreadCounts` computes from the state of the relation. */
  lemma UnreadCountsMeaning(table: seq<Message>, me: string)
    ensures forall k :: k in Counts.Tally(UnreadSenders(table, me)) <==> UnreadFrom(table, me, k) > 0
    ensures forall k :: k in Counts.Tally(UnreadSenders(table, me)) ==>
              Counts.Tally(UnreadSenders(table, me))[k] == UnreadFrom(table, me, k)
    ensures Counts.SumValues(Counts.Tally(UnreadSenders(table, me))) == |UnreadSenders(table, me)|
  {
    Counts.TallyCounts(UnreadSenders(table, me));
    Counts.TallySum(UnreadSenders(table, me));
    forall k ensures Counts.Occurrences(UnreadSenders(table, me), k) == UnreadFrom(table, me, k) {
      UnreadSendersCount(table, me, k);
    }
  }

  /** Replacing an id that is not shown changes nothing. */
  lemma ReplaceAbsent(s: seq<Message>, id: string, row: Message)
    requires !HasId(s, id)
    ensures ReplaceById(s, id, row) == s
  {
  }

  /**
   * Sending while `s` is shown puts the optimistic entry at position |s|, and the
   * confirmation replaces it there: the list becomes `s + [row]`, not `s + [row, ...]`.
   */
  lemma OptimisticConfirmedInPlace(s: seq<Message>, out: Outgoing, tempId: string, now: string, row: Message)
    requires !HasId(s, tempId)
    ensures var shown := s + [Optimistic(out, tempId, now)];
            |shown| == |s| + 1 && shown[|s|].id == tempId &&
            ReplaceById(shown, tempId, row) == s + [row]
  {
    var shown := s + [Optimistic(out, tempId, now)];
    var r := ReplaceById(shown, tempId, row);
    assert forall i :: 0 <= i < |s| ==> shown[i] == s[i] && s[i].id != tempId;
    assert r[|s|] == row;
    assert forall i :: 0 <= i < |s| ==> r[i] == s[i];
  }

  /** When the confirmed row's id is new, confirmation keeps the list free of duplicate ids. */
  lemma ReplaceKeepsNoDuplicates(s: seq<Message>, id: string, row: Message)
    requires NoDuplicateIds(s)
    requires !HasId(s, row.id)
    ensures NoDuplicateIds(ReplaceById(s, id, row))
  {
    var r := ReplaceById(s, id, row);
    forall i, j | 0 <= i < j < |r| ensures r[i].id != r[j].id {
      if s[i].id == id && s[j].id == id {
        assert false;
      }
    }
  }

  /** Stamping `read_at` twice with the same value is stamping once. */
  lemma MarkReadByIdIdempotent(s: seq<Message>, id: string, readAt: Option<string>)
    ensures MarkReadById(MarkReadById(s, id, readAt), id, readAt) == MarkReadById(s, id, readAt)
  {
  }

  /** After `markAsRead` no unread message from `other` to `self` remains, and a second call changes nothing. */
  lemma MarkConversationReadComplete(s: seq<Message>, self: string, other: string, now: string)
    ensures var r := MarkConversationRead(s, self, other, now);
            (forall i :: 0 <= i < |r| ==> !UnreadFromTo(r[i], other, self)) &&
            MarkConversationRead(r, self, other, now) == r
  {
    var r := MarkConversationRead(s, self, other, now);
    var r2 := MarkConversationRead(r, self, other, now);
    assert forall i :: 0 <= i < |r| ==> !UnreadFromTo(r[i], other, self);
    assert forall i :: 0 <= i < |r| ==> r2[i] == r[i];
  }

  // The realtime echo of one's own send can arrive before the insert returns.

  /**
   * As written: when the INSERT event of a sent message arrives before the insert
   * response, the echo is appended (its id differs from the temporary one) and the
   * confirmation then turns the temporary entry into a second copy of the same row.
   */
  lemma EchoBeforeConfirmDuplicates(s: seq<Message>, out: Outgoing, tempId: string, now: string, row: Message)
    requires !HasId(s, row.id) && row.id != tempId
    ensures var echoed := AppendIfAbsent(s + [Optimistic(out, tempId, now)], row);
            var confirmed := ReplaceById(echoed, tempId, row);
            |confirmed| == |s| + 2 && confirmed[|s|] == row && confirmed[|s| + 1] == row &&
            !NoDuplicateIds(confirmed)
  {
    var shown := s + [Optimistic(out, tempId, now)];
    HasIdConcat(s, [Optimistic(out, tempId, now)], row.id);
    var echoed := AppendIfAbsent(shown, row);
    assert echoed == shown + [row];
    assert echoed[|s|].id == tempId && echoed[|s| + 1] == row;
  }

  /** An id is shown in `s + t` iff it is shown in `s` or in `t`. */
  lemma HasIdConcat(s: seq<Message>, t: seq<Message>, id: string)
    ensures HasId(s + t, id) <==> HasId(s, id) || HasId(t, id)
  {
    if HasId(s + t, id) {
      var i :| 0 <= i < |s + t| && (s + t)[i].id == id;
      if i < |s| {
        assert s[i] == (s + t)[i];
      } else {
        assert t[i - |s|] == (s + t)[i];
      }
    }
    if HasId(s, id) {
      var i :| 0 <= i < |s| && s[i].id == id;
      assert (s + t)[i] == s[i];
    }
    if HasId(t, id) {
      var i :| 0 <= i < |t| && t[i].id == id;
      assert (s + t)[|s| + i] == t[i];
    }
  }

  /** Drop every entry carrying `id`. */
  function RemoveById(s: seq<Message>, id: string): (r: seq<Message>)
    ensures !HasId(r, id)
    ensures !HasId(s, id) ==> r == s
    decreases |s|
  {
    if s == [] then []
    else
      var rest := RemoveById(s[1..], id);
      assert forall i :: 1 <= i < |s| ==> s[i] == s[1..][i - 1];
      (if s[0].id == id then [] else [s[0]]) + rest
  }

  /** Dropping keeps exactly the entries that do not carry the id. */
  lemma {:induction false} RemoveByIdMembers(s: seq<Message>, id: string)
    ensures forall i :: 0 <= i < |RemoveById(s, id)| ==> RemoveById(s, id)[i] in s
    ensures forall i :: 0 <= i < |s| && s[i].id != id ==> s[i] in RemoveById(s, id)
    decreases |s|
  {
    if s != [] {
      RemoveByIdMembers(s[1..], id);
      assert forall i :: 1 <= i < |s| ==> s[i] == s[1..][i - 1];
    }
  }

  /** Dropping entries keeps ids distinct. */
  lemma {:induction false} RemoveByIdKeepsNoDuplicates(s: seq<Message>, id: string)
    requires NoDuplicateIds(s)
    ensures NoDuplicateIds(RemoveById(s, id))
    decreases |s|
  {
    if s != [] {
      var tail := s[1..];
      assert NoDuplicateIds(tail) by {
        assert forall i :: 0 <= i < |tail| ==> tail[i] == s[i + 1];
      }
      RemoveByIdKeepsNoDuplicates(tail, id);
      var rest := RemoveById(tail, id);
      if s[0].id != id {
        assert !HasId(tail, s[0].id) by {
          forall k | 0 <= k < |tail| ensures tail[k].id != s[0].id {
            assert tail[k] == s[k + 1];
          }
        }
        RemoveByIdIds(tail, id, s[0].id);
        NoDuplicatesCons(s[0], rest);
      } else {
        assert RemoveById(s, id) == [] + rest == rest;
      }
    }
  }

  /** Dropping entries shows no id that was not shown before. */
  lemma {:induction false} RemoveByIdIds(s: seq<Message>, id: string, x: string)
    ensures HasId(RemoveById(s, id), x) ==> HasId(s, x)
    decreases |s|
  {
    if s != [] {
      var head := if s[0].id == id then [] else [s[0]];
      RemoveByIdIds(s[1..], id, x);
      HasIdConcat(head, RemoveById(s[1..], id), x);
      assert s == [s[0]] + s[1..];
      HasIdConcat([s[0]], s[1..], x);
      if head != [] {
        assert head[0] == [s[0]][0];
      }
    }
  }

  /** An entry whose id the rest does not carry can lead a list of distinct ids. */
  lemma NoDuplicatesCons(x: Message, t: seq<Message>)
    requires NoDuplicateIds(t) && !HasId(t, x.id)
    ensures NoDuplicateIds([x] + t)
  {
    var r := [x] + t;
    assert forall j :: 1 <= j < |r| ==> r[j] == t[j - 1];
  }

  /**
   * Corrected confirmation: when the confirmed row is already shown (its echo came
   * first), the temporary entry is dropped instead of being turned into a copy.
   */
  function ConfirmSend(s: seq<Message>, tempId: string, row: Message): (r: seq<Message>)
    ensures row.id != tempId ==> !HasId(r, tempId)
    ensures row.id != tempId && (HasId(s, row.id) || HasId(s, tempId)) ==> HasId(r, row.id)
    ensures !HasId(s, tempId) ==> r == s
  {
    if HasId(s, row.id) then
      RemoveByIdMembers(s, tempId);
      RemoveById(s, tempId)
    else ReplaceById(s, tempId, row)
  }

  /** The corrected confirmation never introduces a duplicate id. */
  lemma ConfirmSendKeepsNoDuplicates(s: seq<Message>, tempId: string, row: Message)
    requires NoDuplicateIds(s)
    ensures NoDuplicateIds(ConfirmSend(s, tempId, row))
  {
    if HasId(s, row.id) {
      RemoveByIdKeepsNoDuplicates(s, tempId);
    } else {
      ReplaceKeepsNoDuplicates(s, tempId, row);
    }
  }

  /** With the corrected confirmation, an echo that came first leaves the list as `s + [row]`. */
  lemma ConfirmAfterEcho(s: seq<Message>, out: Outgoing, tempId: string, now: string, row: Message)
    requires !HasId(s, row.id) && !HasId(s, tempId) && row.id != tempId
    ensures ConfirmSend(AppendIfAbsent(s + [Optimistic(out, tempId, now)], row), tempId, row) == s + [row]
  {
    var opt := Optimistic(out, tempId, now);
    HasIdConcat(s, [opt], row.id);
    var echoed := AppendIfAbsent(s + [opt], row);
    assert echoed == s + [opt, row];
    HasIdConcat(s, [opt, row], row.id);
    assert [opt, row][1].id == row.id;
    RemoveByIdConcat(s, [opt, row], tempId);
    assert [opt, row][1..] == [row];
    assert RemoveById([row], tempId) == [row];
    assert RemoveById([opt, row], tempId) == [row];
  }

  /** With the corrected confirmation, an echo that comes after the response changes nothing more. */
  lemma EchoAfterConfirm(s: seq<Message>, out: Outgoing, tempId: string, now: string, row: Message)
    requires !HasId(s, row.id) && !HasId(s, tempId) && row.id != tempId
    ensures AppendIfAbsent(ConfirmSend(s + [Optimistic(out, tempId, now)], tempId, row), row) == s + [row]
  {
    var opt := Optimistic(out, tempId, now);
    HasIdConcat(s, [opt], row.id);
    OptimisticConfirmedInPlace(s, out, tempId, now, row);
    HasIdConcat(s, [row], row.id);
    assert [row][0].id == row.id;
  }

  /** Dropping distributes over concatenation. */
  lemma {:induction false} RemoveByIdConcat(s: seq<Message>, t: seq<Message>, id: string)
    ensures RemoveById(s + t, id) == RemoveById(s, id) + RemoveById(t, id)
    decreases |s|
  {
    if s == [] {
      assert s + t == t;
    } else {
      assert (s + t)[0] == s[0];
      assert (s + t)[1..] == s[1..] + t;
      RemoveByIdConcat(s[1..], t, id);
    }
  }

  // Two sends in the same millisecond get the same temporary id.

  /**
   * As written: `temp-${Date.now()}` repeats within a millisecond, so confirming the
   * first of two such sends replaces both optimistic entries by its row, and the second
   * message disappears from the list until a refetch.
   */
  lemma SameStampSendsCollide(s: seq<Message>, first: Outgoing, second: Outgoing, stamp: string, now: string, row: Message)
    requires row.id != TempPrefix + stamp
    ensures var tempId := TempPrefix + stamp;
            var shown := s + [Optimistic(first, tempId, now), Optimistic(second, tempId, now)];
            var confirmed := ReplaceById(shown, tempId, row);
            confirmed[|s|] == row && confirmed[|s| + 1] == row && !NoDuplicateIds(confirmed) &&
            !HasId(confirmed, tempId)
  {
  }

  /** Corrected temporary id: numbered by the hook's count of sends instead of the clock. */
  function TempIdFor(sends: nat): (id: string)
    ensures |id| > |TempPrefix| && id[..|TempPrefix|] == TempPrefix
  {
    TempPrefix + Decimal.DecimalString(sends)
  }

  /** Different sends get different temporary ids. */
  lemma TempIdsDistinct(a: nat, b: nat)
    requires a != b
    ensures TempIdFor(a) != TempIdFor(b)
  {
    if TempIdFor(a) == TempIdFor(b) {
      assert TempIdFor(a)[|TempPrefix|..] == Decimal.DecimalString(a);
      assert TempIdFor(b)[|TempPrefix|..] == Decimal.DecimalString(b);
      Decimal.DecimalStringInjective(a, b);
    }
  }

  /** With distinct temporary ids, confirming the first send leaves the second one's entry alone. */
  lemma DistinctTempIdsConfirmSeparately(s: seq<Message>, first: Outgoing, second: Outgoing, a: nat, b: nat, now: string, row: Message)
    requires a != b && !HasId(s, TempIdFor(a)) && !HasId(s, row.id)
    requires row.id != TempIdFor(a) && row.id != TempIdFor(b)
    ensures var shown := s + [Optimistic(first, TempIdFor(a), now), Optimistic(second, TempIdFor(b), now)];
            ConfirmSend(shown, TempIdFor(a), row) == s + [row, Optimistic(second, TempIdFor(b), now)]
  {
    TempIdsDistinct(a, b);
    var o1 := Optimistic(first, TempIdFor(a), now);
    var o2 := Optimistic(second, TempIdFor(b), now);
    var shown := s + [o1, o2];
    HasIdConcat(s, [o1, o2], row.id);
    assert !HasId([o1, o2], row.id);
    var r := ReplaceById(shown, TempIdFor(a), row);
    assert forall i :: 0 <= i < |s| ==> shown[i] == s[i] && s[i].id != TempIdFor(a);
    assert r == s + [row, o2];
  }

  /** The state one instance of the hook holds. */
  class MessageStore {
    /** `currentHospital?.id`; `""` while no hospital is resolved. */
    var current: string
    /** `selectedHospitalId`; `""` when no conversation is open. */
    var selected: string
    var messages: seq<Message>
    var unreadCountMap: map<string, int>
    var messagesLoading: bool

    /** Stored counts are always at least one. */
    ghost predicate Valid()
      reads this
    {
      Counts.Positive(unreadCountMap)
    }

    constructor (current: string, selected: string)
      ensures Valid()
      ensures this.current == current && this.selected == selected
      ensures messages == [] && unreadCountMap == map[] && !messagesLoading
    {
      this.current := current;
      this.selected := selected;
      messages := [];
      unreadCountMap := map[];
      messagesLoading := false;
    }

    /**
     * `fetchMessages`: without a counterparty or a resolved hospital nothing happens; a
     * failed query leaves the list as it was; a successful one replaces it by the rows.
     */
    method FetchMessages(hospitalId: string, result: Option<seq<Message>>)
      modifies this`messages, this`messagesLoading
      ensures hospitalId == "" || current == "" ==>
                messages == old(messages) && messagesLoading == old(messagesLoading)
      ensures hospitalId != "" && current != "" ==>
                !messagesLoading &&
                messages == (if result.Some? then result.value else old(messages))
    {
      if hospitalId == "" || current == "" {
        return;
      }
      messagesLoading := true;
      if result.Some? {
        messages := result.value;
      }
      messagesLoading := false;
    }

    /** Realtime INSERT. There is no channel while no hospital is resolved. */
    method OnInsert(m: Message)
      modifies this`messages
      ensures messages == if current != "" && BelongsToConversation(m, current, selected)
                          then AppendIfAbsent(old(messages), m) else old(messages)
      ensures NoDuplicateIds(old(messages)) ==> NoDuplicateIds(messages)
    {
      if current != "" && BelongsToConversation(m, current, selected) {
        messages := AppendIfAbsent(messages, m);
      }
    }

    /** Realtime UPDATE, which acts only on a `read_at` transition from falsy to truthy. */
    method OnUpdate(beforeReadAt: Option<string>, after: Message)
      requires Valid()
      modifies this`messages, this`unreadCountMap
      ensures Valid()
      ensures var becameRead := current != "" && !Truthy(beforeReadAt) && Truthy(after.readAt);
              messages == (if becameRead then MarkReadById(old(messages), after.id, after.readAt)
                           else old(messages)) &&
              unreadCountMap == (if becameRead && after.recipient == current
                                 then DecrementUnread(old(unreadCountMap), after.sender)
                                 else old(unreadCountMap))
      ensures SameIds(old(messages), messages)
    {
      if current == "" || Truthy(beforeReadAt) || !Truthy(after.readAt) {
        return;
      }
      messages := MarkReadById(messages, after.id, after.readAt);
      if after.recipient == current {
        unreadCountMap := DecrementUnread(unreadCountMap, after.sender);
      }
    }

    /** The synchronous half of `sendMessage`: the optimistic entry goes to the tail. */
    method BeginSend(out: Outgoing, stamp: string, now: string) returns (tempId: string)
      modifies this`messages
      ensures tempId == TempPrefix + stamp
      ensures messages == old(messages) + [Optimistic(out, tempId, now)]
    {
      tempId := TempPrefix + stamp;
      messages := messages + [Optimistic(out, tempId, now)];
    }

    /**
     * The half of `sendMessage` after the insert returns: on success the entry with the
     * temporary id is replaced in place; on failure the list keeps it and the error is returned.
     */
    method CompleteSend(tempId: string, result: Result<Message>) returns (r: Result<Message>)
      modifies this`messages
      ensures r == result
      ensures messages == if result.Ok? then ReplaceById(old(messages), tempId, result.value)
                          else old(messages)
    {
      if result.Ok? {
        messages := ReplaceById(messages, tempId, result.value);
      }
      r := result;
    }

    /**
     * `markAsRead(other)`: a no-op without a hospital or a counterparty, and when the
     * backend update fails; otherwise the unread messages from `other` are stamped and
     * the count of `other` is deleted.
     */
    method MarkAsRead(other: string, now: string, backendOk: bool)
      requires Valid()
      modifies this`messages, this`unreadCountMap
      ensures Valid()
      ensures current == "" || other == "" || !backendOk ==>
                messages == old(messages) && unreadCountMap == old(unreadCountMap)
      ensures current != "" && other != "" && backendOk ==>
                messages == MarkConversationRead(old(messages), current, other, now) &&
                unreadCountMap == old(unreadCountMap) - {other}
    {
      if current == "" || other == "" || !backendOk {
        return;
      }
      messages := MarkConversationRead(messages, current, other, now);
      unreadCountMap := unreadCountMap - {other};
    }

    /**
     * `fetchUnreadCounts`, given the state of the relation (`None` when the query fails):
     * the map is rebuilt from the unread rows addressed to this hospital.
     */
    method FetchUnreadCounts(table: Option<seq<Message>>)
      requires Valid()
      modifies this`unreadCountMap
      ensures Valid()
      ensures current == "" || table.None? ==> unreadCountMap == old(unreadCountMap)
      ensures current != "" && table.Some? ==>
                unreadCountMap == Counts.Tally(UnreadSenders(table.value, current)) &&
                forall k :: (k in unreadCountMap <==> UnreadFrom(table.value, current, k) > 0) &&
                            (k in unreadCountMap ==> unreadCountMap[k] == UnreadFrom(table.value, current, k))
    {
      if current == "" || table.None? {
        return;
      }
      unreadCountMap := Counts.BuildTally(UnreadSenders(table.value, current));
      Counts.TallyPositive(UnreadSenders(table.value, current));
      UnreadCountsMeaning(table.value, current);
    }
  }
}
