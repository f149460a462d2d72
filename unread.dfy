/**
 * The unread counter hook: a dictionary sender id -> number of unread messages
 * addressed to the current hospital, recounted from the relation and adjusted by
 * realtime INSERT and UPDATE events. It is independent of the counts that the
 * conversation hook keeps.
 */
module UnreadMessages {
  import opened Base
  import Counts
  import Messages

  /** The INSERT handler's update: a row that arrives with `read_at == null` adds one for its sender. */
  function CountInsert(m: map<string, int>, row: Messages.Message): (r: map<string, int>)
    ensures row.readAt.Some? ==> r == m
    ensures row.readAt.None? ==> row.sender in r && r[row.sender] == (if row.sender in m then m[row.sender] else 0) + 1
    ensures forall j :: j != row.sender ==> (j in r <==> j in m) && (j in r ==> r[j] == m[j])
    ensures Counts.Positive(m) ==> Counts.Positive(r)
    ensures Counts.SumValues(r) == Counts.SumValues(m) + (if row.readAt.None? then 1 else 0)
  {
    if row.readAt.None? then
      Counts.IncrementSum(m, row.sender);
      Counts.Increment(m, row.sender)
    else m
  }

  /** The UPDATE handler's decrement: `max(0, (m[k] || 0) - 1)`, and the key is deleted at 0. */
  function Decrement(m: map<string, int>, k: string): (r: map<string, int>)
    ensures k in m && m[k] > 1 ==> k in r && r[k] == m[k] - 1
    ensures (k in m && m[k] <= 1) || k !in m ==> k !in r
    ensures forall j :: j != k ==> (j in r <==> j in m) && (j in r ==> r[j] == m[j])
    ensures Counts.Positive(m) ==> Counts.Positive(r)
    ensures Counts.Positive(m) ==> Counts.SumValues(r) == Counts.SumValues(m) - (if k in m then 1 else 0)
  {
    var v := if (if k in m then m[k] else 0) - 1 > 0 then (if k in m then m[k] else 0) - 1 else 0;
    DecrementSum(m, k, v);
    if v == 0 then m - {k} else m[k := v]
  }

  lemma DecrementSum(m: map<string, int>, k: string, v: int)
    requires v == if (if k in m then m[k] else 0) - 1 > 0 then (if k in m then m[k] else 0) - 1 else 0
    ensures Counts.Positive(m) ==>
              Counts.SumValues(if v == 0 then m - {k} else m[k := v]) ==
              Counts.SumValues(m) - (if k in m then 1 else 0)
  {
    if Counts.Positive(m) {
      if k in m {
        Counts.SumValuesRemove(m, k);
        if v != 0 {
          Counts.SumValuesUpdate(m, k, v);
        }
      } else {
        assert m - {k} == m;
      }
    }
  }

  /** The UPDATE handler: only a `read_at` transition from null to non-null decrements. */
  predicate BecameRead(beforeReadAt: Option<string>, after: Messages.Message)
    ensures beforeReadAt != Some("") && after.readAt != Some("") ==>
              (BecameRead(beforeReadAt, after) <==> !Truthy(beforeReadAt) && Truthy(after.readAt))
    ensures after.readAt == Some("") ==> (BecameRead(beforeReadAt, after) <==> beforeReadAt.None?)
  {
    beforeReadAt.None? && after.readAt.Some?
  }

  function CountUpdate(m: map<string, int>, beforeReadAt: Option<string>, after: Messages.Message): (r: map<string, int>)
    ensures !BecameRead(beforeReadAt, after) ==> r == m
    ensures BecameRead(beforeReadAt, after) ==> r == Decrement(m, after.sender)
  {
    if BecameRead(beforeReadAt, after) then Decrement(m, after.sender) else m
  }

  /**
   * Although written differently (this one never returns early on a missing key), this
   * decrement and the conversation hook's give the same dictionary on every input.
   */
  lemma DecrementsAgree(m: map<string, int>, k: string)
    ensures Decrement(m, k) == Messages.DecrementUnread(m, k)
  {
    if k !in m {
      assert m - {k} == m;
    }
  }

  /** The counts after a series of INSERT events, in order. */
  function CountInserts(m: map<string, int>, rows: seq<Messages.Message>): map<string, int>
    decreases |rows|
  {
    if rows == [] then m else CountInserts(CountInsert(m, rows[0]), rows[1..])
  }

  /**
   * Receiving k unread messages from `c` raises `c`'s count, and the total, by exactly
   * k, and leaves every other count as it was.
   */
  lemma {:induction false} UnreadInsertsFromOne(m: map<string, int>, c: string, rows: seq<Messages.Message>)
    requires forall i :: 0 <= i < |rows| ==> rows[i].sender == c && rows[i].readAt.None?
    ensures var r := CountInserts(m, rows);
            (c in r <==> c in m || |rows| > 0) &&
            (c in r ==> r[c] == (if c in m then m[c] else 0) + |rows|) &&
            (forall j :: j != c ==> (j in r <==> j in m) && (j in r ==> r[j] == m[j])) &&
            Counts.SumValues(r) == Counts.SumValues(m) + |rows|
    decreases |rows|
  {
    if rows != [] {
      UnreadInsertsFromOne(CountInsert(m, rows[0]), c, rows[1..]);
    }
  }

  /** The state of one instance of the hook. */
  class UnreadCounter {
    /** `currentHospital?.id`; `""` while no hospital is resolved. */
    var current: string
    var byHospital: map<string, int>

    ghost predicate Valid()
      reads this
    {
      Counts.Positive(byHospital)
    }

    constructor (current: string)
      ensures Valid() && this.current == current && byHospital == map[]
    {
      this.current := current;
      byHospital := map[];
    }

    /** `totalUnread`: the sum of the stored counts. */
    ghost function TotalUnread(): (t: int)
      reads this
      requires Valid()
      ensures t >= |byHospital|
      ensures t == 0 <==> byHospital == map[]
    {
      Counts.SumValuesPositive(byHospital);
      Counts.SumValues(byHospital)
    }

    /**
     * `refreshUnread`, given the state of the relation (`None` when the query fails): a
     * no-op without a hospital or on error; otherwise the dictionary is recounted.
     */
    method RefreshUnread(table: Option<seq<Messages.Message>>)
      requires Valid()
      modifies this`byHospital
      ensures Valid()
      ensures current == "" || table.None? ==> byHospital == old(byHospital)
      ensures current != "" && table.Some? ==>
                byHospital == Counts.Tally(Messages.UnreadSenders(table.value, current)) &&
                forall k :: (k in byHospital <==> Messages.UnreadFrom(table.value, current, k) > 0) &&
                            (k in byHospital ==> byHospital[k] == Messages.UnreadFrom(table.value, current, k))
    {
      if current == "" || table.None? {
        return;
      }
      byHospital := Counts.BuildTally(Messages.UnreadSenders(table.value, current));
      Counts.TallyPositive(Messages.UnreadSenders(table.value, current));
      Messages.UnreadCountsMeaning(table.value, current);
    }

    /**
     * Realtime INSERT. The channel exists only with a resolved hospital and is filtered
     * by the backend to rows addressed to it.
     */
    method OnInsert(row: Messages.Message)
      requires Valid()
      modifies this`byHospital
      ensures Valid()
      ensures byHospital == if current != "" && row.recipient == current
                            then CountInsert(old(byHospital), row) else old(byHospital)
    {
      if current != "" && row.recipient == current {
        byHospital := CountInsert(byHospital, row);
      }
    }

    /** Realtime UPDATE, filtered by the backend in the same way. */
    method OnUpdate(beforeReadAt: Option<string>, after: Messages.Message)
      requires Valid()
      modifies this`byHospital
      ensures Valid()
      ensures byHospital == if current != "" && after.recipient == current
                            then CountUpdate(old(byHospital), beforeReadAt, after) else old(byHospital)
    {
      if current != "" && after.recipient == current {
        byHospital := CountUpdate(byHospital, beforeReadAt, after);
      }
    }
  }
}
