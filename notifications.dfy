/**
 * The notification hook: a newest-first list of at most 20 medication request and
 * offer notifications, their read flags, and the ids persisted as read.
 */
module Notifications {
  import opened Base

  datatype NotificationType = Request | Offer

  /** A notification as the hook keeps it. */
  datatype Notification = Notification(
    id: string,
    kind: NotificationType,
    title: string,
    message: string,
    hospitalName: string,
    medicationName: string,
    urgency: Option<string>,
    timestamp: string,
    relatedId: Option<string>,
    isRead: bool)

  /** A row of the `notifications` relation. */
  datatype NotificationRow = NotificationRow(
    id: string,
    kind: NotificationType,
    title: string,
    message: string,
    hospitalName: string,
    medicationName: string,
    urgency: Option<string>,
    createdAt: string,
    relatedId: Option<string>)

  /** The list keeps at most this many notifications. */
  const MaxNotifications: nat := 20

  /** `refreshNotifications` asks for at most this many rows (`.limit(10)`). */
  const FetchLimit: nat := 10

  function Min(a: int, b: int): int
  {
    if a <= b then a else b
  }

  function Ids(list: seq<Notification>): (r: seq<string>)
    ensures |r| == |list| && forall i :: 0 <= i < |list| ==> r[i] == list[i].id
  {
    seq(|list|, i requires 0 <= i < |list| => list[i].id)
  }

  predicate HasId(list: seq<Notification>, id: string)
  {
    exists i :: 0 <= i < |list| && list[i].id == id
  }

  predicate NoDuplicateIds(list: seq<Notification>)
  {
    forall i, j :: 0 <= i < j < |list| ==> list[i].id != list[j].id
  }

  /** `addNotification`'s list update: a known id changes nothing, a new one is prepended and the list cut to 20. */
  function Add(list: seq<Notification>, n: Notification): (r: seq<Notification>)
    ensures HasId(list, n.id) ==> r == list
    ensures !HasId(list, n.id) ==>
              |r| == Min(|list| + 1, MaxNotifications) && r[0] == n &&
              r[1..] == list[..Min(|list|, MaxNotifications - 1)]
    ensures NoDuplicateIds(list) ==> NoDuplicateIds(r)
    ensures |list| <= MaxNotifications ==> |r| <= MaxNotifications
  {
    if exists i :: 0 <= i < |list| && list[i].id == n.id then list
    else
      var kept := list[..Min(|list|, MaxNotifications - 1)];
      assert forall i :: 0 <= i < |kept| ==> kept[i] == list[i];
      [n] + kept
  }

  /** `markAsRead`'s list update: every entry read, nothing else changed. */
  function MarkAll(list: seq<Notification>): (r: seq<Notification>)
    ensures |r| == |list|
    ensures Ids(r) == Ids(list)
    ensures forall i :: 0 <= i < |list| ==> r[i] == list[i].(isRead := true)
  {
    seq(|list|, i requires 0 <= i < |list| => list[i].(isRead := true))
  }

  /** `notifications.filter(n => !n.isRead).length`. */
  function UnreadCount(list: seq<Notification>): (k: nat)
    ensures k <= |list|
    decreases |list|
  {
    if list == [] then 0 else (if list[0].isRead then 0 else 1) + UnreadCount(list[1..])
  }

  /** The unread count never exceeds the length, and is zero exactly when every entry is read. */
  lemma {:induction false} UnreadCountBounds(list: seq<Notification>)
    ensures UnreadCount(list) <= |list|
    ensures UnreadCount(list) == 0 <==> forall i :: 0 <= i < |list| ==> list[i].isRead
    decreases |list|
  {
    if list != [] {
      UnreadCountBounds(list[1..]);
      assert forall i :: 1 <= i < |list| ==> list[i] == list[1..][i - 1];
    }
  }

  /** Immediately after `markAsRead` nothing is unread. */
  lemma MarkAllLeavesNoneUnread(list: seq<Notification>)
    ensures UnreadCount(MarkAll(list)) == 0
  {
    UnreadCountBounds(MarkAll(list));
  }

  /** A notification built from a row, read exactly when its id was persisted as read. */
  function FromRow(row: NotificationRow, readIds: seq<string>): (n: Notification)
    ensures n.id == row.id && (n.isRead <==> row.id in readIds)
  {
    Notification(row.id, row.kind, row.title, row.message, row.hospitalName,
                 row.medicationName, row.urgency, row.createdAt, row.relatedId, row.id in readIds)
  }

  /** Row ids are the relation's primary key, so a query never returns one twice. */
  predicate DistinctRowIds(rows: seq<NotificationRow>)
  {
    forall i, j :: 0 <= i < j < |rows| ==> rows[i].id != rows[j].id
  }

  /** `refreshNotifications`' mapping of the fetched rows. */
  function Format(rows: seq<NotificationRow>, readIds: seq<string>): (r: seq<Notification>)
    ensures |r| == |rows|
    ensures forall i :: 0 <= i < |rows| ==> r[i] == FromRow(rows[i], readIds)
  {
    seq(|rows|, i requires 0 <= i < |rows| => FromRow(rows[i], readIds))
  }

  /**
   * What `markAsRead` persists is what a later refresh reads back: a fetched row is
   * read exactly when it was in the list at the time of the mark.
   */
  lemma MarkedIdsComeBackRead(list: seq<Notification>, rows: seq<NotificationRow>)
    ensures forall i :: 0 <= i < |rows| ==>
              (Format(rows, Ids(list))[i].isRead <==> HasId(list, rows[i].id))
  {
    forall i | 0 <= i < |rows| ensures Format(rows, Ids(list))[i].isRead <==> HasId(list, rows[i].id) {
      if HasId(list, rows[i].id) {
        var j :| 0 <= j < |list| && list[j].id == rows[i].id;
        assert Ids(list)[j] == rows[i].id;
      }
    }
  }

  /** The hook's state and the browser storage key it writes. */
  class NotificationStore {
    /** Whether a user is signed in (read by each callback at the time it runs). */
    var user: bool
    /**
     * `clearNotifications` is memoised with an empty dependency list, so the user it
     * tests is the one of the first render.
     */
    const userAtFirstRender: bool
    var notifications: seq<Notification>
    var lastUpdate: int
    /** The parsed value stored under `readNotificationIds`, `None` when the key is absent. */
    var storedReadIds: Option<seq<string>>

    /** The list holds at most 20 notifications, no two with the same id. */
    ghost predicate Valid()
      reads this
    {
      |notifications| <= MaxNotifications && NoDuplicateIds(notifications)
    }

    constructor (user: bool, storedReadIds: Option<seq<string>>)
      ensures Valid()
      ensures this.user == user && userAtFirstRender == user
      ensures this.storedReadIds == storedReadIds
      ensures notifications == [] && lastUpdate == 0
    {
      this.user := user;
      userAtFirstRender := user;
      this.storedReadIds := storedReadIds;
      notifications := [];
      lastUpdate := 0;
    }

    /** `unreadCount` as the hook returns it. */
    function Unread(): (k: nat)
      reads this
      ensures k <= |notifications|
    {
      UnreadCountBounds(notifications);
      UnreadCount(notifications)
    }

    /** `addNotification` (the browser notification it also shows is not modelled). */
    method AddNotification(data: Notification, now: int)
      requires Valid()
      modifies this`notifications, this`lastUpdate
      ensures Valid()
      ensures notifications == Add(old(notifications), data)
      ensures lastUpdate == now
      ensures NoDuplicateIds(old(notifications)) ==> NoDuplicateIds(notifications)
    {
      notifications := Add(notifications, data);
      lastUpdate := now;
    }

    /** `clearNotifications`: empties the list when the first render had a user. */
    method ClearNotifications(now: int)
      requires Valid()
      modifies this`notifications, this`lastUpdate
      ensures Valid()
      ensures !userAtFirstRender ==> notifications == old(notifications) && lastUpdate == old(lastUpdate)
      ensures userAtFirstRender ==> notifications == [] && lastUpdate == now
    {
      if !userAtFirstRender {
        return;
      }
      notifications := [];
      lastUpdate := now;
    }

    /** `markAsRead`: persists the ids in list order, then marks every entry read. */
    method MarkAsRead(now: int)
      requires Valid()
      modifies this`notifications, this`lastUpdate, this`storedReadIds
      ensures Valid()
      ensures !user ==> notifications == old(notifications) && lastUpdate == old(lastUpdate) &&
                        storedReadIds == old(storedReadIds)
      ensures user ==> storedReadIds == Some(Ids(old(notifications))) &&
                       notifications == MarkAll(old(notifications)) &&
                       lastUpdate == now && UnreadCount(notifications) == 0
    {
      if !user {
        return;
      }
      storedReadIds := Some(Ids(notifications));
      notifications := MarkAll(notifications);
      MarkAllLeavesNoneUnread(old(notifications));
      assert forall i :: 0 <= i < |notifications| ==> notifications[i].id == old(notifications)[i].id;
      lastUpdate := now;
    }

    /**
     * `refreshNotifications`, given the fetched rows (`None` when the query fails):
     * each row becomes a notification that is read iff its id is stored as read.
     */
    method RefreshNotifications(result: Option<seq<NotificationRow>>, now: int)
      requires Valid()
      requires result.Some? ==> |result.value| <= FetchLimit && DistinctRowIds(result.value)
      modifies this`notifications, this`lastUpdate
      ensures Valid()
      ensures !user || result.None? ==> notifications == old(notifications) && lastUpdate == old(lastUpdate)
      ensures user && result.Some? ==>
                lastUpdate == now &&
                notifications == Format(result.value, if storedReadIds.Some? then storedReadIds.value else [])
    {
      if !user || result.None? {
        return;
      }
      var readIds := if storedReadIds.Some? then storedReadIds.value else [];
      notifications := Format(result.value, readIds);
      lastUpdate := now;
    }
  }
}
