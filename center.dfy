/**
 * The notification bell: "time ago" labels, the unread badge, the open/close toggle
 * that marks everything read, and the urgency styles of a notification.
 */
module NotificationCenter {
  import opened Base
  import Notifications
  import opened Decimal

  /** The four buckets of `getTimeAgo`. */
  datatype Age = JustNow | MinutesAgo(minutes: nat) | HoursAgo(hours: nat) | DaysAgo(days: nat)

  /** The bucket of an age of `m` whole minutes (possibly negative for a future timestamp). */
  function AgeOf(m: int): (a: Age)
    ensures m < 1 <==> a.JustNow?
    ensures 1 <= m < 60 <==> a.MinutesAgo?
    ensures 60 <= m < 1440 <==> a.HoursAgo?
    ensures 1440 <= m <==> a.DaysAgo?
    ensures a.MinutesAgo? ==> a.minutes == m && 1 <= a.minutes <= 59
    ensures a.HoursAgo? ==> 1 <= a.hours <= 23 && 60 * a.hours <= m < 60 * (a.hours + 1)
    ensures a.DaysAgo? ==> 1 <= a.days && 1440 * a.days <= m < 1440 * (a.days + 1)
  {
    if m < 1 then JustNow
    else if m < 60 then MinutesAgo(m)
    else if m < 1440 then HoursAgo(m / 60)
    else DaysAgo(m / 1440)
  }

  /** The label of a bucket. */
  function AgeLabel(a: Age): (text: string)
    ensures a.JustNow? <==> text == "Ahora mismo"
    ensures !a.JustNow? ==> |text| >= 7 && text[..5] == "hace "
    ensures a.MinutesAgo? ==> text[|text| - 1] == 'm'
    ensures a.HoursAgo? ==> text[|text| - 1] == 'h'
    ensures a.DaysAgo? ==> text[|text| - 1] == 'd'
  {
    match a
    case JustNow => "Ahora mismo"
    case MinutesAgo(n) => var t := "hace " + DecimalString(n) + "m"; assert t[0] == 'h'; t
    case HoursAgo(n) => var t := "hace " + DecimalString(n) + "h"; assert t[0] == 'h'; t
    case DaysAgo(n) => var t := "hace " + DecimalString(n) + "d"; assert t[0] == 'h'; t
  }

  /** Two buckets never share a label. */
  lemma AgeLabelInjective(a: Age, b: Age)
    requires AgeLabel(a) == AgeLabel(b)
    ensures a == b
  {
    var la, lb := AgeLabel(a), AgeLabel(b);
    if a.JustNow? || b.JustNow? {
      assert la[0] == lb[0];
    } else {
      assert la[|la| - 1] == lb[|lb| - 1];
      var na := match a case MinutesAgo(n) => n case HoursAgo(n) => n case DaysAgo(n) => n;
      var nb := match b case MinutesAgo(n) => n case HoursAgo(n) => n case DaysAgo(n) => n;
      assert la[5..|la| - 1] == DecimalString(na);
      assert lb[5..|lb| - 1] == DecimalString(nb);
      DecimalStringInjective(na, nb);
    }
  }

  /**
   * `getTimeAgo`, given `now - timestamp` in milliseconds; `None` stands for an
   * unparseable timestamp, which makes every comparison false and yields "hace NaNd".
   */
  function TimeAgo(diffMs: Option<int>): (text: string)
    ensures diffMs.Some? ==> text == AgeLabel(AgeOf(diffMs.value / 60000))
    ensures diffMs.None? ==> text == "hace NaNd"
  {
    match diffMs
    case None => "hace NaNd"
    case Some(d) =>
      var m := d / 60000;   // floor, since the divisor is positive
      if m < 1 then "Ahora mismo"
      else if m < 60 then "hace " + DecimalString(m) + "m"
      else if m < 1440 then "hace " + DecimalString(m / 60) + "h"
      else "hace " + DecimalString(m / 1440) + "d"
  }

  /** The text of the unread badge; `None` when no badge is shown. */
  function BadgeText(unreadCount: int): (r: Option<string>)
    ensures r.Some? <==> unreadCount > 0
    ensures r == Some("99+") <==> unreadCount > 99
    ensures 0 < unreadCount <= 99 ==> r == Some(DecimalString(unreadCount))
  {
    if unreadCount <= 0 then None
    else if unreadCount > 99 then Some("99+")
    else
      assert DecimalString(unreadCount)[|DecimalString(unreadCount)| - 1] != '+';
      Some(DecimalString(unreadCount))
  }

  /** The outcome of a click on the bell. */
  datatype BellClick = BellClick(isOpen: bool, marksRead: bool)

  /** The click handler toggles the panel and marks everything read only when it opens it. */
  function ClickBell(isOpen: bool): (r: BellClick)
    ensures r.isOpen == !isOpen
    ensures r.marksRead <==> !isOpen && r.isOpen
  {
    BellClick(!isOpen, !isOpen)
  }

  /** Two clicks give back the panel as it was and mark read exactly once. */
  lemma ClickBellTwice(isOpen: bool)
    ensures ClickBell(ClickBell(isOpen).isOpen).isOpen == isOpen
    ensures ClickBell(isOpen).marksRead != ClickBell(ClickBell(isOpen).isOpen).marksRead
  {
  }

  /**
   * The click on the bell, wired to the notification hook: closing changes nothing in the
   * hook; opening runs `markAsRead`, which with a signed-in user persists the ids, marks
   * every entry read and so clears the badge.
   */
  method OnBellClick(store: Notifications.NotificationStore, isOpen: bool, now: int) returns (nowOpen: bool)
    requires store.Valid()
    modifies store`notifications, store`lastUpdate, store`storedReadIds
    ensures store.Valid()
    ensures nowOpen == !isOpen
    ensures isOpen || !store.user ==>
              store.notifications == old(store.notifications) &&
              store.storedReadIds == old(store.storedReadIds) &&
              store.lastUpdate == old(store.lastUpdate)
    ensures !isOpen && store.user ==>
              store.notifications == Notifications.MarkAll(old(store.notifications)) &&
              store.storedReadIds == Some(Notifications.Ids(old(store.notifications))) &&
              store.lastUpdate == now &&
              BadgeText(store.Unread()) == None
  {
    var click := ClickBell(isOpen);
    if click.marksRead {
      store.MarkAsRead(now);
    }
    nowOpen := click.isOpen;
  }

  /** The four urgencies the bell knows; anything else, or none, falls back to grey. */
  predicate IsKnownUrgency(urgency: Option<string>)
  {
    urgency == Some("critical") || urgency == Some("high") || urgency == Some("medium") || urgency == Some("low")
  }

  /** `getUrgencyColor`. */
  function UrgencyColor(urgency: Option<string>): (r: string)
    ensures !IsKnownUrgency(urgency) <==> r == "bg-gray-500 text-white"
    ensures urgency == Some("critical") <==> r == "bg-red-500 text-white animate-pulse"
  {
    match urgency
    case Some("critical") => "bg-red-500 text-white animate-pulse"
    case Some("high") => "bg-orange-500 text-white"
    case Some("medium") => "bg-yellow-500 text-white"
    case Some("low") => "bg-green-500 text-white"
    case _ => "bg-gray-500 text-white"
  }

  /** `getNotificationBackground`. */
  function NotificationBackground(urgency: Option<string>): (r: string)
    ensures !IsKnownUrgency(urgency) <==> r == "bg-gray-50 border-l-4 border-gray-500"
  {
    match urgency
    case Some("critical") => "bg-red-50 border-l-4 border-red-500"
    case Some("high") => "bg-orange-50 border-l-4 border-orange-500"
    case Some("medium") => "bg-yellow-50 border-l-4 border-yellow-500"
    case Some("low") => "bg-green-50 border-l-4 border-green-500"
    case _ => "bg-gray-50 border-l-4 border-gray-500"
  }

  /** Distinct known urgencies are told apart by both the badge colour and the row background. */
  lemma UrgencyStylesDistinct(a: Option<string>, b: Option<string>)
    requires IsKnownUrgency(a) && IsKnownUrgency(b) && a != b
    ensures UrgencyColor(a) != UrgencyColor(b)
    ensures NotificationBackground(a) != NotificationBackground(b)
  {
  }
}
