/**
 * The dashboard statistics: request and offer totals, urgent requests, the per-medication
 * tally with its top five, the recent-activity feed and the urgent-requests trend.
 */
module Dashboard {
  import opened Base
  import Counts
  import Decimal

  /**
   * A medication request as the dashboard reads it: `medicationName` is the request's own
   * `medication_name`, `catalogName` the joined `medications.name`, `hospitalName` the
   * joined `hospitals.name`.
   */
  datatype Request = Request(
    id: string,
    urgency: Option<string>,
    medicationName: Option<string>,
    catalogName: Option<string>,
    hospitalName: Option<string>,
    createdAt: string)

  /** A medication offer as the dashboard reads it. */
  datatype Offer = Offer(
    id: string,
    medicationName: Option<string>,
    hospitalName: Option<string>,
    createdAt: string)

  const UnknownMedication := "Desconocido"
  const TopCount := 5
  const RecentPerKind := 3
  const RecentLimit := 6

  predicate IsCritical(r: Request) { r.urgency == Some("critical") }
  predicate IsHigh(r: Request) { r.urgency == Some("high") }
  /** A request the feed flags as urgent. */
  predicate IsUrgent(r: Request) { IsCritical(r) || IsHigh(r) }

  /** `requests.filter(r => r.urgency === u).length`. */
  function CountUrgency(rs: seq<Request>, u: string): (n: nat)
    ensures n <= |rs|
    ensures n == 0 <==> forall i :: 0 <= i < |rs| ==> rs[i].urgency != Some(u)
    decreases |rs|
  {
    if rs == [] then 0
    else
      assert forall i :: 1 <= i < |rs| ==> rs[i] == rs[1..][i - 1];
      (if rs[0].urgency == Some(u) then 1 else 0) + CountUrgency(rs[1..], u)
  }

  /** The number of requests the feed would flag as urgent. */
  function CountUrgent(rs: seq<Request>): (n: nat)
    ensures n <= |rs|
    ensures n == 0 <==> forall i :: 0 <= i < |rs| ==> !IsUrgent(rs[i])
    decreases |rs|
  {
    if rs == [] then 0
    else
      assert forall i :: 1 <= i < |rs| ==> rs[i] == rs[1..][i - 1];
      (if IsUrgent(rs[0]) then 1 else 0) + CountUrgent(rs[1..])
  }

  /** `urgentRequests`: the critical requests plus the high ones. */
  function UrgentRequests(rs: seq<Request>): (n: nat)
    ensures n == 0 <==> forall i :: 0 <= i < |rs| ==> !IsUrgent(rs[i])
    ensures n >= CountUrgency(rs, "critical") && n >= CountUrgency(rs, "high")
  {
    CountUrgency(rs, "critical") + CountUrgency(rs, "high")
  }

  /** Summing the two filters counts each urgent request once, and never more than all of them. */
  lemma {:induction false} UrgentRequestsMeaning(rs: seq<Request>)
    ensures UrgentRequests(rs) == CountUrgent(rs)
    ensures UrgentRequests(rs) <= |rs|
    ensures UrgentRequests(rs) == 0 <==> forall i :: 0 <= i < |rs| ==> !IsUrgent(rs[i])
    decreases |rs|
  {
    if rs != [] {
      UrgentRequestsMeaning(rs[1..]);
      assert forall i :: 1 <= i < |rs| ==> rs[i] == rs[1..][i - 1];
    }
  }

  /** The name a request is tallied under: `medications?.name || 'Desconocido'`. */
  function TallyName(r: Request): (name: string)
    ensures name != ""
    ensures Truthy(r.catalogName) ==> name == r.catalogName.value
  {
    if Truthy(r.catalogName) then r.catalogName.value else UnknownMedication
  }

  function TallyNames(rs: seq<Request>): (names: seq<string>)
    ensures |names| == |rs|
    ensures forall i :: 0 <= i < |rs| ==> names[i] == TallyName(rs[i])
  {
    seq(|rs|, i requires 0 <= i < |rs| => TallyName(rs[i]))
  }

  /** One `[name, count]` pair of `Object.entries(medicationCounts)`. */
  datatype Entry = Entry(name: string, count: nat)

  predicate DistinctNames(es: seq<Entry>)
  {
    forall i, j :: 0 <= i < j < |es| ==> es[i].name != es[j].name
  }

  /** The count stored under `name`, 0 when there is none. */
  function CountOf(es: seq<Entry>, name: string): nat
    decreases |es|
  {
    if es == [] then 0 else (if es[0].name == name then es[0].count else 0) + CountOf(es[1..], name)
  }

  function Total(es: seq<Entry>): nat
    decreases |es|
  {
    if es == [] then 0 else es[0].count + Total(es[1..])
  }

  /**
   * `acc[name] = (acc[name] || 0) + 1` on an object whose entries keep insertion order:
   * the entry for `name` is incremented in place, or a new entry is appended.
   */
  function Bump(es: seq<Entry>, name: string): (r: seq<Entry>)
    ensures |r| == |es| || |r| == |es| + 1
    ensures |r| >= 1
    decreases |es|
  {
    if es == [] then [Entry(name, 1)]
    else if es[0].name == name then [Entry(name, es[0].count + 1)] + es[1..]
    else [es[0]] + Bump(es[1..], name)
  }

  /** Bumping adds one to `name`'s count, one to the total, and keeps names distinct and counts positive. */
  lemma BumpMeaning(es: seq<Entry>, name: string)
    requires DistinctNames(es)
    ensures DistinctNames(Bump(es, name))
    ensures forall k :: CountOf(Bump(es, name), k) == CountOf(es, k) + (if k == name then 1 else 0)
    ensures Total(Bump(es, name)) == Total(es) + 1
    ensures forall i :: 0 <= i < |Bump(es, name)| ==> Bump(es, name)[i].count >= 1 || Bump(es, name)[i] in es
  {
    BumpKeepsDistinct(es, name);
    BumpCounts(es, name);
  }

  lemma {:induction false} BumpKeepsDistinct(es: seq<Entry>, name: string)
    requires DistinctNames(es)
    ensures DistinctNames(Bump(es, name))
    decreases |es|
  {
    if es != [] && es[0].name != name {
      assert DistinctNames(es[1..]) by {
        assert forall i :: 0 <= i < |es| - 1 ==> es[1..][i] == es[i + 1];
      }
      BumpKeepsDistinct(es[1..], name);
      var r := Bump(es, name);
      assert r[1..] == Bump(es[1..], name);
      forall i | 0 <= i < |r[1..]| ensures r[1..][i].name != es[0].name {
        NamesOfBump(es[1..], name, i);
      }
    }
  }

  lemma {:induction false} BumpCounts(es: seq<Entry>, name: string)
    requires DistinctNames(es)
    ensures forall k :: CountOf(Bump(es, name), k) == CountOf(es, k) + (if k == name then 1 else 0)
    ensures Total(Bump(es, name)) == Total(es) + 1
    ensures forall i :: 0 <= i < |Bump(es, name)| ==> Bump(es, name)[i].count >= 1 || Bump(es, name)[i] in es
    decreases |es|
  {
    if es != [] {
      var r := Bump(es, name);
      if es[0].name == name {
        assert r[1..] == es[1..];
        assert forall k :: CountOf(es[1..], k) > 0 ==> k != name by {
          forall k | CountOf(es[1..], k) > 0 ensures k != name {
            CountOfPositive(es[1..], k);
            assert forall i :: 1 <= i < |es| ==> es[i] == es[1..][i - 1];
          }
        }
      } else {
        assert DistinctNames(es[1..]) by {
          assert forall i :: 0 <= i < |es| - 1 ==> es[1..][i] == es[i + 1];
        }
        BumpCounts(es[1..], name);
        assert r[1..] == Bump(es[1..], name);
      }
    }
  }

  /** A name with a positive count has an entry. */
  lemma {:induction false} CountOfPositive(es: seq<Entry>, k: string)
    requires CountOf(es, k) > 0
    ensures exists i :: 0 <= i < |es| && es[i].name == k
    decreases |es|
  {
    if es[0].name != k {
      CountOfPositive(es[1..], k);
      var i :| 0 <= i < |es[1..]| && es[1..][i].name == k;
      assert es[i + 1].name == k;
    }
  }

  /** Every name after bumping was already there or is the bumped one. */
  lemma {:induction false} NamesOfBump(es: seq<Entry>, name: string, i: int)
    requires 0 <= i < |Bump(es, name)|
    ensures Bump(es, name)[i].name == name || exists j :: 0 <= j < |es| && es[j].name == Bump(es, name)[i].name
    decreases |es|
  {
    if es != [] && es[0].name != name && i > 0 {
      NamesOfBump(es[1..], name, i - 1);
      if Bump(es, name)[i].name != name {
        var j :| 0 <= j < |es[1..]| && es[1..][j].name == Bump(es[1..], name)[i - 1].name;
        assert es[j + 1].name == Bump(es, name)[i].name;
      }
    }
  }

  /** `medicationCounts`, as the list of its entries in insertion order. */
  function MedicationCounts(names: seq<string>): (es: seq<Entry>)
    ensures |es| <= |names|
    ensures es == [] <==> names == []
    decreases |names|
  {
    if names == [] then [] else Bump(MedicationCounts(names[..|names| - 1]), names[|names| - 1])
  }

  /**
   * The tally holds one entry per distinct name, each name's count is how often it occurs,
   * every stored count is at least one, and the counts add up to the number of requests.
   */
  lemma {:induction false} MedicationCountsMeaning(names: seq<string>)
    ensures DistinctNames(MedicationCounts(names))
    ensures forall k :: CountOf(MedicationCounts(names), k) == Counts.Occurrences(names, k)
    ensures forall i :: 0 <= i < |MedicationCounts(names)| ==> MedicationCounts(names)[i].count >= 1
    ensures Total(MedicationCounts(names)) == |names|
    decreases |names|
  {
    if names != [] {
      var prefix := names[..|names| - 1];
      MedicationCountsMeaning(prefix);
      BumpMeaning(MedicationCounts(prefix), names[|names| - 1]);
    }
  }

  /** Requests without a catalogue name are tallied under 'Desconocido'. */
  lemma UnnamedCountedAsUnknown(rs: seq<Request>)
    ensures Total(MedicationCounts(TallyNames(rs))) == |rs|
    ensures CountOf(MedicationCounts(TallyNames(rs)), UnknownMedication)
            == Counts.Occurrences(TallyNames(rs), UnknownMedication)
    ensures forall i :: 0 <= i < |rs| && !Truthy(rs[i].catalogName) ==> TallyNames(rs)[i] == UnknownMedication
  {
    MedicationCountsMeaning(TallyNames(rs));
  }

  predicate NonIncreasing(es: seq<Entry>)
  {
    forall i, j :: 0 <= i < j < |es| ==> es[i].count >= es[j].count
  }

  /** Places `e` before the first entry whose count it reaches, so equal counts keep their order. */
  function Insert(e: Entry, sorted: seq<Entry>): (r: seq<Entry>)
    ensures |r| == |sorted| + 1
    ensures multiset(r) == multiset{e} + multiset(sorted)
    decreases |sorted|
  {
    if sorted == [] || sorted[0].count <= e.count then [e] + sorted
    else
      assert sorted == [sorted[0]] + sorted[1..];
      [sorted[0]] + Insert(e, sorted[1..])
  }

  /** Inserting into a list sorted by count keeps it sorted. */
  lemma {:induction false} InsertSorted(e: Entry, sorted: seq<Entry>)
    requires NonIncreasing(sorted)
    ensures NonIncreasing(Insert(e, sorted))
    decreases |sorted|
  {
    if !(sorted == [] || sorted[0].count <= e.count) {
      var rest := Insert(e, sorted[1..]);
      InsertSorted(e, sorted[1..]);
      forall j | 0 <= j < |rest| ensures sorted[0].count >= rest[j].count {
        assert rest[j] in multiset(rest);
        if rest[j] != e {
          assert rest[j] in multiset(sorted[1..]);
          var k :| 0 <= k < |sorted[1..]| && sorted[1..][k] == rest[j];
          assert sorted[k + 1] == rest[j];
        }
      }
      assert Insert(e, sorted) == [sorted[0]] + rest;
    }
  }

  /** `.sort(([,a], [,b]) => b - a)`: a stable sort by count, highest first. */
  function SortByCount(es: seq<Entry>): (r: seq<Entry>)
    ensures multiset(r) == multiset(es)
    ensures |r| == |es|
    decreases |es|
  {
    if es == [] then []
    else
      assert es == [es[0]] + es[1..];
      Insert(es[0], SortByCount(es[1..]))
  }

  /** The sort orders by count, highest first. */
  lemma {:induction false} SortByCountSorted(es: seq<Entry>)
    ensures NonIncreasing(SortByCount(es))
    decreases |es|
  {
    if es != [] {
      SortByCountSorted(es[1..]);
      InsertSorted(es[0], SortByCount(es[1..]));
    }
  }

  /** `mostRequested`: the five entries with the highest counts. */
  function MostRequested(entries: seq<Entry>): (top: seq<Entry>)
    ensures |top| == if |entries| < TopCount then |entries| else TopCount
    ensures top == SortByCount(entries)[..|top|]
  {
    var sorted := SortByCount(entries);
    if |sorted| < TopCount then sorted else sorted[..TopCount]
  }

  /** A prefix of a list sorted by count is sorted, and outranks everything after it. */
  lemma PrefixOfSorted(sorted: seq<Entry>, k: nat)
    requires NonIncreasing(sorted) && k <= |sorted|
    ensures NonIncreasing(sorted[..k])
    ensures forall x: Entry, i :: x in multiset(sorted[k..]) && 0 <= i < k ==> x.count <= sorted[i].count
  {
    forall x: Entry, i: int | x in multiset(sorted[k..]) && 0 <= i < k ensures x.count <= sorted[i].count {
      var j :| 0 <= j < |sorted[k..]| && sorted[k..][j] == x;
      assert sorted[k + j] == x;
    }
  }

  /**
   * The top five are sorted by count, are drawn from the entries, and no entry left out
   * has a higher count than one that made it.
   */
  lemma MostRequestedIsTop(entries: seq<Entry>)
    ensures NonIncreasing(MostRequested(entries))
    ensures multiset(MostRequested(entries)) <= multiset(entries)
    ensures forall x: Entry, i :: x in multiset(entries) - multiset(MostRequested(entries)) && 0 <= i < |MostRequested(entries)|
              ==> x.count <= MostRequested(entries)[i].count
  {
    var sorted := SortByCount(entries);
    var top := MostRequested(entries);
    var rest := sorted[|top|..];
    SortByCountSorted(entries);
    PrefixOfSorted(sorted, |top|);
    SplitMultiset(sorted, |top|);
  }

  /** Cutting a list in two splits its multiset. */
  lemma SplitMultiset(s: seq<Entry>, k: nat)
    requires k <= |s|
    ensures multiset(s[..k]) <= multiset(s)
    ensures multiset(s) - multiset(s[..k]) == multiset(s[k..])
  {
    assert s == s[..k] + s[k..];
  }

  /** Every entry in the top five is one of the entries. */
  lemma MostRequestedMembers(entries: seq<Entry>)
    ensures forall i :: 0 <= i < |MostRequested(entries)| ==> MostRequested(entries)[i] in entries
  {
    var sorted := SortByCount(entries);
    forall i | 0 <= i < |MostRequested(entries)| ensures MostRequested(entries)[i] in entries {
      assert MostRequested(entries)[i] == sorted[i];
      assert sorted[i] in multiset(sorted);
    }
  }

  /** The top five of the tally of `requests`: counts add up to at most the number of requests. */
  lemma MostRequestedFromTally(rs: seq<Request>)
    ensures |MostRequested(MedicationCounts(TallyNames(rs)))| <= TopCount
    ensures forall i :: 0 <= i < |MostRequested(MedicationCounts(TallyNames(rs)))| ==>
              MostRequested(MedicationCounts(TallyNames(rs)))[i].count >= 1
    ensures forall i :: 0 <= i < |MostRequested(MedicationCounts(TallyNames(rs)))| ==>
              var e := MostRequested(MedicationCounts(TallyNames(rs)))[i];
              e.count == Counts.Occurrences(TallyNames(rs), e.name)
  {
    var es := MedicationCounts(TallyNames(rs));
    MedicationCountsMeaning(TallyNames(rs));
    MostRequestedMembers(es);
    forall i | 0 <= i < |MostRequested(es)|
      ensures MostRequested(es)[i].count >= 1
      ensures MostRequested(es)[i].count == Counts.Occurrences(TallyNames(rs), MostRequested(es)[i].name)
    {
      var e := MostRequested(es)[i];
      var j :| 0 <= j < |es| && es[j] == e;
      EntryCount(es, j);
    }
  }

  /** With distinct names, an entry's count is the count stored under its name. */
  lemma {:induction false} EntryCount(es: seq<Entry>, j: int)
    requires DistinctNames(es) && 0 <= j < |es|
    ensures CountOf(es, es[j].name) == es[j].count
    decreases |es|
  {
    if j == 0 {
      CountOfAbsent(es[1..], es[0].name);
    } else {
      assert DistinctNames(es[1..]) by {
        assert forall i :: 0 <= i < |es| - 1 ==> es[1..][i] == es[i + 1];
      }
      EntryCount(es[1..], j - 1);
    }
  }

  lemma {:induction false} CountOfAbsent(es: seq<Entry>, k: string)
    requires forall i :: 0 <= i < |es| ==> es[i].name != k
    ensures CountOf(es, k) == 0
    decreases |es|
  {
    if es != [] {
      CountOfAbsent(es[1..], k);
    }
  }

  datatype ActivityKind = RequestActivity | OfferActivity

  /** One card of the recent-activity feed; `time` is the raw creation timestamp. */
  datatype Activity = Activity(kind: ActivityKind, message: string, hospital: string, time: string, urgent: bool, id: string)

  /** `x || fallback` on an optional string. */
  function OrElse(x: Option<string>, fallback: string): (r: string)
    ensures Truthy(x) ==> r == x.value
    ensures !Truthy(x) ==> r == fallback
  {
    if Truthy(x) then x.value else fallback
  }

  function RequestCard(r: Request): (a: Activity)
    ensures a.kind == RequestActivity && a.id == r.id
    ensures a.urgent <==> IsUrgent(r)
  {
    Activity(RequestActivity, "Nueva solicitud de " + OrElse(r.medicationName, "medicamento"),
             OrElse(r.hospitalName, "Hospital"), r.createdAt, IsCritical(r) || IsHigh(r), r.id)
  }

  function OfferCard(o: Offer): (a: Activity)
    ensures a.kind == OfferActivity && a.id == o.id && !a.urgent
  {
    Activity(OfferActivity, "Nueva oferta de " + OrElse(o.medicationName, "medicamento"),
             OrElse(o.hospitalName, "Hospital"), o.createdAt, false, o.id)
  }

  function FirstAtMost<T>(s: seq<T>, n: nat): (r: seq<T>)
    ensures |r| == if |s| < n then |s| else n
    ensures r == s[..|r|]
  {
    if |s| < n then s else s[..n]
  }

  /**
   * `recentActivity` before its date sort: cards for the first three requests followed by
   * cards for the first three offers, cut to six.
   */
  function RecentActivity(rs: seq<Request>, os: seq<Offer>): (feed: seq<Activity>)
    ensures |feed| <= RecentLimit
    ensures |feed| == |FirstAtMost(rs, RecentPerKind)| + |FirstAtMost(os, RecentPerKind)|
    ensures forall i :: 0 <= i < |feed| ==>
              (feed[i].kind == RequestActivity <==> i < |FirstAtMost(rs, RecentPerKind)|)
    ensures forall i :: 0 <= i < |feed| && i < |FirstAtMost(rs, RecentPerKind)| ==>
              feed[i] == RequestCard(rs[i])
    ensures forall i :: 0 <= i < |feed| && i >= |FirstAtMost(rs, RecentPerKind)| ==>
              feed[i] == OfferCard(os[i - |FirstAtMost(rs, RecentPerKind)|])
  {
    var fromRequests := FirstAtMost(rs, RecentPerKind);
    var fromOffers := FirstAtMost(os, RecentPerKind);
    var cards := seq(|fromRequests|, i requires 0 <= i < |fromRequests| => RequestCard(fromRequests[i]))
               + seq(|fromOffers|, i requires 0 <= i < |fromOffers| => OfferCard(fromOffers[i]));
    FirstAtMost(cards, RecentLimit)
  }

  /** Only requests with critical or high urgency are flagged urgent in the feed. */
  lemma UrgentCardsAreUrgentRequests(rs: seq<Request>, os: seq<Offer>, i: int)
    requires 0 <= i < |RecentActivity(rs, os)|
    ensures RecentActivity(rs, os)[i].urgent <==>
              RecentActivity(rs, os)[i].kind == RequestActivity && IsUrgent(rs[i])
  {
  }

  datatype Trend = Up | Down

  /** The figures of the four statistic cards that do not involve floating point. */
  datatype Stats = Stats(totalRequests: nat, totalOffers: nat, connectedHospitals: nat, urgentRequests: nat,
                         urgentValue: string, urgentChange: string, urgentTrend: Trend)

  /** The urgent-requests card: trending up by two above five urgent requests, down by one otherwise. */
  function UrgentTrend(urgent: nat): (r: (string, Trend))
    ensures r == ("+2", Up) <==> urgent > 5
    ensures r == ("-1", Down) <==> urgent <= 5
  {
    if urgent > 5 then ("+2", Up) else ("-1", Down)
  }

  function Statistics(rs: seq<Request>, os: seq<Offer>, hospitals: nat): (s: Stats)
    ensures s.totalRequests == |rs| && s.totalOffers == |os| && s.connectedHospitals == hospitals
    ensures s.urgentRequests == CountUrgent(rs) <= s.totalRequests
    ensures s.urgentValue == Decimal.DecimalString(s.urgentRequests)
    ensures s.urgentTrend == Up <==> s.urgentRequests > 5
    ensures s.urgentTrend == Up <==> s.urgentChange == "+2"
  {
    var urgent := UrgentRequests(rs);
    UrgentRequestsMeaning(rs);
    var (change, trend) := UrgentTrend(urgent);
    Stats(|rs|, |os|, hospitals, urgent, Decimal.DecimalString(urgent), change, trend)
  }
}
