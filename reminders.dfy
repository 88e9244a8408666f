/** The service-reminder selection rule of the reminder batch job
    (`build_reminders` in send_reminders.py).

    Dates are day numbers as Python's `date.toordinal()` gives them
    (0001-01-01 is day 1, 9999-12-31 is day `MaxOrdinal`). The two database
    queries become input sequences: every equipment row, in the order the
    query returns them, and every service row. */
module Reminders {

  datatype Option<T> = None | Some(value: T)

  /** Reminder window used when REMINDER_DAYS is not set. */
  const DefaultReminderDays := 7

  /** `date.max.toordinal()`: the last day a Python `date` can hold. */
  const MaxOrdinal := 3652059

  predicate IsOrdinal(day: int) {
    1 <= day <= MaxOrdinal
  }

  datatype Equipment = Equipment(
    id: int,
    adminUserId: int,        // the owning admin account
    code: string,
    kind: string,            // the `type` column
    mileage: Option<int>)

  /** A service row. Its date is NULL when the form's date field was left
      empty. */
  datatype Service = Service(
    equipmentId: int,
    date: Option<int>,
    nextService: Option<int>)

  /** One reminder entry: `{code, type, next_service, mileage}`. */
  datatype Item = Item(
    code: string,
    kind: string,
    nextService: int,
    mileage: Option<int>)

  /** The dictionary `build_reminders` returns: owner id to its items. A Python
      dict iterates in insertion order, kept here as `owners`. */
  datatype ReminderMap = ReminderMap(owners: seq<int>, items: map<int, seq<Item>>)

  const NoReminders := ReminderMap([], map[])

  /** Representation invariant of the ordered dictionary: `owners` lists every
      key exactly once. */
  ghost predicate WellFormed(d: ReminderMap) {
    (forall j, j' :: 0 <= j < j' < |d.owners| ==> d.owners[j] != d.owners[j']) &&
    (forall k :: k in d.items <==> k in d.owners)
  }

  // ---------------------------------------------------------------------
  // The cutoff date

  function DaysOrDefault(days: Option<int>): int {
    match days
    case None => DefaultReminderDays
    case Some(n) => n
  }

  /** `today + timedelta(days=days)`; `None` stands for the OverflowError
      Python raises when the sum is not a representable date. */
  function Cutoff(today: int, days: Option<int>): (cutoff: Option<int>)
    requires IsOrdinal(today)
    ensures cutoff.Some? <==> IsOrdinal(today + DaysOrDefault(days))
    ensures cutoff.Some? ==> cutoff.value - today == DaysOrDefault(days)
    ensures days.None? && today + 7 <= MaxOrdinal ==> cutoff == Some(today + 7)
  {
    var day := today + DaysOrDefault(days);
    if IsOrdinal(day) then Some(day) else None
  }

  // ---------------------------------------------------------------------
  // The latest service of one equipment

  /** The order of `ORDER BY date DESC` in SQLite, where NULL sorts below
      every date (and so comes last). */
  predicate NotLaterThan(a: Option<int>, b: Option<int>) {
    match (a, b)
    case (None, _) => true
    case (Some(_), None) => false
    case (Some(x), Some(y)) => x <= y
  }

  /** `s` is a service of the equipment with a maximal date. */
  ghost predicate IsLatest(services: seq<Service>, equipmentId: int, s: Service) {
    s in services && s.equipmentId == equipmentId &&
    forall t :: t in services && t.equipmentId == equipmentId ==> NotLaterThan(t.date, s.date)
  }

  /** What `.order_by(Service.date.desc()).first()` may answer: nothing when
      the equipment has no service, and otherwise any service with a maximal
      date (the order among equal dates is not fixed by the query). */
  ghost predicate IsLatestChoice(services: seq<Service>, equipmentId: int, latest: Option<Service>) {
    match latest
    case None => forall t :: t in services ==> t.equipmentId != equipmentId
    case Some(s) => IsLatest(services, equipmentId, s)
  }

  /** The latest-service query. Among services of equal date it answers the
      first in `services`; the selection rule below holds for any answer that
      satisfies `IsLatestChoice`. */
  function Latest(services: seq<Service>, equipmentId: int): (latest: Option<Service>)
    ensures IsLatestChoice(services, equipmentId, latest)
    decreases |services|
  {
    if |services| == 0 then None
    else
      var rest := Latest(services[1..], equipmentId);
      var s := services[0];
      assert forall t :: t in services ==> t == s || t in services[1..];
      if s.equipmentId != equipmentId then rest
      else if rest.Some? && !NotLaterThan(rest.value.date, s.date) then rest
      else Some(s)
  }

  /** Any two answers to the latest-service query have equal dates. */
  lemma LatestDateUnique(services: seq<Service>, equipmentId: int, a: Option<Service>, b: Option<Service>)
    requires IsLatestChoice(services, equipmentId, a)
    requires IsLatestChoice(services, equipmentId, b)
    ensures a.None? <==> b.None?
    ensures a.Some? ==> a.value.date == b.value.date
  {
    if a.Some? && b.Some? {
      assert NotLaterThan(a.value.date, b.value.date);
      assert NotLaterThan(b.value.date, a.value.date);
    }
  }

  // ---------------------------------------------------------------------
  // The selection rule for one equipment

  /** The item the equipment contributes, given its latest service: none when
      there is no service, when the latest one has no next-service date, or
      when that date lies after the cutoff. An overdue date is kept. */
  function Due(e: Equipment, latest: Option<Service>, cutoff: int): (item: Option<Item>)
    ensures item.Some? <==>
      latest.Some? && latest.value.nextService.Some? && latest.value.nextService.value <= cutoff
    ensures item.Some? ==>
      item.value == Item(e.code, e.kind, latest.value.nextService.value, e.mileage)
  {
    if latest.None? || latest.value.nextService.None? then None
    else if latest.value.nextService.value > cutoff then None
    else Some(Item(e.code, e.kind, latest.value.nextService.value, e.mileage))
  }

  // ---------------------------------------------------------------------
  // Reference description of the result, owner by owner

  /** Positions, among the first `|chosen|` equipment, of those owned by
      `owner` that produce an item; `chosen[i]` is the latest service of
      `eqs[i]`. */
  function DueIndices(eqs: seq<Equipment>, chosen: seq<Option<Service>>, cutoff: int, owner: int): (idx: seq<nat>)
    requires |chosen| <= |eqs|
    ensures forall j :: 0 <= j < |idx| ==> idx[j] < |chosen|
    ensures forall j, j' :: 0 <= j < j' < |idx| ==> idx[j] < idx[j']
    ensures forall i :: 0 <= i < |chosen| ==>
      (i in idx <==> eqs[i].adminUserId == owner && Due(eqs[i], chosen[i], cutoff).Some?)
    decreases |chosen|
  {
    if |chosen| == 0 then []
    else
      var n := |chosen| - 1;
      var p := DueIndices(eqs, chosen[..n], cutoff, owner);
      if eqs[n].adminUserId == owner && Due(eqs[n], chosen[n], cutoff).Some? then p + [n] else p
  }

  /** The items `owner` should be reminded of, in equipment order. */
  function OwnerItems(eqs: seq<Equipment>, chosen: seq<Option<Service>>, cutoff: int, owner: int): (items: seq<Item>)
    requires |chosen| <= |eqs|
    ensures |items| == |DueIndices(eqs, chosen, cutoff, owner)|
    ensures forall j :: 0 <= j < |items| ==>
      var i := DueIndices(eqs, chosen, cutoff, owner)[j];
      Due(eqs[i], chosen[i], cutoff) == Some(items[j])
  {
    var idx := DueIndices(eqs, chosen, cutoff, owner);
    seq(|idx|, j requires 0 <= j < |idx| =>
      assert idx[j] in idx;
      Due(eqs[idx[j]], chosen[idx[j]], cutoff).value)
  }

  // ---------------------------------------------------------------------
  // The dictionary the loop builds

  /** `reminders.setdefault(owner, []).append(item)`. */
  function Record(d: ReminderMap, owner: int, item: Item): (d': ReminderMap)
    ensures WellFormed(d) ==> WellFormed(d')
    ensures owner in d'.items && d'.items[owner] == (if owner in d.items then d.items[owner] else []) + [item]
    ensures forall k :: k != owner ==> (k in d'.items <==> k in d.items)
    ensures forall k :: k != owner && k in d.items ==> d'.items[k] == d.items[k]
    ensures d'.owners == if owner in d.items then d.owners else d.owners + [owner]
  {
    if owner in d.items then ReminderMap(d.owners, d.items[owner := d.items[owner] + [item]])
    else ReminderMap(d.owners + [owner], d.items[owner := [item]])
  }

  /** No owner holds an empty list. */
  ghost predicate NoEmptyList(d: ReminderMap) {
    forall owner :: owner in d.items ==> d.items[owner] != []
  }

  /** Every item is due on or before `cutoff`. */
  ghost predicate AllDueBy(d: ReminderMap, cutoff: int) {
    forall owner, it :: owner in d.items && it in d.items[owner] ==> it.nextService <= cutoff
  }

  /** The dictionary after the loop has visited the first `|chosen|`
      equipment: well-formed, with no owner holding an empty list, and every
      item due on or before the cutoff. */
  function Collect(eqs: seq<Equipment>, chosen: seq<Option<Service>>, cutoff: int): (d: ReminderMap)
    requires |chosen| <= |eqs|
    ensures WellFormed(d)
    ensures NoEmptyList(d)
    ensures AllDueBy(d, cutoff)
    decreases |chosen|
  {
    if |chosen| == 0 then NoReminders
    else
      var n := |chosen| - 1;
      var d := Collect(eqs, chosen[..n], cutoff);
      match Due(eqs[n], chosen[n], cutoff)
      case None => d
      case Some(item) =>
        var owner := eqs[n].adminUserId;
        var d' := Record(d, owner, item);
        assert forall it :: it in d'.items[owner] ==> it == item || (owner in d.items && it in d.items[owner]);
        d'
  }

  /** `build_reminders`. `None` stands for the OverflowError of the cutoff
      computation. The ghost `chosen` records the answer of the latest-service
      query for each equipment. */
  method BuildReminders(equipment: seq<Equipment>, services: seq<Service>, today: int, days: Option<int>)
    returns (reminders: Option<ReminderMap>, ghost chosen: seq<Option<Service>>)
    requires IsOrdinal(today)
    ensures reminders.None? <==> Cutoff(today, days).None?
    ensures reminders.Some? ==> |chosen| == |equipment|
    ensures reminders.Some? ==> forall i :: 0 <= i < |equipment| ==> IsLatestChoice(services, equipment[i].id, chosen[i])
    ensures reminders.Some? ==> reminders.value == Collect(equipment, chosen, Cutoff(today, days).value)
  {
    chosen := [];
    var c := Cutoff(today, days);
    if c.None? {
      return None, chosen;
    }
    var cutoff := c.value;
    var d := NoReminders;
    for i := 0 to |equipment|
      invariant |chosen| == i
      invariant forall j :: 0 <= j < i ==> IsLatestChoice(services, equipment[j].id, chosen[j])
      invariant d == Collect(equipment, chosen, cutoff)
    {
      var e := equipment[i];
      var latest := Latest(services, e.id);
      ghost var before, prev := chosen, d;
      chosen := chosen + [latest];
      assert chosen[..i] == before && chosen[i] == latest;
      assert Collect(equipment, chosen, cutoff) ==
        match Due(e, latest, cutoff)
        case None => prev
        case Some(item) => Record(prev, e.adminUserId, item);
      if latest.None? || latest.value.nextService.None? {
        continue;
      }
      if latest.value.nextService.value > cutoff {
        continue;
      }
      if e.adminUserId !in d.items {
        d := ReminderMap(d.owners + [e.adminUserId], d.items[e.adminUserId := []]);
      }
      d := d.(items := d.items[e.adminUserId := d.items[e.adminUserId] + [Item(e.code, e.kind, latest.value.nextService.value, e.mileage)]]);
      assert d == Record(prev, e.adminUserId, Due(e, latest, cutoff).value);
    }
    reminders := Some(d);
  }

  // ---------------------------------------------------------------------
  // Properties of the result

  lemma OwnerItemsStep(eqs: seq<Equipment>, chosen: seq<Option<Service>>, cutoff: int, owner: int)
    requires 0 < |chosen| <= |eqs|
    ensures var n := |chosen| - 1;
      OwnerItems(eqs, chosen, cutoff, owner) ==
        OwnerItems(eqs, chosen[..n], cutoff, owner) +
        (if eqs[n].adminUserId == owner && Due(eqs[n], chosen[n], cutoff).Some?
         then [Due(eqs[n], chosen[n], cutoff).value] else [])
  {
    var n := |chosen| - 1;
    var prefix := chosen[..n];
    var a := OwnerItems(eqs, chosen, cutoff, owner);
    var b := OwnerItems(eqs, prefix, cutoff, owner);
    var ia := DueIndices(eqs, chosen, cutoff, owner);
    var ib := DueIndices(eqs, prefix, cutoff, owner);
    var extra := if eqs[n].adminUserId == owner && Due(eqs[n], chosen[n], cutoff).Some?
                 then [Due(eqs[n], chosen[n], cutoff).value] else [];
    assert ia == if extra == [] then ib else ib + [n];
    assert |a| == |b| + |extra|;
    forall j | 0 <= j < |b|
      ensures a[j] == b[j]
    {
      var i := ib[j];
      assert ia[j] == i && prefix[i] == chosen[i];
      assert Due(eqs[i], chosen[i], cutoff) == Some(a[j]);
      assert Due(eqs[i], prefix[i], cutoff) == Some(b[j]);
    }
    if extra != [] {
      assert Due(eqs[n], chosen[n], cutoff) == Some(a[|b|]);
    }
    assert a == b + extra;
  }

  /** The dictionary built over the first `|chosen|` equipment is keyed by
      exactly the owners with at least one due item and holds, for each of
      them, its items in equipment order. */
  lemma {:induction false} CollectGroupsByOwner(eqs: seq<Equipment>, chosen: seq<Option<Service>>, cutoff: int)
    requires |chosen| <= |eqs|
    ensures WellFormed(Collect(eqs, chosen, cutoff))
    ensures forall owner :: owner in Collect(eqs, chosen, cutoff).items <==> DueIndices(eqs, chosen, cutoff, owner) != []
    ensures forall owner :: owner in Collect(eqs, chosen, cutoff).items ==>
      Collect(eqs, chosen, cutoff).items[owner] == OwnerItems(eqs, chosen, cutoff, owner)
  {
    if |chosen| > 0 {
      var n := |chosen| - 1;
      var prefix := chosen[..n];
      CollectGroupsByOwner(eqs, prefix, cutoff);
      var d0 := Collect(eqs, prefix, cutoff);
      var d := Collect(eqs, chosen, cutoff);
      var due := Due(eqs[n], chosen[n], cutoff);
      if due.Some? {
        var o := eqs[n].adminUserId;
        assert d == Record(d0, o, due.value);
        forall owner
          ensures owner in d.items <==> DueIndices(eqs, chosen, cutoff, owner) != []
          ensures owner in d.items ==> d.items[owner] == OwnerItems(eqs, chosen, cutoff, owner)
        {
          OwnerItemsStep(eqs, chosen, cutoff, owner);
          if owner == o && o !in d0.items {
            assert |OwnerItems(eqs, prefix, cutoff, owner)| == 0;
          }
        }
      } else {
        assert d == d0;
        forall owner
          ensures owner in d.items <==> DueIndices(eqs, chosen, cutoff, owner) != []
          ensures owner in d.items ==> d.items[owner] == OwnerItems(eqs, chosen, cutoff, owner)
        {
          OwnerItemsStep(eqs, chosen, cutoff, owner);
        }
      }
    }
  }

  /** The position of the owner's first due equipment among the first
      `|chosen|`, or -1 when there is none. */
  function FirstDue(eqs: seq<Equipment>, chosen: seq<Option<Service>>, cutoff: int, owner: int): int
    requires |chosen| <= |eqs|
  {
    var idx := DueIndices(eqs, chosen, cutoff, owner);
    if |idx| == 0 then -1 else idx[0]
  }

  /** An owner is a key of the dictionary exactly when it has a first due
      equipment. */
  lemma ListedIffFirstDue(eqs: seq<Equipment>, chosen: seq<Option<Service>>, cutoff: int, owner: int)
    requires |chosen| <= |eqs|
    ensures owner in Collect(eqs, chosen, cutoff).items <==> FirstDue(eqs, chosen, cutoff, owner) >= 0
  {
    CollectGroupsByOwner(eqs, chosen, cutoff);
  }

  /** Visiting one more equipment never changes an owner's first due
      position once it has one, and gives a first one only to the owner of
      that equipment. */
  lemma FirstDueStep(eqs: seq<Equipment>, chosen: seq<Option<Service>>, cutoff: int, owner: int)
    requires 0 < |chosen| <= |eqs|
    ensures var n := |chosen| - 1;
      var before := FirstDue(eqs, chosen[..n], cutoff, owner);
      FirstDue(eqs, chosen, cutoff, owner) ==
        if before >= 0 then before
        else if eqs[n].adminUserId == owner && Due(eqs[n], chosen[n], cutoff).Some? then n
        else -1
  {
  }

  /** Each owner in `owners` has a due equipment among the first `|chosen|`,
      and the owners come in the order of their first one. */
  ghost predicate InFirstDueOrder(owners: seq<int>, eqs: seq<Equipment>, chosen: seq<Option<Service>>, cutoff: int)
    requires |chosen| <= |eqs|
  {
    (forall j :: 0 <= j < |owners| ==> FirstDue(eqs, chosen, cutoff, owners[j]) >= 0) &&
    forall j, j' :: 0 <= j < j' < |owners| ==>
      FirstDue(eqs, chosen, cutoff, owners[j]) < FirstDue(eqs, chosen, cutoff, owners[j'])
  }

  /** The dictionary lists its owners in the order of their first due
      equipment (the insertion order of the Python dict). */
  lemma {:induction false} CollectOwnerOrder(eqs: seq<Equipment>, chosen: seq<Option<Service>>, cutoff: int)
    requires |chosen| <= |eqs|
    ensures InFirstDueOrder(Collect(eqs, chosen, cutoff).owners, eqs, chosen, cutoff)
  {
    if |chosen| > 0 {
      var n := |chosen| - 1;
      var prefix := chosen[..n];
      CollectOwnerOrder(eqs, prefix, cutoff);
      var owners := Collect(eqs, prefix, cutoff).owners;
      forall j | 0 <= j < |owners|
        ensures FirstDue(eqs, chosen, cutoff, owners[j]) == FirstDue(eqs, prefix, cutoff, owners[j])
        ensures 0 <= FirstDue(eqs, chosen, cutoff, owners[j]) < n
      {
        FirstDueStep(eqs, chosen, cutoff, owners[j]);
      }
      var owner := eqs[n].adminUserId;
      CollectOwnersStep(eqs, chosen, cutoff);
      if Collect(eqs, chosen, cutoff).owners == owners {
        assert InFirstDueOrder(owners, eqs, chosen, cutoff);
      } else {
        ListedIffFirstDue(eqs, prefix, cutoff, owner);
        FirstDueStep(eqs, chosen, cutoff, owner);
        AppendInOrder(owners, eqs, chosen, cutoff, owner);
      }
    }
  }

  /** Visiting one more equipment appends its owner to the keys exactly when
      the equipment is due and the owner is not yet a key. */
  lemma CollectOwnersStep(eqs: seq<Equipment>, chosen: seq<Option<Service>>, cutoff: int)
    requires 0 < |chosen| <= |eqs|
    ensures var n := |chosen| - 1;
      var d0 := Collect(eqs, chosen[..n], cutoff);
      var owner := eqs[n].adminUserId;
      Collect(eqs, chosen, cutoff).owners ==
        if Due(eqs[n], chosen[n], cutoff).Some? && owner !in d0.items then d0.owners + [owner] else d0.owners
  {
  }

  /** An owner whose first due equipment comes after every listed owner's may
      be appended. */
  lemma AppendInOrder(owners: seq<int>, eqs: seq<Equipment>, chosen: seq<Option<Service>>, cutoff: int, owner: int)
    requires |chosen| <= |eqs|
    requires FirstDue(eqs, chosen, cutoff, owner) >= 0
    requires forall j :: 0 <= j < |owners| ==> 0 <= FirstDue(eqs, chosen, cutoff, owners[j]) < FirstDue(eqs, chosen, cutoff, owner)
    requires forall j, j' :: 0 <= j < j' < |owners| ==>
      FirstDue(eqs, chosen, cutoff, owners[j]) < FirstDue(eqs, chosen, cutoff, owners[j'])
    ensures InFirstDueOrder(owners + [owner], eqs, chosen, cutoff)
  {
    var o := owners + [owner];
    assert forall j :: 0 <= j < |owners| ==> o[j] == owners[j];
    assert o[|owners|] == owner;
  }

  /** Conversely, every equipment whose latest service is due by the cutoff,
      overdue ones included, is reminded of under its own owner. */
  lemma DueEquipmentReminded(eqs: seq<Equipment>, chosen: seq<Option<Service>>, cutoff: int, i: nat)
    requires i < |chosen| <= |eqs|
    requires chosen[i].Some? && chosen[i].value.nextService.Some?
    requires chosen[i].value.nextService.value <= cutoff
    ensures eqs[i].adminUserId in Collect(eqs, chosen, cutoff).items
    ensures Item(eqs[i].code, eqs[i].kind, chosen[i].value.nextService.value, eqs[i].mileage)
      in Collect(eqs, chosen, cutoff).items[eqs[i].adminUserId]
  {
    CollectGroupsByOwner(eqs, chosen, cutoff);
    var owner := eqs[i].adminUserId;
    var idx := DueIndices(eqs, chosen, cutoff, owner);
    assert i in idx;
    var j :| 0 <= j < |idx| && idx[j] == i;
    assert OwnerItems(eqs, chosen, cutoff, owner)[j] == Due(eqs[i], chosen[i], cutoff).value;
  }

  /** Equipment without any service row produces no item. */
  lemma NoServiceNoItem(eqs: seq<Equipment>, services: seq<Service>, chosen: seq<Option<Service>>, cutoff: int, i: nat)
    requires i < |chosen| <= |eqs|
    requires IsLatestChoice(services, eqs[i].id, chosen[i])
    requires forall s :: s in services ==> s.equipmentId != eqs[i].id
    ensures forall owner :: i !in DueIndices(eqs, chosen, cutoff, owner)
  {
  }

  /** Only the latest service decides: when the equipment's most recent
      service has no next-service date, the equipment produces no item, even
      if an older service carries a date inside the window. */
  lemma OnlyLatestServiceCounts(eqs: seq<Equipment>, services: seq<Service>, chosen: seq<Option<Service>>,
                                cutoff: int, i: nat, newer: Service, older: Service)
    requires i < |chosen| <= |eqs|
    requires IsLatestChoice(services, eqs[i].id, chosen[i])
    requires newer in services && newer.equipmentId == eqs[i].id && newer.nextService.None?
    requires forall t :: t in services && t.equipmentId == eqs[i].id && t != newer ==> !NotLaterThan(newer.date, t.date)
    requires older in services && older.equipmentId == eqs[i].id && older != newer
    requires older.nextService.Some? && older.nextService.value <= cutoff
    ensures forall owner :: i !in DueIndices(eqs, chosen, cutoff, owner)
  {
    var s := chosen[i].value;
    assert NotLaterThan(newer.date, s.date);
    assert s == newer;
  }

  /** The outcome of the rule does not depend on how the query breaks ties,
      provided equally dated services of one equipment agree on their
      next-service date. */
  lemma {:induction false} TieBreakIrrelevant(eqs: seq<Equipment>, services: seq<Service>,
                                              chosen: seq<Option<Service>>, other: seq<Option<Service>>, cutoff: int)
    requires |chosen| == |other| <= |eqs|
    requires forall i :: 0 <= i < |chosen| ==> IsLatestChoice(services, eqs[i].id, chosen[i])
    requires forall i :: 0 <= i < |other| ==> IsLatestChoice(services, eqs[i].id, other[i])
    requires forall s, t :: s in services && t in services && s.equipmentId == t.equipmentId && s.date == t.date ==>
      s.nextService == t.nextService
    ensures Collect(eqs, chosen, cutoff) == Collect(eqs, other, cutoff)
  {
    if |chosen| > 0 {
      var n := |chosen| - 1;
      TieBreakIrrelevant(eqs, services, chosen[..n], other[..n], cutoff);
      LatestDateUnique(services, eqs[n].id, chosen[n], other[n]);
      assert Due(eqs[n], chosen[n], cutoff) == Due(eqs[n], other[n], cutoff);
    }
  }
}
