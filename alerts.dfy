/**
  `run_alerts`: one pass of the expiry alert engine. For every configured
  threshold t it lists the licences expiring between today and today + t
  that have no Notification(licence, t) row yet, sends one digest e-mail for
  all of them, and only when the e-mail went out records one Notification
  row per listed (licence, threshold) pair.

  The database is the `AlertStore` class: the settings row, the licence
  table and the Notification ledger. The clock is the `today` parameter and
  the SMTP session is the `transport` parameter.
*/
module Alerts {
  import opened Wrappers
  import opened Text
  import opened Dates
  import opened Licenses
  import opened Thresholds
  import opened Digest
  import opened Mail

  /** One row of the Notification table (its id and `sent_at` are not modelled). */
  datatype Notification = Notification(licenseId: int, threshold: int)

  const NoSettings := "Configurações de alerta não encontradas."
  const NothingToSend := "Nenhum alerta a enviar."
  const Subject := "Alertas de Vencimento de Licenças"

  /**
    How a run ends: a returned `(ok, message)` pair, the OverflowError of a
    `today + timedelta(days=t)` past the calendar, or the UnicodeEncodeError
    `send_email` raises for a non-ASCII sender address (see `Mail.SendOutcome`).
  */
  datatype RunOutcome = Returned(status: Status) | OverflowRaised | AddressErrorRaised

  predicate NoDuplicates<T(==)>(s: seq<T>) {
    forall i, j :: 0 <= i < j < |s| ==> s[i] != s[j]
  }

  /**
    The query `today <= expiry_date <= today + t`: comparing dates is
    comparing ordinals (`Dates.OrdinalIsCalendarOrder`); a NULL expiry
    matches no comparison.
  */
  predicate Due(lic: License, today: CalendarDate, t: int) {
    lic.expiry.Some? && Ordinal(today) <= Ordinal(lic.expiry.value) <= Ordinal(today) + t
  }

  /** The licences listed under threshold t: due and not yet notified for t, in table order. */
  function Selected(licenses: seq<License>, ledger: seq<Notification>, today: CalendarDate, t: int): seq<License> {
    if licenses == [] then []
    else
      var lic := licenses[|licenses| - 1];
      var rest := Selected(licenses[..|licenses| - 1], ledger, today, t);
      if Due(lic, today, t) && Notification(lic.id, t) !in ledger then rest + [lic] else rest
  }

  /** `items_by_threshold` after the selection loops: one group per threshold, in threshold order. */
  function Evaluate(thresholds: seq<int>, licenses: seq<License>, ledger: seq<Notification>,
                    today: CalendarDate): (groups: seq<Group>)
    ensures |groups| == |thresholds|
    ensures forall k :: 0 <= k < |thresholds| ==>
      groups[k] == Group(thresholds[k], Selected(licenses, ledger, today, thresholds[k]))
  {
    if thresholds == [] then []
    else
      var n := |thresholds| - 1;
      Evaluate(thresholds[..n], licenses, ledger, today)
        + [Group(thresholds[n], Selected(licenses, ledger, today, thresholds[n]))]
  }

  /** Some `today + timedelta(days=t)` leaves the calendar and raises. */
  predicate Overflows(thresholds: seq<int>, today: CalendarDate) {
    exists k :: 0 <= k < |thresholds| && !AddDaysInRange(today, thresholds[k])
  }

  /** `not any(items_by_threshold.values())`. */
  predicate NothingDue(groups: seq<Group>) {
    forall k :: 0 <= k < |groups| ==> groups[k].items == []
  }

  /** The rows written for one group, in list order. */
  function Rows(t: int, items: seq<License>): (rows: seq<Notification>)
    ensures |rows| == |items|
    ensures forall j :: 0 <= j < |items| ==> rows[j] == Notification(items[j].id, t)
  {
    if items == [] then [] else Rows(t, items[..|items| - 1]) + [Notification(items[|items| - 1].id, t)]
  }

  /** The rows written after a successful send, group after group. */
  function NewRows(groups: seq<Group>): seq<Notification> {
    if groups == [] then []
    else
      var n := |groups| - 1;
      NewRows(groups[..n]) + Rows(groups[n].threshold, groups[n].items)
  }

  /**
    The whole run as a function of the stored state: its outcome and the
    ledger afterwards.
  */
  function Run(settings: Option<AlertSettings>, licenses: seq<License>, ledger: seq<Notification>,
               today: CalendarDate, transport: Transport): (RunOutcome, seq<Notification>)
  {
    if settings.None? then (Returned(Status(false, Some(NoSettings))), ledger)
    else
      var s := settings.value;
      var thresholds := ParseThresholds(s.thresholds);
      if Overflows(thresholds, today) then (OverflowRaised, ledger)
      else
        var groups := Evaluate(thresholds, licenses, ledger, today);
        if NothingDue(groups) then (Returned(Status(true, Some(NothingToSend))), ledger)
        else
          match SendEmail(s, Subject, DigestLines(groups), transport)
          case AddressNotAscii => (AddressErrorRaised, ledger)
          case Completed(sent) =>
            if !sent.ok then (Returned(sent), ledger)
            else (Returned(Status(true, None)), ledger + NewRows(groups))
  }

  // ---------------------------------------------------------------------
  // Selection
  // ---------------------------------------------------------------------

  /**
    A licence is listed under t exactly when it is in the table, expires
    between today and today + t, and (licence, t) is not in the ledger.
  */
  lemma {:induction false} SelectedMembers(licenses: seq<License>, ledger: seq<Notification>,
                                           today: CalendarDate, t: int, lic: License)
    ensures lic in Selected(licenses, ledger, today, t) <==>
      lic in licenses && Due(lic, today, t) && Notification(lic.id, t) !in ledger
  {
    if licenses != [] {
      var n := |licenses| - 1;
      SelectedMembers(licenses[..n], ledger, today, t, lic);
      assert licenses == licenses[..n] + [licenses[n]];
    }
  }

  /** A (licence, threshold) pair already in the ledger is never listed again. */
  lemma NotifiedNeverListed(licenses: seq<License>, ledger: seq<Notification>,
                            today: CalendarDate, t: int, lic: License)
    requires Notification(lic.id, t) in ledger
    ensures lic !in Selected(licenses, ledger, today, t)
  {
    SelectedMembers(licenses, ledger, today, t, lic);
  }

  /** The same licence is listed under every threshold that reaches its expiry. */
  lemma ListedUnderEveryReachingThreshold(licenses: seq<License>, ledger: seq<Notification>,
                                          today: CalendarDate, t1: int, t2: int, lic: License)
    requires lic in licenses && Due(lic, today, t1) && t1 <= t2
    requires Notification(lic.id, t1) !in ledger && Notification(lic.id, t2) !in ledger
    ensures lic in Selected(licenses, ledger, today, t1) && lic in Selected(licenses, ledger, today, t2)
  {
    SelectedMembers(licenses, ledger, today, t1, lic);
    SelectedMembers(licenses, ledger, today, t2, lic);
  }

  lemma {:induction false} SelectedUniqueIds(licenses: seq<License>, ledger: seq<Notification>,
                                             today: CalendarDate, t: int)
    requires UniqueIds(licenses)
    ensures UniqueIds(Selected(licenses, ledger, today, t))
  {
    if licenses != [] {
      var n := |licenses| - 1;
      var front := licenses[..n];
      SelectedUniqueIds(front, ledger, today, t);
      var rest := Selected(front, ledger, today, t);
      forall i | 0 <= i < |rest| ensures rest[i].id != licenses[n].id {
        SelectedMembers(front, ledger, today, t, rest[i]);
        var m :| 0 <= m < n && front[m] == rest[i];
      }
    }
  }

  lemma {:induction false} SelectedListable(licenses: seq<License>, ledger: seq<Notification>,
                                            today: CalendarDate, t: int)
    ensures forall j :: 0 <= j < |Selected(licenses, ledger, today, t)| ==>
      Due(Selected(licenses, ledger, today, t)[j], today, t)
  {
    if licenses != [] {
      SelectedListable(licenses[..|licenses| - 1], ledger, today, t);
    }
  }

  lemma EvaluateListable(thresholds: seq<int>, licenses: seq<License>, ledger: seq<Notification>,
                         today: CalendarDate)
    ensures Listable(Evaluate(thresholds, licenses, ledger, today))
  {
    forall k | 0 <= k < |thresholds| {
      SelectedListable(licenses, ledger, today, thresholds[k]);
    }
  }

  // ---------------------------------------------------------------------
  // Ledger rows
  // ---------------------------------------------------------------------

  /** Every new row is a listed (licence, threshold) pair. */
  lemma {:induction false} NewRowsSound(groups: seq<Group>, row: Notification)
    requires row in NewRows(groups)
    ensures exists k, j :: (0 <= k < |groups| && 0 <= j < |groups[k].items|
                            && row == Notification(groups[k].items[j].id, groups[k].threshold))
  {
    var n := |groups| - 1;
    var front := groups[..n];
    var last := Rows(groups[n].threshold, groups[n].items);
    assert NewRows(groups) == NewRows(front) + last;
    if row in NewRows(front) {
      NewRowsSound(front, row);
      var k, j :| 0 <= k < n && 0 <= j < |front[k].items|
        && row == Notification(front[k].items[j].id, front[k].threshold);
      assert front[k] == groups[k];
    } else {
      var j :| 0 <= j < |last| && last[j] == row;
      assert row == Notification(groups[n].items[j].id, groups[n].threshold);
    }
  }

  /** Every listed (licence, threshold) pair gets a new row. */
  lemma {:induction false} NewRowsComplete(groups: seq<Group>, k: int, j: int)
    requires 0 <= k < |groups| && 0 <= j < |groups[k].items|
    ensures Notification(groups[k].items[j].id, groups[k].threshold) in NewRows(groups)
  {
    var n := |groups| - 1;
    var front := groups[..n];
    var last := Rows(groups[n].threshold, groups[n].items);
    assert NewRows(groups) == NewRows(front) + last;
    if k < n {
      assert front[k] == groups[k];
      NewRowsComplete(front, k, j);
    } else {
      assert last[j] == Notification(groups[k].items[j].id, groups[k].threshold);
    }
  }

  /** A row is written for exactly the (licence, threshold) pairs listed in the groups. */
  lemma NewRowsMembers(groups: seq<Group>, row: Notification)
    ensures row in NewRows(groups) <==>
      exists k, j :: 0 <= k < |groups| && 0 <= j < |groups[k].items|
        && row == Notification(groups[k].items[j].id, groups[k].threshold)
  {
    if row in NewRows(groups) {
      NewRowsSound(groups, row);
    }
    if exists k, j :: 0 <= k < |groups| && 0 <= j < |groups[k].items|
        && row == Notification(groups[k].items[j].id, groups[k].threshold) {
      var k, j :| 0 <= k < |groups| && 0 <= j < |groups[k].items|
        && row == Notification(groups[k].items[j].id, groups[k].threshold);
      NewRowsComplete(groups, k, j);
    }
  }

  /**
    After a selection, the new rows are exactly the pairs (licence, t) with t
    a threshold, the licence due within t and not notified for t before.
  */
  lemma NewRowsOfEvaluate(thresholds: seq<int>, licenses: seq<License>, ledger: seq<Notification>,
                          today: CalendarDate, row: Notification)
    ensures row in NewRows(Evaluate(thresholds, licenses, ledger, today)) <==>
      row.threshold in thresholds && row !in ledger
      && exists lic :: lic in licenses && lic.id == row.licenseId && Due(lic, today, row.threshold)
  {
    if row in NewRows(Evaluate(thresholds, licenses, ledger, today)) {
      NewRowSound(thresholds, licenses, ledger, today, row);
    }
    if row.threshold in thresholds && row !in ledger
        && exists lic :: lic in licenses && lic.id == row.licenseId && Due(lic, today, row.threshold) {
      var lic :| lic in licenses && lic.id == row.licenseId && Due(lic, today, row.threshold);
      NewRowComplete(thresholds, licenses, ledger, today, lic, row.threshold);
    }
  }

  /** A new row names a threshold, a licence due within it, and was not in the ledger. */
  lemma NewRowSound(thresholds: seq<int>, licenses: seq<License>, ledger: seq<Notification>,
                    today: CalendarDate, row: Notification)
    requires row in NewRows(Evaluate(thresholds, licenses, ledger, today))
    ensures row.threshold in thresholds && row !in ledger
    ensures exists lic :: lic in licenses && lic.id == row.licenseId && Due(lic, today, row.threshold)
  {
    var groups := Evaluate(thresholds, licenses, ledger, today);
    NewRowsMembers(groups, row);
    var k, j :| 0 <= k < |groups| && 0 <= j < |groups[k].items|
      && row == Notification(groups[k].items[j].id, groups[k].threshold);
    var lic := groups[k].items[j];
    SelectedMembers(licenses, ledger, today, thresholds[k], lic);
  }

  /** A licence due within a threshold and not yet notified for it gets a new row. */
  lemma NewRowComplete(thresholds: seq<int>, licenses: seq<License>, ledger: seq<Notification>,
                       today: CalendarDate, lic: License, t: int)
    requires t in thresholds && lic in licenses && Due(lic, today, t) && Notification(lic.id, t) !in ledger
    ensures Notification(lic.id, t) in NewRows(Evaluate(thresholds, licenses, ledger, today))
  {
    var groups := Evaluate(thresholds, licenses, ledger, today);
    var k :| 0 <= k < |thresholds| && thresholds[k] == t;
    SelectedMembers(licenses, ledger, today, t, lic);
    var items := groups[k].items;
    var j :| 0 <= j < |items| && items[j] == lic;
    NewRowsMembers(groups, Notification(lic.id, t));
  }

  lemma NoDuplicatesAppend<T>(a: seq<T>, b: seq<T>)
    requires NoDuplicates(a) && NoDuplicates(b)
    requires forall x :: x in a ==> x !in b
    ensures NoDuplicates(a + b)
  {
    forall i, j | 0 <= i < j < |a + b| ensures (a + b)[i] != (a + b)[j] {
      if i < |a| && j >= |a| {
        assert (a + b)[i] in a && (a + b)[j] == b[j - |a|];
      }
    }
  }

  /** One group's rows are distinct when its licences have distinct ids. */
  lemma RowsDistinct(t: int, items: seq<License>)
    requires UniqueIds(items)
    ensures NoDuplicates(Rows(t, items))
  {
    var rows := Rows(t, items);
    forall i, j | 0 <= i < j < |rows| ensures rows[i] != rows[j] {
      assert rows[i].licenseId == items[i].id && rows[j].licenseId == items[j].id;
    }
  }

  /** Groups with ascending thresholds and distinct ids within each give distinct rows. */
  lemma {:induction false} GroupRowsDistinct(groups: seq<Group>)
    requires forall k, l :: 0 <= k < l < |groups| ==> groups[k].threshold < groups[l].threshold
    requires forall k :: 0 <= k < |groups| ==> UniqueIds(groups[k].items)
    ensures NoDuplicates(NewRows(groups))
  {
    if groups != [] {
      var n := |groups| - 1;
      var front := groups[..n];
      var t := groups[n].threshold;
      var last := Rows(t, groups[n].items);
      assert NewRows(groups) == NewRows(front) + last;
      GroupRowsDistinct(front);
      RowsDistinct(t, groups[n].items);
      forall row | row in NewRows(front) ensures row !in last {
        NewRowsSound(front, row);
        var k, j :| 0 <= k < n && 0 <= j < |front[k].items|
          && row == Notification(front[k].items[j].id, front[k].threshold);
        assert row.threshold == groups[k].threshold < t;
      }
      NoDuplicatesAppend(NewRows(front), last);
    }
  }

  /** With distinct licence ids and thresholds, one run never writes the same row twice. */
  lemma NewRowsDistinct(thresholds: seq<int>, licenses: seq<License>,
                        ledger: seq<Notification>, today: CalendarDate)
    requires UniqueIds(licenses) && StrictlyAscending(thresholds)
    ensures NoDuplicates(NewRows(Evaluate(thresholds, licenses, ledger, today)))
  {
    var groups := Evaluate(thresholds, licenses, ledger, today);
    forall k | 0 <= k < |groups| ensures UniqueIds(groups[k].items) {
      SelectedUniqueIds(licenses, ledger, today, thresholds[k]);
    }
    GroupRowsDistinct(groups);
  }

  // ---------------------------------------------------------------------
  // The run
  // ---------------------------------------------------------------------

  /**
    The ledger changes only when the e-mail was sent, and then it gains
    exactly the new rows of this run's selection.
  */
  lemma LedgerGate(settings: Option<AlertSettings>, licenses: seq<License>, ledger: seq<Notification>,
                   today: CalendarDate, transport: Transport)
    ensures var (outcome, after) := Run(settings, licenses, ledger, today, transport);
      (after == ledger || outcome == Returned(Status(true, None)))
      && (outcome == Returned(Status(true, None)) ==>
            settings.Some? && after == ledger + NewRows(Evaluate(ParseThresholds(settings.value.thresholds), licenses, ledger, today)))
  {
    if settings.Some? {
      var s := settings.value;
      var thresholds := ParseThresholds(s.thresholds);
      if !Overflows(thresholds, today) {
        var groups := Evaluate(thresholds, licenses, ledger, today);
        if !NothingDue(groups) {
          var sent := SendEmail(s, Subject, DigestLines(groups), transport);
          assert Run(settings, licenses, ledger, today, transport)
            == if sent.AddressNotAscii? then (AddressErrorRaised, ledger)
               else if sent.status.ok then (Returned(Status(true, None)), ledger + NewRows(groups))
               else (Returned(sent.status), ledger);
        }
      }
    }
  }

  /**
    When nothing is due the run reports "Nenhum alerta a enviar.", leaves the
    ledger alone, and never reaches the transport: any transport gives the
    same result.
  */
  lemma NothingDueSendsNothing(s: AlertSettings, licenses: seq<License>, ledger: seq<Notification>,
                               today: CalendarDate, t1: Transport, t2: Transport)
    requires !Overflows(ParseThresholds(s.thresholds), today)
    requires NothingDue(Evaluate(ParseThresholds(s.thresholds), licenses, ledger, today))
    ensures Run(Some(s), licenses, ledger, today, t1) == (Returned(Status(true, Some(NothingToSend))), ledger)
    ensures Run(Some(s), licenses, ledger, today, t1) == Run(Some(s), licenses, ledger, today, t2)
  {
  }

  /** A failed delivery is reported with the transport's error text and leaves the ledger unchanged. */
  lemma FailedSendKeepsLedger(s: AlertSettings, licenses: seq<License>, ledger: seq<Notification>,
                              today: CalendarDate, transport: Transport, reason: string)
    requires !Overflows(ParseThresholds(s.thresholds), today)
    requires Recipients(s.recipients) != []
    requires var groups := Evaluate(ParseThresholds(s.thresholds), licenses, ledger, today);
      transport(s, Recipients(s.recipients), Subject, DigestLines(groups)) == Failed(reason)
    ensures Run(Some(s), licenses, ledger, today, transport).1 == ledger
    ensures var groups := Evaluate(ParseThresholds(s.thresholds), licenses, ledger, today);
      !NothingDue(groups) && IsAscii(s.fromEmail) ==>
        Run(Some(s), licenses, ledger, today, transport).0 == Returned(Status(false, Some(reason)))
  {
  }

  /**
    A non-ASCII sender address ends the run with the UnicodeEncodeError of
    `formataddr`, before any connection and with the ledger unchanged.
  */
  lemma NonAsciiSenderRaises(s: AlertSettings, licenses: seq<License>, ledger: seq<Notification>,
                             today: CalendarDate, transport: Transport)
    requires !Overflows(ParseThresholds(s.thresholds), today)
    requires !NothingDue(Evaluate(ParseThresholds(s.thresholds), licenses, ledger, today))
    requires Recipients(s.recipients) != [] && !IsAscii(s.fromEmail)
    ensures Run(Some(s), licenses, ledger, today, transport) == (AddressErrorRaised, ledger)
  {
  }

  /**
    Idempotence: after a successful run, a second run with the same day and
    the same data finds nothing to send, whatever the transport, and leaves
    the ledger as the first run left it.
  */
  lemma SecondRunSendsNothing(s: AlertSettings, licenses: seq<License>, ledger: seq<Notification>,
                              today: CalendarDate, t1: Transport, t2: Transport)
    requires Run(Some(s), licenses, ledger, today, t1).0 == Returned(Status(true, None))
    ensures var after := Run(Some(s), licenses, ledger, today, t1).1;
      Run(Some(s), licenses, after, today, t2) == (Returned(Status(true, Some(NothingToSend))), after)
  {
    var thresholds := ParseThresholds(s.thresholds);
    var groups := Evaluate(thresholds, licenses, ledger, today);
    var after := ledger + NewRows(groups);
    LedgerGate(Some(s), licenses, ledger, today, t1);
    assert !Overflows(thresholds, today);
    NothingLeft(thresholds, licenses, ledger, today);
    NothingDueSendsNothing(s, licenses, after, today, t2, t2);
  }

  /** Once the new rows are in the ledger, the same selection finds nothing. */
  lemma NothingLeft(thresholds: seq<int>, licenses: seq<License>, ledger: seq<Notification>, today: CalendarDate)
    ensures NothingDue(Evaluate(thresholds, licenses, ledger + NewRows(Evaluate(thresholds, licenses, ledger, today)), today))
  {
    var after := ledger + NewRows(Evaluate(thresholds, licenses, ledger, today));
    var again := Evaluate(thresholds, licenses, after, today);
    forall k | 0 <= k < |again| ensures again[k].items == [] {
      var t := thresholds[k];
      if again[k].items != [] {
        var lic := again[k].items[0];
        SelectedMembers(licenses, after, today, t, lic);
        SelectedMembers(licenses, ledger, today, t, lic);
        NewRowsOfEvaluate(thresholds, licenses, ledger, today, Notification(lic.id, t));
        assert false;
      }
    }
  }

  /** The ledger never holds the same (licence, threshold) row twice. */
  lemma RunKeepsLedgerDistinct(settings: Option<AlertSettings>, licenses: seq<License>,
                               ledger: seq<Notification>, today: CalendarDate, transport: Transport)
    requires UniqueIds(licenses) && NoDuplicates(ledger)
    ensures NoDuplicates(Run(settings, licenses, ledger, today, transport).1)
  {
    LedgerGate(settings, licenses, ledger, today, transport);
    if settings.Some? {
      var thresholds := ParseThresholds(settings.value.thresholds);
      var groups := Evaluate(thresholds, licenses, ledger, today);
      NewRowsDistinct(thresholds, licenses, ledger, today);
      forall row | row in ledger ensures row !in NewRows(groups) {
        if row in NewRows(groups) {
          NewRowSound(thresholds, licenses, ledger, today, row);
        }
      }
      NoDuplicatesAppend(ledger, NewRows(groups));
    }
  }

  /**
    A licence due within the smaller of two thresholds is listed under both:
    on 2024-01-01 with thresholds 15 and 30, a licence expiring on
    2024-01-10 appears in the 15-day and in the 30-day list.
  */
  lemma ListedUnderBothThresholds(lic: License)
    requires lic.expiry == Some(Date(2024, 1, 10))
    ensures var groups := Evaluate([15, 30], [lic], [], Date(2024, 1, 1));
      groups == [Group(15, [lic]), Group(30, [lic])]
  {
    var today: CalendarDate := Date(2024, 1, 1);
    assert Ordinal(lic.expiry.value) == Ordinal(today) + 9;
    assert Selected([lic], [], today, 15) == [lic];
    assert Selected([lic], [], today, 30) == [lic];
  }

  // ---------------------------------------------------------------------
  // The store
  // ---------------------------------------------------------------------

  lemma AppendAssoc<T>(a: seq<T>, b: seq<T>, c: seq<T>)
    ensures a + (b + c) == (a + b) + c
  {
  }

  /** The settings row, the licence table and the Notification ledger. */
  class AlertStore {
    var settings: Option<AlertSettings>
    var licenses: seq<License>
    var ledger: seq<Notification>

    /** Licence ids are a primary key, and no ledger row is written twice. */
    ghost predicate Valid()
      reads this
    {
      UniqueIds(licenses) && NoDuplicates(ledger)
    }

    constructor(settings: Option<AlertSettings>, licenses: seq<License>)
      requires UniqueIds(licenses)
      ensures Valid()
      ensures this.settings == settings && this.licenses == licenses && ledger == []
    {
      this.settings := settings;
      this.licenses := licenses;
      ledger := [];
    }

    /**
      The selection loops: for each threshold the end date is computed
      (None when it overflows) and the due, not yet notified licences are
      listed by `SelectFor`.
    */
    method SelectDue(thresholds: seq<int>, today: CalendarDate) returns (selection: Option<seq<Group>>)
      ensures Overflows(thresholds, today) ==> selection.None?
      ensures !Overflows(thresholds, today) ==> selection == Some(Evaluate(thresholds, licenses, ledger, today))
    {
      var groups: seq<Group> := [];
      for i := 0 to |thresholds|
        invariant groups == Evaluate(thresholds[..i], licenses, ledger, today)
        invariant forall k :: 0 <= k < i ==> AddDaysInRange(today, thresholds[k])
      {
        var t := thresholds[i];
        if !AddDaysInRange(today, t) {
          return None;
        }
        var items := SelectFor(t, today);
        assert thresholds[..i + 1][..i] == thresholds[..i] && thresholds[..i + 1][i] == t;
        groups := groups + [Group(t, items)];
      }
      assert thresholds[..|thresholds|] == thresholds;
      return Some(groups);
    }

    /** The inner selection loop: the licences due within t and not yet notified for t, in table order. */
    method SelectFor(t: int, today: CalendarDate) returns (items: seq<License>)
      ensures items == Selected(licenses, ledger, today, t)
    {
      items := [];
      for j := 0 to |licenses|
        invariant items == Selected(licenses[..j], ledger, today, t)
      {
        var lic := licenses[j];
        assert licenses[..j + 1][..j] == licenses[..j];
        if Due(lic, today, t) && Notification(lic.id, t) !in ledger {
          items := items + [lic];
        }
      }
      assert licenses[..|licenses|] == licenses;
    }

    /**
      The loop that adds one Notification row per listed (licence, threshold)
      pair. It is a step of `RunAlerts`, which calls it with the rows of the
      current selection: those are distinct and new, so `Valid` is kept.
    */
    method RecordSent(groups: seq<Group>)
      modifies this`ledger
      ensures ledger == old(ledger) + NewRows(groups)
      ensures (old(Valid()) && NoDuplicates(NewRows(groups))
               && (forall row :: row in old(ledger) ==> row !in NewRows(groups))) ==> Valid()
    {
      for i := 0 to |groups|
        invariant ledger == old(ledger) + NewRows(groups[..i])
      {
        ghost var start := ledger;
        var t := groups[i].threshold;
        var items := groups[i].items;
        for j := 0 to |items|
          invariant ledger == start + Rows(t, items[..j])
        {
          assert items[..j + 1][..j] == items[..j];
          AppendAssoc(start, Rows(t, items[..j]), [Notification(items[j].id, t)]);
          ledger := ledger + [Notification(items[j].id, t)];
        }
        assert items[..|items|] == items;
        assert groups[..i + 1][..i] == groups[..i];
        AppendAssoc(old(ledger), NewRows(groups[..i]), Rows(t, items));
      }
      assert groups[..|groups|] == groups;
      if old(Valid()) && NoDuplicates(NewRows(groups))
         && (forall row :: row in old(ledger) ==> row !in NewRows(groups)) {
        NoDuplicatesAppend(old(ledger), NewRows(groups));
      }
    }

    /** `run_alerts()` on this store, on day `today`, sending through `transport`. */
    method RunAlerts(today: CalendarDate, transport: Transport) returns (outcome: RunOutcome)
      requires Valid()
      modifies this`ledger
      ensures Valid()
      ensures (outcome, ledger) == Run(settings, licenses, old(ledger), today, transport)
    {
      RunKeepsLedgerDistinct(settings, licenses, ledger, today, transport);
      if settings.None? {
        return Returned(Status(false, Some(NoSettings)));
      }
      var s := settings.value;
      var thresholds := ParseThresholds(s.thresholds);
      var selection := SelectDue(thresholds, today);
      if selection.None? {
        assert Overflows(thresholds, today);
        return OverflowRaised;
      }
      var groups := selection.value;
      assert groups == Evaluate(thresholds, licenses, ledger, today);
      if NothingDue(groups) {
        return Returned(Status(true, Some(NothingToSend)));
      }
      EvaluateListable(thresholds, licenses, ledger, today);
      outcome := Deliver(s, groups, transport);
    }

    /**
      Sending the digest and, only when it went out, recording one row per
      listed (licence, threshold) pair. It is a step of `RunAlerts`, which
      re-establishes `Valid` through `RunKeepsLedgerDistinct`.
    */
    method Deliver(s: AlertSettings, groups: seq<Group>, transport: Transport) returns (outcome: RunOutcome)
      requires Listable(groups)
      modifies this`ledger
      ensures var sent := SendEmail(s, Subject, DigestLines(groups), transport);
        if sent.AddressNotAscii? then outcome == AddressErrorRaised && ledger == old(ledger)
        else if sent.status.ok then outcome == Returned(Status(true, None)) && ledger == old(ledger) + NewRows(groups)
        else outcome == Returned(sent.status) && ledger == old(ledger)
    {
      var body := FormatDigest(groups);
      var sent := SendEmail(s, Subject, body, transport);
      if sent.AddressNotAscii? {
        return AddressErrorRaised;
      }
      if !sent.status.ok {
        return Returned(sent.status);
      }
      RecordSent(groups);
      return Returned(Status(true, None));
    }
  }
}
