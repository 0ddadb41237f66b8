/**
  The alert settings row and the part of `send_email` that decides who gets
  the message. The SMTP session itself (connecting, TLS, login, sending) is
  an opaque transport: a function from the settings, the recipient list,
  the subject and the body to a delivery result.
*/
module Mail {
  import opened Wrappers
  import opened Text
  import Digest
  import Thresholds

  /** The single AlertSettings row. */
  datatype AlertSettings = AlertSettings(
    smtpHost: string,
    smtpPort: int,
    security: string,
    smtpUser: Option<string>,
    smtpPass: Option<string>,
    fromEmail: string,
    recipients: string,
    thresholds: string)

  /** The row created at start-up when the table is empty (column defaults). */
  function DefaultSettings(): AlertSettings {
    AlertSettings("smtp.example.com", 587, "starttls", None, None,
      "alertas@example.com", "seuemail@example.com", "15,30,60")
  }

  /**
    The thresholds column's default, "15,30,60", reads as the same list the
    engine falls back to when a token is not an integer.
  */
  lemma DefaultThresholdsAreFallback()
    ensures Thresholds.ParseThresholds(DefaultSettings().thresholds) == Thresholds.DefaultThresholds
  {
    DefaultThresholdsWritten();
    ParseDefaultWritten(DefaultSettings().thresholds);
  }

  /** The default list, written as a setting, reads back as itself. */
  lemma ParseDefaultWritten(setting: string)
    requires setting == Join(Thresholds.ShowAll(Thresholds.DefaultThresholds), ",")
    ensures Thresholds.ParseThresholds(setting) == Thresholds.DefaultThresholds
  {
    Thresholds.ParseWrittenSetting(Thresholds.DefaultThresholds);
    Thresholds.SortedDistinctOfAscending(Thresholds.DefaultThresholds);
  }

  /** "15,30,60" is how `','.join(str(v) for v in [15, 30, 60])` writes the default list. */
  lemma DefaultThresholdsWritten()
    ensures DefaultSettings().thresholds == Join(Thresholds.ShowAll(Thresholds.DefaultThresholds), ",")
  {
    var values := Thresholds.DefaultThresholds;
    assert Show(15) == "15" && Show(30) == "30" && Show(60) == "60";
    var shown := Thresholds.ShowAll(values);
    assert shown == ["15", "30", "60"] by {
      assert values[1..] == [30, 60] && values[1..][1..] == [60] && values[1..][1..][1..] == [];
    }
    assert Join(shown[2..], ",") == "60";
    assert Join(shown[1..], ",") == "30" + "," + "60";
    assert Join(shown, ",") == "15" + "," + ("30" + "," + "60");
  }

  /** The recipients column's default is a single address, the only recipient. */
  lemma DefaultRecipient()
    ensures Recipients(DefaultSettings().recipients) == ["seuemail@example.com"]
  {
    var address := "seuemail@example.com";
    assert ',' !in address;
    assert IsStripped(address);
    RecipientsRoundTrip([address]);
    assert Join([address], ",") == address;
  }

  /**
    With the start-up row, `send_email` always reaches the SMTP session: the
    sender address is ASCII, so `formataddr` does not raise, and the one
    default address is the recipient list handed to the session.
  */
  lemma DefaultSettingsReachTransport(subject: string, body: seq<Digest.DigestLine>, transport: Transport)
    ensures var s := DefaultSettings();
      var r := SendEmail(s, subject, body, transport);
      r.Completed? && (r.status.ok <==> transport(s, ["seuemail@example.com"], subject, body).Delivered?)
  {
    var s := DefaultSettings();
    var from := s.fromEmail;
    assert from == "alertas@example.com";
    assert IsAscii(from) by {
      forall k | 0 <= k < |from| ensures from[k] < '\U{80}' {
      }
    }
    DefaultRecipient();
    assert Recipients(s.recipients) == ["seuemail@example.com"];
  }

  /** What the SMTP session reports: success, or the text of the exception it raised. */
  datatype Delivery = Delivered | Failed(reason: string)

  type Transport = (AlertSettings, seq<string>, string, seq<Digest.DigestLine>) -> Delivery

  /** The `(ok, message)` pairs returned by `send_email` and `run_alerts`. */
  datatype Status = Status(ok: bool, message: Option<string>)

  const NoRecipients := "Sem destinatários"

  /** Every character is ASCII, as `formataddr` demands of the address it formats. */
  predicate IsAscii(s: string) {
    forall k :: 0 <= k < |s| ==> s[k] < '\U{80}'
  }

  /**
    How `send_email` ends: with a returned `(ok, message)` pair, or with the
    `UnicodeEncodeError` that `formataddr` raises for a non-ASCII sender
    address. The header is built before the `try`, so nothing catches it.
  */
  datatype SendOutcome = Completed(status: Status) | AddressNotAscii

  /** `[r.strip() for r in settings.recipients.split(',') if r.strip()]`. */
  function Recipients(field: string): (rs: seq<string>)
    ensures forall k :: 0 <= k < |rs| ==> rs[k] != [] && IsStripped(rs[k])
  {
    CleanTokens(SplitCommas(field))
  }

  /** No recipient holds a comma: each is a trimmed part of one comma-free piece. */
  lemma RecipientsCommaFree(field: string)
    ensures forall a :: a in Recipients(field) ==> ',' !in a
  {
    var pieces := SplitCommas(field);
    forall a | a in Recipients(field) ensures ',' !in a {
      CleanTokensSound(pieces, a);
      var j :| 0 <= j < |pieces| && Strip(pieces[j]) == a;
      StripSpec(pieces[j]);
      var i, k :| 0 <= i <= k <= |pieces[j]| && a == pieces[j][i..k]
        && AllSpace(pieces[j][..i]) && AllSpace(pieces[j][k..]);
      SliceKeepsOut(pieces[j], i, k, ',');
    }
  }

  lemma SliceKeepsOut(s: string, i: int, k: int, c: char)
    requires 0 <= i <= k <= |s| && c !in s
    ensures c !in s[i..k]
  {
    assert forall m :: 0 <= m < k - i ==> s[i..k][m] == s[i + m];
  }

  /**
    An address is a recipient exactly when it is the non-empty trimmed text
    between two commas of the field.
  */
  lemma RecipientsMembers(field: string, address: string)
    ensures address in Recipients(field) ==>
      address != [] && exists k :: 0 <= k < |SplitCommas(field)| && Strip(SplitCommas(field)[k]) == address
    ensures (address != [] && exists k :: 0 <= k < |SplitCommas(field)| && Strip(SplitCommas(field)[k]) == address) ==>
      address in Recipients(field)
  {
    CleanTokensMembers(SplitCommas(field), address);
  }

  /** There is no recipient exactly when the field holds only commas and whitespace. */
  lemma NoRecipientsIffBlank(field: string)
    ensures Recipients(field) == [] <==>
      forall k :: 0 <= k < |field| ==> field[k] == ',' || IsSpace(field[k])
  {
    NoTokensIffBlank(field);
  }

  /**
    A field written as `", ".join(addresses)` or `",".join(addresses)` for
    clean addresses reads back as the same addresses in the same order.
  */
  lemma RecipientsRoundTrip(addresses: seq<string>)
    requires forall k :: 0 <= k < |addresses| ==>
      addresses[k] != [] && IsStripped(addresses[k]) && ',' !in addresses[k]
    ensures Recipients(Join(addresses, ",")) == addresses
  {
    TokensRoundTrip(addresses);
  }

  /**
    `send_email`: with no recipient it fails with "Sem destinatários"; with
    a non-ASCII sender address it raises before connecting; otherwise it
    succeeds with no message exactly when the transport delivers, and fails
    with the transport's error text unchanged.
  */
  function SendEmail(settings: AlertSettings, subject: string, body: seq<Digest.DigestLine>,
                     transport: Transport): (r: SendOutcome)
    ensures Recipients(settings.recipients) == [] ==> r == Completed(Status(false, Some(NoRecipients)))
    ensures Recipients(settings.recipients) != [] && !IsAscii(settings.fromEmail) ==> r == AddressNotAscii
    ensures Recipients(settings.recipients) != [] && IsAscii(settings.fromEmail) ==>
      var d := transport(settings, Recipients(settings.recipients), subject, body);
      r.Completed? && (r.status.ok <==> d.Delivered?)
      && (d.Delivered? ==> r.status.message.None?) && (d.Failed? ==> r.status.message == Some(d.reason))
  {
    var rs := Recipients(settings.recipients);
    if rs == [] then Completed(Status(false, Some(NoRecipients)))
    else if !IsAscii(settings.fromEmail) then AddressNotAscii
    else match transport(settings, rs, subject, body)
      case Delivered => Completed(Status(true, None))
      case Failed(reason) => Completed(Status(false, Some(reason)))
  }

  /**
    With no recipient no connection is attempted: the result does not
    depend on the transport at all.
  */
  lemma NoRecipientsNoConnection(settings: AlertSettings, subject: string, body: seq<Digest.DigestLine>,
                                 t1: Transport, t2: Transport)
    requires forall k :: 0 <= k < |settings.recipients| ==>
      settings.recipients[k] == ',' || IsSpace(settings.recipients[k])
    ensures SendEmail(settings, subject, body, t1) == SendEmail(settings, subject, body, t2)
    ensures SendEmail(settings, subject, body, t1) == Completed(Status(false, Some(NoRecipients)))
  {
    NoRecipientsIffBlank(settings.recipients);
  }
}
