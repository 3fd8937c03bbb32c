/** The display side of `Hubctl::Enterprise`: the rows printed by
    `members` and `owners`, and what `billing` shows for a usage payload.
    Printing itself is left to the formatter; these functions produce the
    data handed to it. */
module Enterprise {
  import opened Common
  import GitHubClient
  import Billing
  import BaseCommand

  // ---------------------------------------------------------------------
  // members / owners
  // ---------------------------------------------------------------------

  /** The hash built for each member or owner before output (`id` and
      `avatar_url` are always nil and are not carried). */
  datatype DisplayRow = DisplayRow(
    login: Option<string>,
    role: string,
    email: Option<string>,
    twoFactorDisabled: bool,
    samlIdentity: string)

  const MemberHeaders := ["login", "role", "email", "two_factor_disabled", "saml_identity"]
  const OwnerHeaders := ["login", "email", "role", "two_factor_disabled", "saml_identity"]

  /** `value ? 'configured' : 'none'` for a hash value: nil is the only
      falsy value a record can hold here, and every string is truthy. */
  function ConfiguredIfTruthy(value: Option<string>): (r: string)
    ensures r == "configured" <==> value.Some?
    ensures r == "none" <==> value.None?
  {
    if value.Some? then "configured" else "none"
  }

  /** The `members` row as written: the record's `saml_identity` is already
      the string 'configured' or 'none', and it is tested for truthiness. */
  function MemberRowAsWritten(m: GitHubClient.MemberRecord): (r: DisplayRow)
    ensures r.login == m.login && r.role == m.role && r.email == m.email
    ensures r.twoFactorDisabled == m.twoFactorDisabled
    ensures r.samlIdentity == "configured"
  {
    DisplayRow(m.login, m.role, m.email, m.twoFactorDisabled, ConfiguredIfTruthy(Some(m.samlIdentity)))
  }

  /** The `owners` row as written, with the role fixed to 'owner'. */
  function OwnerRowAsWritten(m: GitHubClient.MemberRecord): (r: DisplayRow)
    ensures r.login == m.login && r.role == "owner" && r.email == m.email
    ensures r.twoFactorDisabled == m.twoFactorDisabled
    ensures r.samlIdentity == "configured"
  {
    DisplayRow(m.login, "owner", m.email, m.twoFactorDisabled, ConfiguredIfTruthy(Some(m.samlIdentity)))
  }

  /** As written, every row claims a configured SAML identity. */
  lemma SamlAlwaysConfiguredAsWritten(m: GitHubClient.MemberRecord)
    ensures MemberRowAsWritten(m).samlIdentity == "configured"
    ensures OwnerRowAsWritten(m).samlIdentity == "configured"
  {
  }

  /** A user without any SAML name id: the record says 'none', the row
      printed for it says 'configured'. */
  lemma SamlCounterexample()
    ensures var u := GitHubClient.LicensedUser(Some("octocat"), Some(["Member"]), Some(true), None, None);
            var m := GitHubClient.TransformMemberData(u);
            m.samlIdentity == "none" && MemberRowAsWritten(m).samlIdentity == "configured"
  {
  }

  /** The `members` row, showing the record's SAML status as it is. */
  function MemberRow(m: GitHubClient.MemberRecord): (r: DisplayRow)
    ensures r.login == m.login && r.role == m.role && r.email == m.email
    ensures r.twoFactorDisabled == m.twoFactorDisabled
    ensures r.samlIdentity == m.samlIdentity
  {
    DisplayRow(m.login, m.role, m.email, m.twoFactorDisabled, m.samlIdentity)
  }

  /** The `owners` row: the role column always reads 'owner'. */
  function OwnerRow(m: GitHubClient.MemberRecord): (r: DisplayRow)
    ensures r.login == m.login && r.role == "owner" && r.email == m.email
    ensures r.twoFactorDisabled == m.twoFactorDisabled
    ensures r.samlIdentity == m.samlIdentity
  {
    DisplayRow(m.login, "owner", m.email, m.twoFactorDisabled, m.samlIdentity)
  }

  /** With the correction, a row reads 'configured' exactly for users that
      have a SAML name id. */
  lemma RowShowsSamlStatus(u: GitHubClient.LicensedUser)
    ensures MemberRow(GitHubClient.TransformMemberData(u)).samlIdentity == "configured" <==> u.samlNameId.Some?
    ensures OwnerRow(GitHubClient.TransformMemberData(u)).samlIdentity == "configured" <==> u.samlNameId.Some?
  {
  }

  /** The rows of `members`: one per record, in order. */
  function MemberRows(records: seq<GitHubClient.MemberRecord>): (rows: seq<DisplayRow>)
    ensures |rows| == |records|
    ensures forall i :: 0 <= i < |records| ==> rows[i] == MemberRow(records[i])
  {
    seq(|records|, i requires 0 <= i < |records| => MemberRow(records[i]))
  }

  /** The rows of `owners`: one per record, in order. */
  function OwnerRows(records: seq<GitHubClient.MemberRecord>): (rows: seq<DisplayRow>)
    ensures |rows| == |records|
    ensures forall i :: 0 <= i < |records| ==> rows[i] == OwnerRow(records[i])
  {
    seq(|records|, i requires 0 <= i < |records| => OwnerRow(records[i]))
  }

  /** `owners` lists exactly the enterprise's owners, one row each in input
      order, every row saying 'owner'. */
  lemma OwnerRowsAreOwners(users: seq<GitHubClient.LicensedUser>)
    ensures var r := GitHubClient.EnterpriseOwners(Ok(users));
            var owners := GitHubClient.FilterOwners(users);
            r.Ok? && |OwnerRows(r.value)| == |owners|
            && (forall i :: 0 <= i < |owners| ==>
                  OwnerRows(r.value)[i] == OwnerRow(GitHubClient.TransformMemberData(owners[i])))
            && forall i :: 0 <= i < |r.value| ==> OwnerRows(r.value)[i].role == "owner"
  {
  }

  // ---------------------------------------------------------------------
  // billing
  // ---------------------------------------------------------------------

  /** What `billing` ends with. */
  datatype BillingReport =
    | NoUsage(message: string)
    | Structured(summary: Billing.Summary)
    | Flat(headers: seq<string>, rows: seq<Billing.Row>)
    | Failed(exit: BaseCommand.Exit)

  const FlatHeaders := ["category", "metric", "value"]
  const NoUsagePrefix := "No billing usage data found for enterprise "

  /** The message of the NoMethodError raised by `formatter.json?`. */
  const MissingJsonPredicate := "undefined method 'json?' for an instance of Hubctl::Formatter"

  /** The answer of `enterprise_actions_billing`: the payload's `usageItems`
      (nil when the key is missing), or the client error it raised. */
  type BillingFetch = Result<Option<seq<Billing.UsageItem>>, GitHubClient.ClientError>

  /** `billing_data[:usageItems] || []` */
  function UsageOf(fetched: BillingFetch): seq<Billing.UsageItem>
    requires fetched.Ok?
  {
    fetched.value.GetOr([])
  }

  /** `billing` as written: after building the summary it asks the
      formatter `json?`, a method the formatter does not define, so any
      non-empty usage list ends in the generic error handler. */
  function BillingAsWritten(enterprise: string, fetched: BillingFetch): (r: BillingReport)
    ensures r.Failed? <==> fetched.Err? || |UsageOf(fetched)| > 0
    ensures fetched.Err? ==> r.exit == BaseCommand.HandleError(BaseCommand.ClientFailure(fetched.error))
    ensures r.NoUsage? ==> r.message == NoUsagePrefix + enterprise
    ensures !r.Structured? && !r.Flat?
  {
    match fetched
    case Err(e) => Failed(BaseCommand.HandleError(BaseCommand.ClientFailure(e)))
    case Ok(usageItems) =>
      var items := usageItems.GetOr([]);
      if |items| == 0 then NoUsage(NoUsagePrefix + enterprise)
      else Failed(BaseCommand.HandleError(BaseCommand.Unexpected(MissingJsonPredicate)))
  }

  /** As written, usage data is never shown: the command prints
      "Unexpected error: ..." and exits with status 1. */
  lemma BillingAsWrittenAlwaysFails(enterprise: string, items: seq<Billing.UsageItem>)
    requires |items| > 0
    ensures var r := BillingAsWritten(enterprise, Ok(Some(items)));
            r.Failed? && r.exit.code == 1
            && r.exit.messages[0] == BaseCommand.ErrorLine(BaseCommand.UnexpectedPrefix + MissingJsonPredicate)
  {
  }

  /** `billing` with the format test the code intends: the structured
      summary for `--format json`, the flattened table otherwise; a failed
      fetch goes to `handle_error` as before. */
  function BillingReportFor(enterprise: string, fetched: BillingFetch, format: string)
    : (r: BillingReport)
    ensures r.Failed? <==> fetched.Err?
    ensures r.Failed? ==> r.exit == BaseCommand.HandleError(BaseCommand.ClientFailure(fetched.error))
                          && r.exit.code == 1
    ensures r.NoUsage? <==> fetched.Ok? && |UsageOf(fetched)| == 0
    ensures r.NoUsage? ==> r.message == NoUsagePrefix + enterprise
    ensures r.Structured? <==> fetched.Ok? && |UsageOf(fetched)| > 0 && format == "json"
    ensures r.Structured? ==> r.summary == Billing.Summarize(enterprise, UsageOf(fetched))
    ensures r.Flat? ==> r.headers == FlatHeaders && r.rows == Billing.Flatten(Billing.Summarize(enterprise, UsageOf(fetched)))
  {
    match fetched
    case Err(e) => Failed(BaseCommand.HandleError(BaseCommand.ClientFailure(e)))
    case Ok(usageItems) =>
      var items := usageItems.GetOr([]);
      if |items| == 0 then NoUsage(NoUsagePrefix + enterprise)
      else if format == "json" then Structured(Billing.Summarize(enterprise, items))
      else Flat(FlatHeaders, Billing.Flatten(Billing.Summarize(enterprise, items)))
  }

  /** Both versions agree when the fetch fails or there is nothing to report. */
  lemma BillingVersionsAgreeOnNoUsage(enterprise: string, fetched: BillingFetch, format: string)
    requires fetched.Err? || |UsageOf(fetched)| == 0
    ensures BillingAsWritten(enterprise, fetched) == BillingReportFor(enterprise, fetched, format)
  {
  }

  /** The flattened billing table has the fixed shape: two enterprise
      rows, then two Actions rows and two rows per runner type, three
      Packages rows and two Copilot rows, each section only when that
      product has usage. */
  lemma BillingTableRowCount(enterprise: string, items: seq<Billing.UsageItem>, format: string)
    requires |items| > 0 && format != "json"
    ensures var r := BillingReportFor(enterprise, Ok(Some(items)), format);
            var minutes := Filter(Filter(items, Billing.OfProduct("actions")), Billing.IsMinutes);
            r.Flat? && |r.rows| == 2
              + (if Billing.HasProduct(items, "actions") then 2 + 2 * |Uniq(Billing.SkuList(minutes))| else 0)
              + (if Billing.HasProduct(items, "packages") then 3 else 0)
              + (if Billing.HasProduct(items, "copilot") then 2 else 0)
  {
  }
}
