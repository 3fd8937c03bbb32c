/** The decision logic of `Hubctl::GitHubClient`: reading the
    consumed-licenses payload page by page, filtering enterprise users by
    role and 2FA status, projecting them to member records, and turning
    Octokit errors into the client's own two error kinds. The HTTP layer is
    replaced by a page oracle handed in as an argument. */
module GitHubClient {
  import opened Common

  /** One element of the `users` array of the consumed-licenses endpoint.
      Every field may be missing (nil) in the payload. */
  datatype LicensedUser = LicensedUser(
    login: Option<string>,
    roles: Option<seq<string>>,
    twoFactor: Option<bool>,
    samlNameId: Option<string>,
    verifiedEmails: Option<seq<string>>)

  /** The projection `transform_member_data` builds; its `id` and
      `avatar_url` keys are always nil and are not carried here. */
  datatype MemberRecord = MemberRecord(
    login: Option<string>,
    role: string,
    email: Option<string>,
    twoFactorDisabled: bool,
    samlIdentity: string)

  /** The options `enterprise_members` reads: `:role` and `:two_factor_disabled`. */
  datatype MemberOptions = MemberOptions(role: Option<string>, twoFactorDisabled: bool)

  /** A JSON boolean is truthy in Ruby exactly when it is `true`. */
  predicate Truthy(b: Option<bool>) {
    b == Some(true)
  }

  /** `user[:github_com_enterprise_roles]&.include?(role)`: false when the roles are nil. */
  predicate HasRole(u: LicensedUser, role: string) {
    u.roles.Some? && role in u.roles.value
  }

  // ---------------------------------------------------------------------
  // Role priority
  // ---------------------------------------------------------------------

  /** `determine_user_role`: the first of Owner, Member, Outside collaborator,
      Pending invitation present in the list decides the role. */
  function DetermineUserRole(roles: seq<string>): (r: string)
    ensures r == "admin" <==> "Owner" in roles
    ensures r == "member" <==> "Owner" !in roles && "Member" in roles
    ensures r == "collaborator" <==>
              "Owner" !in roles && "Member" !in roles && "Outside collaborator" in roles
    ensures r == "pending" <==>
              "Owner" !in roles && "Member" !in roles && "Outside collaborator" !in roles
              && "Pending invitation" in roles
    ensures r == "unknown" <==>
              "Owner" !in roles && "Member" !in roles && "Outside collaborator" !in roles
              && "Pending invitation" !in roles
  {
    if "Owner" in roles then "admin"
    else if "Member" in roles then "member"
    else if "Outside collaborator" in roles then "collaborator"
    else if "Pending invitation" in roles then "pending"
    else "unknown"
  }

  /** Owner outranks every other role, whatever else the list holds. */
  lemma OwnerDominates(roles: seq<string>, extra: seq<string>)
    requires "Owner" in roles
    ensures DetermineUserRole(extra + roles) == "admin"
    ensures DetermineUserRole(roles + extra) == "admin"
  {
    assert "Owner" in extra + roles by { assert (extra + roles)[|extra| + FirstPos(roles, "Owner")] == "Owner"; }
    assert "Owner" in roles + extra by { assert (roles + extra)[FirstPos(roles, "Owner")] == "Owner"; }
  }

  // ---------------------------------------------------------------------
  // Filters
  // ---------------------------------------------------------------------

  /** `filter_owners`: exactly the users whose roles include Owner, in input order. */
  function FilterOwners(users: seq<LicensedUser>): (r: seq<LicensedUser>)
    ensures IsSubseq(r, users)
    ensures forall u :: u in r <==> u in users && HasRole(u, "Owner")
    ensures forall u :: multiset(r)[u] == if HasRole(u, "Owner") then multiset(users)[u] else 0
  {
    Filter(users, IsOwner)
  }

  predicate IsOwner(u: LicensedUser) {
    HasRole(u, "Owner")
  }

  /** A member in the sense of the 'member' filter: Member but not Owner;
      a user with nil roles is not one. */
  predicate IsPlainMember(u: LicensedUser) {
    HasRole(u, "Member") && !HasRole(u, "Owner")
  }

  /** Ruby's `String#downcase` on ASCII letters. */
  function Downcase(s: string): (r: string)
    ensures |r| == |s|
  {
    seq(|s|, i requires 0 <= i < |s| => if 'A' <= s[i] <= 'Z' then (s[i] as int + 32) as char else s[i])
  }

  /** `filter_by_role`: the role string is compared case-insensitively. */
  function FilterByRole(members: seq<LicensedUser>, role: string): (r: seq<LicensedUser>)
    ensures IsSubseq(r, members)
    ensures Downcase(role) == "admin" || Downcase(role) == "owner" ==>
              forall u :: u in r <==> u in members && HasRole(u, "Owner")
    ensures Downcase(role) == "member" ==>
              forall u :: u in r <==> u in members && IsPlainMember(u)
    ensures Downcase(role) != "admin" && Downcase(role) != "owner" && Downcase(role) != "member" ==>
              r == members
  {
    var key := Downcase(role);
    if key == "admin" || key == "owner" then FilterOwners(members)
    else if key == "member" then Filter(members, IsPlainMember)
    else
      SubseqRefl(members);
      members
  }

  /** Whether a single user passes the role filter for `role`. */
  predicate RoleAdmits(role: string, u: LicensedUser) {
    var key := Downcase(role);
    if key == "admin" || key == "owner" then HasRole(u, "Owner")
    else if key == "member" then IsPlainMember(u)
    else true
  }

  /** `RoleAdmits` as a selection test. */
  function RoleTest(role: string): LicensedUser -> bool {
    u => RoleAdmits(role, u)
  }

  /** The 2FA filter keeps users whose 2FA flag is not truthy. */
  predicate TwoFactorOff(u: LicensedUser) {
    !Truthy(u.twoFactor)
  }

  /** Whether a single user survives the options, judged on its own: the
      independent reading of `filter_members_by_options`. */
  predicate Admits(opts: MemberOptions, u: LicensedUser) {
    && (opts.role.Some? ==> RoleAdmits(opts.role.value, u))
    && (opts.twoFactorDisabled ==> !Truthy(u.twoFactor))
  }

  /** `Admits` as a selection test. */
  function AdmitsTest(opts: MemberOptions): LicensedUser -> bool {
    u => Admits(opts, u)
  }

  /** `filter_members_by_options`: the role filter, then the 2FA filter. */
  function FilterMembersByOptions(users: seq<LicensedUser>, opts: MemberOptions): (r: seq<LicensedUser>)
    ensures IsSubseq(r, users)
    ensures opts.role.None? && !opts.twoFactorDisabled ==> r == users
    ensures opts.twoFactorDisabled ==> forall u :: u in r ==> !Truthy(u.twoFactor)
  {
    var byRole := if opts.role.Some? then FilterByRole(users, opts.role.value) else users;
    SubseqRefl(users);
    if opts.twoFactorDisabled then
      var r := Filter(byRole, TwoFactorOff);
      SubseqTrans(r, byRole, users);
      r
    else byRole
  }

  /** The role filter keeps exactly the users `RoleAdmits` accepts. */
  lemma FilterByRoleIsPointwise(users: seq<LicensedUser>, role: string)
    ensures FilterByRole(users, role) == Filter(users, RoleTest(role))
  {
    var key := Downcase(role);
    if key == "admin" || key == "owner" {
      FilterExt(users, IsOwner, RoleTest(role));
    } else if key == "member" {
      FilterExt(users, IsPlainMember, RoleTest(role));
    } else {
      FilterAll(users, RoleTest(role));
    }
  }

  /** Running the two filters one after the other keeps exactly the users
      `Admits` accepts, in input order. */
  lemma FilterMembersByOptionsIsPointwise(users: seq<LicensedUser>, opts: MemberOptions)
    ensures FilterMembersByOptions(users, opts) == Filter(users, AdmitsTest(opts))
  {
    if opts.role.Some? {
      var role := opts.role.value;
      FilterByRoleIsPointwise(users, role);
      if opts.twoFactorDisabled {
        assert FilterMembersByOptions(users, opts) == Filter(FilterByRole(users, role), TwoFactorOff);
        FilterFilter(users, RoleTest(role), TwoFactorOff, AdmitsTest(opts));
      } else {
        FilterExt(users, RoleTest(role), AdmitsTest(opts));
      }
    } else if opts.twoFactorDisabled {
      FilterExt(users, TwoFactorOff, AdmitsTest(opts));
    } else {
      FilterAll(users, AdmitsTest(opts));
    }
  }

  // ---------------------------------------------------------------------
  // Member projection
  // ---------------------------------------------------------------------

  /** `transform_member_data`. */
  function TransformMemberData(m: LicensedUser): (r: MemberRecord)
    ensures r.login == m.login
    ensures r.twoFactorDisabled <==> !Truthy(m.twoFactor)
    ensures r.samlIdentity == "configured" <==> m.samlNameId.Some?
    ensures r.samlIdentity == "none" <==> m.samlNameId.None?
    ensures r.email.Some? <==> m.verifiedEmails.Some? && |m.verifiedEmails.value| > 0
    ensures r.email.Some? ==> r.email.value == m.verifiedEmails.value[0]
    ensures m.roles.None? ==> r.role == "unknown"
    ensures r.role == "admin" <==> HasRole(m, "Owner")
    ensures r.role == DetermineUserRole(m.roles.GetOr([]))
  {
    var roles := m.roles.GetOr([]);
    MemberRecord(
      m.login,
      DetermineUserRole(roles),
      if m.verifiedEmails.Some? && |m.verifiedEmails.value| > 0 then Some(m.verifiedEmails.value[0]) else None,
      !Truthy(m.twoFactor),
      if m.samlNameId.Some? then "configured" else "none")
  }

  /** `members.map { |member| transform_member_data(member) }`. */
  function TransformAll(users: seq<LicensedUser>): (r: seq<MemberRecord>)
    ensures |r| == |users|
    ensures forall i :: 0 <= i < |users| ==> r[i] == TransformMemberData(users[i])
  {
    seq(|users|, i requires 0 <= i < |users| => TransformMemberData(users[i]))
  }

  // ---------------------------------------------------------------------
  // Pagination over the consumed-licenses endpoint
  // ---------------------------------------------------------------------

  const PerPage: nat := 100
  const MaxPages: nat := 50

  /** The answer to one GET of a consumed-licenses page: a payload whose
      `users` may be nil, or an Octokit error. */
  datatype PageResponse = Page(users: Option<seq<LicensedUser>>) | Raised(error: OctokitError)

  /** `response[:users] || []`. */
  function PageUsers(r: PageResponse): seq<LicensedUser> {
    if r.Page? then r.users.GetOr([]) else []
  }

  /** A page after which the loop asks for the next one. */
  predicate IsFullPage(r: PageResponse) {
    r.Page? && |PageUsers(r)| >= PerPage
  }

  /** The users of pages 1..n, in page order. */
  function PagesUpTo(respond: nat -> PageResponse, n: nat): seq<LicensedUser> {
    if n == 0 then [] else PagesUpTo(respond, n - 1) + PageUsers(respond(n))
  }

  /** `fetch_all_enterprise_users`: requests pages 1, 2, ... and stops after
      the first short page or after page 50; an error on any page ends the
      whole fetch with that error. `requested` is the last page asked for. */
  method FetchAllEnterpriseUsers(respond: nat -> PageResponse)
    returns (r: Result<seq<LicensedUser>, OctokitError>, requested: nat)
    ensures 1 <= requested <= MaxPages
    ensures forall p :: 1 <= p < requested ==> IsFullPage(respond(p))
    ensures r.Err? <==> respond(requested).Raised?
    ensures r.Err? ==> r.error == respond(requested).error
    ensures r.Ok? ==> r.value == PagesUpTo(respond, requested)
    ensures r.Ok? ==> requested == MaxPages || !IsFullPage(respond(requested))
  {
    var all: seq<LicensedUser> := [];
    var page: nat := 1;
    while true
      invariant 1 <= page <= MaxPages
      invariant forall p :: 1 <= p < page ==> IsFullPage(respond(p))
      invariant all == PagesUpTo(respond, page - 1)
      decreases MaxPages - page
    {
      var response := respond(page);
      if response.Raised? {
        return Err(response.error), page;
      }
      var usersInPage := PageUsers(response);
      all := all + usersInPage;
      if |usersInPage| < PerPage {
        return Ok(all), page;
      }
      if page + 1 > MaxPages {
        return Ok(all), page;
      }
      page := page + 1;
    }
  }

  /** A page oracle that answers full pages until page `k`, which is short. */
  lemma {:induction false} FetchLengthWhenShortPage(respond: nat -> PageResponse, k: nat)
    requires 1 <= k
    requires forall p :: 1 <= p < k ==> respond(p).Page? && |PageUsers(respond(p))| == PerPage
    ensures |PagesUpTo(respond, k - 1)| == PerPage * (k - 1)
    decreases k
  {
    if k > 1 {
      FetchLengthWhenShortPage(respond, k - 1);
    }
  }

  // ---------------------------------------------------------------------
  // Errors
  // ---------------------------------------------------------------------

  /** The Octokit error classes `handle_api_error` tells apart; `Other`
      stands for every remaining `Octokit::Error`. */
  datatype ErrorClass = Unauthorized | NotFound | Forbidden | TooManyRequests | UnprocessableEntity | Other

  /** Ruby's `is_a?` over Octokit's hierarchy, in which
      `Octokit::TooManyRequests` is declared a subclass of `Octokit::Forbidden`. */
  predicate IsA(c: ErrorClass, k: ErrorClass) {
    c == k || (c == TooManyRequests && k == Forbidden)
  }

  /** One entry of the `errors` array of a 422 response. */
  datatype ErrorDetail = ErrorDetail(message: Option<string>)

  datatype OctokitError = OctokitError(cls: ErrorClass, message: string, errors: Option<seq<ErrorDetail>>)

  /** The two exception classes the client raises. */
  datatype ClientError = AuthenticationError(message: string) | APIError(message: string)

  const AuthFailedMessage := "GitHub authentication failed. Please check your token."
  const NotFoundMessage := "Resource not found. Please check the name and your permissions."
  const ForbiddenMessage := "Access forbidden. You may not have the required permissions."
  const RateLimitMessage := "Rate limit exceeded. Please try again later."

  /** Every detail's message, a nil message read as "" (which the
      extraction drops together with the empty ones). */
  function MessageTexts(details: seq<ErrorDetail>): seq<string>
    decreases |details|
  {
    if |details| == 0 then [] else [details[0].message.GetOr("")] + MessageTexts(details[1..])
  }

  /** `extract_error_messages`: the non-nil, non-empty messages, in order. */
  function ExtractErrorMessages(errors: Option<seq<ErrorDetail>>): (r: seq<string>)
    ensures errors.None? ==> r == []
    ensures errors.Some? ==> r == Filter(MessageTexts(errors.value), (s: string) => s != "")
    ensures forall m :: m in r ==> m != ""
  {
    if errors.None? then [] else NonEmptyMessages(errors.value)
  }

  function NonEmptyMessages(details: seq<ErrorDetail>): (r: seq<string>)
    ensures r == Filter(MessageTexts(details), (s: string) => s != "")
    decreases |details|
  {
    if |details| == 0 then []
    else
      var rest := NonEmptyMessages(details[1..]);
      var texts := MessageTexts(details);
      assert texts[0] == details[0].message.GetOr("");
      assert texts[1..] == MessageTexts(details[1..]);
      match details[0].message
      case Some(m) => if m != "" then [m] + rest else rest
      case None => rest
  }

  /** `handle_unprocessable_entity_error`'s text. */
  function UnprocessableMessage(e: OctokitError): (r: string)
    ensures |ExtractErrorMessages(e.errors)| == 0 ==> r == "Request failed: " + e.message
    ensures |ExtractErrorMessages(e.errors)| > 0 ==>
              r == "Request failed: " + Join(ExtractErrorMessages(e.errors), ", ")
  {
    var msgs := ExtractErrorMessages(e.errors);
    "Request failed: " + (if |msgs| > 0 then Join(msgs, ", ") else e.message)
  }

  /** `handle_api_error` as written: Ruby's `case` tests `is_a?` in order,
      so a TooManyRequests error is caught by the Forbidden branch. */
  function HandleApiErrorAsWritten(e: OctokitError): (r: ClientError)
    ensures r.AuthenticationError? <==> e.cls == Unauthorized
    ensures e.cls == NotFound ==> r == APIError(NotFoundMessage)
    ensures e.cls == Forbidden || e.cls == TooManyRequests ==> r == APIError(ForbiddenMessage)
    ensures e.cls == UnprocessableEntity ==> r == APIError(UnprocessableMessage(e))
    ensures e.cls == Other ==> r == APIError("GitHub API error: " + e.message)
  {
    if IsA(e.cls, Unauthorized) then AuthenticationError(AuthFailedMessage)
    else if IsA(e.cls, NotFound) then APIError(NotFoundMessage)
    else if IsA(e.cls, Forbidden) then APIError(ForbiddenMessage)
    else if IsA(e.cls, TooManyRequests) then APIError(RateLimitMessage)
    else if IsA(e.cls, UnprocessableEntity) then APIError(UnprocessableMessage(e))
    else APIError("GitHub API error: " + e.message)
  }

  /** The rate-limit branch of `handle_api_error` cannot be reached. */
  lemma RateLimitBranchUnreachable(m: string, details: Option<seq<ErrorDetail>>)
    ensures HandleApiErrorAsWritten(OctokitError(TooManyRequests, m, details)) == APIError(ForbiddenMessage)
    ensures forall e :: HandleApiErrorAsWritten(e) != APIError(RateLimitMessage)
  {
    assert RateLimitMessage[1] == 'a';
    forall e ensures HandleApiErrorAsWritten(e) != APIError(RateLimitMessage) {
      var msg := HandleApiErrorAsWritten(e).message;
      if e.cls == UnprocessableEntity {
        assert msg[1] == 'e';
      } else if e.cls == Other {
        assert msg[0] == 'G';
      } else if e.cls != Unauthorized {
        assert |msg| != |RateLimitMessage|;
      }
    }
  }

  /** `handle_api_error` with the rate-limit test placed before the
      Forbidden one, so that every class reaches its own branch. */
  function HandleApiError(e: OctokitError): (r: ClientError)
    ensures r.AuthenticationError? <==> e.cls == Unauthorized
    ensures r.AuthenticationError? ==> r.message == AuthFailedMessage
    ensures e.cls == NotFound ==> r == APIError(NotFoundMessage)
    ensures e.cls == Forbidden ==> r == APIError(ForbiddenMessage)
    ensures e.cls == TooManyRequests ==> r == APIError(RateLimitMessage)
    ensures e.cls == UnprocessableEntity ==> r == APIError(UnprocessableMessage(e))
    ensures e.cls == Other ==> r == APIError("GitHub API error: " + e.message)
  {
    if IsA(e.cls, Unauthorized) then AuthenticationError(AuthFailedMessage)
    else if IsA(e.cls, NotFound) then APIError(NotFoundMessage)
    else if e.cls == TooManyRequests then APIError(RateLimitMessage)
    else if IsA(e.cls, Forbidden) then APIError(ForbiddenMessage)
    else if IsA(e.cls, UnprocessableEntity) then APIError(UnprocessableMessage(e))
    else APIError("GitHub API error: " + e.message)
  }

  /** Apart from rate limiting, the corrected classification is the written one. */
  lemma HandleApiErrorAgreesOffRateLimit(e: OctokitError)
    requires e.cls != TooManyRequests
    ensures HandleApiError(e) == HandleApiErrorAsWritten(e)
  {
  }

  /** The four fixed messages tell their classes apart. */
  lemma FixedMessagesDistinguishClasses(e1: OctokitError, e2: OctokitError)
    requires e1.cls in {Unauthorized, NotFound, Forbidden, TooManyRequests}
    requires e2.cls in {Unauthorized, NotFound, Forbidden, TooManyRequests}
    requires HandleApiError(e1) == HandleApiError(e2)
    ensures e1.cls == e2.cls
  {
    assert |NotFoundMessage| == 63 && |ForbiddenMessage| == 60 && |RateLimitMessage| == 44;
  }

  // ---------------------------------------------------------------------
  // Public entry points
  // ---------------------------------------------------------------------

  /** `enterprise_members` once the pages have been fetched. */
  function EnterpriseMembers(fetched: Result<seq<LicensedUser>, OctokitError>, opts: MemberOptions)
    : (r: Result<seq<MemberRecord>, ClientError>)
    ensures fetched.Err? ==> r == Err(HandleApiError(fetched.error))
    ensures fetched.Ok? ==> r.Ok?
    ensures fetched.Ok? ==>
              var kept := Filter(fetched.value, AdmitsTest(opts));
              |r.value| == |kept|
              && forall i :: 0 <= i < |kept| ==> r.value[i] == TransformMemberData(kept[i])
  {
    match fetched
    case Err(e) => Err(HandleApiError(e))
    case Ok(users) =>
      FilterMembersByOptionsIsPointwise(users, opts);
      Ok(TransformAll(FilterMembersByOptions(users, opts)))
  }

  /** `enterprise_owners` once the pages have been fetched: one record per
      owner, in input order, each with the admin role. */
  function EnterpriseOwners(fetched: Result<seq<LicensedUser>, OctokitError>)
    : (r: Result<seq<MemberRecord>, ClientError>)
    ensures fetched.Err? ==> r == Err(HandleApiError(fetched.error))
    ensures fetched.Ok? ==> r.Ok? && |r.value| == |FilterOwners(fetched.value)|
    ensures fetched.Ok? ==> forall i :: 0 <= i < |r.value| ==> r.value[i].role == "admin"
    ensures fetched.Ok? ==>
              forall i :: 0 <= i < |r.value| ==> r.value[i] == TransformMemberData(FilterOwners(fetched.value)[i])
  {
    match fetched
    case Err(e) => Err(HandleApiError(e))
    case Ok(users) =>
      var owners := FilterOwners(users);
      AdminRecords(owners);
      Ok(TransformAll(owners))
  }

  /** Every record made from an owner carries the admin role. */
  lemma AdminRecords(owners: seq<LicensedUser>)
    requires forall u :: u in owners ==> HasRole(u, "Owner")
    ensures forall i :: 0 <= i < |owners| ==> TransformAll(owners)[i].role == "admin"
  {
    forall i | 0 <= i < |owners|
      ensures TransformAll(owners)[i].role == "admin"
    {
      assert owners[i] in owners;
    }
  }
}
