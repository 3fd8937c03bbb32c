/** `Hubctl::BaseCommand`: the option plumbing every command shares —
    choosing the output format from ARGV, the memoised formatter, the
    org/enterprise fallback chains, the confirmation short-circuit and the
    mapping of errors to messages and exit status. Process exit, the
    environment and the config file are inputs and outputs of these
    functions rather than effects. */
module BaseCommand {
  import opened Common
  import GitHubClient

  /** The Thor options these helpers read. */
  datatype CommandOptions = CommandOptions(
    format: Option<string>,
    noColor: bool,
    yes: bool,
    org: Option<string>,
    enterprise: Option<string>)

  /** `ENV['GITHUB_ORG']` and `ENV['GITHUB_ENTERPRISE']`. */
  datatype Environment = Environment(githubOrg: Option<string>, githubEnterprise: Option<string>)

  /** `Config.get('default_org')` and `Config.get('default_enterprise')`. */
  datatype StoredConfig = StoredConfig(defaultOrg: Option<string>, defaultEnterprise: Option<string>)

  /** A line printed through the formatter's `error` or `info`. */
  datatype Message = ErrorLine(text: string) | InfoLine(text: string)

  /** The process ending with `exit code` after printing `messages`. */
  datatype Exit = Exit(code: int, messages: seq<Message>)

  const FormatFlag := "--format"
  const FormatPrefix := "--format="

  // ---------------------------------------------------------------------
  // Output format
  // ---------------------------------------------------------------------

  /** Position of the first argument starting with "--format=", if any. */
  function FirstPrefixed(argv: seq<string>): (r: Option<nat>)
    ensures r.None? <==> forall k :: 0 <= k < |argv| ==> !StartsWith(argv[k], FormatPrefix)
    ensures r.Some? ==> r.value < |argv| && StartsWith(argv[r.value], FormatPrefix)
    ensures r.Some? ==> forall k :: 0 <= k < r.value ==> !StartsWith(argv[k], FormatPrefix)
  {
    if |argv| == 0 then None
    else if StartsWith(argv[0], FormatPrefix) then Some(0)
    else match FirstPrefixed(argv[1..])
      case None => None
      case Some(j) => Some(j + 1)
  }

  /** `arg.split('=', 2)[1]` for an argument that contains '=': everything
      after the first '='. */
  function AfterFirstEquals(arg: string): string
    requires '=' in arg
  {
    arg[FirstPos(arg, '=') + 1..]
  }

  /** For a "--format=..." argument the value is everything after the
      prefix, further '=' signs included. */
  lemma AfterFirstEqualsOfFormatArg(arg: string)
    requires StartsWith(arg, FormatPrefix)
    ensures '=' in arg && AfterFirstEquals(arg) == arg[|FormatPrefix|..]
  {
    assert arg[8] == '=';
    assert '=' !in arg[..8] by {
      assert arg[..8] == FormatFlag;
    }
    FirstPosUnique(arg, '=', 8);
  }

  /** The format `formatter` computes: the word after the first bare
      "--format" when there is one, otherwise the first "--format=" value,
      otherwise the option or 'table'. */
  function ResolveFormat(argv: seq<string>, option: Option<string>): (r: string)
    ensures forall i :: 0 <= i < |argv| && argv[i] == FormatFlag && FormatFlag !in argv[..i] ==>
              r == if i + 1 < |argv| then argv[i + 1] else option.GetOr("table")
    ensures FormatFlag !in argv ==>
              forall j :: 0 <= j < |argv| && StartsWith(argv[j], FormatPrefix)
                          && (forall k :: 0 <= k < j ==> !StartsWith(argv[k], FormatPrefix))
                          ==> r == argv[j][|FormatPrefix|..]
    ensures FormatFlag !in argv && (forall k :: 0 <= k < |argv| ==> !StartsWith(argv[k], FormatPrefix)) ==>
              r == option.GetOr("table")
  {
    var fallback := option.GetOr("table");
    if FormatFlag in argv then
      var i := FirstPos(argv, FormatFlag);
      if i + 1 < |argv| then argv[i + 1] else fallback
    else match FirstPrefixed(argv)
      case Some(j) =>
        AfterFirstEqualsOfFormatArg(argv[j]);
        AfterFirstEquals(argv[j])
      case None => fallback
  }

  /** A bare "--format" as the last argument leaves the option in force:
      no "--format=..." argument is consulted, wherever it stands. */
  lemma TrailingFlagIgnoresEqualsForm(argv: seq<string>, option: Option<string>, v: string)
    requires FormatFlag !in argv
    ensures ResolveFormat(argv + ["--format=" + v, FormatFlag], option) == option.GetOr("table")
  {
    var a := argv + ["--format=" + v, FormatFlag];
    assert "--format=" + v != FormatFlag by { assert |"--format=" + v| > |FormatFlag|; }
    assert a[..|argv| + 1] == argv + ["--format=" + v];
    assert a[|argv| + 1] == FormatFlag;
  }

  /** The settings `Formatter.new` receives. */
  datatype FormatterConfig = FormatterConfig(format: string, color: bool)

  /** The command object's memo of its formatter (`@formatter`). */
  datatype CommandState = CommandState(formatter: Option<FormatterConfig>)

  /** `formatter`: computes a configuration but keeps the first one built. */
  function GetFormatter(st: CommandState, argv: seq<string>, opts: CommandOptions)
    : (r: (FormatterConfig, CommandState))
    ensures st.formatter.Some? ==> r.0 == st.formatter.value && r.1 == st
    ensures st.formatter.None? ==> r.0.format == ResolveFormat(argv, opts.format)
    ensures r.0.color <==> (st.formatter.Some? && st.formatter.value.color) || (st.formatter.None? && !opts.noColor)
    ensures r.1.formatter == Some(r.0)
  {
    match st.formatter
    case Some(f) => (f, st)
    case None =>
      var f := FormatterConfig(ResolveFormat(argv, opts.format), !opts.noColor);
      (f, CommandState(Some(f)))
  }

  /** After the first call, ARGV and options no longer matter. */
  lemma {:induction false} FormatterIsMemoised(argv1: seq<string>, opts1: CommandOptions,
                                               argv2: seq<string>, opts2: CommandOptions)
    ensures var (f1, st1) := GetFormatter(CommandState(None), argv1, opts1);
            GetFormatter(st1, argv2, opts2) == (f1, st1)
  {
  }

  // ---------------------------------------------------------------------
  // Organization and enterprise
  // ---------------------------------------------------------------------

  /** `options[:x] || ENV[...] || Config.get(...)`: the first value present. */
  function FirstPresent(fromOption: Option<string>, fromEnv: Option<string>, fromConfig: Option<string>)
    : (r: Option<string>)
    ensures fromOption.Some? ==> r == fromOption
    ensures fromOption.None? && fromEnv.Some? ==> r == fromEnv
    ensures fromOption.None? && fromEnv.None? ==> r == fromConfig
  {
    fromOption.OrElse(fromEnv).OrElse(fromConfig)
  }

  function DefaultOrg(opts: CommandOptions, env: Environment, cfg: StoredConfig): Option<string> {
    FirstPresent(opts.org, env.githubOrg, cfg.defaultOrg)
  }

  function DefaultEnterprise(opts: CommandOptions, env: Environment, cfg: StoredConfig): Option<string> {
    FirstPresent(opts.enterprise, env.githubEnterprise, cfg.defaultEnterprise)
  }

  const OrgRequiredMessages := [
    ErrorLine("Organization is required but not specified"),
    InfoLine("Specify with --org=ORG or set default: hubctl config set default_org ORG")]

  const EnterpriseRequiredMessages := [
    ErrorLine("Enterprise is required but not specified"),
    InfoLine("Specify with --enterprise=ENTERPRISE or set default: hubctl config set default_enterprise ENTERPRISE")]

  /** `require_org!`: the organization from the first source that has one,
      or exit 1 after explaining how to set it. */
  function RequireOrg(opts: CommandOptions, env: Environment, cfg: StoredConfig): (r: Result<string, Exit>)
    ensures r.Ok? <==> opts.org.Some? || env.githubOrg.Some? || cfg.defaultOrg.Some?
    ensures r.Ok? && opts.org.Some? ==> r.value == opts.org.value
    ensures r.Ok? && opts.org.None? && env.githubOrg.Some? ==> r.value == env.githubOrg.value
    ensures r.Ok? && opts.org.None? && env.githubOrg.None? ==> r.value == cfg.defaultOrg.value
    ensures r.Err? ==> r.error == Exit(1, OrgRequiredMessages)
  {
    match DefaultOrg(opts, env, cfg)
    case Some(org) => Ok(org)
    case None => Err(Exit(1, OrgRequiredMessages))
  }

  /** `require_enterprise!`: the same chain for the enterprise slug. */
  function RequireEnterprise(opts: CommandOptions, env: Environment, cfg: StoredConfig): (r: Result<string, Exit>)
    ensures r.Ok? <==> opts.enterprise.Some? || env.githubEnterprise.Some? || cfg.defaultEnterprise.Some?
    ensures r.Ok? && opts.enterprise.Some? ==> r.value == opts.enterprise.value
    ensures r.Ok? && opts.enterprise.None? && env.githubEnterprise.Some? ==> r.value == env.githubEnterprise.value
    ensures r.Ok? && opts.enterprise.None? && env.githubEnterprise.None? ==> r.value == cfg.defaultEnterprise.value
    ensures r.Err? ==> r.error == Exit(1, EnterpriseRequiredMessages)
  {
    match DefaultEnterprise(opts, env, cfg)
    case Some(e) => Ok(e)
    case None => Err(Exit(1, EnterpriseRequiredMessages))
  }

  // ---------------------------------------------------------------------
  // Confirmation and errors
  // ---------------------------------------------------------------------

  /** The outcome of `confirm_action`: whether to go on, and whether the
      user was asked. */
  datatype Confirmation = Confirmation(proceed: bool, prompted: bool)

  /** `confirm_action`: `--yes` skips the prompt; otherwise the user's
      `answer` decides. */
  function ConfirmAction(yes: bool, answer: bool): (r: Confirmation)
    ensures yes ==> r.proceed && !r.prompted
    ensures !yes ==> r.prompted && (r.proceed <==> answer)
  {
    if yes then Confirmation(true, false) else Confirmation(answer, true)
  }

  /** What reaches `handle_error`: one of the client's errors, or anything else. */
  datatype RaisedError = ClientFailure(e: GitHubClient.ClientError) | Unexpected(message: string)

  const ConfigInitHint := "Run 'hubctl config init' to set up authentication"
  const UnexpectedPrefix := "Unexpected error: "

  function MessageOf(e: RaisedError): string {
    match e
    case ClientFailure(c) => c.message
    case Unexpected(m) => m
  }

  /** `handle_error`: every error ends the process with status 1. */
  function HandleError(e: RaisedError): (r: Exit)
    ensures r.code == 1
    ensures |r.messages| == (if e.ClientFailure? && e.e.AuthenticationError? then 2 else 1)
    ensures r.messages[0].ErrorLine?
    ensures e.ClientFailure? ==> r.messages[0].text == MessageOf(e)
    ensures e.Unexpected? ==> r.messages[0].text == UnexpectedPrefix + e.message
    ensures |r.messages| == 2 <==> e.ClientFailure? && e.e.AuthenticationError?
    ensures |r.messages| == 2 ==> r.messages[1] == InfoLine(ConfigInitHint)
  {
    match e
    case ClientFailure(c) =>
      if c.AuthenticationError? then Exit(1, [ErrorLine(c.message), InfoLine(ConfigInitHint)])
      else Exit(1, [ErrorLine(c.message)])
    case Unexpected(m) => Exit(1, [ErrorLine(UnexpectedPrefix + m)])
  }

  /** The error line always ends with the error's own message. */
  lemma HandleErrorKeepsMessage(e: RaisedError)
    ensures EndsWith(HandleError(e).messages[0].text, MessageOf(e))
  {
    var t := HandleError(e).messages[0].text;
    if e.Unexpected? {
      assert t[|t| - |MessageOf(e)|..] == MessageOf(e);
    }
  }
}
