/** Commands and their risk: tokenisation, the script registry, the git rules, and the policy
    that `classify_command` derives from them (scripts/approval_pipeline.py). */
module CommandRisk {
  import opened Common

  datatype Risk = L0 | L1 | L2 | L3 | L4 | UnknownRisk(text: string)

  /** The levels the script registry hands out. */
  type Elevated = r: Risk | r == L3 || r == L4 witness L3

  /** What the classifier consults, frozen: `shlex.split` (None when it raises), `shlex.join`, the
      repository path a token resolves to, if any, and the script registry. */
  datatype Shell = Shell(
    split: string -> Option<seq<string>>,
    join: seq<string> -> string,
    resolve: string -> Option<string>,
    registry: map<string, Elevated>,
    conditional: map<string, (string, Elevated)>)

  /** `shlex.split` undoes `shlex.join`. */
  ghost predicate RoundTrips(sh: Shell) {
    forall ts: seq<string> :: sh.split(sh.join(ts)) == Some(ts)
  }

  datatype PolicyRecord = PolicyRecord(action: string, risk: Risk, approvalRequired: bool, confirmationRequired: bool)

  /** What `classify_command` returns: its two flags are those of its risk level. */
  type Policy = p: PolicyRecord |
    && Known(p.risk)
    && p.approvalRequired == RequiresApproval(p.risk)
    && p.confirmationRequired == RequiresConfirmation(p.risk)
    witness PolicyRecord("", L0, false, false)

  const SCRIPTS: map<string, Elevated> := map[
    "./scripts/restore.sh" := L4,
    "./scripts/restore_mongo.sh" := L4,
    "./scripts/rollback_remote_compose.sh" := L4,
    "./scripts/deploy_remote_compose.sh" := L3,
    "./scripts/deploy_manual.sh" := L3,
    "./scripts/init_letsencrypt.sh" := L3,
    "./scripts/clear_sessions.py" := L4,
    "./scripts/fix_duplicate_db.py" := L4]

  const DATA_SCRIPTS: map<string, Elevated> := map[
    "./scripts/deduplicate_all.py" := L4,
    "./scripts/migrate_batch_id.py" := L3,
    "./scripts/fix_default_users_pin.py" := L3,
    "./scripts/set_admin_pin.py" := L3,
    "./scripts/seed_test_item.py" := L3,
    "./scripts/verify_and_sync_item.py" := L3,
    "./scripts/verify_sujata_db.py" := L3,
    "./scripts/sync_erp_full.py" := L3]

  const BACKEND_SCRIPTS: map<string, Elevated> := map[
    "./backend/scripts/restore_mongodb_backup.py" := L4,
    "./backend/scripts/verify_reconciliation.py" := L3,
    "./backend/scripts/reset_staff_session.py" := L4,
    "./backend/scripts/set_supervisor_pin.py" := L3,
    "./backend/scripts/add_test_items.py" := L3,
    "./backend/scripts/migrate_user_settings.py" := L3,
    "./backend/scripts/create_staff_users.py" := L3,
    "./backend/scripts/sync_sql_to_mongo.py" := L3]

  /** The unconditional entries of the script registry; their keys are distinct. */
  const REGISTRY: map<string, Elevated> := SCRIPTS + DATA_SCRIPTS + BACKEND_SCRIPTS

  const CONDITIONAL_REGISTRY: map<string, (string, Elevated)> := map[
    "./backend/scripts/backfill_session_snapshots.py" := ("--execute", L3),
    "./backend/scripts/cleanup_synthetic_session_data.py" := ("--execute", L4),
    "./backend/scripts/repair_count_line_item_names.py" := ("--execute", L3),
    "./backend/scripts/repair_legacy_zero_variance_approvals.py" := ("--execute", L3),
    "./backend/scripts/generate_secrets.py" := ("--write", L3)]

  const DESTRUCTIVE_KEYWORDS: seq<string> :=
    ["restore", "rollback", "cleanup", "clear", "delete", "deduplicate"]

  const MUTATING_KEYWORDS: seq<string> :=
    ["backfill", "repair", "migrate", "deploy", "sync", "seed", "set_", "create_", "fix_"]

  /** The classifier's shell with the registry of this repository. */
  function RepositoryShell(split: string -> Option<seq<string>>, join: seq<string> -> string,
                           resolve: string -> Option<string>): Shell {
    Shell(split, join, resolve, REGISTRY, CONDITIONAL_REGISTRY)
  }

  predicate Known(r: Risk) {
    !r.UnknownRisk?
  }

  function Rank(r: Risk): nat
    requires Known(r)
  {
    match r
    case L0 => 0
    case L1 => 1
    case L2 => 2
    case L3 => 3
    case L4 => 4
  }

  predicate RequiresApproval(r: Risk)
    requires Known(r)
  {
    Rank(r) >= Rank(L2)
  }

  predicate RequiresConfirmation(r: Risk)
    requires Known(r)
  {
    Rank(r) >= Rank(L3)
  }

  // ---------------------------------------------------------------- strings

  predicate StartsWith(s: string, prefix: string) {
    prefix <= s
  }

  predicate EndsWith(s: string, suffix: string) {
    |suffix| <= |s| && s[|s| - |suffix|..] == suffix
  }

  predicate OccursAt(s: string, word: string, i: int) {
    0 <= i <= |s| - |word| && s[i..i + |word|] == word
  }

  predicate Contains(s: string, word: string) {
    exists i | 0 <= i <= |s| - |word| :: OccursAt(s, word, i)
  }

  predicate ContainsAny(s: string, words: seq<string>) {
    exists k | 0 <= k < |words| :: Contains(s, words[k])
  }

  /** The part of a path after its last slash. */
  function LastComponent(s: string): (c: string)
    ensures |c| <= |s|
    ensures EndsWith(s, c)
    ensures |c| < |s| ==> s[|s| - |c| - 1] == '/'
    ensures '/' !in c
  {
    if s == "" || s[|s| - 1] == '/' then ""
    else LastComponent(s[..|s| - 1]) + [s[|s| - 1]]
  }

  /** `Path(s).name`: the last component, after empty and "." components are dropped. */
  function BaseName(s: string): string {
    if s == "" then ""
    else
      var c := LastComponent(s);
      if c == "" then BaseName(s[..|s| - 1])
      else if c == "." then BaseName(s[..|s| - 1])
      else c
  }

  function ReplaceUnderscores(s: string): string {
    if s == "" then "" else [if s[0] == '_' then '-' else s[0]] + ReplaceUnderscores(s[1..])
  }

  // ---------------------------------------------------------------- tokens

  function NormalizeToken(sh: Shell, token: string): string {
    if token == "" || StartsWith(token, "-") then token
    else match sh.resolve(token)
         case Some(path) => path
         case None => token
  }

  function NormalizeTokens(sh: Shell, tokens: seq<string>): (r: seq<string>)
    ensures |r| == |tokens|
  {
    seq(|tokens|, i requires 0 <= i < |tokens| => NormalizeToken(sh, tokens[i]))
  }

  /** `command_to_tokens`: None stands for the raised ApprovalError. */
  function CommandTokens(sh: Shell, command: string): (r: Option<seq<string>>)
    ensures r.Some? ==> r.value != []
  {
    match sh.split(command)
    case None => None
    case Some(tokens) => if tokens == [] then None else Some(tokens)
  }

  function Normalize(sh: Shell, command: string): Option<string> {
    match CommandTokens(sh, command)
    case None => None
    case Some(tokens) => Some(sh.join(NormalizeTokens(sh, tokens)))
  }

  function TargetScript(sh: Shell, tokens: seq<string>): Option<string>
    requires tokens != []
  {
    if StartsWith(BaseName(tokens[0]), "python") then
      if |tokens| >= 2 && EndsWith(tokens[1], ".py") then Some(NormalizeToken(sh, tokens[1])) else None
    else if EndsWith(tokens[0], ".sh") || EndsWith(tokens[0], ".py") then
      Some(NormalizeToken(sh, tokens[0]))
    else
      None
  }

  function ActionFromTarget(target: string): string {
    var name := BaseName(target);
    ReplaceUnderscores(
      if EndsWith(name, ".py") || EndsWith(name, ".sh") then name[..|name| - 3] else name)
  }

  function Flags(tokens: seq<string>): set<string> {
    set t | t in tokens && StartsWith(t, "--")
  }

  predicate HasMutatingFlag(flags: set<string>) {
    "--execute" in flags || "--apply" in flags || "--write" in flags || "--fix" in flags
  }

  function RegistryRisk(sh: Shell, target: Option<string>, scriptName: string, flags: set<string>): (r: Option<Risk>)
    ensures r.Some? ==> r.value in {L3, L4}
  {
    if target.Some? && target.value in sh.registry then
      Some(sh.registry[target.value])
    else if target.Some? && target.value in sh.conditional then
      var (flag, risk) := sh.conditional[target.value];
      if flag in flags then Some(risk) else None
    else if ContainsAny(scriptName, DESTRUCTIVE_KEYWORDS) then Some(L4)
    else if ContainsAny(scriptName, MUTATING_KEYWORDS) then Some(L3)
    else None
  }

  /** The git subcommands that can lose work beyond recovery, with the arguments that make them do so. */
  predicate LosesWork(sub: string, args: seq<string>) {
    || (sub == "clean" && ("-d" in args || exists t | t in args :: StartsWith(t, "-f")))
    || (sub == "reset" && "--hard" in args)
    || (sub == "checkout" && "--" in args)
    || (sub == "push" && exists t | t in args :: StartsWith(t, "--force"))
  }

  /** The git subcommands that change tracked files. */
  predicate ChangesFiles(sub: string, args: seq<string>) {
    sub == "rm" || (sub == "restore" && ("--source" in args || "--staged" in args || "--worktree" in args))
  }

  predicate IsGit(tokens: seq<string>) {
    |tokens| >= 2 && BaseName(tokens[0]) == "git"
  }

  /** `_git_command_risk`. */
  function GitRisk(tokens: seq<string>): (r: Option<Risk>)
    requires tokens != []
    ensures r.Some? ==> r.value in {L3, L4} && IsGit(tokens)
  {
    if BaseName(tokens[0]) != "git" || |tokens| < 2 then None
    else
      var sub, args := tokens[1], tokens[2..];
      if sub == "rm" then Some(L3)
      else if sub == "clean" && exists t | t in args :: StartsWith(t, "-f") || t == "-d" then Some(L4)
      else if sub == "reset" && "--hard" in args then Some(L4)
      else if sub == "checkout" && "--" in args then Some(L4)
      else if sub == "restore" && ("--source" in args || "--staged" in args || "--worktree" in args) then Some(L3)
      else if sub == "push" && exists t | t in args :: StartsWith(t, "--force") then Some(L4)
      else None
  }

  /** Which git commands get which verdict. */
  lemma GitRiskExact(tokens: seq<string>)
    requires tokens != []
    ensures GitRisk(tokens) == Some(L4) <==> IsGit(tokens) && LosesWork(tokens[1], tokens[2..])
    ensures GitRisk(tokens) == Some(L3) <==> IsGit(tokens) && ChangesFiles(tokens[1], tokens[2..])
  {
  }

  function ScriptRisk(sh: Shell, target: Option<string>, name: string, flags: set<string>): (r: Risk)
    ensures Known(r)
  {
    match RegistryRisk(sh, target, name, flags)
    case Some(risk) => risk
    case None => if Truthy(target) && HasMutatingFlag(flags) then L2 else L0
  }

  /** The risk of a command given by its normalised tokens. */
  function TokenRisk(sh: Shell, tokens: seq<string>): (r: Risk)
    requires tokens != []
    ensures Known(r)
  {
    var target := TargetScript(sh, tokens);
    var name := BaseName(if Truthy(target) then target.value else tokens[0]);
    match GitRisk(tokens)
    case Some(risk) => risk
    case None => ScriptRisk(sh, target, name, Flags(tokens))
  }

  /** `classify_command`; None when tokenisation raises. */
  function Classify(sh: Shell, command: string): Option<Policy> {
    match Normalize(sh, command)
    case None => None
    case Some(normalized) =>
      match CommandTokens(sh, normalized)
      case None => None
      case Some(tokens) =>
        var target := TargetScript(sh, tokens);
        var risk := TokenRisk(sh, tokens);
        Some(PolicyRecord(
          ActionFromTarget(if Truthy(target) then target.value else tokens[0]),
          risk, RequiresApproval(risk), RequiresConfirmation(risk)))
  }

  datatype RiskError = UnsupportedRisk | Downgrade

  function CoerceRisk(classified: Risk, requested: Option<Risk>): (r: Result<Risk, RiskError>)
    requires Known(classified)
    ensures r.Ok? ==> Known(r.value) && Rank(classified) <= Rank(r.value)
    ensures r.Ok? ==> r.value == if requested.Some? then requested.value else classified
    ensures r.Ok? <==> requested.None? || (Known(requested.value) && Rank(classified) <= Rank(requested.value))
  {
    match requested
    case None => Ok(classified)
    case Some(risk) =>
      if !Known(risk) then Err(UnsupportedRisk)
      else if Rank(risk) < Rank(classified) then Err(Downgrade)
      else Ok(risk)
  }

  // ---------------------------------------------------------------- monotonicity

  /** A script path keeps its extension in its base name. */
  lemma {:induction false} BaseNameKeepsExtension(s: string, ext: string)
    requires ext == ".py" || ext == ".sh"
    requires EndsWith(s, ext)
    ensures EndsWith(BaseName(s), ext)
  {
    var c := LastComponent(s);
    var n := |s|;
    assert s[n - 3..] == ext;
    assert s[n - 1] == ext[2] && s[n - 2] == ext[1] && s[n - 3] == ext[0];
    assert c == s[n - |c|..];
    assert c[|c| - 3..] == ext;
  }

  /** A git command has no target script and no keyword in its name. */
  lemma GitHasNoRegistryRisk(sh: Shell, tokens: seq<string>)
    requires tokens != [] && BaseName(tokens[0]) == "git"
    ensures TargetScript(sh, tokens) == None
    ensures GitRisk(tokens).None? ==> TokenRisk(sh, tokens) == L0
  {
    assert "git"[0] != "python"[0];
    assert !EndsWith("git", ".sh") && !EndsWith("git", ".py") by {
      assert "git"[0] != '.';
    }
    if EndsWith(tokens[0], ".sh") { BaseNameKeepsExtension(tokens[0], ".sh"); }
    if EndsWith(tokens[0], ".py") { BaseNameKeepsExtension(tokens[0], ".py"); }
    ShortNamesHaveNoKeyword("git");
  }

  lemma ShortNamesHaveNoKeyword(name: string)
    requires |name| <= 3
    ensures !ContainsAny(name, DESTRUCTIVE_KEYWORDS) && !ContainsAny(name, MUTATING_KEYWORDS)
  {
    assert forall k | 0 <= k < |DESTRUCTIVE_KEYWORDS| :: |DESTRUCTIVE_KEYWORDS[k]| > 3;
    assert forall k | 0 <= k < |MUTATING_KEYWORDS| :: |MUTATING_KEYWORDS[k]| > 3;
  }

  lemma FlagsGrow(tokens: seq<string>, extra: seq<string>)
    ensures Flags(tokens) <= Flags(tokens + extra)
  {
  }

  /** With two or more tokens a git verdict is settled by what is already there. */
  lemma GitVerdictStays(tokens: seq<string>, extra: seq<string>)
    requires |tokens| >= 2 && GitRisk(tokens).Some?
    ensures GitRisk(tokens + extra) == GitRisk(tokens)
  {
    assert (tokens + extra)[2..] == tokens[2..] + extra;
    assert (tokens + extra)[1] == tokens[1];
    assert forall t | t in tokens[2..] :: t in tokens[2..] + extra;
  }

  /** More flags never make a script less risky. */
  lemma ScriptRiskGrows(sh: Shell, target: Option<string>, name: string, flags: set<string>, more: set<string>)
    requires flags <= more
    ensures Rank(ScriptRisk(sh, target, name, flags)) <= Rank(ScriptRisk(sh, target, name, more))
  {
  }

  /** Appending arguments leaves the target script alone, except after a lone interpreter. */
  lemma SameTargetRisk(sh: Shell, tokens: seq<string>, extra: seq<string>)
    requires tokens != [] && BaseName(tokens[0]) != "git"
    requires |tokens| >= 2 || !StartsWith(BaseName(tokens[0]), "python")
    ensures Rank(TokenRisk(sh, tokens)) <= Rank(TokenRisk(sh, tokens + extra))
  {
    FlagsGrow(tokens, extra);
    assert (tokens + extra)[0] == tokens[0];
    assert TargetScript(sh, tokens + extra) == TargetScript(sh, tokens);
    var target := TargetScript(sh, tokens);
    var name := BaseName(if Truthy(target) then target.value else tokens[0]);
    ScriptRiskGrows(sh, target, name, Flags(tokens), Flags(tokens + extra));
  }

  /** Appending arguments to a command of two or more tokens never lowers its risk. */
  lemma AppendingNeverLowersRisk(sh: Shell, tokens: seq<string>, extra: seq<string>)
    requires |tokens| >= 2
    ensures Rank(TokenRisk(sh, tokens)) <= Rank(TokenRisk(sh, tokens + extra))
  {
    assert (tokens + extra)[0] == tokens[0];
    if BaseName(tokens[0]) == "git" {
      if GitRisk(tokens).Some? {
        GitVerdictStays(tokens, extra);
      } else {
        GitHasNoRegistryRisk(sh, tokens);
      }
    } else {
      SameTargetRisk(sh, tokens, extra);
    }
  }

  /** One-token commands: appending never lowers the risk unless the token is an interpreter
      whose own name holds a risky keyword. */
  lemma AppendingToOneToken(sh: Shell, token: string, extra: seq<string>)
    requires !(StartsWith(BaseName(token), "python") && RegistryRisk(sh, None, BaseName(token), {}).Some?)
    ensures Rank(TokenRisk(sh, [token])) <= Rank(TokenRisk(sh, [token] + extra))
  {
    if BaseName(token) == "git" {
      GitHasNoRegistryRisk(sh, [token]);
    } else if !StartsWith(BaseName(token), "python") {
      SameTargetRisk(sh, [token], extra);
    }
  }

  /** That exception is exact: giving an interpreter a script of no risk of its own lowers the
      risk precisely when the interpreter's name held a keyword. */
  lemma InterpreterNameRiskIsLost(sh: Shell, token: string, script: string)
    requires StartsWith(BaseName(token), "python")
    requires EndsWith(script, ".py") && !StartsWith(script, "--") && !StartsWith(token, "--")
    requires var target := NormalizeToken(sh, script);
             target != "" && RegistryRisk(sh, Some(target), BaseName(target), {}) == None
    ensures Rank(TokenRisk(sh, [token, script])) < Rank(TokenRisk(sh, [token]))
            <==> RegistryRisk(sh, None, BaseName(token), {}).Some?
  {
    LoneInterpreterRisk(sh, token);
    HarmlessScriptRisk(sh, token, script);
  }

  lemma LoneInterpreterRisk(sh: Shell, token: string)
    requires StartsWith(BaseName(token), "python") && !StartsWith(token, "--")
    ensures TokenRisk(sh, [token]) == ScriptRisk(sh, None, BaseName(token), {})
  {
    assert Flags([token]) == {};
  }

  lemma HarmlessScriptRisk(sh: Shell, token: string, script: string)
    requires StartsWith(BaseName(token), "python")
    requires EndsWith(script, ".py") && !StartsWith(script, "--") && !StartsWith(token, "--")
    requires var target := NormalizeToken(sh, script);
             target != "" && RegistryRisk(sh, Some(target), BaseName(target), {}) == None
    ensures TokenRisk(sh, [token, script]) == L0
  {
    var tokens := [token, script];
    assert BaseName(tokens[0]) != "git" by {
      assert BaseName(token)[0] == "python"[0] && "git"[0] != "python"[0];
    }
    assert GitRisk(tokens).None?;
    assert TargetScript(sh, tokens) == Some(NormalizeToken(sh, script));
    assert Flags(tokens) == {};
  }

  // ---------------------------------------------------------------- registered scripts

  predicate NormalizedOnce(sh: Shell, t: string) {
    NormalizeToken(sh, NormalizeToken(sh, t)) == NormalizeToken(sh, t)
  }

  /** A normalised token is its own normal form. */
  ghost predicate NormalizesOnce(sh: Shell) {
    forall t :: NormalizedOnce(sh, t)
  }

  /** The command starts a script the registry lists, by an interpreter or directly. */
  predicate RunsRegisteredScript(sh: Shell, command: string) {
    var tokens := CommandTokens(sh, command);
    tokens.Some?
    && var target := TargetScript(sh, NormalizeTokens(sh, tokens.value));
       target.Some? && target.value in sh.registry
  }

  /** A registered script has the registry's risk, whatever its name and arguments. */
  lemma RegisteredScriptRisk(sh: Shell, tokens: seq<string>)
    requires tokens != [] && TargetScript(sh, tokens).Some? && TargetScript(sh, tokens).value in sh.registry
    ensures TokenRisk(sh, tokens) == sh.registry[TargetScript(sh, tokens).value]
  {
    if GitRisk(tokens).Some? {
      GitHasNoRegistryRisk(sh, tokens);
    }
  }

  /** Classifying a normalised command normalises it again, to the same tokens. */
  lemma NormalizedTwice(sh: Shell, command: string)
    requires RoundTrips(sh) && NormalizesOnce(sh) && CommandTokens(sh, command).Some?
    ensures Normalize(sh, command).Some? && Normalize(sh, Normalize(sh, command).value).Some?
    ensures CommandTokens(sh, Normalize(sh, Normalize(sh, command).value).value)
            == Some(NormalizeTokens(sh, CommandTokens(sh, command).value))
  {
    var tokens := CommandTokens(sh, command).value;
    var once := NormalizeTokens(sh, tokens);
    NormalizedTokens(sh, command);
    NormalizedTokens(sh, Normalize(sh, command).value);
    assert forall i | 0 <= i < |tokens| :: NormalizedOnce(sh, tokens[i]);
    assert NormalizeTokens(sh, once) == once;
  }

  lemma RegisteredPolicy(sh: Shell, command: string, tokens: seq<string>)
    requires Normalize(sh, command).Some? && CommandTokens(sh, Normalize(sh, command).value) == Some(tokens)
    requires TargetScript(sh, tokens).Some? && TargetScript(sh, tokens).value in sh.registry
    ensures Classify(sh, command).Some?
    ensures Classify(sh, command).value.approvalRequired && Classify(sh, command).value.confirmationRequired
  {
    RegisteredScriptRisk(sh, tokens);
  }

  /** So it needs approval and confirmation, through normalisation and re-tokenisation. */
  lemma RegisteredScriptsNeedConfirmation(sh: Shell, command: string)
    requires RoundTrips(sh) && NormalizesOnce(sh) && RunsRegisteredScript(sh, command)
    ensures Normalize(sh, command).Some? && Classify(sh, Normalize(sh, command).value).Some?
    ensures var policy := Classify(sh, Normalize(sh, command).value).value;
            policy.approvalRequired && policy.confirmationRequired
  {
    NormalizedTwice(sh, command);
    RegisteredPolicy(sh, Normalize(sh, command).value, NormalizeTokens(sh, CommandTokens(sh, command).value));
  }

  lemma NormalizedTokens(sh: Shell, command: string)
    requires RoundTrips(sh) && CommandTokens(sh, command).Some?
    ensures Normalize(sh, command).Some?
    ensures CommandTokens(sh, Normalize(sh, command).value)
            == Some(NormalizeTokens(sh, CommandTokens(sh, command).value))
  {
    var ts := NormalizeTokens(sh, CommandTokens(sh, command).value);
    assert sh.split(sh.join(ts)) == Some(ts);
  }

  /** The same on whole command lines, through normalisation and re-tokenisation. */
  lemma LongerCommandIsNoSafer(sh: Shell, command: string, longer: string)
    requires RoundTrips(sh)
    requires CommandTokens(sh, command).Some? && |CommandTokens(sh, command).value| >= 2
    requires CommandTokens(sh, longer).Some?
    requires CommandTokens(sh, command).value <= CommandTokens(sh, longer).value
    ensures Classify(sh, command).Some? && Classify(sh, longer).Some?
    ensures Rank(Classify(sh, command).value.risk) <= Rank(Classify(sh, longer).value.risk)
    ensures Classify(sh, command).value.approvalRequired ==> Classify(sh, longer).value.approvalRequired
  {
    NormalizedTokens(sh, command);
    NormalizedTokens(sh, longer);
    var short := NormalizeTokens(sh, CommandTokens(sh, command).value);
    var long := NormalizeTokens(sh, CommandTokens(sh, longer).value);
    assert long == short + long[|short|..];
    AppendingNeverLowersRisk(sh, short, long[|short|..]);
  }

  /** What a longer command adds survives normalisation. */
  lemma NormalizedPrefix(sh: Shell, command: string, longer: string)
    requires RoundTrips(sh)
    requires CommandTokens(sh, command).Some? && CommandTokens(sh, longer).Some?
    requires CommandTokens(sh, command).value <= CommandTokens(sh, longer).value
    ensures Normalize(sh, command).Some? && Normalize(sh, longer).Some?
    ensures var (a, b) := (Normalize(sh, command).value, Normalize(sh, longer).value);
            && CommandTokens(sh, a).Some? && CommandTokens(sh, b).Some?
            && CommandTokens(sh, a).value <= CommandTokens(sh, b).value
            && |CommandTokens(sh, a).value| == |CommandTokens(sh, command).value|
  {
    NormalizedTokens(sh, command);
    NormalizedTokens(sh, longer);
  }
}
