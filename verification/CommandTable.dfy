/** What the classifier decides, said of words, flags and paths rather than of its own steps
    (scripts/approval_pipeline.py). */
module CommandTable {
  import opened Common
  import opened CommandRisk

  // ---------------------------------------------------------------- base names

  predicate IsName(name: string) {
    name != "" && name != "." && '/' !in name
  }

  lemma {:induction false} LastAfterSlash(dir: string, name: string)
    requires '/' !in name
    ensures LastComponent(dir + "/" + name) == name
  {
    var s := dir + "/" + name;
    if name != "" {
      var short := name[..|name| - 1];
      LastAfterSlash(dir, short);
      assert s[..|s| - 1] == dir + "/" + short;
      assert s[|s| - 1] == name[|name| - 1];
      assert name == short + [name[|name| - 1]];
    }
  }

  lemma {:induction false} LastOfName(name: string)
    requires '/' !in name
    ensures LastComponent(name) == name
  {
    if name != "" {
      LastOfName(name[..|name| - 1]);
      assert name == name[..|name| - 1] + [name[|name| - 1]];
    }
  }

  /** The base name of a path is its last name, whatever directory, slashes and dots surround it. */
  lemma BaseNameIsLast(dir: string, name: string)
    requires IsName(name)
    ensures BaseName(name) == name
    ensures BaseName(dir + "/" + name) == name
    ensures BaseName(dir + "/" + name + "/") == name
    ensures BaseName(dir + "/" + name + "/.") == name
  {
    var path := dir + "/" + name;
    LastOfName(name);
    LastAfterSlash(dir, name);
    assert (path + "/")[..|path| + 1 - 1] == path;
    LastAfterSlash(path, ".");
    assert path + "/." == path + "/" + "." && (path + "/.")[..|path| + 2 - 1] == path + "/";
  }

  // ---------------------------------------------------------------- scripts

  predicate Destructive(name: string) {
    || Contains(name, "restore") || Contains(name, "rollback") || Contains(name, "cleanup")
    || Contains(name, "clear") || Contains(name, "delete") || Contains(name, "deduplicate")
  }

  predicate Mutating(name: string) {
    || Contains(name, "backfill") || Contains(name, "repair") || Contains(name, "migrate")
    || Contains(name, "deploy") || Contains(name, "sync") || Contains(name, "seed")
    || Contains(name, "set_") || Contains(name, "create_") || Contains(name, "fix_")
  }

  lemma DestructiveIff(name: string)
    ensures ContainsAny(name, DESTRUCTIVE_KEYWORDS) <==> Destructive(name)
  {
    var words := DESTRUCTIVE_KEYWORDS;
    assert words[0] == "restore" && words[1] == "rollback" && words[2] == "cleanup";
    assert words[3] == "clear" && words[4] == "delete" && words[5] == "deduplicate";
  }

  lemma MutatingIff(name: string)
    ensures ContainsAny(name, MUTATING_KEYWORDS) <==> Mutating(name)
  {
    var words := MUTATING_KEYWORDS;
    assert words[0] == "backfill" && words[1] == "repair" && words[2] == "migrate" && words[3] == "deploy";
    assert words[4] == "sync" && words[5] == "seed" && words[6] == "set_" && words[7] == "create_";
    assert words[8] == "fix_";
  }

  predicate Listed(sh: Shell, target: Option<string>) {
    target.Some? && (target.value in sh.registry || target.value in sh.conditional)
  }

  /** The registry gives the script this level, on its own or because it asks for a flag that is there. */
  predicate ListedAs(sh: Shell, target: Option<string>, flags: set<string>, level: Risk) {
    target.Some?
    && if target.value in sh.registry then sh.registry[target.value] == level
       else target.value in sh.conditional
            && sh.conditional[target.value].1 == level && sh.conditional[target.value].0 in flags
  }

  predicate AsksToWrite(flags: set<string>) {
    exists flag | flag in ["--execute", "--apply", "--write", "--fix"] :: flag in flags
  }

  /** A listed script is judged by the registry alone, any other by the words in its name; what neither
      judges is L2 exactly when a script is told to write, and otherwise harmless. */
  lemma ScriptRiskExact(sh: Shell, target: Option<string>, name: string, flags: set<string>)
    ensures var risk := ScriptRisk(sh, target, name, flags);
            && (risk == L4 <==> ListedAs(sh, target, flags, L4) || (!Listed(sh, target) && Destructive(name)))
            && (risk == L3 <==> ListedAs(sh, target, flags, L3)
                                || (!Listed(sh, target) && Mutating(name) && !Destructive(name)))
            && (risk == L2 ==> target.Some? && target.value != "" && AsksToWrite(flags))
            && (risk == L0 ==> target.None? || target.value == "" || !AsksToWrite(flags))
            && risk in {L0, L2, L3, L4}
  {
    DestructiveIff(name);
    MutatingIff(name);
    assert AsksToWrite(flags) <==> HasMutatingFlag(flags) by {
      assert ["--execute", "--apply", "--write", "--fix"][0] == "--execute";
      assert ["--execute", "--apply", "--write", "--fix"][1] == "--apply";
      assert ["--execute", "--apply", "--write", "--fix"][2] == "--write";
      assert ["--execute", "--apply", "--write", "--fix"][3] == "--fix";
    }
  }

  predicate Interprets(token: string) {
    "python" <= BaseName(token)
  }

  predicate HasExtension(script: string, ext: string) {
    |script| >= |ext| && script[|script| - |ext|..] == ext
  }

  /** The command starts this script, through an interpreter or directly. */
  predicate Starts(tokens: seq<string>, script: string)
    requires tokens != []
  {
    if Interprets(tokens[0]) then |tokens| > 1 && tokens[1] == script && HasExtension(script, ".py")
    else tokens[0] == script && (HasExtension(script, ".py") || HasExtension(script, ".sh"))
  }

  /** A script is the target whether an interpreter starts it or it is started directly, and whatever its
      arguments; anything else has no target. */
  lemma TargetExact(sh: Shell, tokens: seq<string>)
    requires tokens != []
    ensures forall script: string | Starts(tokens, script) ::
              TargetScript(sh, tokens) == Some(NormalizeToken(sh, script))
    ensures TargetScript(sh, tokens).Some? ==> exists script | script in tokens :: Starts(tokens, script)
  {
    if TargetScript(sh, tokens).Some? {
      var script := if Interprets(tokens[0]) then tokens[1] else tokens[0];
      assert script in tokens && Starts(tokens, script);
    }
  }

  /** Options stay as they are, and so does whatever names no path of the repository. */
  lemma NormalizedTokenIs(sh: Shell, token: string)
    ensures token == "" || token[0] == '-' || sh.resolve(token).None? ==> NormalizeToken(sh, token) == token
    ensures token != "" && token[0] != '-' && sh.resolve(token).Some?
            ==> NormalizeToken(sh, token) == sh.resolve(token).value
  {
  }

  // ---------------------------------------------------------------- whole commands

  /** Underscores become dashes and everything else stays. */
  predicate Dashed(action: string, name: string) {
    |action| == |name| && forall i | 0 <= i < |name| :: action[i] == if name[i] == '_' then '-' else name[i]
  }

  lemma {:induction false} DashedExactly(s: string)
    ensures Dashed(ReplaceUnderscores(s), s)
  {
    if s != "" {
      DashedExactly(s[1..]);
    }
  }

  /** The action is the script's name with dashes for underscores, its extension dropped. */
  lemma ActionIsName(target: string)
    ensures var name := BaseName(target);
            Dashed(ActionFromTarget(target), name)
            || exists stem: string :: (name == stem + ".py" || name == stem + ".sh")
                                      && Dashed(ActionFromTarget(target), stem)
    ensures forall stem: string | BaseName(target) == stem + ".py" || BaseName(target) == stem + ".sh" ::
              Dashed(ActionFromTarget(target), stem)
  {
    var name := BaseName(target);
    DashedExactly(name);
    if EndsWith(name, ".py") || EndsWith(name, ".sh") {
      var stem := name[..|name| - 3];
      DashedExactly(stem);
      assert name == stem + name[|name| - 3..];
    }
    forall stem: string | name == stem + ".py" || name == stem + ".sh"
      ensures Dashed(ActionFromTarget(target), stem)
    {
      assert name[..|name| - 3] == stem && name[|name| - 3..] in {".py", ".sh"};
      DashedExactly(stem);
    }
  }

  /** The script a command starts, or else its first token. */
  function Subject(sh: Shell, tokens: seq<string>): string
    requires tokens != []
  {
    var target := TargetScript(sh, tokens);
    if target.Some? && target.value != "" then target.value else tokens[0]
  }

  lemma TokenRiskTable(sh: Shell, tokens: seq<string>)
    requires tokens != []
    ensures GitRisk(tokens).Some? ==> TokenRisk(sh, tokens) == GitRisk(tokens).value
    ensures GitRisk(tokens).None? ==>
              TokenRisk(sh, tokens) == ScriptRisk(sh, TargetScript(sh, tokens), BaseName(Subject(sh, tokens)),
                                                  set t | t in tokens && "--" <= t)
  {
    assert Flags(tokens) == set t | t in tokens && "--" <= t;
  }

  lemma FlagsOfRisk(risk: Risk)
    requires Known(risk)
    ensures RequiresApproval(risk) <==> risk in {L2, L3, L4}
    ensures RequiresConfirmation(risk) <==> risk in {L3, L4}
  {
  }

  lemma PolicyOfTokens(sh: Shell, command: string)
    requires RoundTrips(sh) && CommandTokens(sh, command).Some?
    ensures var tokens := NormalizeTokens(sh, CommandTokens(sh, command).value);
            && tokens != [] && Classify(sh, command).Some?
            && var policy := Classify(sh, command).value;
               policy.action == ActionFromTarget(Subject(sh, tokens)) && policy.risk == TokenRisk(sh, tokens)
  {
    NormalizedTokens(sh, command);
  }

  /** The policy of a command: its level is the git verdict if there is one, and that of its script
      otherwise; approval is asked from L2 on and confirmation from L3 on. */
  lemma PolicyTable(sh: Shell, command: string)
    requires RoundTrips(sh) && CommandTokens(sh, command).Some?
    ensures var tokens := NormalizeTokens(sh, CommandTokens(sh, command).value);
            && tokens != [] && Classify(sh, command).Some?
            && var policy := Classify(sh, command).value;
               && policy.action == ActionFromTarget(Subject(sh, tokens))
               && (GitRisk(tokens).Some? ==> policy.risk == GitRisk(tokens).value)
               && (GitRisk(tokens).None? ==>
                     policy.risk == ScriptRisk(sh, TargetScript(sh, tokens), BaseName(Subject(sh, tokens)),
                                               set t | t in tokens && "--" <= t))
               && (policy.approvalRequired <==> policy.risk in {L2, L3, L4})
               && (policy.confirmationRequired <==> policy.risk in {L3, L4})
  {
    PolicyOfTokens(sh, command);
    TokenRiskTable(sh, NormalizeTokens(sh, CommandTokens(sh, command).value));
    FlagsOfRisk(Classify(sh, command).value.risk);
  }

  /** A command that cannot be split, or is empty, has no normal form and no policy. */
  lemma Unparsable(sh: Shell, command: string)
    requires RoundTrips(sh)
    ensures Normalize(sh, command).None? <==> sh.split(command).None? || sh.split(command) == Some([])
    ensures Classify(sh, command).None? <==> Normalize(sh, command).None?
  {
    if CommandTokens(sh, command).Some? {
      NormalizedTokens(sh, command);
    }
  }
}
