/**
 * Matches one token to a registered command: an exact match on the
 * normalized name first, then, when enabled, the first active command
 * whose similarity to the token reaches the global threshold. The
 * similarity measure is a parameter of the model.
 */
module ConfidenceMatcher {
  import opened Options
  import opened Text
  import opened CommandLibrary
  import CommandConverter

  datatype ConfidenceConfig = ConfidenceConfig(globalThreshold: real, usePhoneticMatching: bool, logConfidenceScore: bool)

  /** Threshold 0.8, phonetic matching on, score logging off. */
  const DefaultConfig: ConfidenceConfig := ConfidenceConfig(0.8, true, false)

  /** A partial configuration: the fields given replace, the others stay. */
  datatype ConfigPatch = ConfigPatch(globalThreshold: Option<real>, usePhoneticMatching: Option<bool>, logConfidenceScore: Option<bool>)

  const NoChanges: ConfigPatch := ConfigPatch(None, None, None)

  /** `config` overridden by the fields `patch` gives. */
  function Merge(config: ConfidenceConfig, patch: ConfigPatch): ConfidenceConfig {
    ConfidenceConfig(
      patch.globalThreshold.GetOr(config.globalThreshold),
      patch.usePhoneticMatching.GetOr(config.usePhoneticMatching),
      patch.logConfidenceScore.GetOr(config.logConfidenceScore))
  }

  /** Merging `p` and then `q` is merging `q` over `p` once. */
  function Over(p: ConfigPatch, q: ConfigPatch): ConfigPatch {
    ConfigPatch(
      if q.globalThreshold.Some? then q.globalThreshold else p.globalThreshold,
      if q.usePhoneticMatching.Some? then q.usePhoneticMatching else p.usePhoneticMatching,
      if q.logConfidenceScore.Some? then q.logConfidenceScore else p.logConfidenceScore)
  }

  /**
   * An empty patch changes nothing, a patch applied twice is applied once,
   * and two patches in a row are one combined patch.
   */
  lemma MergeLaws(config: ConfidenceConfig, p: ConfigPatch, q: ConfigPatch)
    ensures Merge(config, NoChanges) == config
    ensures Merge(Merge(config, p), p) == Merge(config, p)
    ensures Merge(Merge(config, p), q) == Merge(config, Over(p, q))
  {
  }

  datatype MatchResult = MatchResult(command: GameCommand, confidence: real, matchedWord: string, isExactMatch: bool)

  /** Whether `c` is active and at least `threshold` similar to `token`. */
  predicate Qualifies(token: string, c: GameCommand, similarity: (string, string) -> real, threshold: real) {
    c.active && similarity(token, c.name) >= threshold
  }

  /** The first command of `commands` that qualifies, as a similarity match. */
  function FirstMatch(token: string, commands: seq<GameCommand>, similarity: (string, string) -> real, threshold: real): (r: Option<MatchResult>)
    ensures r.None? <==> forall c :: c in commands ==> !Qualifies(token, c, similarity, threshold)
    ensures r.Some? ==> r.value.command in commands && Qualifies(token, r.value.command, similarity, threshold)
    ensures r.Some? ==> r.value == MatchResult(r.value.command, similarity(token, r.value.command.name), token, false)
  {
    if commands == [] then None
    else if Qualifies(token, commands[0], similarity, threshold) then
      Some(MatchResult(commands[0], similarity(token, commands[0].name), token, false))
    else FirstMatch(token, commands[1..], similarity, threshold)
  }

  /** The command `FirstMatch` picks comes before every other qualifying one. */
  lemma {:induction false} FirstMatchIsEarliest(token: string, commands: seq<GameCommand>, similarity: (string, string) -> real, threshold: real)
    ensures FirstMatch(token, commands, similarity, threshold).Some? ==>
      exists i :: 0 <= i < |commands| && commands[i] == FirstMatch(token, commands, similarity, threshold).value.command &&
        forall j :: 0 <= j < i ==> !Qualifies(token, commands[j], similarity, threshold)
  {
    if commands != [] && !Qualifies(token, commands[0], similarity, threshold) {
      FirstMatchIsEarliest(token, commands[1..], similarity, threshold);
      var r := FirstMatch(token, commands, similarity, threshold);
      if r.Some? {
        var i :| 0 <= i < |commands[1..]| && commands[1..][i] == r.value.command &&
          forall j :: 0 <= j < i ==> !Qualifies(token, commands[1..][j], similarity, threshold);
        assert commands[i + 1] == r.value.command;
        forall j | 0 <= j < i + 1
          ensures !Qualifies(token, commands[j], similarity, threshold)
        {
          if j > 0 {
            assert commands[j] == commands[1..][j - 1];
          }
        }
      }
    } else if commands != [] {
      assert commands[0] == FirstMatch(token, commands, similarity, threshold).value.command;
    }
  }

  /** No command ahead of the chosen one matters: a prefix with no qualifying command can be dropped. */
  lemma {:induction false} FirstMatchSkipsPrefix(token: string, prefix: seq<GameCommand>, rest: seq<GameCommand>, similarity: (string, string) -> real, threshold: real)
    requires forall c :: c in prefix ==> !Qualifies(token, c, similarity, threshold)
    ensures FirstMatch(token, prefix + rest, similarity, threshold) == FirstMatch(token, rest, similarity, threshold)
  {
    if prefix == [] {
      assert prefix + rest == rest;
    } else {
      assert prefix[0] in prefix && (prefix + rest)[0] == prefix[0];
      assert (prefix + rest)[1..] == prefix[1..] + rest;
      FirstMatchSkipsPrefix(token, prefix[1..], rest, similarity, threshold);
    }
  }

  /**
   * The answer of `findMatch` given the exact lookup `exact` and the
   * stored commands in order.
   */
  function Resolve(config: ConfidenceConfig, token: string, exact: Option<GameCommand>, commands: seq<GameCommand>, similarity: (string, string) -> real): (r: Option<MatchResult>)
    ensures exact.Some? && exact.value.active ==> r == Some(MatchResult(exact.value, 1.0, token, true))
    ensures !(exact.Some? && exact.value.active) && !config.usePhoneticMatching ==> r == None
    ensures r.Some? ==> r.value.command.active && r.value.matchedWord == token
    ensures r.Some? && !r.value.isExactMatch ==>
      config.usePhoneticMatching && r.value.command in commands && r.value.confidence >= config.globalThreshold
    ensures r.None? <==> (!(exact.Some? && exact.value.active) &&
      (!config.usePhoneticMatching || forall c :: c in commands ==> !Qualifies(token, c, similarity, config.globalThreshold)))
  {
    if exact.Some? && exact.value.active then Some(MatchResult(exact.value, 1.0, token, true))
    else if !config.usePhoneticMatching then None
    else FirstMatch(token, commands, similarity, config.globalThreshold)
  }

  /**
   * Raising the threshold or switching phonetic matching off never turns
   * "no match" into a match.
   */
  lemma {:induction false} StricterFindsNoMore(config: ConfidenceConfig, stricter: ConfidenceConfig, token: string, exact: Option<GameCommand>, commands: seq<GameCommand>, similarity: (string, string) -> real)
    requires stricter.globalThreshold >= config.globalThreshold
    requires stricter.usePhoneticMatching ==> config.usePhoneticMatching
    requires Resolve(config, token, exact, commands, similarity).None?
    ensures Resolve(stricter, token, exact, commands, similarity).None?
  {
    if stricter.usePhoneticMatching {
      forall c | c in commands
        ensures !Qualifies(token, c, similarity, stricter.globalThreshold)
      {
        assert !Qualifies(token, c, similarity, config.globalThreshold);
      }
    }
  }

  /**
   * With phonetic matching off, a token matches exactly the command the
   * transcription converter would run for it.
   */
  lemma ExactOnlyAgreesWithConverter(config: ConfidenceConfig, token: string, commandMap: map<string, GameCommand>, commands: seq<GameCommand>, similarity: (string, string) -> real)
    requires !config.usePhoneticMatching
    ensures var exact := if Normalize(token) in commandMap then Some(commandMap[Normalize(token)]) else None;
      var r := Resolve(config, token, exact, commands, similarity);
      (r.Some? <==> CommandConverter.ActiveCommand(token, commandMap).Some?) &&
      (r.Some? ==> r.value.command == CommandConverter.ActiveCommand(token, commandMap).value)
  {
  }

  class Matcher {
    var config: ConfidenceConfig

    /** The defaults overridden by `overrides`; nothing is range-checked. */
    constructor (overrides: ConfigPatch)
      ensures config == Merge(DefaultConfig, overrides)
    {
      config := Merge(DefaultConfig, overrides);
    }

    method UpdateConfig(patch: ConfigPatch)
      modifies this
      ensures config == Merge(old(config), patch)
    {
      config := Merge(config, patch);
    }

    /**
     * Exact match on the normalized token at confidence 1.0 when that
     * command is active; otherwise, if enabled, the first similarity match.
     */
    method FindMatch(token: string, library: Library, similarity: (string, string) -> real) returns (r: Option<MatchResult>)
      requires library.Valid()
      ensures r == Resolve(config, token, library.Get(token), library.List(), similarity)
      ensures r.Some? && r.value.isExactMatch ==> r.value.command.name == Normalize(token) && r.value.confidence == 1.0
    {
      if library.Has(token) {
        var command := library.Get(token);
        if command.Some? && command.value.active {
          return Some(MatchResult(command.value, 1.0, token, true));
        }
      }
      if !config.usePhoneticMatching {
        return None;
      }
      r := FindPhoneticMatch(token, library, similarity);
    }

    /** The first active command in insertion order whose similarity reaches the threshold. */
    method FindPhoneticMatch(token: string, library: Library, similarity: (string, string) -> real) returns (r: Option<MatchResult>)
      requires library.Valid()
      ensures r == FirstMatch(token, library.List(), similarity, config.globalThreshold)
    {
      var allCommands := library.List();
      var i := 0;
      while i < |allCommands|
        invariant 0 <= i <= |allCommands|
        invariant FirstMatch(token, allCommands[i..], similarity, config.globalThreshold) == FirstMatch(token, allCommands, similarity, config.globalThreshold)
      {
        var command := allCommands[i];
        assert allCommands[i..][1..] == allCommands[i + 1..];
        if !command.active {
          i := i + 1;
          continue;
        }
        var score := similarity(token, command.name);
        var threshold := config.globalThreshold;
        if score >= threshold {
          return Some(MatchResult(command, score, token, false));
        }
        i := i + 1;
      }
      r := None;
    }

    function GetGlobalThreshold(): (t: real)
      reads this
      ensures t == config.globalThreshold
    {
      config.globalThreshold
    }

    /**
     * Sets the threshold when it lies in [0, 1]; otherwise fails with the
     * source's message and leaves the configuration as it was.
     */
    method SetGlobalThreshold(threshold: real) returns (outcome: Outcome)
      modifies this
      ensures threshold < 0.0 || threshold > 1.0 ==>
        outcome == Fail("Threshold must be between 0 and 1") && config == old(config)
      ensures 0.0 <= threshold <= 1.0 ==>
        outcome == Pass && config == old(config).(globalThreshold := threshold)
    {
      if threshold < 0.0 || threshold > 1.0 {
        return Fail("Threshold must be between 0 and 1");
      }
      config := config.(globalThreshold := threshold);
      outcome := Pass;
    }

    function IsPhoneticMatchingEnabled(): (enabled: bool)
      reads this
      ensures enabled == config.usePhoneticMatching
    {
      config.usePhoneticMatching
    }

    method SetPhoneticMatching(enabled: bool)
      modifies this
      ensures config == old(config).(usePhoneticMatching := enabled)
    {
      config := config.(usePhoneticMatching := enabled);
    }

    method SetLogging(enabled: bool)
      modifies this
      ensures config == old(config).(logConfidenceScore := enabled)
    {
      config := config.(logConfidenceScore := enabled);
    }
  }
}
