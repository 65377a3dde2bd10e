/**
 * Turns a transcription into tokens, matches each token against the active
 * registered commands by exact name, runs the matched actions and keeps a
 * log of the matches.
 */
module CommandConverter {
  import opened Options
  import opened Text
  import opened CommandLibrary

  // ---------------------------------------------------------------------
  // Tokenizing

  /** The characters `.,!?;:'"` that normalization removes. */
  predicate IsPunctuation(c: char) {
    c == '.' || c == ',' || c == '!' || c == '?' || c == ';' || c == ':' || c == '\'' || c == '"'
  }

  /** `s` with every punctuation character removed, the rest kept in order. */
  function StripPunctuation(s: string): (r: string)
    ensures |r| <= |s|
    ensures forall i :: 0 <= i < |r| ==> !IsPunctuation(r[i])
    ensures forall c :: c in r <==> c in s && !IsPunctuation(c)
  {
    if s == [] then []
    else (if IsPunctuation(s[0]) then [] else [s[0]]) + StripPunctuation(s[1..])
  }

  /** The `normalize` of a word: lowercase, trim, drop punctuation. */
  function NormalizeWord(word: string): (r: string)
    ensures |r| <= |word|
    ensures forall i :: 0 <= i < |r| ==> !IsPunctuation(r[i])
  {
    StripPunctuation(Trim(ToLower(word)))
  }

  /** The index of the first whitespace character of `s`, or `|s|` if none. */
  function FirstWhitespace(s: string): (i: nat)
    ensures i <= |s|
    ensures i < |s| ==> IsWhitespace(s[i])
  {
    if s == [] || IsWhitespace(s[0]) then 0 else 1 + FirstWhitespace(s[1..])
  }

  /** Everything before the first whitespace character is not whitespace. */
  lemma {:induction false} FirstWhitespaceUnspaced(s: string)
    ensures HasNoWhitespace(s[..FirstWhitespace(s)])
  {
    if s != [] && !IsWhitespace(s[0]) {
      FirstWhitespaceUnspaced(s[1..]);
      assert s[..FirstWhitespace(s)] == [s[0]] + s[1..][..FirstWhitespace(s[1..])];
    }
  }

  /**
   * `s.split(/\s+/)`: the pieces between maximal runs of whitespace. The
   * first and the last piece may be empty, as in JavaScript.
   */
  function SplitOnWhitespace(s: string): (pieces: seq<string>)
    ensures |pieces| >= 1
    ensures forall k :: 0 <= k < |pieces| ==> HasNoWhitespace(pieces[k])
    decreases |s|
  {
    var i := FirstWhitespace(s);
    FirstWhitespaceUnspaced(s);
    if i == |s| then assert s[..i] == s; [s]
    else
      var j := i + LeadingWhitespace(s[i..]);
      [s[..i]] + SplitOnWhitespace(s[j..])
  }

  /** Text without whitespace is a single piece. */
  lemma SplitUnspaced(s: string)
    requires HasNoWhitespace(s)
    ensures SplitOnWhitespace(s) == [s]
  {
    assert FirstWhitespace(s) == |s|;
  }

  /**
   * A piece without whitespace, then a run of whitespace, then text that
   * does not start with whitespace: the piece is split off at the run and
   * the run itself disappears.
   */
  lemma SplitAtGap(p: string, w: string, q: string)
    requires HasNoWhitespace(p)
    requires w != [] && forall k :: 0 <= k < |w| ==> IsWhitespace(w[k])
    requires q == [] || !IsWhitespace(q[0])
    ensures SplitOnWhitespace(p + w + q) == [p] + SplitOnWhitespace(q)
  {
    var s := p + w + q;
    assert s == p + (w + q);
    FirstWhitespaceAfter(p, w + q);
    var i := FirstWhitespace(s);
    assert s[i..] == w + q;
    LeadingWhitespaceRun(w, q);
    var j := i + LeadingWhitespace(s[i..]);
    assert s[..i] == p && s[j..] == q;
    assert SplitOnWhitespace(s) == [s[..i]] + SplitOnWhitespace(s[j..]);
  }

  /** Before text that starts with whitespace, a whitespace-free piece ends at that whitespace. */
  lemma {:induction false} FirstWhitespaceAfter(p: string, r: string)
    requires HasNoWhitespace(p)
    requires r != [] && IsWhitespace(r[0])
    ensures FirstWhitespace(p + r) == |p|
  {
    if p == [] {
      assert p + r == r;
    } else {
      assert (p + r)[0] == p[0] && (p + r)[1..] == p[1..] + r;
      assert HasNoWhitespace(p[1..]);
      FirstWhitespaceAfter(p[1..], r);
    }
  }

  /** A run of whitespace followed by text that does not start with whitespace. */
  lemma {:induction false} LeadingWhitespaceRun(w: string, q: string)
    requires forall k :: 0 <= k < |w| ==> IsWhitespace(w[k])
    requires q == [] || !IsWhitespace(q[0])
    ensures LeadingWhitespace(w + q) == |w|
  {
    if w == [] {
      assert w + q == q;
    } else {
      assert (w + q)[0] == w[0] && (w + q)[1..] == w[1..] + q;
      assert forall k :: 0 <= k < |w[1..]| ==> IsWhitespace(w[1..][k]) by {
        forall k | 0 <= k < |w[1..]|
          ensures IsWhitespace(w[1..][k])
        {
          assert w[1..][k] == w[k + 1];
        }
      }
      LeadingWhitespaceRun(w[1..], q);
    }
  }

  /** The normalized pieces, with the ones that became empty dropped. */
  function NormalizeAll(pieces: seq<string>): (tokens: seq<string>)
    ensures |tokens| <= |pieces|
  {
    if pieces == [] then []
    else
      var w := NormalizeWord(pieces[0]);
      (if w == [] then [] else [w]) + NormalizeAll(pieces[1..])
  }

  /** A well-formed token: non-empty, lowercase, free of whitespace and of punctuation. */
  predicate IsToken(t: string) {
    && t != []
    && IsLower(t)
    && HasNoWhitespace(t)
    && forall i :: 0 <= i < |t| ==> !IsPunctuation(t[i])
  }

  /** `tokenize`: split on whitespace, normalize each piece, drop empty ones. */
  function Tokenize(transcription: string): (tokens: seq<string>)
    ensures forall t :: t in tokens ==> IsToken(t)
  {
    var pieces := SplitOnWhitespace(transcription);
    NormalizeAllTokens(pieces);
    NormalizeAll(pieces)
  }

  /** A normalized piece that had no whitespace is a token, or empty. */
  lemma NormalizeWordOfPiece(p: string)
    requires HasNoWhitespace(p)
    ensures var w := NormalizeWord(p); w == [] || IsToken(w)
    ensures NormalizeWord(p) == Kept(p)
  {
    var l := ToLower(p);
    assert HasNoWhitespace(l);
    assert IsLower(l);
    assert LeadingWhitespace(l) == 0;
    assert TrailingCut(l) == |l|;
    assert Trim(l) == l;
    KeptOfUnspaced(l);
    StripKeepsClean(l);
  }

  /** Removing punctuation keeps a lowercase, whitespace-free string so. */
  lemma {:induction false} StripKeepsClean(s: string)
    requires IsLower(s) && HasNoWhitespace(s)
    ensures IsLower(StripPunctuation(s)) && HasNoWhitespace(StripPunctuation(s))
  {
    if s != [] {
      StripKeepsClean(s[1..]);
    }
  }

  lemma {:induction false} NormalizeAllTokens(pieces: seq<string>)
    requires forall p :: p in pieces ==> HasNoWhitespace(p)
    ensures forall t :: t in NormalizeAll(pieces) ==> IsToken(t)
  {
    if pieces != [] {
      NormalizeWordOfPiece(pieces[0]);
      NormalizeAllTokens(pieces[1..]);
    }
  }

  // ---------------------------------------------------------------------
  // What the tokens keep of the text

  /** The characters normalization keeps: neither whitespace nor punctuation. */
  predicate IsKept(c: char) {
    !IsWhitespace(c) && !IsPunctuation(c)
  }

  function KeepChars(s: string): (r: string)
  {
    if s == [] then [] else (if IsKept(s[0]) then [s[0]] else []) + KeepChars(s[1..])
  }

  /** The lowercased characters of `s` that normalization keeps, in order. */
  function Kept(s: string): string {
    KeepChars(ToLower(s))
  }

  function Concat(words: seq<string>): string {
    if words == [] then [] else words[0] + Concat(words[1..])
  }

  lemma {:induction false} KeepCharsAppend(a: string, b: string)
    ensures KeepChars(a + b) == KeepChars(a) + KeepChars(b)
  {
    if a == [] {
      assert a + b == b;
    } else {
      var head := if IsKept(a[0]) then [a[0]] else [];
      assert (a + b)[0] == a[0] && (a + b)[1..] == a[1..] + b;
      assert KeepChars(a + b) == head + KeepChars(a[1..] + b);
      KeepCharsAppend(a[1..], b);
      assert KeepChars(a) == head + KeepChars(a[1..]);
    }
  }

  lemma {:induction false} ToLowerAppend(a: string, b: string)
    ensures ToLower(a + b) == ToLower(a) + ToLower(b)
  {
    assert ToLower(a + b) == ToLower(a) + ToLower(b);
  }

  lemma KeptAppend(a: string, b: string)
    ensures Kept(a + b) == Kept(a) + Kept(b)
  {
    ToLowerAppend(a, b);
    KeepCharsAppend(ToLower(a), ToLower(b));
  }

  lemma {:induction false} KeptOfWhitespace(s: string)
    requires forall k :: 0 <= k < |s| ==> IsWhitespace(s[k])
    ensures Kept(s) == []
  {
    if s != [] {
      assert ToLower(s) == [LowerChar(s[0])] + ToLower(s[1..]);
      KeptOfWhitespace(s[1..]);
    }
  }

  lemma {:induction false} KeptOfUnspaced(s: string)
    requires HasNoWhitespace(s)
    ensures KeepChars(s) == StripPunctuation(s)
  {
    if s != [] {
      KeptOfUnspaced(s[1..]);
    }
  }

  /** A run of whitespace between two parts keeps nothing of its own. */
  lemma KeptAroundGap(s: string, i: nat, j: nat)
    requires i <= j <= |s|
    requires forall k :: i <= k < j ==> IsWhitespace(s[k])
    ensures Kept(s) == Kept(s[..i]) + Kept(s[j..])
  {
    assert s == s[..i] + (s[i..j] + s[j..]);
    KeptAppend(s[..i], s[i..j] + s[j..]);
    KeptAppend(s[i..j], s[j..]);
    KeptOfWhitespace(s[i..j]);
  }

  lemma ConcatKeptEachCons(p: string, rest: seq<string>)
    ensures Concat(KeptEach([p] + rest)) == Kept(p) + Concat(KeptEach(rest))
  {
    assert ([p] + rest)[1..] == rest;
    assert KeptEach([p] + rest) == [Kept(p)] + KeptEach(rest);
    assert ([Kept(p)] + KeptEach(rest))[1..] == KeptEach(rest);
  }

  /** Splitting loses nothing normalization would keep. */
  lemma {:induction false} KeptOfSplit(s: string)
    ensures Kept(s) == Concat(KeptEach(SplitOnWhitespace(s)))
    decreases |s|
  {
    var i := FirstWhitespace(s);
    if i == |s| {
      assert SplitOnWhitespace(s) == [s];
      assert KeptEach([s]) == [Kept(s)];
    } else {
      var j := i + LeadingWhitespace(s[i..]);
      var rest := SplitOnWhitespace(s[j..]);
      assert SplitOnWhitespace(s) == [s[..i]] + rest;
      assert forall k :: i <= k < j ==> IsWhitespace(s[k]) by {
        LeadingAllWhitespace(s[i..]);
        forall k | i <= k < j
          ensures IsWhitespace(s[k])
        {
          assert s[k] == s[i..][k - i];
        }
      }
      KeptAroundGap(s, i, j);
      KeptOfSplit(s[j..]);
      ConcatKeptEachCons(s[..i], rest);
    }
  }

  function KeptEach(pieces: seq<string>): (r: seq<string>)
    ensures |r| == |pieces|
  {
    if pieces == [] then [] else [Kept(pieces[0])] + KeptEach(pieces[1..])
  }

  lemma {:induction false} ConcatNormalizeAll(pieces: seq<string>)
    requires forall p :: p in pieces ==> HasNoWhitespace(p)
    ensures Concat(NormalizeAll(pieces)) == Concat(KeptEach(pieces))
  {
    if pieces != [] {
      NormalizeWordOfPiece(pieces[0]);
      ConcatNormalizeAll(pieces[1..]);
      var w := NormalizeWord(pieces[0]);
      var rest := NormalizeAll(pieces[1..]);
      if w == [] {
        assert NormalizeAll(pieces) == rest;
      } else {
        assert NormalizeAll(pieces) == [w] + rest;
        assert ([w] + rest)[1..] == rest;
      }
    }
  }

  /**
   * The tokens, run together, are exactly the lowercased characters of the
   * transcription that are neither whitespace nor punctuation, in their
   * original order: tokenizing reorders, invents and loses nothing else.
   */
  lemma TokensKeepText(transcription: string)
    ensures Concat(Tokenize(transcription)) == Kept(transcription)
  {
    var pieces := SplitOnWhitespace(transcription);
    ConcatNormalizeAll(pieces);
    KeptOfSplit(transcription);
  }

  // ---------------------------------------------------------------------
  // Matching

  /**
   * The command `token` names, if it is registered and active: `has`, then
   * `get`, then the `active` flag, all on the normalized token.
   */
  function ActiveCommand(token: string, commands: map<string, GameCommand>): (r: Option<GameCommand>)
    ensures r.Some? ==> r.value.active && Normalize(token) in commands && r.value == commands[Normalize(token)]
    ensures r.None? ==> Normalize(token) !in commands || !commands[Normalize(token)].active
  {
    var key := Normalize(token);
    if key in commands && commands[key].active then Some(commands[key]) else None
  }

  /** One command per token that names an active command, in token order. */
  function MatchAll(tokens: seq<string>, commands: map<string, GameCommand>): (matched: seq<GameCommand>)
    ensures |matched| <= |tokens|
  {
    if tokens == [] then []
    else
      var rest := MatchAll(tokens[1..], commands);
      match ActiveCommand(tokens[0], commands)
      case Some(c) => [c] + rest
      case None => rest
  }

  /**
   * A command is matched iff some token names it and it is active; in
   * particular an inactive command is never matched.
   */
  lemma {:induction false} MatchAllMembership(tokens: seq<string>, commands: map<string, GameCommand>)
    ensures forall c :: c in MatchAll(tokens, commands) ==>
      c.active && exists t :: t in tokens && ActiveCommand(t, commands) == Some(c)
    ensures forall t :: t in tokens && ActiveCommand(t, commands).Some? ==>
      ActiveCommand(t, commands).value in MatchAll(tokens, commands)
  {
    if tokens != [] {
      MatchAllMembership(tokens[1..], commands);
      assert forall t :: t in tokens[1..] ==> t in tokens;
      assert forall t :: t in tokens ==> t == tokens[0] || t in tokens[1..];
    }
  }

  lemma MatchOne(token: string, commands: map<string, GameCommand>)
    ensures MatchAll([token], commands) == match ActiveCommand(token, commands)
      case Some(c) => [c]
      case None => []
  {
    assert [token][1..] == [];
  }

  /** One more token adds its active command, if any, to the matches. */
  lemma MatchNext(tokens: seq<string>, i: nat, commands: map<string, GameCommand>)
    requires i < |tokens|
    ensures MatchAll(tokens[..i + 1], commands) == MatchAll(tokens[..i], commands) + match ActiveCommand(tokens[i], commands)
      case Some(c) => [c]
      case None => []
  {
    assert tokens[..i + 1] == tokens[..i] + [tokens[i]];
    MatchAllAppend(tokens[..i], [tokens[i]], commands);
    MatchOne(tokens[i], commands);
  }

  /** Matching a longer utterance is matching each part, one after the other. */
  lemma {:induction false} MatchAllAppend(a: seq<string>, b: seq<string>, commands: map<string, GameCommand>)
    ensures MatchAll(a + b, commands) == MatchAll(a, commands) + MatchAll(b, commands)
  {
    if a == [] {
      assert a + b == b;
    } else {
      assert (a + b)[0] == a[0] && (a + b)[1..] == a[1..] + b;
      MatchAllAppend(a[1..], b, commands);
    }
  }

  /** `n` copies of `x`. */
  function Repeat<T>(x: T, n: nat): (r: seq<T>)
    ensures |r| == n && forall i :: 0 <= i < n ==> r[i] == x
  {
    if n == 0 then [] else [x] + Repeat(x, n - 1)
  }

  /** There is no de-duplication: a token said `n` times matches `n` times. */
  lemma {:induction false} RepeatedTokenRepeatsMatch(token: string, n: nat, commands: map<string, GameCommand>)
    requires ActiveCommand(token, commands).Some?
    ensures MatchAll(Repeat(token, n), commands) == Repeat(ActiveCommand(token, commands).value, n)
  {
    if n > 0 {
      RepeatedTokenRepeatsMatch(token, n - 1, commands);
      assert Repeat(token, n)[1..] == Repeat(token, n - 1);
    }
  }

  /** An entry of the converter's command log. */
  datatype CommandLogEntry = CommandLogEntry(timestamp: Timestamp, commandName: string)

  /** The caller's `onCommandMatched` callback, as an opaque handle. */
  datatype Callback = Callback(handle: nat)

  /** One invocation of the callback with its arguments. */
  datatype Notification = Notification(callback: Callback, commands: seq<GameCommand>, transcription: string)

  /** The log entries `logCommand` writes for `commands`, one each, in order. */
  function LogEntriesFor(commands: seq<GameCommand>, now: Timestamp): (r: seq<CommandLogEntry>)
    ensures |r| == |commands|
    ensures forall i :: 0 <= i < |r| ==> r[i] == CommandLogEntry(now, commands[i].name)
  {
    if commands == [] then [] else [CommandLogEntry(now, commands[0].name)] + LogEntriesFor(commands[1..], now)
  }

  /** The actions of `commands`, in order. */
  function ActionsOf(commands: seq<GameCommand>): (r: seq<Action>)
    ensures |r| == |commands|
    ensures forall i :: 0 <= i < |r| ==> r[i] == commands[i].action
  {
    if commands == [] then [] else [commands[0].action] + ActionsOf(commands[1..])
  }

  /** The names of the commands whose action throws, in order. */
  function FailuresOf(commands: seq<GameCommand>, throws: Action -> bool): (r: seq<string>)
    ensures |r| <= |commands|
    ensures forall n :: n in r ==> exists c :: c in commands && c.name == n && throws(c.action)
  {
    if commands == [] then []
    else (if throws(commands[0].action) then [commands[0].name] else []) + FailuresOf(commands[1..], throws)
  }

  lemma AppendOne(log: seq<CommandLogEntry>, commands: seq<GameCommand>, c: GameCommand, now: Timestamp, throws: Action -> bool)
    ensures log + LogEntriesFor(commands + [c], now) == (log + LogEntriesFor(commands, now)) + [CommandLogEntry(now, c.name)]
    ensures ActionsOf(commands + [c]) == ActionsOf(commands) + [c.action]
    ensures FailuresOf(commands + [c], throws) == FailuresOf(commands, throws) + (if throws(c.action) then [c.name] else [])
  {
    var entries := LogEntriesFor(commands, now);
    assert LogEntriesFor(commands + [c], now) == entries + [CommandLogEntry(now, c.name)];
    assert log + (entries + [CommandLogEntry(now, c.name)]) == (log + entries) + [CommandLogEntry(now, c.name)];
    assert ActionsOf(commands + [c]) == ActionsOf(commands) + [c.action];
    FailuresAppend(commands, c, throws);
  }

  lemma {:induction false} FailuresAppend(commands: seq<GameCommand>, c: GameCommand, throws: Action -> bool)
    ensures FailuresOf(commands + [c], throws) == FailuresOf(commands, throws) + (if throws(c.action) then [c.name] else [])
  {
    if commands == [] {
      assert [] + [c] == [c];
    } else {
      var head := if throws(commands[0].action) then [commands[0].name] else [];
      assert (commands + [c])[0] == commands[0];
      assert (commands + [c])[1..] == commands[1..] + [c];
      assert FailuresOf(commands + [c], throws) == head + FailuresOf(commands[1..] + [c], throws);
      FailuresAppend(commands[1..], c, throws);
      assert FailuresOf(commands, throws) == head + FailuresOf(commands[1..], throws);
    }
  }

  class Converter {
    /** The shared registry the tokens are matched against. */
    const library: Library
    /** Every match so far, oldest first. */
    var commandLog: seq<CommandLogEntry>
    /** When false, `ProcessTranscription` does nothing. */
    var enabled: bool
    var onCommandMatched: Option<Callback>

    constructor (library: Library)
      ensures this.library == library
      ensures commandLog == [] && enabled && onCommandMatched == None
    {
      this.library := library;
      commandLog := [];
      enabled := true;
      onCommandMatched := None;
    }

    /**
     * Matches every token of `transcription` against the active commands,
     * logging and running each match. The world outside is a parameter:
     * `now` is the clock, `throws` says which actions throw when run. A
     * throwing action is caught and reported in `failed`; the remaining
     * tokens are still processed. `ran` lists the actions invoked and
     * `notified` the callback invocation, if any.
     */
    method ProcessTranscription(transcription: string, now: Timestamp, throws: Action -> bool)
      returns (matched: seq<GameCommand>, ran: seq<Action>, failed: seq<string>, notified: Option<Notification>)
      requires library.Valid()
      modifies this`commandLog
      ensures !enabled || Trim(transcription) == [] ==> matched == []
      ensures enabled && Trim(transcription) != [] ==>
        matched == MatchAll(Tokenize(transcription), library.commandMap)
      ensures commandLog == old(commandLog) + LogEntriesFor(matched, now)
      ensures |commandLog| == |old(commandLog)| + |matched|
      ensures ran == ActionsOf(matched)
      ensures failed == FailuresOf(matched, throws)
      ensures notified.Some? <==> matched != [] && onCommandMatched.Some?
      ensures notified.Some? ==> notified.value == Notification(onCommandMatched.value, matched, transcription)
    {
      matched, ran, failed, notified := [], [], [], None;
      if !enabled || Trim(transcription) == [] {
        return;
      }
      var tokens := Tokenize(transcription);
      matched, ran, failed := MatchTokens(tokens, transcription, now, throws);
      if |matched| > 0 && onCommandMatched.Some? {
        // an exception from the callback is caught
        notified := Some(Notification(onCommandMatched.value, matched, transcription));
      }
    }

    /** The loop of `ProcessTranscription` over the tokens. */
    method MatchTokens(tokens: seq<string>, transcription: string, now: Timestamp, throws: Action -> bool)
      returns (matched: seq<GameCommand>, ran: seq<Action>, failed: seq<string>)
      modifies this`commandLog
      ensures matched == MatchAll(tokens, library.commandMap)
      ensures commandLog == old(commandLog) + LogEntriesFor(matched, now)
      ensures ran == ActionsOf(matched)
      ensures failed == FailuresOf(matched, throws)
    {
      matched, ran, failed := [], [], [];
      ghost var log0 := commandLog;
      ghost var commands := library.commandMap;
      for i := 0 to |tokens|
        invariant matched == MatchAll(tokens[..i], commands)
        invariant commandLog == log0 + LogEntriesFor(matched, now)
        invariant ran == ActionsOf(matched)
        invariant failed == FailuresOf(matched, throws)
      {
        var token := tokens[i];
        MatchNext(tokens, i, commands);
        if library.Has(token) {
          var command := library.Get(token);
          if command.Some? && command.value.active {
            assert ActiveCommand(token, commands) == command;
            AppendOne(log0, matched, command.value, now, throws);
            matched := matched + [command.value];
            LogCommand(command.value, transcription, now);
            // the action runs; an exception from it is caught and reported
            ran := ran + [command.value.action];
            if throws(command.value.action) {
              failed := failed + [command.value.name];
            }
          }
        }
      }
      assert tokens[..|tokens|] == tokens;
    }

    /** Appends one entry for `command` to the command log. */
    method LogCommand(command: GameCommand, originalText: string, now: Timestamp)
      modifies this`commandLog
      ensures commandLog == old(commandLog) + [CommandLogEntry(now, command.name)]
    {
      commandLog := commandLog + [CommandLogEntry(now, command.name)];
    }

    /** Turns processing on or off. */
    method ToggleLogging(enable: bool)
      modifies this`enabled
      ensures enabled == enable
    {
      enabled := enable;
    }

    method SetOnCommandMatched(callback: Callback)
      modifies this`onCommandMatched
      ensures onCommandMatched == Some(callback)
    {
      onCommandMatched := Some(callback);
    }

    method ClearOnCommandMatched()
      modifies this`onCommandMatched
      ensures onCommandMatched == None
    {
      onCommandMatched := None;
    }
  }
}
