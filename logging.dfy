/**
 * The session logger: one entry per transcription, each pending until it
 * is finalized (by the caller or when its timer fires), matched commands
 * appended only while pending, and the oldest finalized entries pruned in
 * batches once there are more than the configured maximum.
 *
 * The transitions are functions on `LogState`; the `Logger` class holds
 * the same state in fields and each of its methods is proved to perform
 * the corresponding transition.
 */
module Logging {
  import opened Options

  /** `maxLogSize`: `Unbounded` is JavaScript's `Infinity`. */
  datatype Limit = Unbounded | AtMost(bound: int)

  datatype LoggerConfig = LoggerConfig(maxLogSize: Limit, pruneCount: int)

  /** A partial configuration: the fields given replace, the others stay. */
  datatype ConfigPatch = ConfigPatch(maxLogSize: Option<Limit>, pruneCount: Option<int>)

  /** The configuration a new logger starts with: no limit and batches of 10 unless given. */
  function Configure(patch: ConfigPatch): LoggerConfig {
    LoggerConfig(patch.maxLogSize.GetOr(Unbounded), patch.pruneCount.GetOr(10))
  }

  function Reconfigure(config: LoggerConfig, patch: ConfigPatch): LoggerConfig {
    LoggerConfig(patch.maxLogSize.GetOr(config.maxLogSize), patch.pruneCount.GetOr(config.pruneCount))
  }

  datatype SynonymSource = Direct | LibrarySynonym | ApiSynonym | Phonetic

  datatype Status = Success | Failed

  /** How one command was matched within a transcription, and how it ran. */
  datatype MatchedCommand = MatchedCommand(
    commandName: string,
    matchedWord: string,
    matchedSynonym: Option<string>,
    synonymSource: SynonymSource,
    confidence: real,
    status: Status,
    error: Option<string>)

  datatype LogEntry = LogEntry(
    id: int,
    timestamp: string,
    transcriptionText: string,
    speakerId: Option<string>,
    matchedCommands: seq<MatchedCommand>,
    finalized: bool)

  /**
   * The logger's state: the entries by id, the ids with a running
   * auto-finalization timer, the next id and the configuration.
   */
  datatype LogState = LogState(entries: map<int, LogEntry>, pending: set<int>, nextId: int, config: LoggerConfig)

  /**
   * Every id lies in [1, nextId) and is its entry's own id, and the
   * pending ids are exactly those of the entries not yet finalized.
   */
  ghost predicate Inv(s: LogState) {
    s.nextId >= 1 &&
    (forall id :: id in s.entries ==> 1 <= id < s.nextId && s.entries[id].id == id) &&
    (forall id :: id in s.pending <==> id in s.entries && !s.entries[id].finalized)
  }

  function Min(a: int, b: int): int { if a <= b then a else b }

  function Max(a: int, b: int): int { if a >= b then a else b }

  function Elements(ids: seq<int>): set<int> {
    set id | id in ids
  }

  predicate Increasing(ids: seq<int>) {
    forall i, j :: 0 <= i < j < |ids| ==> ids[i] < ids[j]
  }

  // ---------------------------------------------------------------------
  // Finalized entries in id order

  /** The ids below `n` of finalized entries, in ascending order. */
  function FinalizedBelow(entries: map<int, LogEntry>, n: int): (ids: seq<int>)
    ensures forall i :: 0 <= i < |ids| ==> ids[i] in entries && entries[ids[i]].finalized && ids[i] < n
    ensures Increasing(ids)
    decreases n
  {
    if n <= 0 then []
    else
      var below := FinalizedBelow(entries, n - 1);
      if n - 1 in entries && entries[n - 1].finalized then below + [n - 1] else below
  }

  /** No finalized id in [0, n) is missing from the scan. */
  lemma {:induction false} FinalizedBelowComplete(entries: map<int, LogEntry>, n: int)
    ensures forall id :: 0 <= id < n && id in entries && entries[id].finalized ==> id in FinalizedBelow(entries, n)
    decreases n
  {
    if n > 0 {
      FinalizedBelowComplete(entries, n - 1);
    }
  }

  /** The finalized entries' ids, oldest first. */
  function FinalizedIds(s: LogState): seq<int> {
    FinalizedBelow(s.entries, s.nextId)
  }

  /** In a valid state the scan finds exactly the finalized entries. */
  lemma FinalizedIdsExact(s: LogState)
    requires Inv(s)
    ensures forall id :: id in FinalizedIds(s) <==> id in s.entries && s.entries[id].finalized
  {
    FinalizedBelowComplete(s.entries, s.nextId);
  }

  // ---------------------------------------------------------------------
  // Transitions

  function Initial(config: LoggerConfig): (s: LogState)
    ensures Inv(s)
  {
    LogState(map[], {}, 1, config)
  }

  /** `createEntry`: a new pending entry under the next id. */
  function Created(s: LogState, text: string, speakerId: Option<string>, timestamp: string): LogState {
    var id := s.nextId;
    s.(entries := s.entries[id := LogEntry(id, timestamp, text, speakerId, [], false)],
       pending := s.pending + {id},
       nextId := id + 1)
  }

  /** `addMatch`: appends to a pending entry; unknown and finalized ids are ignored. */
  function WithMatch(s: LogState, entryId: int, m: MatchedCommand): LogState {
    if entryId !in s.entries || s.entries[entryId].finalized then s
    else
      var e := s.entries[entryId];
      s.(entries := s.entries[entryId := e.(matchedCommands := e.matchedCommands + [m])])
  }

  /** Marks a known entry finalized and stops its timer. */
  function Marked(s: LogState, entryId: int): LogState
    requires entryId in s.entries
  {
    s.(entries := s.entries[entryId := s.entries[entryId].(finalized := true)], pending := s.pending - {entryId})
  }

  /**
   * `finalizeEntry` and `autoFinalizeEntry`: a pending entry is marked and
   * the log pruned; an unknown or finalized id changes nothing.
   */
  function Finalized(s: LogState, entryId: int): LogState {
    if entryId !in s.entries || s.entries[entryId].finalized then s
    else Pruned(Marked(s, entryId))
  }

  /** `slice(0, pruneCount)` on `available` items, negative counts taken from the end. */
  function PruneCount(pruneCount: int, available: nat): (k: nat)
    ensures k <= available
  {
    if pruneCount >= 0 then Min(pruneCount, available) else Max(available + pruneCount, 0)
  }

  /** Whether there is a limit and more finalized entries than it allows. */
  predicate Exceeded(s: LogState) {
    s.config.maxLogSize.AtMost? && |FinalizedIds(s)| > s.config.maxLogSize.bound
  }

  /** The oldest finalized ids, as many as one batch removes. */
  function Doomed(s: LogState): seq<int> {
    FinalizedIds(s)[..PruneCount(s.config.pruneCount, |FinalizedIds(s)|)]
  }

  /** `checkAndPrune`: removes one batch of the oldest finalized entries when the limit is exceeded. */
  function Pruned(s: LogState): LogState {
    if Exceeded(s) then s.(entries := s.entries - Elements(Doomed(s))) else s
  }

  /** `clear`: no entries, no timers, ids from 1 again. */
  function Cleared(s: LogState): LogState {
    Initial(s.config)
  }

  function Reconfigured(s: LogState, patch: ConfigPatch): LogState {
    s.(config := Reconfigure(s.config, patch))
  }

  /** The entries of `ids`, in that order. */
  function EntriesOf(ids: seq<int>, entries: map<int, LogEntry>): (r: seq<LogEntry>)
    requires forall i :: 0 <= i < |ids| ==> ids[i] in entries
    ensures |r| == |ids| && forall i :: 0 <= i < |r| ==> r[i] == entries[ids[i]]
  {
    if ids == [] then [] else [entries[ids[0]]] + EntriesOf(ids[1..], entries)
  }

  /** `getAllLogs`: the finalized entries in id order. */
  function AllLogs(s: LogState): seq<LogEntry> {
    EntriesOf(FinalizedIds(s), s.entries)
  }

  // ---------------------------------------------------------------------
  // Properties of the transitions

  /** A new entry gets the next id, is pending and empty; earlier ids are untouched. */
  lemma CreatedFacts(s: LogState, text: string, speakerId: Option<string>, timestamp: string)
    requires Inv(s)
    ensures var t := Created(s, text, speakerId, timestamp);
      Inv(t) && s.nextId !in s.entries && t.nextId == s.nextId + 1 &&
      t.entries[s.nextId] == LogEntry(s.nextId, timestamp, text, speakerId, [], false) &&
      s.nextId in t.pending &&
      (forall id :: id in s.entries ==> id in t.entries && t.entries[id] == s.entries[id])
  {
  }

  /**
   * `addMatch` appends exactly one match to a pending entry and changes
   * nothing else; on an unknown or finalized id it changes nothing at all.
   */
  lemma WithMatchFacts(s: LogState, entryId: int, m: MatchedCommand)
    requires Inv(s)
    ensures var t := WithMatch(s, entryId, m);
      Inv(t) && t.pending == s.pending && t.nextId == s.nextId && t.entries.Keys == s.entries.Keys &&
      (entryId in s.pending ==>
        t.entries[entryId] == s.entries[entryId].(matchedCommands := s.entries[entryId].matchedCommands + [m])) &&
      (entryId !in s.pending ==> t == s) &&
      (forall id :: id in s.entries && id != entryId ==> t.entries[id] == s.entries[id])
  {
  }

  lemma MarkedKeepsInv(s: LogState, entryId: int)
    requires Inv(s) && entryId in s.entries
    ensures Inv(Marked(s, entryId))
  {
  }

  /** What pruning keeps is unchanged, and it keeps every pending entry. */
  lemma PrunedKeeps(s: LogState)
    requires Inv(s)
    ensures var t := Pruned(s);
      Inv(t) && t.pending == s.pending && t.nextId == s.nextId && t.config == s.config &&
      (forall id :: id in t.entries ==> id in s.entries && t.entries[id] == s.entries[id]) &&
      (forall id :: id in s.pending ==> id in t.entries)
  {
  }

  /**
   * Pruning removes only finalized entries, each older than every
   * finalized entry it keeps, and only when the limit is exceeded.
   */
  lemma PrunedRemovesOldest(s: LogState)
    requires Inv(s)
    ensures var t := Pruned(s);
      (!Exceeded(s) ==> t == s) &&
      forall id :: id in s.entries && id !in t.entries ==>
        s.entries[id].finalized &&
        forall other :: other in t.entries && t.entries[other].finalized ==> id < other
  {
    var t := Pruned(s);
    if Exceeded(s) {
      var ids := FinalizedIds(s);
      var k := PruneCount(s.config.pruneCount, |ids|);
      FinalizedIdsExact(s);
      forall id | id in s.entries && id !in t.entries
        ensures s.entries[id].finalized
        ensures forall other :: other in t.entries && t.entries[other].finalized ==> id < other
      {
        assert id in Doomed(s);
        var i :| 0 <= i < k && ids[i] == id;
        forall other | other in t.entries && t.entries[other].finalized
          ensures id < other
        {
          assert other in ids;
          var j :| 0 <= j < |ids| && ids[j] == other;
          assert other !in Doomed(s);
          assert forall jj :: 0 <= jj < k ==> Doomed(s)[jj] == ids[jj];
          assert k <= j;
        }
      }
    }
  }

  /** `ids` without the members of `gone`, the order kept. */
  function Without(ids: seq<int>, gone: set<int>): seq<int> {
    if ids == [] then []
    else Without(ids[..|ids| - 1], gone) + (if ids[|ids| - 1] in gone then [] else [ids[|ids| - 1]])
  }

  /** Scanning after a removal is scanning before it and dropping what was removed. */
  lemma {:induction false} FinalizedBelowRemoved(entries: map<int, LogEntry>, gone: set<int>, n: int)
    ensures FinalizedBelow(entries - gone, n) == Without(FinalizedBelow(entries, n), gone)
    decreases n
  {
    if n > 0 {
      FinalizedBelowRemoved(entries, gone, n - 1);
      var below := FinalizedBelow(entries, n - 1);
      if n - 1 in entries && entries[n - 1].finalized {
        assert (below + [n - 1])[..|below + [n - 1]| - 1] == below;
      }
    }
  }

  /** Dropping the first `k` members of an increasing sequence leaves its suffix. */
  lemma {:induction false} WithoutPrefix(ids: seq<int>, k: nat, m: nat)
    requires Increasing(ids) && k <= |ids| && m <= |ids|
    ensures Without(ids[..m], Elements(ids[..k])) == if m <= k then [] else ids[k..m]
    decreases m
  {
    if m > 0 {
      WithoutPrefix(ids, k, m - 1);
      assert ids[..m][..m - 1] == ids[..m - 1];
      if m <= k {
        assert ids[m - 1] in ids[..k];
      } else {
        assert ids[m - 1] !in Elements(ids[..k]);
        if m - 1 > k {
          assert ids[k..m] == ids[k..m - 1] + [ids[m - 1]];
        }
      }
    }
  }

  /** Pruning drops exactly the batch from the front of the finalized ids. */
  lemma PrunedDropsBatch(s: LogState)
    requires Exceeded(s)
    ensures FinalizedIds(Pruned(s)) == FinalizedIds(s)[PruneCount(s.config.pruneCount, |FinalizedIds(s)|)..]
  {
    var ids := FinalizedIds(s);
    var k := PruneCount(s.config.pruneCount, |ids|);
    FinalizedBelowRemoved(s.entries, Elements(ids[..k]), s.nextId);
    WithoutPrefix(ids, k, |ids|);
    assert ids[..|ids|] == ids;
    if |ids| <= k {
      assert ids[k..] == [];
    }
  }

  /**
   * With a batch of at least one, a log that kept to its limit keeps to
   * it after one more finalization.
   */
  lemma FinalizedKeepsLimit(s: LogState, entryId: int)
    requires Inv(s)
    requires s.config.maxLogSize.AtMost? && s.config.pruneCount >= 1
    requires |FinalizedIds(s)| <= s.config.maxLogSize.bound
    ensures |FinalizedIds(Finalized(s, entryId))| <= s.config.maxLogSize.bound
  {
    if entryId in s.entries && !s.entries[entryId].finalized {
      var m := Marked(s, entryId);
      MarkingAddsOne(s.entries, entryId, s.nextId);
      if Exceeded(m) {
        PrunedDropsBatch(m);
      }
    }
  }

  /** Marking one entry finalized adds at most one id to the scan. */
  lemma {:induction false} MarkingAddsOne(entries: map<int, LogEntry>, entryId: int, n: int)
    requires entryId in entries
    ensures |FinalizedBelow(entries[entryId := entries[entryId].(finalized := true)], n)| <= |FinalizedBelow(entries, n)| + 1
    ensures n <= entryId ==> FinalizedBelow(entries[entryId := entries[entryId].(finalized := true)], n) == FinalizedBelow(entries, n)
    decreases n
  {
    if n > 0 {
      MarkingAddsOne(entries, entryId, n - 1);
    }
  }

  /**
   * Finalizing keeps the invariant, is idempotent (so a timer firing after
   * a manual finalization does nothing), and ignores unknown ids.
   */
  lemma FinalizedFacts(s: LogState, entryId: int)
    requires Inv(s)
    ensures Inv(Finalized(s, entryId))
    ensures Finalized(Finalized(s, entryId), entryId) == Finalized(s, entryId)
    ensures entryId !in s.entries ==> Finalized(s, entryId) == s
    ensures entryId !in Finalized(s, entryId).pending
    ensures entryId in Finalized(s, entryId).entries ==> Finalized(s, entryId).entries[entryId].finalized
    ensures Finalized(s, entryId).nextId == s.nextId
  {
    if entryId in s.entries && !s.entries[entryId].finalized {
      MarkedKeepsInv(s, entryId);
      PrunedKeeps(Marked(s, entryId));
    }
  }

  /** `getAllLogs` lists exactly the finalized entries, each once, by ascending id. */
  lemma AllLogsFacts(s: LogState)
    requires Inv(s)
    ensures var logs := AllLogs(s);
      (forall i, j :: 0 <= i < j < |logs| ==> logs[i].id < logs[j].id) &&
      (forall i :: 0 <= i < |logs| ==> logs[i].finalized && logs[i].id in s.entries && s.entries[logs[i].id] == logs[i]) &&
      (forall id :: id in s.entries && s.entries[id].finalized ==> s.entries[id] in logs) &&
      (forall id :: id in s.pending ==> s.entries[id] !in logs)
  {
    var logs := AllLogs(s);
    var ids := FinalizedIds(s);
    FinalizedIdsExact(s);
    forall id | id in s.entries && s.entries[id].finalized
      ensures s.entries[id] in logs
    {
      var i :| 0 <= i < |ids| && ids[i] == id;
      assert logs[i] == s.entries[id];
    }
  }

  /** The members of an increasing sequence are as many as its length. */
  lemma {:induction false} IncreasingCard(ids: seq<int>)
    requires Increasing(ids)
    ensures |Elements(ids)| == |ids|
  {
    if ids != [] {
      var init := ids[..|ids| - 1];
      IncreasingCard(init);
      assert Elements(ids) == Elements(init) + {ids[|ids| - 1]};
      assert ids[|ids| - 1] !in Elements(init);
    }
  }

  /** Every entry is either finalized or pending. */
  lemma CountsAddUp(s: LogState)
    requires Inv(s)
    ensures |s.entries| == |FinalizedIds(s)| + |s.pending|
  {
    FinalizedIdsExact(s);
    IncreasingCard(FinalizedIds(s));
    var finals := Elements(FinalizedIds(s));
    forall id | id in s.entries
      ensures id in finals + s.pending
    {
      if s.entries[id].finalized {
        assert id in FinalizedIds(s);
      }
    }
    forall id | id in finals + s.pending
      ensures id in s.entries
    {
      if id in finals {
        assert id in FinalizedIds(s);
      }
    }
    assert s.entries.Keys == finals + s.pending;
    assert finals * s.pending == {};
  }

  /** After `clear` nothing is pending and ids start again from 1. */
  lemma ClearedFacts(s: LogState)
    ensures Inv(Cleared(s)) && Cleared(s).entries == map[] && Cleared(s).pending == {} && Cleared(s).nextId == 1
    ensures Cleared(s).config == s.config
  {
  }

  // ---------------------------------------------------------------------
  // The logger object

  class Logger {
    var entries: map<int, LogEntry>
    /** The ids whose auto-finalization timer is running. */
    var pendingEntries: set<int>
    var nextId: int
    var config: LoggerConfig

    function State(): LogState
      reads this
    {
      LogState(entries, pendingEntries, nextId, config)
    }

    ghost predicate Valid()
      reads this
    {
      Inv(State())
    }

    constructor (patch: ConfigPatch)
      ensures Valid()
      ensures State() == Initial(Configure(patch))
    {
      entries := map[];
      pendingEntries := {};
      nextId := 1;
      config := Configure(patch);
    }

    /** Starts a pending entry for `transcriptionText` and returns its id. */
    method CreateEntry(transcriptionText: string, speakerId: Option<string>, timestamp: string) returns (id: int)
      requires Valid()
      modifies this
      ensures Valid()
      ensures id == old(nextId)
      ensures State() == Created(old(State()), transcriptionText, speakerId, timestamp)
    {
      CreatedFacts(State(), transcriptionText, speakerId, timestamp);
      id := nextId;
      nextId := nextId + 1;
      var entry := LogEntry(id, timestamp, transcriptionText, speakerId, [], false);
      entries := entries[id := entry];
      pendingEntries := pendingEntries + {id};
    }

    method AddMatch(entryId: int, matchDetails: MatchedCommand)
      requires Valid()
      modifies this
      ensures Valid()
      ensures State() == WithMatch(old(State()), entryId, matchDetails)
    {
      WithMatchFacts(State(), entryId, matchDetails);
      if entryId !in entries {
        return;
      }
      var entry := entries[entryId];
      if entry.finalized {
        return;
      }
      entries := entries[entryId := entry.(matchedCommands := entry.matchedCommands + [matchDetails])];
    }

    method FinalizeEntry(entryId: int)
      requires Valid()
      modifies this
      ensures Valid()
      ensures State() == Finalized(old(State()), entryId)
    {
      if entryId !in entries {
        return;
      }
      var entry := entries[entryId];
      if entry.finalized {
        return;
      }
      MarkedKeepsInv(State(), entryId);
      entries := entries[entryId := entry.(finalized := true)];
      if entryId in pendingEntries {
        pendingEntries := pendingEntries - {entryId};
      }
      CheckAndPrune();
    }

    /** What the entry's timer does when it fires: the same transition as `FinalizeEntry`. */
    method AutoFinalizeEntry(entryId: int)
      requires Valid()
      modifies this
      ensures Valid()
      ensures State() == Finalized(old(State()), entryId)
    {
      if entryId !in entries || entries[entryId].finalized {
        return;
      }
      MarkedKeepsInv(State(), entryId);
      entries := entries[entryId := entries[entryId].(finalized := true)];
      pendingEntries := pendingEntries - {entryId};
      CheckAndPrune();
    }

    method CheckAndPrune()
      requires Valid()
      modifies this
      ensures Valid()
      ensures State() == Pruned(old(State()))
    {
      PrunedKeeps(State());
      if config.maxLogSize.Unbounded? {
        return;
      }
      ghost var s0 := State();
      var finalized := FinalizedBelow(entries, nextId);
      if |finalized| > config.maxLogSize.bound {
        var entriesToRemove := finalized[..PruneCount(config.pruneCount, |finalized|)];
        assert entriesToRemove == Doomed(s0);
        RemoveEntries(entriesToRemove);
        assert State() == Pruned(s0);
      }
    }

    /** The deletion loop of `checkAndPrune`: removes the entries of `ids`. */
    method RemoveEntries(ids: seq<int>)
      modifies this`entries
      ensures entries == old(entries) - Elements(ids)
    {
      for i := 0 to |ids|
        invariant entries == old(entries) - Elements(ids[..i])
      {
        assert Elements(ids[..i + 1]) == Elements(ids[..i]) + {ids[i]};
        entries := entries - {ids[i]};
      }
      assert ids[..|ids|] == ids;
    }

    function GetAllLogs(): (logs: seq<LogEntry>)
      reads this
      ensures logs == AllLogs(State())
    {
      EntriesOf(FinalizedBelow(entries, nextId), entries)
    }

    /** The content of the JSON export. */
    function GetJSONBlob(): (logs: seq<LogEntry>)
      reads this
      ensures logs == GetAllLogs()
    {
      GetAllLogs()
    }

    method Clear()
      modifies this
      ensures Valid()
      ensures State() == Cleared(old(State()))
    {
      entries := map[];
      pendingEntries := {};
      nextId := 1;
    }

    function GetTotalCount(): (n: nat)
      reads this
      ensures n == |entries|
    {
      |entries|
    }

    function GetFinalizedCount(): (n: nat)
      reads this
      ensures n == |AllLogs(State())|
    {
      |FinalizedBelow(entries, nextId)|
    }

    function GetPendingCount(): (n: nat)
      reads this
      ensures n == |pendingEntries|
    {
      |pendingEntries|
    }

    method UpdateConfig(patch: ConfigPatch)
      requires Valid()
      modifies this
      ensures Valid()
      ensures State() == Reconfigured(old(State()), patch)
    {
      config := Reconfigure(config, patch);
    }
  }
}
