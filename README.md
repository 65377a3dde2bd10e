# AAC voice API core, in Dafny

This project models the command-handling core of the AAC voice API, a
TypeScript library that turns recognized speech into game commands. It
covers these parts:

- **Command registry** (`CommandLibrary`). A map from normalized command
  name to command, listed in insertion order. **Facade** (`CommandMapping`):
  fills in defaults before a command is added.
- **Transcription converter** (`CommandConverter`). It tokenizes a
  transcription, matches every token against the active registered commands,
  logs and runs each match, and notifies a callback.
- **Confidence matcher** (`ConfidenceMatcher`). An exact match first, then
  the first active command whose similarity to the token reaches the global
  threshold.
- **Synonym resolver** (`SynonymResolver`). It looks synonyms up online and
  caches the answer per normalized word, caching an empty answer for a
  failed request as well.
- **Command histories** (`History`). An append-only history that can be
  switched off, with clamped slices. It is one generic class for both
  history files.
- **Online speech converter** (`SpeechConverterOnline`). It packs queued
  audio chunks into fixed-size blocks, filters the `[BLANK_AUDIO]` marker
  and blank text, and keeps the log of transcribed text.
- **Session logger** (`Logging`). Entries with sequential ids go from
  pending to finalized, matches can be appended only while an entry is
  pending, and the oldest finalized entries are pruned in batches.

Objects the source mutates in place are Dafny classes with the same
fields. Each method's `ensures` gives the new state as a function of the
old one. The properties of those functions are proved as lemmas. The
library's singletons (`getInstance`) become objects passed to
constructors.

Text is ASCII only: `toLowerCase`, `trim` and `\s` are modelled on ASCII
characters (`Text`). The world outside the program is passed in as
parameters:

- the clock, as a `Timestamp` value or a preformatted time string;
- the similarity measure, as a function `(string, string) -> real`;
- whether a command's action throws, as a predicate on actions;
- what the synonym request returns, as a `FetchResponse`;
- how a time of day is rendered, as a function.

The doc comment of `toggleLogging` (src/CommandConverter.ts:147) speaks of
logging matched commands. The guard at src/CommandConverter.ts:90, however,
makes `toggleLogging(false)` turn off all of `processTranscription`:
tokenizing, matching, running actions and the callback. The model follows
the guard.

## Model

| member | source | states |
|---|---|---|
| Text.ToLower | src/commandLibrary.ts:78-80 | Lowercasing keeps the length and lowers each ASCII capital in place. |
| Text.Trim | src/commandLibrary.ts:78-80 | The result is the piece between the leading and the trailing whitespace. That piece neither starts nor ends with whitespace. |
| Text.TrimCutsWhitespace | src/commandLibrary.ts:78-80 | Everything cut off on either side is whitespace. The result is empty iff the input is all whitespace. |
| Text.LeadingAllWhitespace | src/commandLibrary.ts:78-80 | The leading run that `trim` removes is all whitespace. |
| Text.TrailingAllWhitespace | src/commandLibrary.ts:78-80 | The trailing run that `trim` removes is all whitespace. |
| Text.Normalize | src/commandLibrary.ts:78-80 | Normalization never lengthens a name. That it is lowercase, trimmed and idempotent is `NormalizeIsNormal`. |
| Text.NormalizeIsNormal | src/commandLibrary.ts:78-80 | A normalized name is lowercase and trimmed. Normalizing it again changes nothing. |
| CommandLibrary.Stored | src/commandLibrary.ts:88 | A stored command has its key as its name and keeps its action and description. It is active unless `active` was given as false. |
| CommandLibrary.Erase | src/commandLibrary.ts:93-95 | Deleting a key from the insertion order keeps exactly the other keys. Nothing changes if the key is absent. |
| CommandLibrary.EraseAppend | src/commandLibrary.ts:93-95 | Erasing distributes over concatenation, so the remaining keys keep their insertion order. |
| CommandLibrary.EraseKeepsDistinct | src/commandLibrary.ts:93-95 | Deleting a key leaves the insertion order free of repeats. |
| CommandLibrary.ValuesOfFacts | src/commandLibrary.ts:108-110 | Listing by insertion order yields every stored command, and no name appears twice. |
| CommandLibrary.InsertKeepsWellFormed | src/commandLibrary.ts:83-90 | Inserting a fresh normalized key keeps the registry invariant. It appends exactly that command to the listing. |
| CommandLibrary.Library.Add | src/commandLibrary.ts:83-90 | Succeeds iff the normalized name is non-empty and not yet a key. On success it stores the command under the normalized key, with `active` defaulting to true, and appends it to the listing. On failure nothing changes. |
| CommandLibrary.Library.Remove | src/commandLibrary.ts:93-95 | Returns true iff the normalized name was a key. It deletes only that key. Afterwards `Has` is false. |
| CommandLibrary.Library.Has | src/commandLibrary.ts:98-100 | Under the invariant, true iff the normalized name is in the listing. A name that is present is never empty. |
| CommandLibrary.Library.Get | src/commandLibrary.ts:103-105 | Present iff `Has` holds for the same argument. Then it returns the command stored under the normalized name, whose name is that normalized name. |
| CommandLibrary.Library.List | src/commandLibrary.ts:108-110 | One command per key, in insertion order. Every stored command is present and no name appears twice. |
| CommandLibrary.Library.Clear | src/commandLibrary.ts:113-115 | Afterwards the registry and its listing are empty. |
| CommandMapping.NamesOf | src/commandMapping.ts:113 | The names of the commands, one each, in order. |
| CommandMapping.Mapping.AddCommand | src/commandMapping.ts:50-85 | Succeeds iff the normalized name is non-empty and unregistered in any letter case. It then stores the normalized name, the action, the description or "", and `active` or true. A failed call keeps the original record. |
| CommandMapping.Mapping.RemoveCommand | src/commandMapping.ts:95-105 | Returns true iff the command existed in any letter case. It removes only that key, and the listing loses that key with the others kept in order. Afterwards the command is gone. |
| CommandMapping.Mapping.HasCommand | src/commandMapping.ts:122-124 | True iff `getCommand` finds the command. Under the invariant, true iff the normalized name is among the listed names. |
| CommandMapping.Mapping.GetAllCommands | src/commandMapping.ts:112-114 | The registered names, in the registry's listing order. |
| CommandMapping.Mapping.GetCommand | src/commandMapping.ts:132-134 | Present iff `HasCommand`. The stored name is the normalized argument. |
| CommandMapping.Mapping.ClearAllCommands | src/commandMapping.ts:141-144 | Afterwards the registry is empty and no names are listed. |
| CommandConverter.StripPunctuation | src/CommandConverter.ts:60 | Removes exactly the characters `.,!?;:'"` and keeps every other character. |
| CommandConverter.FirstWhitespace | src/CommandConverter.ts:73 | A position within the text that is whitespace, unless it is the end. |
| CommandConverter.FirstWhitespaceUnspaced | src/CommandConverter.ts:73 | Nothing before that position is whitespace, so it is the first whitespace position. |
| CommandConverter.SplitOnWhitespace | src/CommandConverter.ts:73 | `split(/\s+/)` yields at least one piece, and no piece contains whitespace. |
| CommandConverter.SplitUnspaced | src/CommandConverter.ts:73 | Text without whitespace is one piece. |
| CommandConverter.SplitAtGap | src/CommandConverter.ts:73 | A whitespace-free piece, a whitespace run and text not starting with whitespace split into that piece followed by the pieces of the rest. The run is dropped. |
| CommandConverter.FirstWhitespaceAfter | src/CommandConverter.ts:73 | A whitespace-free piece before whitespace ends exactly at that whitespace. |
| CommandConverter.LeadingWhitespaceRun | src/CommandConverter.ts:73 | A whitespace run before non-whitespace is consumed exactly. |
| CommandConverter.NormalizeWord | src/CommandConverter.ts:56-61 | A normalized word is no longer than the word and contains no punctuation. |
| CommandConverter.NormalizeAll | src/CommandConverter.ts:74-75 | Normalizing the pieces and dropping the empty ones yields at most one token per piece. |
| CommandConverter.Tokenize | src/CommandConverter.ts:71-76 | Every token is non-empty, lowercase, and free of whitespace and of `.,!?;:'"`. |
| CommandConverter.NormalizeWordOfPiece | src/CommandConverter.ts:56-61 | A normalized whitespace-free piece is empty or a token. It consists of the lowercased characters that are not punctuation. |
| CommandConverter.StripKeepsClean | src/CommandConverter.ts:60 | Removing punctuation keeps a string lowercase and free of whitespace. |
| CommandConverter.NormalizeAllTokens | src/CommandConverter.ts:74-75 | Normalizing the pieces and dropping the empty ones yields only tokens. |
| CommandConverter.KeptAroundGap | src/CommandConverter.ts:73 | A run of whitespace between two parts contributes no kept characters. |
| CommandConverter.ConcatKeptEachCons | src/CommandConverter.ts:73-75 | The kept characters of a list of pieces are those of the first piece followed by those of the rest. |
| CommandConverter.KeptOfSplit | src/CommandConverter.ts:73 | Splitting on whitespace loses none of the characters that normalization keeps. |
| CommandConverter.TokensKeepText | src/CommandConverter.ts:71-76 | The tokens, run together, are exactly the transcription's lowercased characters other than whitespace and punctuation, in their original order. |
| CommandConverter.ActiveCommand | src/CommandConverter.ts:98-101 | A token matches iff its normalized form is registered and that command is active. The match is that command. |
| CommandConverter.MatchAll | src/CommandConverter.ts:97-115 | At most one match per token. Which commands are matched, and in what order, is in `MatchAllMembership` and `MatchAllAppend`. |
| CommandConverter.MatchAllMembership | src/CommandConverter.ts:97-115 | A command is matched iff some token names it and it is active. Inactive commands are never matched. |
| CommandConverter.MatchAllAppend | src/CommandConverter.ts:97-115 | Matching runs token by token: matching two parts one after the other equals matching the whole. |
| CommandConverter.MatchNext | src/CommandConverter.ts:97-105 | One more token adds its active command, if it has one, to the end of the matches. |
| CommandConverter.RepeatedTokenRepeatsMatch | src/CommandConverter.ts:97-105 | Matches are not de-duplicated: a token said n times matches its command n times. |
| CommandConverter.LogEntriesFor | src/CommandConverter.ts:137-144 | One log entry per matched command, in order, with its name and the time. |
| CommandConverter.FailuresOf | src/CommandConverter.ts:108-112 | Only commands whose action throws are reported as failed. |
| CommandConverter.FailuresAppend | src/CommandConverter.ts:108-112 | One more match adds its name to the failures iff its action throws. |
| CommandConverter.AppendOne | src/CommandConverter.ts:102-112 | One more match adds exactly one log entry, one action run and at most one failure. |
| CommandConverter.Converter.ProcessTranscription | src/CommandConverter.ts:89-128 | When disabled or given blank text, it returns nothing and logs nothing. Otherwise the result is one active command per matching token, in token order. The log grows by exactly those entries. Every matched action runs, and a throwing one does not stop the rest. The callback is invoked once iff something matched and a callback is set. |
| CommandConverter.Converter.MatchTokens | src/CommandConverter.ts:97-115 | The loop over the tokens yields `MatchAll` of the tokens, the matching log entries, the actions run and the failures. |
| CommandConverter.Converter.LogCommand | src/CommandConverter.ts:137-144 | Appends exactly one entry with the command's name. |
| CommandConverter.Converter.ToggleLogging | src/CommandConverter.ts:151-153 | Sets the enabled flag and nothing else. |
| CommandConverter.Converter.SetOnCommandMatched | src/CommandConverter.ts:161-163 | Sets the callback. |
| CommandConverter.Converter.ClearOnCommandMatched | src/CommandConverter.ts:168-170 | Removes the callback. |
| ConfidenceMatcher.MergeLaws | src/ConfidenceMatcher.ts:16-25 | An empty partial configuration changes nothing. Applying one twice is applying it once. Two in a row combine into one. |
| ConfidenceMatcher.FirstMatch | src/ConfidenceMatcher.ts:62-91 | None iff no active command reaches the threshold. Otherwise the result is such a command, with its similarity as confidence, the token as matched word, and `isExactMatch` false. |
| ConfidenceMatcher.FirstMatchIsEarliest | src/ConfidenceMatcher.ts:65-84 | The chosen command comes before every other command in listing order that reaches the threshold. |
| ConfidenceMatcher.FirstMatchSkipsPrefix | src/ConfidenceMatcher.ts:65-68 | Commands ahead of the first qualifying one play no part. |
| ConfidenceMatcher.Resolve | src/ConfidenceMatcher.ts:36-57 | An active exact match wins at confidence 1.0 whatever the phonetic setting. With phonetic matching off and no such match the answer is none. A similarity match is active and reaches the threshold. The matched word is always the token. None iff neither kind of match exists. |
| ConfidenceMatcher.StricterFindsNoMore | src/ConfidenceMatcher.ts:52-73 | Raising the threshold or turning phonetic matching off never turns "no match" into a match. |
| ConfidenceMatcher.ExactOnlyAgreesWithConverter | src/ConfidenceMatcher.ts:37-54 | With phonetic matching off, a token matches exactly the command the transcription converter would run for it. |
| ConfidenceMatcher.Matcher.constructor | src/ConfidenceMatcher.ts:16-18 | The configuration is the defaults (0.8, phonetic on, logging off) overridden by the fields given. |
| ConfidenceMatcher.Matcher.UpdateConfig | src/ConfidenceMatcher.ts:23-25 | The fields given replace the current ones. |
| ConfidenceMatcher.Matcher.FindMatch | src/ConfidenceMatcher.ts:36-57 | Performs `Resolve` on the registry's lookup and listing. An exact match names the normalized token. |
| ConfidenceMatcher.Matcher.FindPhoneticMatch | src/ConfidenceMatcher.ts:62-91 | The loop over the listing returns `FirstMatch` at the current threshold. |
| ConfidenceMatcher.Matcher.GetGlobalThreshold | src/ConfidenceMatcher.ts:96-98 | The current threshold. |
| ConfidenceMatcher.Matcher.SetGlobalThreshold | src/ConfidenceMatcher.ts:103-108 | A value outside [0, 1] fails with "Threshold must be between 0 and 1" and changes nothing. Otherwise the value becomes the threshold and nothing else changes. |
| ConfidenceMatcher.Matcher.IsPhoneticMatchingEnabled | src/ConfidenceMatcher.ts:113-115 | The phonetic flag. |
| ConfidenceMatcher.Matcher.SetPhoneticMatching | src/ConfidenceMatcher.ts:120-122 | Sets only the phonetic flag. |
| ConfidenceMatcher.Matcher.SetLogging | src/ConfidenceMatcher.ts:127-129 | Sets only the score-logging flag. |
| SynonymResolver.CleanWords | src/SynonymResolver.ts:101-103 | Every returned synonym is lowercase, trimmed and not the query word. |
| SynonymResolver.CleanWordsMembers | src/SynonymResolver.ts:101-103 | A word is returned iff it is the normalization of a response word and differs from the query word. |
| SynonymResolver.CleanWordsOfClean | src/SynonymResolver.ts:101-103 | Words that are already normalized and differ from the query word all pass, in order. |
| SynonymResolver.Resolve | src/SynonymResolver.ts:64-118 | A request happens iff the normalized word is non-empty and uncached. An empty word gives [] and leaves the cache alone. A cached word gives the cached list. A refused or failed request caches and returns []. A successful one caches and returns the cleaned words. |
| SynonymResolver.ResolveKeepsCacheValid | src/SynonymResolver.ts:64-118 | Every lookup keeps the cache invariant. It returns only normalized synonyms other than the word. |
| SynonymResolver.ResolveOnlyAdds | src/SynonymResolver.ts:92-115 | A lookup adds at most one key, the normalized word, and changes no cached answer. |
| SynonymResolver.SecondLookupHitsCache | src/SynonymResolver.ts:65-77 | After one lookup, any spelling differing only in case or surrounding whitespace is answered from the cache, whatever the network would say. |
| SynonymResolver.FailureIsCached | src/SynonymResolver.ts:89-117 | A refused or failed request returns [] and caches [] under the normalized word. |
| SynonymResolver.Resolver.GetSynonyms | src/SynonymResolver.ts:64-118 | Performs `Resolve` on the cache and keeps the cache invariant. |
| SynonymResolver.Resolver.ClearCache | src/SynonymResolver.ts:126-129 | Afterwards the cache is empty. |
| SynonymResolver.Resolver.GetCacheSize | src/SynonymResolver.ts:136-138 | The number of cached words. |
| History.Slice | src/CommandHistory.ts:117-122 | The length is max(0, min(len, end or len) - max(0, start)), never more than the history. Element i is the history's element at max(0, start) + i. |
| History.SliceWhole | src/commandHistory.ts:73-78 | With no end and a start of at most 0, the slice is the whole history. |
| History.SliceSplit | src/CommandHistory.ts:117-122 | The slice up to a cut plus the slice from it give back the history. |
| History.SliceLatest | src/commandHistory.ts:75 | With no end, starting n from the end gives the latest min(n, len) entries. |
| History.SliceStable | src/CommandHistory.ts:117-122 | Later additions do not change a slice that ends within the older history. |
| History.SliceIsRun | src/commandHistory.ts:73-78 | A slice is always one contiguous, in-bounds run of the history. |
| History.CommandHistory.Toggle | src/CommandHistory.ts:63-65 | Sets only the flag. The history is untouched. |
| History.CommandHistory.IsEnabled | src/CommandHistory.ts:72-74 | The flag. |
| History.CommandHistory.Add | src/commandHistory.ts:38-41 | When enabled, appends exactly the entry at the end. When disabled, nothing changes. |
| History.CommandHistory.GetAll | src/CommandHistory.ts:93-95 | The history in insertion order, the same as the open-ended slice from 0. |
| History.CommandHistory.GetSize | src/commandHistory.ts:58-60 | The history length, the length of `GetAll`. |
| History.CommandHistory.GetSlice | src/commandHistory.ts:73-78 | Returns `Slice` of the history. |
| History.CommandHistory.Clear | src/CommandHistory.ts:129-131 | Afterwards the history is empty. |
| SpeechConverterOnline.FlattenDropFromFirst | src/SpeechConverterOnline.ts:110-111 | Replacing the first chunk by its tail drops that many elements from the front of the concatenation. |
| SpeechConverterOnline.CombineChunks | src/SpeechConverterOnline.ts:97-117 | Returns a new block of exactly `blockSize` elements. Its first min(blockSize, total) elements are the front of the buffer's concatenation, and the rest are zero. The buffer's concatenation loses exactly those elements. The loop ends because each round shifts a chunk or fills the block. |
| SpeechConverterOnline.TakeFront | src/SpeechConverterOnline.ts:104-112 | Taking elements from the first chunk takes them from the front of what remains. The buffer that is left holds exactly the remainder, whether the chunk is shifted off or replaced by its tail. |
| SpeechConverterOnline.Place | src/SpeechConverterOnline.ts:106 | `set` copies the chunk to the offset. Everything before it is kept, and everything after it is untouched. |
| SpeechConverterOnline.ContainsInfix | src/SpeechConverterOnline.ts:136 | `includes` finds every infix. |
| SpeechConverterOnline.HeldBack | src/SpeechConverterOnline.ts:124-128 | The marker itself and blank text are not forwarded. |
| SpeechConverterOnline.PassedOn | src/SpeechConverterOnline.ts:124-128 | A plain word is forwarded. |
| SpeechConverterOnline.MisspeltMarkerPassedOn | src/SpeechConverterOnline.ts:124-128 | A misspelt marker is not the marker, and so it is forwarded. |
| SpeechConverterOnline.OnlineConverter.constructor | src/SpeechConverterOnline.ts:20-25 | An empty backend URL keeps the default one. The text log starts absent. |
| SpeechConverterOnline.OnlineConverter.ProcessText | src/SpeechConverterOnline.ts:124-128 | Forwards iff the trimmed text is non-empty and lacks `[BLANK_AUDIO]`, and then matches as the converter does. It runs every matched action, reports those that throw, and notifies the callback iff something matched and a callback is set. Text that is not forwarded changes nothing. |
| SpeechConverterOnline.OnlineConverter.LogText | src/SpeechConverterOnline.ts:135-148 | Text containing `[BLANK_AUDIO]` is never recorded. Other text appends exactly one entry, and the first one creates the log. |
| SpeechConverterOnline.FormatLog | src/SpeechConverterOnline.ts:154-163 | One line per entry, in order: the time, " : ", the text and a newline. |
| SpeechConverterOnline.OnlineConverter.GetTextLog | src/SpeechConverterOnline.ts:154-163 | The loop returns `FormatLog` of the entries, which is empty before the first entry. |
| SpeechConverterOnline.LinesShowText | src/SpeechConverterOnline.ts:158-160 | Every line shows its entry's text. |
| SpeechConverterOnline.LoggedTextIsShown | src/SpeechConverterOnline.ts:135-163 | After logging text, the log has one more line and the last one shows that text. |
| Logging.FinalizedBelow | src/Logging.ts:322-324 | The scan yields ids of finalized entries, strictly ascending. |
| Logging.FinalizedBelowComplete | src/Logging.ts:322-324 | The scan misses no finalized id in range. |
| Logging.FinalizedIdsExact | src/Logging.ts:322-324 | In a valid state the scan yields exactly the finalized entries, so it equals filtering and sorting by id. |
| Logging.Initial | src/Logging.ts:150-158 | A new logger has no entries, nothing pending and next id 1, and keeps the invariant. |
| Logging.CreatedFacts | src/Logging.ts:184-206 | A new entry takes the next id, which was unused. It is pending, not finalized and has no matches. The counter advances by one and earlier entries are untouched. |
| Logging.WithMatchFacts | src/Logging.ts:227-241 | A pending entry gets exactly one more match. It is otherwise the same entry, and nothing else in the log changes. For an unknown or finalized id nothing changes at all. |
| Logging.MarkedKeepsInv | src/Logging.ts:266-273 | Marking an entry finalized and stopping its timer keeps the invariant. |
| Logging.PrunedKeeps | src/Logging.ts:312-338 | Pruning keeps the invariant and every pending entry, and leaves all kept entries unchanged. |
| Logging.PrunedRemovesOldest | src/Logging.ts:312-331 | Pruning happens only when the limit is finite and exceeded. It removes only finalized entries, each older than every finalized entry kept. |
| Logging.Without | src/Logging.ts:329-331 | Removing ids from an ordered list keeps the order of the rest. |
| Logging.FinalizedBelowRemoved | src/Logging.ts:329-331 | After deleting entries, the scan is the old scan without the deleted ids. |
| Logging.WithoutPrefix | src/Logging.ts:327 | Removing the first k ids of an ascending list leaves the rest of the list. |
| Logging.PrunedDropsBatch | src/Logging.ts:320-331 | One prune removes exactly the first `slice(0, pruneCount)` of the finalized ids (with maximum 5 and batch 3, finalizing a sixth entry keeps ids 4 to 6). |
| Logging.MarkingAddsOne | src/Logging.ts:266 | Finalizing one entry adds at most one finalized id. |
| Logging.FinalizedKeepsLimit | src/Logging.ts:276 | With a batch of at least one, a log within its limit stays within it after a finalization. |
| Logging.FinalizedFacts | src/Logging.ts:254-304 | Finalizing keeps the invariant, stops the timer and marks the entry, and does nothing for an unknown id. It never changes the next id, so ids are not reused. It is idempotent, so a timer that fires after a manual finalization changes nothing. |
| Logging.EntriesOf | src/Logging.ts:356 | The entries of the ids, one each, in order. |
| Logging.AllLogsFacts | src/Logging.ts:352-357 | The snapshot lists exactly the finalized entries, each as stored, by strictly ascending id, and no pending entry. |
| Logging.IncreasingCard | src/Logging.ts:317-318 | An ascending list of ids has as many distinct ids as elements. |
| Logging.CountsAddUp | src/Logging.ts:454-474 | The total count is the finalized count plus the pending count. |
| Logging.ClearedFacts | src/Logging.ts:438-447 | After `clear` there are no entries and nothing pending, ids restart at 1 and the configuration is kept. |
| Logging.Logger.constructor | src/Logging.ts:150-158 | No limit unless given, batches of 10 unless given, next id 1, no entries. |
| Logging.Logger.CreateEntry | src/Logging.ts:184-206 | Returns the old next id and performs the `createEntry` transition. |
| Logging.Logger.AddMatch | src/Logging.ts:227-241 | Performs the `addMatch` transition. |
| Logging.Logger.FinalizeEntry | src/Logging.ts:254-277 | Performs the finalize transition. |
| Logging.Logger.AutoFinalizeEntry | src/Logging.ts:286-304 | Performs the same transition as `FinalizeEntry`. |
| Logging.Logger.CheckAndPrune | src/Logging.ts:312-338 | Performs the prune transition. |
| Logging.Logger.RemoveEntries | src/Logging.ts:329-331 | The deletion loop removes exactly the given ids and nothing else. |
| Logging.Logger.GetAllLogs | src/Logging.ts:352-357 | The snapshot of finalized entries by id. |
| Logging.Logger.GetJSONBlob | src/Logging.ts:390-392 | The same content as `GetAllLogs`. |
| Logging.Logger.Clear | src/Logging.ts:438-447 | Performs the clear transition. |
| Logging.Logger.GetTotalCount | src/Logging.ts:454-456 | The number of entries. |
| Logging.Logger.GetFinalizedCount | src/Logging.ts:463-465 | The number of finalized entries, the length of the snapshot. |
| Logging.Logger.GetPendingCount | src/Logging.ts:472-474 | The number of pending entries. |
| Logging.Logger.UpdateConfig | src/Logging.ts:481-483 | The fields given replace the configuration and nothing else changes. |

## Left out

- Timers: `setTimeout`/`clearTimeout` in the logger are not modelled. `AutoFinalizeEntry` is a method that the environment calls.
- The clock: `new Date()`, `toISOString` and `toLocaleTimeString` are parameters.
- Console output: warnings, the prune message and confidence logging have no effect on state.
- The JSON text of `exportToJSON`, and `saveToFile`, which is DOM work. Only the content, `getAllLogs`, is modelled.
- The similarity measure `compareTwoTexts` is an external package with floating-point scores. It is a parameter, and nothing is claimed about its values.
- The network: the synonym request, its URL and JSON parsing, the audio upload, and `startListening` with its async streaming loop. How concurrent `getSynonyms` calls interleave is not modelled either.
- Microphone capture, the speech engines and the Python backend. `isSilence` appears only in a test and is not part of this model.
- `init`, `getStatus`, `stopListening` and `getTranscribed` of the online converter: they only throw, delegate to the audio handler or format output.
- Singletons: `getInstance` is replaced by objects passed to constructors.
- Text outside ASCII: `toLowerCase`, `trim` and `\s` treat only ASCII letters and ASCII whitespace.
- JavaScript numbers: ids, counts, slice bounds and `pruneCount` are integers, and thresholds and similarities are reals. NaN, fractional bounds and 32-bit float samples are not modelled.
- An explicit `undefined` field in `updateConfig`, which would overwrite a setting with `undefined`. A partial configuration is modelled as optional fields.
- SpeechConverterOnline.CombineChunks: the rest of the chunk is a copy, not a `subarray` view sharing memory with the caller's chunk.
- SpeechConverterOnline.CombineChunks: `blockSize` is a natural number; a negative size, which makes `new Float32Array` throw, is not modelled.
- ConfidenceMatcher.Matcher.constructor: like the source, it does not range-check the threshold.
- CommandConverter.Converter.ProcessTranscription: actions and the callback are assumed to leave the registry and the converter alone. In the source an action runs between tokens (src/CommandConverter.ts:108-112). It could call `remove`, or flip `active` on the command object that `get` returns by reference, and a later token would see that. The model matches every token against the registry as it was when the call began.
- CommandConverter.Converter.ProcessTranscription: one time `now` stamps every log entry of a call. The source calls `new Date()` for each `logCommand` (src/CommandConverter.ts:139), so entries of one call may carry different times.
- ConfidenceMatcher.Matcher.FindMatch: what it logs when score logging is on is not modelled (console output).
