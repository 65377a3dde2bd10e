/**
 * The parts of the online speech converter that do not talk to the
 * microphone or the transcription server: packing queued audio chunks
 * into fixed-size blocks, filtering transcribed text before it reaches
 * the command converter, and the log of transcribed text.
 */
module SpeechConverterOnline {
  import opened Options
  import opened Text
  import opened CommandLibrary
  import opened CommandConverter

  // ---------------------------------------------------------------------
  // Chunk combining

  /** All chunks, one after the other. */
  function Flatten<T>(chunks: seq<seq<T>>): (r: seq<T>)
  {
    if chunks == [] then [] else chunks[0] + Flatten(chunks[1..])
  }

  lemma FlattenCons<T>(c: seq<T>, rest: seq<seq<T>>)
    ensures Flatten([c] + rest) == c + Flatten(rest)
  {
    assert ([c] + rest)[1..] == rest;
  }

  /** Cutting `n` elements off the first chunk cuts them off the whole. */
  lemma FlattenDropFromFirst<T>(chunks: seq<seq<T>>, n: nat)
    requires chunks != [] && n <= |chunks[0]|
    ensures Flatten([chunks[0][n..]] + chunks[1..]) == Flatten(chunks)[n..]
  {
    FlattenCons(chunks[0][n..], chunks[1..]);
    assert chunks[0] + Flatten(chunks[1..]) == Flatten(chunks);
    assert chunks[0][n..] + Flatten(chunks[1..]) == (chunks[0] + Flatten(chunks[1..]))[n..];
  }

  /** The audio chunks waiting to be sent, oldest first. */
  class ChunkBuffer<T> {
    var chunks: seq<seq<T>>

    constructor (chunks: seq<seq<T>>)
      ensures this.chunks == chunks
    {
      this.chunks := chunks;
    }
  }

  function Min(a: int, b: int): int { if a <= b then a else b }

  /**
   * Fills a new block of `blockSize` elements from the front of `buffer`,
   * consuming what it copies: whole chunks are shifted off and a chunk that
   * only partly fits is replaced by its unused tail. Elements the buffer
   * cannot supply stay `zero`.
   */
  method CombineChunks<T>(buffer: ChunkBuffer<T>, blockSize: nat, zero: T) returns (combined: array<T>)
    modifies buffer
    ensures fresh(combined)
    ensures combined.Length == blockSize
    ensures var n := Min(blockSize, |Flatten(old(buffer.chunks))|);
      combined[..n] == Flatten(old(buffer.chunks))[..n] &&
      (forall i :: n <= i < blockSize ==> combined[i] == zero) &&
      Flatten(buffer.chunks) == Flatten(old(buffer.chunks))[n..]
  {
    combined := new T[blockSize](_ => zero);
    ghost var all := Flatten(buffer.chunks);
    var offset := 0;
    while offset < blockSize && |buffer.chunks| > 0
      invariant 0 <= offset <= blockSize && offset <= |all|
      invariant combined[..offset] == all[..offset]
      invariant forall i :: offset <= i < blockSize ==> combined[i] == zero
      invariant Flatten(buffer.chunks) == all[offset..]
      decreases blockSize - offset, |buffer.chunks|
    {
      var currentChunk := buffer.chunks[0];
      var needed := blockSize - offset;
      if |currentChunk| <= needed {
        TakeFront(all, buffer.chunks, offset, |currentChunk|);
        Place(combined, currentChunk, offset);
        offset := offset + |currentChunk|;
        buffer.chunks := buffer.chunks[1..];
      } else {
        TakeFront(all, buffer.chunks, offset, needed);
        Place(combined, currentChunk[..needed], offset);
        buffer.chunks := [currentChunk[needed..]] + buffer.chunks[1..];
        offset := offset + needed;
      }
    }
    if offset < blockSize {
      assert all[offset..] == [];
    }
    assert offset == Min(blockSize, |all|);
  }

  /**
   * Taking `take` elements from the first chunk takes them from the front
   * of what is left; the rest of the buffer holds the remainder.
   */
  lemma TakeFront<T>(all: seq<T>, chunks: seq<seq<T>>, offset: nat, take: nat)
    requires chunks != [] && take <= |chunks[0]| && offset <= |all|
    requires Flatten(chunks) == all[offset..]
    ensures offset + take <= |all|
    ensures all[..offset + take] == all[..offset] + chunks[0][..take]
    ensures Flatten([chunks[0][take..]] + chunks[1..]) == all[offset + take..]
    ensures take == |chunks[0]| ==> chunks[0][..take] == chunks[0] && Flatten(chunks[1..]) == all[offset + take..]
  {
    FlattenCons(chunks[0], chunks[1..]);
    assert [chunks[0]] + chunks[1..] == chunks;
    assert all[offset..][..take] == chunks[0][..take];
    assert all[..offset + take] == all[..offset] + all[offset..][..take];
    FlattenDropFromFirst(chunks, take);
    assert all[offset..][take..] == all[offset + take..];
  }

  /** `combined.set(chunk, offset)`: copies `chunk` into `combined` from `offset` on. */
  method Place<T>(combined: array<T>, chunk: seq<T>, offset: nat)
    requires offset + |chunk| <= combined.Length
    modifies combined
    ensures combined[..offset + |chunk|] == old(combined[..offset]) + chunk
    ensures forall i :: offset + |chunk| <= i < combined.Length ==> combined[i] == old(combined[i])
  {
    forall i | 0 <= i < |chunk| {
      combined[offset + i] := chunk[i];
    }
    assert combined[..offset + |chunk|] == old(combined[..offset]) + chunk;
  }

  // ---------------------------------------------------------------------
  // Transcribed text

  /** The text the recognizer produces for silence. */
  const BlankAudio: string := "[BLANK_AUDIO]"

  /** Whether transcribed text is passed on for command matching. */
  predicate ShouldForward(text: string) {
    Trim(text) != [] && !Contains(text, BlankAudio)
  }

  /** `includes` finds any infix. */
  lemma {:induction false} ContainsInfix(a: string, b: string, c: string)
    ensures Contains(a + b + c, b)
    decreases |a|
  {
    if a == [] {
      assert a + b + c == b + c;
      assert b <= b + c;
    } else {
      assert (a + b + c)[1..] == a[1..] + b + c;
      ContainsInfix(a[1..], b, c);
    }
  }

  datatype TranscribedLogEntry = TranscribedLogEntry(timestamp: Timestamp, transcribedText: string)

  /** One line of the text log: the time, " : ", the text and a newline. */
  function FormatLine(entry: TranscribedLogEntry, timeOf: Timestamp -> string): string {
    timeOf(entry.timestamp) + " : " + entry.transcribedText + "\n"
  }

  /** The text log, one formatted line per entry, in order. */
  function FormatLog(entries: seq<TranscribedLogEntry>, timeOf: Timestamp -> string): (lines: seq<string>)
    ensures |lines| == |entries|
    ensures forall i :: 0 <= i < |lines| ==> lines[i] == FormatLine(entries[i], timeOf)
  {
    if entries == [] then [] else FormatLog(entries[..|entries| - 1], timeOf) + [FormatLine(entries[|entries| - 1], timeOf)]
  }

  /** Every line of the log shows its entry's text. */
  lemma LinesShowText(entries: seq<TranscribedLogEntry>, timeOf: Timestamp -> string, i: int)
    requires 0 <= i < |entries|
    ensures Contains(FormatLog(entries, timeOf)[i], entries[i].transcribedText)
  {
    ContainsInfix(timeOf(entries[i].timestamp) + " : ", entries[i].transcribedText, "\n");
  }

  class OnlineConverter {
    /** Receives the text that passes the filter. */
    const commandConverter: Converter
    /** Where audio blocks are posted. */
    const url: string
    /** Every logged transcription; `None` until the first one. */
    var textLog: Option<seq<TranscribedLogEntry>>

    /** An empty backend URL keeps the default one. */
    constructor (backendURL: string, commandConverter: Converter)
      ensures this.commandConverter == commandConverter
      ensures url == if backendURL != "" then backendURL else "http://localhost:8000/transcription/"
      ensures textLog == None
    {
      this.commandConverter := commandConverter;
      url := if backendURL != "" then backendURL else "http://localhost:8000/transcription/";
      textLog := None;
    }

    /** The logged entries, none before the first. */
    function Entries(): seq<TranscribedLogEntry>
      reads this
    {
      textLog.GetOr([])
    }

    /**
     * Passes `text` to the command converter when it has content and is
     * not the silence marker; `forwarded` says whether it did.
     */
    method ProcessText(text: string, now: Timestamp, throws: Action -> bool)
      returns (forwarded: bool, matched: seq<GameCommand>, ran: seq<Action>, failed: seq<string>, notified: Option<Notification>)
      requires commandConverter.library.Valid()
      modifies commandConverter`commandLog
      ensures forwarded == ShouldForward(text)
      ensures !forwarded ==> matched == [] && commandConverter.commandLog == old(commandConverter.commandLog)
      ensures forwarded && commandConverter.enabled ==>
        matched == MatchAll(Tokenize(text), commandConverter.library.commandMap)
      ensures forwarded && !commandConverter.enabled ==> matched == []
      ensures commandConverter.commandLog == old(commandConverter.commandLog) + LogEntriesFor(matched, now)
      ensures ran == ActionsOf(matched)
      ensures failed == FailuresOf(matched, throws)
      ensures notified.Some? <==> matched != [] && commandConverter.onCommandMatched.Some?
      ensures notified.Some? ==> notified.value == Notification(commandConverter.onCommandMatched.value, matched, text)
    {
      forwarded := text != "" && Trim(text) != [] && !Contains(text, BlankAudio);
      matched, ran, failed, notified := [], [], [], None;
      if forwarded {
        matched, ran, failed, notified := commandConverter.ProcessTranscription(text, now, throws);
      }
    }

    /** Appends `text` with its time unless it contains the silence marker. */
    method LogText(text: string, now: Timestamp)
      modifies this`textLog
      ensures Contains(text, BlankAudio) ==> textLog == old(textLog)
      ensures !Contains(text, BlankAudio) ==> textLog == Some(old(Entries()) + [TranscribedLogEntry(now, text)])
    {
      if Contains(text, BlankAudio) {
        return;
      }
      var entry := TranscribedLogEntry(now, text);
      if textLog.None? {
        textLog := Some([]);
      }
      textLog := Some(textLog.value + [entry]);
    }

    /** One formatted line per logged entry; `timeOf` renders a time of day. */
    method GetTextLog(timeOf: Timestamp -> string) returns (logOfText: seq<string>)
      ensures logOfText == FormatLog(Entries(), timeOf)
    {
      logOfText := [];
      if textLog.None? {
        return;
      }
      var log := textLog.value;
      for i := 0 to |log|
        invariant logOfText == FormatLog(log[..i], timeOf)
      {
        assert log[..i + 1][..i] == log[..i];
        logOfText := logOfText + [FormatLine(log[i], timeOf)];
      }
      assert log[..|log|] == log;
    }
  }

  /**
   * After logging text without the silence marker, the log has one more
   * line and the last one shows that text.
   */
  lemma LoggedTextIsShown(entries: seq<TranscribedLogEntry>, now: Timestamp, text: string, timeOf: Timestamp -> string)
    ensures var lines := FormatLog(entries + [TranscribedLogEntry(now, text)], timeOf);
      |lines| == |entries| + 1 && Contains(lines[|entries|], text)
  {
    LinesShowText(entries + [TranscribedLogEntry(now, text)], timeOf, |entries|);
  }

  /** A string is found only in a string at least as long. */
  lemma {:induction false} ContainsFits(s: string, sub: string)
    requires Contains(s, sub)
    ensures |sub| <= |s|
    decreases |s|
  {
    if !(sub <= s) {
      ContainsFits(s[1..], sub);
    }
  }

  /**
   * Blank text is held back, as test/SpeechConverterOnline.test.ts:74-78
   * expects, and so is the silence marker itself.
   */
  lemma HeldBack()
    ensures !ShouldForward(BlankAudio)
    ensures !ShouldForward(" ")
  {
    assert BlankAudio <= BlankAudio;
    assert Trim(" ") == [];
  }

  /** A plain word is passed on, as test/SpeechConverterOnline.test.ts:56-61 expects. */
  lemma PassedOn()
    ensures ShouldForward("run")
  {
    if Contains("run", BlankAudio) {
      ContainsFits("run", BlankAudio);
    }
    assert Trim("run") != [] by {
      assert !IsWhitespace("run"[0]);
    }
  }

  /**
   * A misspelt silence marker is not the marker, and is passed on, as
   * test/SpeechConverterOnline.test.ts:68-73 expects.
   */
  lemma MisspeltMarkerPassedOn()
    ensures ShouldForward("[BLANK_AUIDIO]")
  {
    var misspelt := "[BLANK_AUIDIO]";
    assert misspelt[9] != BlankAudio[9];
    assert !(BlankAudio <= misspelt);
    assert misspelt[1..][0] != BlankAudio[0];
    assert !(BlankAudio <= misspelt[1..]);
    if Contains(misspelt[1..][1..], BlankAudio) {
      ContainsFits(misspelt[1..][1..], BlankAudio);
    }
    assert Trim(misspelt) != [] by {
      assert !IsWhitespace(misspelt[0]);
    }
  }
}
