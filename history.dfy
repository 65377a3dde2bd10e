/**
 * An append-only, switchable history of matched commands, with copies of
 * the whole history or of a clamped range of it. The history of the
 * speech API keeps structured entries; the older one keeps bare command
 * names. Both are the same class over the element type.
 */
module History {
  import opened Options

  datatype Status = Success | Failed

  /** One structured history entry; confidence and match type are optional. */
  datatype CommandLogEntry = CommandLogEntry(
    timestamp: Timestamp,
    commandName: string,
    status: Status,
    confidence: Option<real>,
    matchType: Option<string>)

  function Max(a: int, b: int): int { if a >= b then a else b }

  function Min(a: int, b: int): int { if a <= b then a else b }

  /**
   * `getSlice(start, end)`: the entries from `max(0, start)` up to
   * `min(|h|, end)`, where a missing end means the length; empty when the
   * range is empty or reversed.
   */
  function Slice<T>(h: seq<T>, start: int, end: Option<int>): (r: seq<T>)
    ensures |r| == Max(0, Min(|h|, end.GetOr(|h|)) - Max(0, start)) && |r| <= |h|
    ensures forall i :: 0 <= i < |r| ==> r[i] == h[Max(0, start) + i]
  {
    var s := Max(0, start);
    var e := Min(|h|, end.GetOr(|h|));
    if s >= e then [] else h[s..e]
  }

  /** With no end and a start of at most 0, the slice is the whole history. */
  lemma SliceWhole<T>(h: seq<T>, start: int)
    requires start <= 0
    ensures Slice(h, start, None) == h
  {
  }

  /** Cutting at any point and taking both sides gives back the history. */
  lemma SliceSplit<T>(h: seq<T>, cut: int)
    ensures Slice(h, 0, Some(cut)) + Slice(h, cut, None) == h
  {
    if cut <= 0 {
      assert Slice(h, 0, Some(cut)) == [];
    } else if cut >= |h| {
      assert Slice(h, cut, None) == [];
    } else {
      assert h[..cut] + h[cut..] == h;
    }
  }

  /** Starting `n` from the end with no end gives the latest `min(n, |h|)` entries. */
  lemma SliceLatest<T>(h: seq<T>, n: nat)
    ensures Slice(h, |h| - n, None) == h[|h| - Min(n, |h|)..]
  {
  }

  /** Entries added later do not change a slice that ends inside the old history. */
  lemma SliceStable<T>(h: seq<T>, extra: seq<T>, start: int, end: int)
    requires end <= |h|
    ensures Slice(h + extra, start, Some(end)) == Slice(h, start, Some(end))
  {
    var s := Max(0, start);
    if s < end {
      assert (h + extra)[s..end] == h[s..end];
    }
  }

  /** A slice is always one contiguous run of the history. */
  lemma SliceIsRun<T>(h: seq<T>, start: int, end: Option<int>)
    ensures exists a, b :: 0 <= a <= b <= |h| && Slice(h, start, end) == h[a..b]
  {
    var s := Max(0, start);
    var e := Min(|h|, end.GetOr(|h|));
    if s >= e {
      assert Slice(h, start, end) == h[0..0];
    } else {
      assert Slice(h, start, end) == h[s..e];
    }
  }

  class CommandHistory<T> {
    /** Every entry added while enabled, oldest first. */
    var history: seq<T>
    /** When false, `Add` ignores its entry. */
    var enabled: bool

    constructor ()
      ensures history == [] && enabled
    {
      history := [];
      enabled := true;
    }

    method Toggle(enable: bool)
      modifies this`enabled
      ensures enabled == enable
    {
      enabled := enable;
    }

    function IsEnabled(): (on: bool)
      reads this
      ensures on == enabled
    {
      enabled
    }

    /** Appends `command` when enabled; otherwise changes nothing. */
    method Add(command: T)
      modifies this`history
      ensures history == if enabled then old(history) + [command] else old(history)
    {
      if !enabled {
        return;
      }
      history := history + [command];
    }

    /** A copy of the whole history. */
    function GetAll(): (all: seq<T>)
      reads this
      ensures all == history && all == Slice(history, 0, None)
    {
      SliceWhole(history, 0);
      history
    }

    function GetSize(): (n: nat)
      reads this
      ensures n == |history| && n == |GetAll()|
    {
      |history|
    }

    /** The entries from `max(0, start)` to `min(size, end)`. */
    method GetSlice(start: int, end: Option<int>) returns (r: seq<T>)
      ensures r == Slice(history, start, end)
    {
      var s := Max(0, start);
      var e := Min(|history|, end.GetOr(|history|));
      if s >= e {
        return [];
      }
      r := history[s..e];
    }

    method Clear()
      modifies this`history
      ensures history == []
    {
      history := [];
    }
  }
}
