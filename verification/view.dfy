/**
 The text the widget derives from its state on every render: the readout, the
 progress fill, the start/pause label and the lap list. A parser for the lap
 list is the partner that shows the rendered text loses no lap.
 */
module View {
  import opened Optional
  import opened Digits
  import opened Clock
  import opened Stopwatch

  /** The single list item shown while no lap has been recorded. */
  const Placeholder: string := "No laps recorded yet"

  /** The start/pause button's caption. */
  function ButtonLabel(isRunning: bool): (caption: string)
    ensures caption == "Pause" <==> isRunning
    ensures caption == "Start" <==> !isRunning
  {
    if isRunning then "Pause" else "Start"
  }

  /** The list item for the lap at position `index` (numbered from 1 on screen). */
  function LapEntry(index: nat, lap: nat): string {
    "Lap " + Decimal(index + 1) + ": " + FormatTime(lap)
  }

  /** One item per recorded lap, in recording order. */
  function Entries(laps: seq<nat>): (entries: seq<string>)
    ensures |entries| == |laps|
    decreases |laps|
  {
    if |laps| == 0 then []
    else Entries(laps[..|laps| - 1]) + [LapEntry(|laps| - 1, laps[|laps| - 1])]
  }

  /** The lap list's items: the placeholder when empty, else one item per lap. */
  function LapEntries(laps: seq<nat>): (entries: seq<string>)
    ensures |entries| == if |laps| == 0 then 1 else |laps|
    ensures laps == [] ==> entries == [Placeholder]
  {
    if |laps| == 0 then [Placeholder] else Entries(laps)
  }

  /** Everything one render shows. */
  datatype Screen = Screen(time: string, progress: real, toggleLabel: string, lapEntries: seq<string>)

  /** One render: the readout and the lap list read back as the state's seconds
      and laps, the ring is the uncapped percentage, the caption names the
      opposite action. */
  function Render(w: State): (r: Screen)
    ensures ParseTime(r.time) == Some(MinSec(w.seconds / 60, w.seconds % 60))
    ensures r.progress * 60.0 == w.seconds as real * 100.0
    ensures r.toggleLabel == "Pause" <==> w.isRunning
    ensures DecodeLapList(r.lapEntries) == Some(w.laps)
  {
    FormatTimeRoundTrip(w.seconds);
    LapListRoundTrip(w.laps);
    Screen(FormatTime(w.seconds), ProgressPercentage(w.seconds), ButtonLabel(w.isRunning), LapEntries(w.laps))
  }

  /** Reads a list item `Lap N: MM:SS` back as its number and its total seconds. */
  function ParseLapEntry(e: string): Option<(nat, nat)> {
    if |e| < 4 || e[..4] != "Lap " then None
    else
      var rest := e[4..];
      match IndexOf(rest, ':')
      case None => None
      case Some(k) =>
        var number := rest[..k];
        var tail := rest[k + 1..];
        if |number| >= 1 && AllDigits(number) && |tail| >= 1 && tail[0] == ' ' then
          match ParseTime(tail[1..])
          case None => None
          case Some(ms) => Some((Parse(number), TotalSeconds(ms)))
        else None
  }

  /** Reads lap items back, checking that item `i` is numbered `i + 1`. */
  function DecodeEntries(entries: seq<string>): Option<seq<nat>>
    decreases |entries|
  {
    if |entries| == 0 then Some([])
    else
      match (DecodeEntries(entries[..|entries| - 1]), ParseLapEntry(entries[|entries| - 1]))
      case (Some(laps), Some((number, lap))) =>
        if number == |entries| then Some(laps + [lap]) else None
      case _ => None
  }

  /** Reads a whole rendered lap list back into the laps it shows. */
  function DecodeLapList(entries: seq<string>): Option<seq<nat>> {
    if entries == [Placeholder] then Some([])
    else if |entries| == 0 then None
    else DecodeEntries(entries)
  }

  /** Where the pieces of `Lap <numeral>: <time>` sit. */
  lemma LapTextPieces(d: string, f: string)
    requires |d| >= 1 && AllDigits(d)
    ensures var e := "Lap " + d + ": " + f;
      && |e| >= 4 && e[..4] == "Lap "
      && IndexOf(e[4..], ':') == Some(|d|)
      && e[4..][..|d|] == d
      && e[4..][|d| + 1..] == " " + f
      && (" " + f)[1..] == f
  {
    var e := "Lap " + d + ": " + f;
    var rest := d + ": " + f;
    assert e == "Lap " + rest;
    assert e[4..] == rest;
    forall j | 0 <= j < |d| ensures rest[j] != ':' {
      assert rest[j] == d[j];
    }
    assert rest[|d|] == ':';
    var found := IndexOf(rest, ':');
    assert found.Some?;
    assert found.value <= |d|;
    assert rest[..|d|] == d;
    assert rest[|d| + 1..] == " " + f;
  }

  /** Any item spelled `Lap <numeral>: <time>` reads back as the numeral's value
      and the time's total, whatever the time text is. */
  lemma ParseLapText(d: string, f: string, ms: MinSec)
    requires |d| >= 1 && AllDigits(d) && ParseTime(f) == Some(ms)
    ensures ParseLapEntry("Lap " + d + ": " + f) == Some((Parse(d), TotalSeconds(ms)))
  {
    LapTextPieces(d, f);
  }

  /** A lap item reads back as its on-screen number and the lap's seconds. */
  lemma LapEntryRoundTrip(index: nat, lap: nat)
    ensures ParseLapEntry(LapEntry(index, lap)) == Some((index + 1, lap))
  {
    FormatTimeRoundTrip(lap);
    ParseLapText(Decimal(index + 1), FormatTime(lap), MinSec(lap / 60, lap % 60));
  }

  /** The placeholder can never be mistaken for a lap. */
  lemma PlaceholderIsNotALap()
    ensures ParseLapEntry(Placeholder) == None
  {
    assert Placeholder[0] == 'N';
  }

  lemma SnocLast<T>(s: seq<T>)
    requires |s| > 0
    ensures s[..|s| - 1] + [s[|s| - 1]] == s
  {
  }

  lemma {:induction false} DecodeEntriesRoundTrip(laps: seq<nat>)
    ensures DecodeEntries(Entries(laps)) == Some(laps)
    decreases |laps|
  {
    if |laps| > 0 {
      var n := |laps|;
      var entries := Entries(laps);
      assert entries[..n - 1] == Entries(laps[..n - 1]);
      assert entries[n - 1] == LapEntry(n - 1, laps[n - 1]);
      DecodeEntriesRoundTrip(laps[..n - 1]);
      LapEntryRoundTrip(n - 1, laps[n - 1]);
      SnocLast(laps);
    }
  }

  /** A non-empty lap list never renders as the placeholder alone. */
  lemma EntriesAreNotPlaceholder(laps: seq<nat>)
    requires |laps| > 0
    ensures Entries(laps) != [Placeholder]
  {
    if |laps| == 1 {
      var single := Entries(laps);
      assert single[0] == LapEntry(0, laps[0]);
      LapEntryRoundTrip(0, laps[0]);
      PlaceholderIsNotALap();
    }
  }

  /** Round trip of the lap list: the rendered items, placeholder included,
      read back as exactly the recorded laps in order. */
  lemma LapListRoundTrip(laps: seq<nat>)
    ensures DecodeLapList(LapEntries(laps)) == Some(laps)
  {
    if |laps| > 0 {
      DecodeEntriesRoundTrip(laps);
      EntriesAreNotPlaceholder(laps);
    }
  }

  /** Different lap lists always render differently. */
  lemma LapListInjective(a: seq<nat>, b: seq<nat>)
    ensures LapEntries(a) == LapEntries(b) <==> a == b
  {
    LapListRoundTrip(a);
    LapListRoundTrip(b);
  }

  /** The button offers the opposite of what the stopwatch is doing, so each
      click flips its caption. */
  lemma ToggleFlipsLabel(w: State)
    ensures Render(ToggleTimer(w)).toggleLabel != Render(w).toggleLabel
  {
  }

  lemma EntriesSnoc(laps: seq<nat>, lap: nat)
    ensures Entries(laps + [lap]) == Entries(laps) + [LapEntry(|laps|, lap)]
  {
    assert (laps + [lap])[..|laps|] == laps;
  }

  /** Item `i` of the list is the text for lap `i`, numbered `i + 1`. */
  lemma {:induction false} EntriesAt(laps: seq<nat>)
    ensures forall i :: 0 <= i < |laps| ==> Entries(laps)[i] == LapEntry(i, laps[i])
    decreases |laps|
  {
    if |laps| > 0 {
      EntriesAt(laps[..|laps| - 1]);
    }
  }

  /** Recording a lap adds one item at the end of the list (replacing the
      placeholder when it was the first lap) and keeps the earlier items. */
  lemma RecordLapAppendsEntry(w: State)
    ensures Render(RecordLap(w)).lapEntries
         == (if w.laps == [] then [] else Render(w).lapEntries) + [LapEntry(|w.laps|, w.seconds)]
  {
    EntriesSnoc(w.laps, w.seconds);
  }

  /** After reset the screen shows a zero readout, an empty ring, "Start" and
      the placeholder, whatever was shown before. */
  lemma RenderAfterReset(w: State)
    ensures Render(ResetTimer(w)) == Screen("00:00", 0.0, "Start", [Placeholder])
  {
    FormatTimeDigits(0);
  }
}
