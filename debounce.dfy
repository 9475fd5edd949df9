/**
 * Debouncing on an explicit millisecond clock. Every write replaces the
 * pending value and restarts a 100 ms timer; a value is delivered when its
 * timer runs out with no newer write. `Fired` is the reference meaning over
 * the whole log of writes, `Dedup` is Combine's removeDuplicates, and
 * `DebounceTimer` is the timer itself, proved to deliver exactly `Fired`.
 */
module Debounce {
  import opened Wrappers

  /** The quiet interval in milliseconds (0.1 s). */
  const Quiet := 100

  datatype Write = Write(time: int, value: string)

  /**
   * Write i was left alone for a full interval: the next write came at
   * least Quiet later or, for the newest write, the clock has reached its
   * deadline. A write exactly at the deadline comes after the delivery.
   */
  predicate Settled(ws: seq<Write>, i: nat, now: int)
    requires i < |ws|
  {
    (if i + 1 < |ws| then ws[i + 1].time else now) >= ws[i].time + Quiet
  }

  /** The values of the writes, all but the newest, that a later write did not cut short. */
  function Closed(ws: seq<Write>): seq<string>
  {
    if |ws| <= 1 then []
    else Closed(ws[..|ws| - 1]) + (if ws[|ws| - 1].time >= ws[|ws| - 2].time + Quiet then [ws[|ws| - 2].value] else [])
  }

  /** Every value delivered by time `now`, in order. */
  function Fired(ws: seq<Write>, now: int): seq<string>
  {
    if ws == [] then []
    else Closed(ws) + (if now >= ws[|ws| - 1].time + Quiet then [ws[|ws| - 1].value] else [])
  }

  lemma {:induction false} ClosedIffSettled(ws: seq<Write>, v: string)
    ensures v in Closed(ws) <==> exists i :: 0 <= i < |ws| - 1 && ws[i + 1].time >= ws[i].time + Quiet && ws[i].value == v
  {
    if |ws| > 1 {
      var init := ws[..|ws| - 1];
      ClosedIffSettled(init, v);
      assert forall i :: 0 <= i < |init| ==> init[i] == ws[i];
      if v in Closed(ws) && v !in Closed(init) {
        var i := |ws| - 2;
        assert ws[i + 1].time >= ws[i].time + Quiet && ws[i].value == v;
      }
    }
  }

  /** A value is delivered exactly when some write of it went a full interval without a newer write. */
  lemma {:induction false} FiredIffSettled(ws: seq<Write>, now: int, v: string)
    ensures v in Fired(ws, now) <==> exists i :: 0 <= i < |ws| && Settled(ws, i, now) && ws[i].value == v
  {
    if ws != [] {
      ClosedIffSettled(ws, v);
      if exists i :: 0 <= i < |ws| && Settled(ws, i, now) && ws[i].value == v {
        var i :| 0 <= i < |ws| && Settled(ws, i, now) && ws[i].value == v;
        if i < |ws| - 1 {
          assert v in Closed(ws);
        }
      }
    }
  }

  /** A write at the current clock delivers nothing new by itself: only the write before it may now have settled. */
  lemma {:induction false} FiredAfterWrite(ws: seq<Write>, now: int, v: string)
    ensures Fired(ws + [Write(now, v)], now) == Fired(ws, now)
  {
    var ws' := ws + [Write(now, v)];
    assert ws'[..|ws'| - 1] == ws;
    if ws == [] {
      assert Closed(ws') == [];
    }
  }

  /** The spelled-out example: "a" at 0, "ab" at 30 and "abc" at 50 deliver only "abc", at 150 and not before. */
  lemma TypingBurst()
    ensures Fired([Write(0, "a"), Write(30, "ab"), Write(50, "abc")], 149) == []
    ensures Fired([Write(0, "a"), Write(30, "ab"), Write(50, "abc")], 150) == ["abc"]
  {
    var ws := [Write(0, "a"), Write(30, "ab"), Write(50, "abc")];
    assert ws[..2] == [Write(0, "a"), Write(30, "ab")];
    assert ws[..2][..1] == [Write(0, "a")];
    assert Closed(ws[..2]) == [];
    assert Closed(ws) == [];
  }

  /** removeDuplicates: drop every value equal to the one just before it. */
  function Dedup(s: seq<string>): (d: seq<string>)
    ensures |d| <= |s|
    ensures s != [] ==> d != [] && d[|d| - 1] == s[|s| - 1]
    ensures forall i, j :: 0 <= i && j == i + 1 && j < |d| ==> d[i] != d[j]
    ensures forall v :: v in d <==> v in s
  {
    if s == [] then []
    else
      var init := Dedup(s[..|s| - 1]);
      assert forall v :: v in s <==> v in s[..|s| - 1] || v == s[|s| - 1];
      if |s| >= 2 && s[|s| - 2] == s[|s| - 1] then init else init + [s[|s| - 1]]
  }

  /** One more value passes removeDuplicates exactly when it differs from the value before it. */
  lemma DedupSnoc(s: seq<string>, v: string)
    ensures Dedup(s + [v]) == if s != [] && s[|s| - 1] == v then Dedup(s) else Dedup(s) + [v]
  {
    assert (s + [v])[..|s|] == s;
  }

  /**
   * The state of removeDuplicates and the assigned property after `fired`:
   * the values assigned, the last value seen, and what is shown.
   */
  ghost predicate SinkState(fired: seq<string>, published: seq<string>, last: Option<string>, shown: string, initial: string) {
    && published == Dedup(fired)
    && last == (if fired == [] then None else Some(fired[|fired| - 1]))
    && shown == (if published == [] then initial else published[|published| - 1])
  }

  /** One value out of the debounce: removeDuplicates lets it through exactly when it differs from the last one seen. */
  lemma SinkStep(fired: seq<string>, published: seq<string>, last: Option<string>, shown: string, initial: string, v: string)
    requires SinkState(fired, published, last, shown, initial)
    ensures last != Some(v) ==> SinkState(fired + [v], published + [v], Some(v), v, initial)
    ensures last == Some(v) ==> SinkState(fired + [v], published, Some(v), shown, initial)
  {
    DedupSnoc(fired, v);
  }

  /** The timer: the clock, and the newest write while its deadline has not passed. */
  class DebounceTimer {
    var clock: int
    var pending: Option<Write>
    ghost var writes: seq<Write>
    ghost var fired: seq<string>

    ghost predicate Valid()
      reads this
    {
      && (forall i :: 0 <= i < |writes| ==> writes[i].time <= clock)
      && fired == Fired(writes, clock)
      && pending == (if writes != [] && clock < writes[|writes| - 1].time + Quiet then Some(writes[|writes| - 1]) else None)
    }

    constructor (now: int)
      ensures Valid() && clock == now && writes == [] && fired == [] && pending == None
    {
      clock := now;
      pending := None;
      writes, fired := [], [];
    }

    /** Let the clock reach `now`, delivering the pending value if its deadline has come. */
    method Advance(now: int) returns (out: Option<string>)
      requires Valid() && clock <= now
      modifies this
      ensures Valid() && clock == now && writes == old(writes)
      ensures out.Some? <==> old(pending).Some? && old(pending).value.time + Quiet <= now
      ensures out.Some? ==> out.value == old(pending).value.value
      ensures fired == old(fired) + (if out.Some? then [out.value] else [])
    {
      out := None;
      if pending.Some? && pending.value.time + Quiet <= now {
        out := Some(pending.value.value);
        pending := None;
        fired := fired + [out.value];
      }
      clock := now;
    }

    /** A new value at the current time: cancel whatever was pending and start a fresh interval. */
    method Schedule(v: string)
      requires Valid()
      modifies this
      ensures Valid() && clock == old(clock)
      ensures writes == old(writes) + [Write(clock, v)] && pending == Some(Write(clock, v))
      ensures fired == old(fired)
    {
      FiredAfterWrite(writes, clock, v);
      writes := writes + [Write(clock, v)];
      pending := Some(Write(clock, v));
    }
  }

  /**
   * The resultText -> debouncedResultText pipeline of the view model:
   * debounce, then removeDuplicates, then assignment. The subscription
   * delivers the initial text as its first write.
   */
  class ResultPipeline {
    var resultText: string
    var debouncedResultText: string
    /** The last value that passed the debounce, which removeDuplicates compares with. */
    var lastDelivered: Option<string>
    const timer: DebounceTimer
    ghost const initialText: string
    /** Every assignment to debouncedResultText, in order. */
    ghost var published: seq<string>

    /** The sink's state after the values `fired` came out of the debounce. */
    ghost predicate Gated(fired: seq<string>)
      reads this
    {
      SinkState(fired, published, lastDelivered, debouncedResultText, initialText)
    }

    ghost predicate Valid()
      reads this, timer
    {
      && timer.Valid()
      && timer.writes != [] && resultText == timer.writes[|timer.writes| - 1].value
      && SinkState(timer.fired, published, lastDelivered, debouncedResultText, initialText)
    }

    constructor (initial: string, now: int)
      ensures Valid() && fresh(timer) && timer.clock == now
      ensures resultText == initial && debouncedResultText == initial && initialText == initial
      ensures timer.writes == [Write(now, initial)]
    {
      resultText := initial;
      debouncedResultText := initial;
      lastDelivered := None;
      initialText := initial;
      published := [];
      var t := new DebounceTimer(now);
      t.Schedule(initial);
      timer := t;
    }

    /** The sink: removeDuplicates, then the assignment. */
    method Deliver(ghost before: seq<string>, out: Option<string>)
      requires Gated(before)
      modifies this
      ensures Gated(before + if out.Some? then [out.value] else [])
      ensures resultText == old(resultText)
      ensures debouncedResultText == if out.Some? && old(lastDelivered) != out then out.value else old(debouncedResultText)
    {
      if out.Some? {
        SinkStep(before, published, lastDelivered, debouncedResultText, initialText, out.value);
        if lastDelivered != out {
          debouncedResultText := out.value;
          published := published + [out.value];
        }
        lastDelivered := out;
      } else {
        assert before + [] == before;
      }
    }

    /** The clock reaches `now`: a settled value passes through the gate. */
    method Tick(now: int)
      requires Valid() && timer.clock <= now
      modifies this, timer
      ensures Valid() && timer.clock == now && timer.writes == old(timer.writes) && resultText == old(resultText)
    {
      ghost var before := timer.fired;
      assert Gated(before);
      var out := timer.Advance(now);
      Deliver(before, out);
    }

    /**
     * A write to resultText at `now`, after anything due by then has been
     * delivered; what is shown afterwards is settled by the lemma below.
     */
    method Set(text: string, now: int)
      requires Valid() && timer.clock <= now
      modifies this, timer
      ensures Valid() && timer.clock == now && resultText == text
      ensures timer.writes == old(timer.writes) + [Write(now, text)]
    {
      Tick(now);
      resultText := text;
      timer.Schedule(text);
    }
  }

  /**
   * What the preview sees: the initial text or a value that stood for a
   * full interval, never the same value twice in a row.
   */
  lemma PipelineShowsOnlySettledText(p: ResultPipeline)
    requires p.Valid()
    ensures p.debouncedResultText == p.initialText
      || exists i :: 0 <= i < |p.timer.writes| && Settled(p.timer.writes, i, p.timer.clock) && p.timer.writes[i].value == p.debouncedResultText
    ensures forall i, j :: 0 <= i && j == i + 1 && j < |p.published| ==> p.published[i] != p.published[j]
  {
    if p.published != [] {
      FiredIffSettled(p.timer.writes, p.timer.clock, p.debouncedResultText);
    }
  }

  /** Once the newest text has stood for a full interval, the preview shows exactly that text. */
  lemma QuietShowsLatest(p: ResultPipeline)
    requires p.Valid() && p.timer.clock >= p.timer.writes[|p.timer.writes| - 1].time + Quiet
    ensures p.debouncedResultText == p.resultText
  {
  }
}
