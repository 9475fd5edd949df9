/**
 * The history window: each row's title, the record the detail pane shows
 * for the selected id, and the detail view's editor, whose text reaches
 * the preview through a 100 ms debounce and an equality gate.
 */
module History {
  import opened Wrappers
  import opened Debounce

  /** A saved recognition. The id stands for the record's UUID, the date for its timestamp. */
  datatype HistoryRecord = HistoryRecord(id: nat, date: int, text: string, confidence: real, requestId: string, imageFileName: string)

  const TitleLength: nat := 30
  const Ellipsis := "..."

  // ---------------------------------------------------------------------
  // Rows

  /**
   * The row title: the whole text when it has at most 30 characters,
   * otherwise its first 30 followed by an ellipsis.
   */
  function RowTitle(text: string): (title: string)
    ensures |text| <= TitleLength ==> title == text
    ensures |text| > TitleLength ==>
      |title| == TitleLength + |Ellipsis| && title[..TitleLength] == text[..TitleLength] && title[TitleLength..] == Ellipsis
  {
    text[..if |text| < TitleLength then |text| else TitleLength] + (if |text| > TitleLength then Ellipsis else "")
  }

  /** A title is its own title: truncating again changes nothing. */
  lemma RowTitleIdempotent(text: string)
    ensures RowTitle(RowTitle(text)) == RowTitle(text)
  {
    var t := RowTitle(text);
    if |text| > TitleLength {
      assert t == t[..TitleLength] + t[TitleLength..];
    }
  }

  // ---------------------------------------------------------------------
  // Selection

  /** The position of the first record with this id, if any. */
  function FirstIndex(records: seq<HistoryRecord>, id: nat): (i: Option<nat>)
    ensures i.Some? ==> i.value < |records| && records[i.value].id == id
    ensures i.Some? ==> forall k :: 0 <= k < i.value ==> records[k].id != id
    ensures i.None? <==> forall k :: 0 <= k < |records| ==> records[k].id != id
  {
    if records == [] then None
    else if records[0].id == id then Some(0)
    else
      var rest := FirstIndex(records[1..], id);
      if rest.None? then None else Some(rest.value + 1)
  }

  /** What the right-hand side of the window shows. */
  datatype Pane = Detail(record: HistoryRecord) | Placeholder

  /**
   * The detail pane: the first record whose id is the selected one, and
   * the placeholder when nothing is selected or no record has that id.
   */
  function DetailPane(records: seq<HistoryRecord>, selected: Option<nat>): (pane: Pane)
    ensures pane.Placeholder? <==> selected.None? || forall k :: 0 <= k < |records| ==> records[k].id != selected.value
    ensures pane.Detail? ==>
      exists i :: 0 <= i < |records| && records[i] == pane.record && records[i].id == selected.value
        && forall k :: 0 <= k < i ==> records[k].id != selected.value
  {
    if selected.None? then Placeholder
    else
      var i := FirstIndex(records, selected.value);
      if i.None? then Placeholder else Detail(records[i.value])
  }

  /** Among records sharing an id, the pane shows the earliest; it depends on nothing after it. */
  lemma {:induction false} DetailPaneIgnoresLaterRecords(records: seq<HistoryRecord>, more: seq<HistoryRecord>, id: nat)
    requires exists k :: 0 <= k < |records| && records[k].id == id
    ensures DetailPane(records + more, Some(id)) == DetailPane(records, Some(id))
  {
    var i := FirstIndex(records, id);
    var j := FirstIndex(records + more, id);
    assert i.Some?;
    assert (records + more)[i.value] == records[i.value];
    assert j.Some? && j.value <= i.value;
    assert records[j.value] == (records + more)[j.value];
  }

  // ---------------------------------------------------------------------
  // The detail view

  class HistoryDetailView {
    /** The record the view was last given. */
    var record: HistoryRecord
    /** The editor's text. */
    var text: string
    /** The text the preview renders. */
    var debouncedText: string
    /** The image file that loadImage found, if it found one. */
    var image: Option<string>
    /** Every assignment to debouncedText after creation, in order: each one redraws the preview. */
    var renders: seq<string>
    const timer: DebounceTimer

    ghost predicate Valid()
      reads this, timer
    {
      timer.Valid()
    }

    /** A new view starts with editor and preview both holding the record's text. */
    constructor (r: HistoryRecord, now: int)
      ensures Valid() && fresh(timer) && timer.clock == now && timer.pending == None
      ensures record == r && text == r.text && debouncedText == r.text
      ensures image == None && renders == []
    {
      record := r;
      text := r.text;
      debouncedText := r.text;
      image := None;
      renders := [];
      timer := new DebounceTimer(now);
    }

    /** loadImage: the record's image when its file could be read, nothing otherwise. */
    method LoadImage(readable: bool)
      modifies this
      ensures image == (if readable then Some(record.imageFileName) else None)
      ensures record == old(record) && text == old(text) && debouncedText == old(debouncedText) && renders == old(renders)
    {
      if readable {
        image := Some(record.imageFileName);
      } else {
        image := None;
      }
    }

    /**
     * The view is handed `r`. Only when the editor's text differs from the
     * record's are editor and preview reset to it and the image reloaded;
     * the new text then enters the debounce.
     */
    method Receive(r: HistoryRecord, readable: bool)
      requires Valid()
      modifies this, timer
      ensures Valid() && record == r && timer.clock == old(timer.clock)
      ensures old(text) == r.text ==>
        && text == old(text) && debouncedText == old(debouncedText) && image == old(image) && renders == old(renders)
        && timer.writes == old(timer.writes)
      ensures old(text) != r.text ==>
        && text == r.text && debouncedText == r.text && renders == old(renders) + [r.text]
        && image == (if readable then Some(r.imageFileName) else None)
        && timer.writes == old(timer.writes) + [Write(timer.clock, r.text)]
    {
      record := r;
      if text != r.text {
        text := r.text;
        debouncedText := r.text;
        renders := renders + [r.text];
        LoadImage(readable);
        timer.Schedule(text);
      }
    }

    /** The clock reaches `now`; a text that has settled reaches the preview only if it differs from what it shows. */
    method Tick(now: int)
      requires Valid() && timer.clock <= now
      modifies this, timer
      ensures Valid() && timer.clock == now && timer.writes == old(timer.writes)
      ensures record == old(record) && text == old(text) && image == old(image)
      ensures var due := old(timer.pending).Some? && old(timer.pending).value.time + Quiet <= now;
        && (due ==> debouncedText == old(timer.pending).value.value)
        && (!due ==> debouncedText == old(debouncedText))
        && renders == old(renders) + (if due && old(timer.pending).value.value != old(debouncedText) then [debouncedText] else [])
    {
      var out := timer.Advance(now);
      if out.Some? && debouncedText != out.value {
        debouncedText := out.value;
        renders := renders + [out.value];
      }
    }

    /** The user types: the new text is sent to the debounce at `now`. */
    method Edit(newText: string, now: int)
      requires Valid() && timer.clock <= now
      modifies this, timer
      ensures Valid() && timer.clock == now && text == newText
      ensures timer.pending == Some(Write(now, newText)) && timer.writes == old(timer.writes) + [Write(now, newText)]
      ensures record == old(record) && image == old(image)
      ensures var due := old(timer.pending).Some? && old(timer.pending).value.time + Quiet <= now;
        && (due ==> debouncedText == old(timer.pending).value.value)
        && (!due ==> debouncedText == old(debouncedText))
        && renders == old(renders) + (if due && old(timer.pending).value.value != old(debouncedText) then [debouncedText] else [])
    {
      Tick(now);
      text := newText;
      timer.Schedule(newText);
    }
  }

  /**
   * Typing "a" then "ab" 50 ms apart: nothing reaches the preview until
   * 100 ms after the last keystroke, and then only "ab".
   */
  method EditingSession(r: HistoryRecord)
    requires r.text != "ab"
  {
    var v := new HistoryDetailView(r, 0);
    v.Edit("a", 10);
    v.Edit("ab", 60);
    v.Tick(159);
    assert v.debouncedText == r.text && v.renders == [];
    v.Tick(160);
    assert v.debouncedText == "ab" && v.renders == ["ab"];
    v.Receive(r, false);
    assert v.text == r.text && v.debouncedText == r.text && v.image == None;
  }
}
