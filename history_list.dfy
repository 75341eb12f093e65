/** The history panel's pure views (components/history-list.tsx): the category
    filter over the history, the relative time shown for each item, and the text
    shown when nothing is visible. */
module HistoryList {
  import opened Text
  import opened Lists
  import opened Json

  /** One generated prompt, as kept in the history. The prompt is the `prompt`
      member of the server's reply, None when the reply had no such member. */
  datatype HistoryItem = HistoryItem(id: string, prompt: Option<Json>, topic: string,
                                     category: string, timestamp: int)

  /** The filter choice that shows every item. */
  const AllCategories: string := "All"

  /** `item => selectedCategory === "All" || item.category === selectedCategory`. */
  function ShownUnder(selectedCategory: string): HistoryItem -> bool {
    (item: HistoryItem) => selectedCategory == AllCategories || item.category == selectedCategory
  }

  /** The items shown under the selected filter. */
  function Visible(history: seq<HistoryItem>, selectedCategory: string): seq<HistoryItem> {
    Filter(ShownUnder(selectedCategory), history)
  }

  /** Under "All" the whole history is shown, in order. */
  lemma VisibleAll(history: seq<HistoryItem>)
    ensures Visible(history, "All") == history
  {
    FilterKeepsAll(ShownUnder(AllCategories), history);
  }

  /** Under any other filter the visible items are, in their original order, every
      occurrence of every item whose category equals the filter exactly (case
      included) and nothing else, so there are never more of them than items. */
  lemma VisibleByCategory(history: seq<HistoryItem>, selectedCategory: string, item: HistoryItem)
    requires selectedCategory != "All"
    ensures IsSubsequence(Visible(history, selectedCategory), history)
    ensures |Visible(history, selectedCategory)| <= |history|
    ensures multiset(Visible(history, selectedCategory))[item]
         == if item.category == selectedCategory then multiset(history)[item] else 0
    ensures item in Visible(history, selectedCategory) <==>
            item in history && item.category == selectedCategory
  {
    FilterIsSubsequence(ShownUnder(selectedCategory), history);
    FilterCount(ShownUnder(selectedCategory), history, item);
    FilterMember(ShownUnder(selectedCategory), history, item);
  }

  /** Filtering the visible items again by the same choice changes nothing. */
  lemma VisibleIdempotent(history: seq<HistoryItem>, selectedCategory: string)
    ensures Visible(Visible(history, selectedCategory), selectedCategory) == Visible(history, selectedCategory)
  {
    FilterIdempotent(ShownUnder(selectedCategory), history);
  }

  // ---------------------------------------------------------------- relative time

  const HourMs: int := 1000 * 60 * 60

  const DayMs: int := 24 * HourMs

  /** What formatTime shows: a relative text, or the timestamp's date in the
      browser's locale (toLocaleDateString, which is not modelled further). */
  datatype TimeLabel = Relative(text: string) | LocaleDate(timestamp: int)

  /** formatTime(timestamp) read at the instant `now`, both in milliseconds; the
      source's floating-point hours are restated over integer milliseconds. */
  function FormatTime(now: int, timestamp: int): (r: TimeLabel)
    ensures now - timestamp < HourMs ==> r == Relative("Just now")
    ensures HourMs <= now - timestamp < DayMs ==>
      var h := (now - timestamp) / HourMs;
      && 1 <= h <= 23
      && h * HourMs <= now - timestamp < (h + 1) * HourMs
      && r == Relative(Decimal(h) + "h ago")
    ensures DayMs <= now - timestamp ==> r == LocaleDate(timestamp)
  {
    var elapsed := now - timestamp;
    if elapsed < HourMs then Relative("Just now")
    else if elapsed < DayMs then Relative(Decimal(elapsed / HourMs) + "h ago")
    else LocaleDate(timestamp)
  }

  /** The hour count in an "h ago" label reads back as the whole hours elapsed, so
      the label never shows a wrong hour. */
  lemma HoursReadBack(now: int, timestamp: int)
    requires HourMs <= now - timestamp < DayMs
    ensures var t := FormatTime(now, timestamp).text;
      && |t| > 5
      && t[|t| - 5..] == "h ago"
      && (forall i :: 0 <= i < |t| - 5 ==> IsDigit(t[i]))
      && DecimalValue(t[..|t| - 5]) == (now - timestamp) / HourMs
  {
    var h := (now - timestamp) / HourMs;
    var t := FormatTime(now, timestamp).text;
    assert t == Decimal(h) + "h ago";
    assert t[..|t| - 5] == Decimal(h);
    DecimalRoundTrip(h);
  }

  /** How far along a label is: "Just now", then "<h>h ago", then a date. */
  function LabelRank(shown: TimeLabel): nat {
    match shown
    case Relative(text) => if text == "Just now" then 0 else 1
    case LocaleDate(_) => 2
  }

  /** The hour count an "h ago" label shows, read back from its digits. */
  function HoursShown(shown: TimeLabel): nat {
    if shown.Relative? && |shown.text| >= 5 && (forall i :: 0 <= i < |shown.text| - 5 ==> IsDigit(shown.text[i]))
    then DecimalValue(shown.text[..|shown.text| - 5])
    else 0
  }

  /** A later reading never moves the label back: it never goes from a date to a
      relative text or from "h ago" to "Just now", and within the hour band it
      never shows fewer hours. */
  lemma FormatTimeMonotone(now1: int, now2: int, timestamp: int)
    requires now1 <= now2
    ensures LabelRank(FormatTime(now1, timestamp)) <= LabelRank(FormatTime(now2, timestamp))
    ensures LabelRank(FormatTime(now1, timestamp)) == 1 && LabelRank(FormatTime(now2, timestamp)) == 1 ==>
      HoursShown(FormatTime(now1, timestamp)) <= HoursShown(FormatTime(now2, timestamp))
  {
    LabelByBand(now1, timestamp);
    LabelByBand(now2, timestamp);
    if HourMs <= now1 - timestamp && now2 - timestamp < DayMs {
      WholeHoursMonotone(now1 - timestamp, now2 - timestamp);
    }
  }

  /** The label's rank is the band the elapsed time falls in, and in the hour band
      the label shows the whole hours elapsed. */
  lemma LabelByBand(now: int, timestamp: int)
    ensures LabelRank(FormatTime(now, timestamp)) ==
      if now - timestamp < HourMs then 0 else if now - timestamp < DayMs then 1 else 2
    ensures HourMs <= now - timestamp < DayMs ==>
      HoursShown(FormatTime(now, timestamp)) == (now - timestamp) / HourMs
  {
    if HourMs <= now - timestamp < DayMs {
      HoursReadBack(now, timestamp);
      var t := FormatTime(now, timestamp).text;
      assert IsDigit(t[0]);
    }
  }

  lemma WholeHoursMonotone(e1: int, e2: int)
    requires 0 <= e1 <= e2
    ensures e1 / HourMs <= e2 / HourMs
  {
    var h1, h2 := e1 / HourMs, e2 / HourMs;
    assert h1 * HourMs <= e1 <= e2 < (h2 + 1) * HourMs;
  }

  // ---------------------------------------------------------------- empty state

  /** The text shown when no item is visible. */
  function EmptyStateMessage(selectedCategory: string): string {
    if selectedCategory == AllCategories then "No prompts generated yet"
    else "No " + ToLower(selectedCategory) + " prompts found"
  }

  /** The empty-state text, when the visible list is empty. */
  function EmptyState(history: seq<HistoryItem>, selectedCategory: string): Option<string> {
    if |Visible(history, selectedCategory)| == 0 then Some(EmptyStateMessage(selectedCategory))
    else None
  }

  /** Under "All" the empty state shows exactly when the history is empty, with
      "No prompts generated yet"; under a category it shows exactly when no item has
      that category, naming the category in lower case. */
  lemma EmptyStateCases(history: seq<HistoryItem>, selectedCategory: string)
    ensures selectedCategory == "All" ==>
      (EmptyState(history, selectedCategory) == Some("No prompts generated yet") <==> history == [])
    ensures selectedCategory != "All" ==>
      (EmptyState(history, selectedCategory).Some? <==>
         forall i :: 0 <= i < |history| ==> history[i].category != selectedCategory)
    ensures EmptyState(history, selectedCategory).Some? && selectedCategory != "All" ==>
      EmptyState(history, selectedCategory).value == "No " + ToLower(selectedCategory) + " prompts found"
  {
    if selectedCategory == AllCategories {
      VisibleAll(history);
    } else {
      if forall i :: 0 <= i < |history| ==> history[i].category != selectedCategory {
        FilterKeepsNone(ShownUnder(selectedCategory), history);
      } else {
        var i :| 0 <= i < |history| && history[i].category == selectedCategory;
        VisibleByCategory(history, selectedCategory, history[i]);
      }
    }
  }
}
