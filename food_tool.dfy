/** The food tool: looks the foods a user ate up in the food database, and
    appends them as rows of a nutrition table to the day's log in the
    Obsidian vault. */
module FoodTool {
  import opened Wrappers
  import opened Text
  import opened MarkdownParser
  import opened Workspace

  /** The nutrition of one logged food: whole kilocalories and the three
      macronutrients, which are numbers the model keeps as their literals. */
  datatype Nutrition = Nutrition(kcal: int, protein: string, carbs: string, fat: string)

  /** One food as the tool reports it and as it is logged: the name as the
      user wrote it, its nutrition (`None` when it still has to be
      estimated), and where the numbers come from. */
  datatype Entry = Entry(name: string, nutrition: Option<Nutrition>, source: string)

  /** The reply of `lookup_and_log`. */
  datatype LookupResult = LookupResult(items: seq<Entry>, mealType: string)

  const FromDatabase: string := "Database"
  const NeedsEstimation: string := "needs_estimation"

  /** The error Python raises on subscripting a missing nutrition. */
  const NotSubscriptable: string := "'NoneType' object is not subscriptable"

  function NutritionOf(food: FoodItem): Nutrition {
    Nutrition(food.kcal, food.protein, food.carbs, food.fat)
  }

  // ---------------------------------------------------------------------------
  // The daily log's text
  // ---------------------------------------------------------------------------

  /** The log of a day is the file `<YYYY-MM-DD>.md` in the daily-log folder. */
  function LogFile(today: string): string {
    today + ".md"
  }

  /** What a new day's log starts with. */
  function NewLog(today: string): (r: string)
    ensures StartsWith(r, "# Daily Log - ") && r[|r| - 1] == '\n'
  {
    "# Daily Log - " + today + "\n\n"
  }

  /** The heading that tells whether the table is already there. */
  const Marker: string := "## Dziennik Żywieniowy"
  const TimeTitle: string := "Godzina"
  /** The column titles: time, meal, kilocalories, protein, carbohydrates,
      fat and source. */
  const ColumnNames: seq<string> := [TimeTitle, "Posiłek", "Kcal", "B", "W", "T", "Źródło"]
  /** `| Godzina | Posiłek | Kcal | B | W | T | Źródło |` */
  const ColumnTitles: string := TableRow(ColumnNames)
  /** The dashes of each column between bars. */
  const Rules: seq<string> := ["---------", "---------", "------", "---", "---", "---", "--------"]
  /** `|---------|---------|------|---|---|---|--------|` */
  const Separator: string := JoinWith([""] + Rules + [""], '|')

  /** The heading, a blank line, the column titles and the separator. */
  function TableHead(): (r: string)
    ensures StartsWith(r, Marker) && r[|r| - 1] == '\n'
  {
    Marker + "\n\n" + ColumnTitles + "\n" + Separator + "\n"
  }

  /** One row of the table without its line break:
      `| HH:MM | name | kcal | protein | carbs | fat | source |`, where
      `whole` renders a macronutrient with no decimals (`:.0f`). */
  function RowLine(time: string, name: string, n: Nutrition, source: string, whole: string -> string): string {
    TableRow(RowValues(time, name, n, source, whole))
  }

  /** The row's seven values, in column order. */
  function RowValues(time: string, name: string, n: Nutrition, source: string, whole: string -> string): (r: seq<string>)
    ensures |r| == 7
  {
    [time, name, IntToString(n.kcal), whole(n.protein), whole(n.carbs), whole(n.fat), source]
  }

  predicate HasNutrition(entries: seq<Entry>) {
    forall k :: 0 <= k < |entries| ==> entries[k].nutrition.Some?
  }

  /** The row of one entry that has its nutrition. */
  function Row(time: string, e: Entry, whole: string -> string): string
    requires e.nutrition.Some?
  {
    RowLine(time, e.name, e.nutrition.value, e.source, whole) + "\n"
  }

  /** The rows of the entries, in order. */
  function Rows(time: string, entries: seq<Entry>, whole: string -> string): string
    requires HasNutrition(entries)
  {
    if entries == [] then []
    else Rows(time, entries[..|entries| - 1], whole) + Row(time, entries[|entries| - 1], whole)
  }

  /** How many entries, from the front, have their nutrition: the rows
      written before a missing one stops the loop. */
  function Writable(entries: seq<Entry>): (n: nat)
    ensures n <= |entries|
    ensures HasNutrition(entries[..n])
    ensures n < |entries| ==> entries[n].nutrition.None?
  {
    if entries == [] || entries[0].nutrition.None? then 0
    else
      var n := 1 + Writable(entries[1..]);
      assert forall k :: 1 <= k < n ==> entries[..n][k] == entries[1..][..n - 1][k - 1];
      n
  }

  /** The log after `log_to_daily` when it held `before`: the table head
      when the heading is not yet there, then the rows written before the
      first entry without nutrition. The old text is never changed, and
      afterwards the heading is always there. */
  function Logged(before: string, entries: seq<Entry>, time: string, whole: string -> string): (r: string)
    ensures StartsWith(r, before)
    ensures Contains(r, Marker)
    ensures Contains(before, Marker) ==> r == before + Rows(time, entries[..Writable(entries)], whole)
    ensures !Contains(before, Marker) ==> r == before + TableHead() + Rows(time, entries[..Writable(entries)], whole)
  {
    var rows := Rows(time, entries[..Writable(entries)], whole);
    var head := WithHead(before);
    ContainsAppend(head, Marker, rows);
    assert (head + rows)[..|before|] == before;
    head + rows
  }

  /** The log with the table head: unchanged when the heading is there,
      the head appended otherwise. */
  function WithHead(before: string): (r: string)
    ensures StartsWith(r, before) && Contains(r, Marker)
  {
    if Contains(before, Marker) then before
    else
      var r := before + TableHead();
      assert r[|before|..|before| + |Marker|] == Marker;
      ContainsAt(r, Marker, |before|);
      assert r[..|before|] == before;
      r
  }

  /** The log's text before the call: the file, or the day's fresh log when
      there is none yet. */
  function Existing(files: map<string, string>, today: string): string {
    if LogFile(today) in files then files[LogFile(today)] else NewLog(today)
  }

  // ---------------------------------------------------------------------------
  // The tool
  // ---------------------------------------------------------------------------

  class FoodTool {
    const foodDb: FoodDatabaseParser
    /** The vault's `Daily_Logs` folder. */
    const dailyLogs: Directory
    /** `f"{x:.0f}"` of a macronutrient. */
    const whole: string -> string

    constructor (foodDb: FoodDatabaseParser, dailyLogs: Directory, whole: string -> string)
      ensures this.foodDb == foodDb && this.dailyLogs == dailyLogs && this.whole == whole
    {
      this.foodDb := foodDb;
      this.dailyLogs := dailyLogs;
      this.whole := whole;
    }

    /** `lookup_and_log`: one entry per name, in order. A food found in the
        database (case-insensitively) comes with its nutrition and source
        "Database"; any other needs an estimate. The meal type is handed
        back as given. */
    method LookupAndLog(foodItems: seq<string>, mealType: string) returns (r: LookupResult)
      ensures r.mealType == mealType && |r.items| == |foodItems|
      ensures forall i :: 0 <= i < |foodItems| ==> r.items[i].name == foodItems[i]
      ensures forall i :: 0 <= i < |foodItems| ==>
        (r.items[i].nutrition.Some? <==> foodDb.Lookup(foodItems[i]).Some?)
      ensures forall i :: 0 <= i < |foodItems| && foodDb.Lookup(foodItems[i]).Some? ==>
        r.items[i].nutrition.value == NutritionOf(foodDb.Lookup(foodItems[i]).value)
        && r.items[i].source == FromDatabase
      ensures forall i :: 0 <= i < |foodItems| && foodDb.Lookup(foodItems[i]).None? ==>
        r.items[i].source == NeedsEstimation
    {
      var results: seq<Entry> := [];
      for i := 0 to |foodItems|
        invariant |results| == i
        invariant forall k :: 0 <= k < i ==> results[k].name == foodItems[k]
        invariant forall k :: 0 <= k < i ==>
          (results[k].nutrition.Some? <==> foodDb.Lookup(foodItems[k]).Some?)
        invariant forall k :: 0 <= k < i && foodDb.Lookup(foodItems[k]).Some? ==>
          results[k].nutrition.value == NutritionOf(foodDb.Lookup(foodItems[k]).value)
          && results[k].source == FromDatabase
        invariant forall k :: 0 <= k < i && foodDb.Lookup(foodItems[k]).None? ==>
          results[k].source == NeedsEstimation
      {
        var food := foodDb.Lookup(foodItems[i]);
        if food.Some? {
          results := results + [Entry(foodItems[i], Some(NutritionOf(food.value)), FromDatabase)];
        } else {
          results := results + [Entry(foodItems[i], None, NeedsEstimation)];
        }
      }
      return LookupResult(results, mealType);
    }

    /** `log_to_daily` on the day `today` at the time `now` (`HH:MM`). The
        day's log is created when missing, the table head is added when its
        heading is missing, and then one row per entry is appended. An
        entry without nutrition raises, leaving the rows before it written.
        The meal type is not used. */
    method LogToDaily(items: seq<Entry>, mealType: string, today: string, now: string)
      returns (r: Result<(), string>)
      modifies dailyLogs
      ensures dailyLogs.files == old(dailyLogs.files)[LogFile(today) :=
        Logged(Existing(old(dailyLogs.files), today), items, now, whole)]
      ensures r.Ok? <==> Writable(items) == |items|
      ensures r.Err? ==> r.error == NotSubscriptable
    {
      var head := OpenLog(today);
      r := AppendRows(LogFile(today), head, items, now);
    }

    /** Creates the day's log when it is missing and adds the table head
        when its heading is missing; gives the log's text afterwards. */
    method OpenLog(today: string) returns (head: string)
      modifies dailyLogs
      ensures head == WithHead(Existing(old(dailyLogs.files), today))
      ensures dailyLogs.files == old(dailyLogs.files)[LogFile(today) := head]
    {
      var name := LogFile(today);
      if name !in dailyLogs.files {
        dailyLogs.Write(name, NewLog(today));
      }
      var content := dailyLogs.files[name];
      if !Contains(content, Marker) {
        dailyLogs.Write(name, content + TableHead());
      }
      head := dailyLogs.files[name];
    }

    /** Appends one row per entry to the log `name`, which holds `head`;
        stops with an error at the first entry without nutrition. */
    method AppendRows(name: string, head: string, items: seq<Entry>, now: string)
      returns (r: Result<(), string>)
      requires name in dailyLogs.files && dailyLogs.files[name] == head
      modifies dailyLogs
      ensures dailyLogs.files == old(dailyLogs.files)[name := head + Rows(now, items[..Writable(items)], whole)]
      ensures r.Ok? <==> Writable(items) == |items|
      ensures r.Err? ==> r.error == NotSubscriptable
    {
      RowsSnoc(now, items, 0, whole);
      ghost var written: string := [];
      assert head + written == head;
      assert dailyLogs.files == old(dailyLogs.files)[name := head];
      var i := 0;
      while i < |items|
        invariant i <= Writable(items)
        invariant written == Rows(now, items[..i], whole)
        invariant dailyLogs.files == old(dailyLogs.files)[name := head + written]
      {
        var item := items[i];
        if item.nutrition.None? {
          WritableStops(items, i);
          return Err(NotSubscriptable);
        }
        var row := Row(now, item, whole);
        NextRow(now, items, i, whole, written);
        dailyLogs.Write(name, dailyLogs.files[name] + row);
        AppendAssociates(head, written, row);
        written := written + row;
        i := i + 1;
      }
      assert items[..i] == items[..Writable(items)];
      return Ok(());
    }
  }

  /** The rows of the first `n` entries, one more entry at a time. */
  lemma RowsSnoc(time: string, entries: seq<Entry>, n: nat, whole: string -> string)
    requires n <= Writable(entries)
    ensures HasNutrition(entries[..n])
    ensures n == 0 ==> Rows(time, entries[..n], whole) == []
    ensures n > 0 ==> Rows(time, entries[..n], whole) == Rows(time, entries[..n - 1], whole) + Row(time, entries[n - 1], whole)
  {
    var w := Writable(entries);
    assert entries[..n] == entries[..w][..n];
    if n > 0 {
      assert entries[..n][..n - 1] == entries[..n - 1];
    }
  }

  /** One more row written. */
  lemma NextRow(time: string, entries: seq<Entry>, i: nat, whole: string -> string, written: string)
    requires i <= Writable(entries) && i < |entries| && entries[i].nutrition.Some?
    requires written == Rows(time, entries[..i], whole)
    ensures i + 1 <= Writable(entries)
    ensures written + Row(time, entries[i], whole) == Rows(time, entries[..i + 1], whole)
  {
    WritableGoesOn(entries, i);
    RowsSnoc(time, entries, i + 1, whole);
  }

  lemma WritableStops(entries: seq<Entry>, i: nat)
    requires i <= Writable(entries) && i < |entries| && entries[i].nutrition.None?
    ensures i == Writable(entries) < |entries|
  {
    var w := Writable(entries);
    forall k | 0 <= k < w
      ensures entries[k].nutrition.Some?
    {
      assert entries[..w][k] == entries[k];
    }
  }

  lemma WritableGoesOn(entries: seq<Entry>, i: nat)
    requires i <= Writable(entries) && i < |entries| && entries[i].nutrition.Some?
    ensures i < Writable(entries)
  {
  }

  // ---------------------------------------------------------------------------
  // Properties of the log
  // ---------------------------------------------------------------------------

  /** The table head is added at most once: a second call on the same log
      appends only its rows. */
  lemma SecondLogAddsOnlyRows(before: string, first: seq<Entry>, second: seq<Entry>, t1: string, t2: string, whole: string -> string)
    ensures var once := Logged(before, first, t1, whole);
      Logged(once, second, t2, whole) == once + Rows(t2, second[..Writable(second)], whole)
  {
  }

  /** The rows' lines, one per entry and in the entries' order. */
  function RowLines(time: string, entries: seq<Entry>, whole: string -> string): (r: seq<string>)
    requires HasNutrition(entries)
    ensures |r| == |entries|
  {
    if entries == [] then []
    else
      var last := entries[|entries| - 1];
      RowLines(time, entries[..|entries| - 1], whole) + [RowLine(time, last.name, last.nutrition.value, last.source, whole)]
  }

  /** The appended rows are the row lines, each ended by a line break. */
  lemma {:induction false} RowsAreLines(time: string, entries: seq<Entry>, whole: string -> string)
    requires HasNutrition(entries)
    ensures Rows(time, entries, whole) == Terminated(RowLines(time, entries, whole))
    decreases |entries|
  {
    if entries != [] {
      var init := entries[..|entries| - 1];
      var ls := RowLines(time, entries, whole);
      RowsAreLines(time, init, whole);
      assert ls[..|ls| - 1] == RowLines(time, init, whole);
    }
  }

  /** Read back line by line, the appended rows are exactly one line per
      entry, in order (then the empty piece after the last line break), as
      long as no row holds a line break of its own. */
  lemma RowsReadBack(time: string, entries: seq<Entry>, whole: string -> string)
    requires HasNutrition(entries)
    requires forall k :: 0 <= k < |entries| ==>
      '\n' !in RowLine(time, entries[k].name, entries[k].nutrition.value, entries[k].source, whole)
    ensures Split(Rows(time, entries, whole), '\n') == RowLines(time, entries, whole) + [""]
  {
    RowsAreLines(time, entries, whole);
    var ls := RowLines(time, entries, whole);
    forall k | 0 <= k < |ls|
      ensures '\n' !in ls[k]
    {
      RowLinesAt(time, entries, whole, k);
    }
    SplitTerminated(ls);
  }

  lemma {:induction false} RowLinesAt(time: string, entries: seq<Entry>, whole: string -> string, k: nat)
    requires HasNutrition(entries) && k < |entries|
    ensures RowLines(time, entries, whole)[k]
      == RowLine(time, entries[k].name, entries[k].nutrition.value, entries[k].source, whole)
    decreases |entries|
  {
    var init := entries[..|entries| - 1];
    if k < |init| {
      RowLinesAt(time, init, whole, k);
      assert init[k] == entries[k];
    }
  }
}
