/** The two HTTP endpoints with logic of their own: the day's nutrition
    totals read back from the daily log, and the chat endpoint that folds
    the assistant's reply stream into one answer. */
module Api {
  import opened Wrappers
  import opened Text
  import opened MarkdownParser
  import opened FoodTool

  // ---------------------------------------------------------------------------
  // Nutrition totals
  // ---------------------------------------------------------------------------

  /** What one accepted row adds: its kilocalories and the literals of its
      three macronutrients (their float sum is not modelled). */
  datatype Meal = Meal(kcal: int, protein: string, carbs: string, fat: string)

  /** The running totals: kilocalories, the macronutrient literals added up
      so far, in order, and the number of meals. */
  datatype Totals = Totals(kcal: int, protein: seq<string>, carbs: seq<string>, fat: seq<string>, meals: nat)

  const NoMeals: Totals := Totals(0, [], [], [], 0)

  function Plus(t: Totals, u: Totals): Totals {
    Totals(t.kcal + u.kcal, t.protein + u.protein, t.carbs + u.carbs, t.fat + u.fat, t.meals + u.meals)
  }

  function Counted(t: Totals, m: Meal): Totals {
    Totals(t.kcal + m.kcal, t.protein + [m.protein], t.carbs + [m.carbs], t.fat + [m.fat], t.meals + 1)
  }

  /** Seven cells, and neither the column-title row nor the separator. */
  predicate IsMealRow(cells: seq<string>) {
    |cells| == 7 && cells[0] != TimeTitle && !StartsWith(cells[0], "-")
  }

  /** The meal a row records, or `None` when its calorie cell is no integer
      or one of its macronutrient cells is no float literal: every cell is
      parsed before anything is added, so such a row adds nothing at all. */
  function RowMeal(cells: seq<string>): (r: Option<Meal>)
    requires |cells| == 7
    ensures r.Some? <==> ParseInt(cells[2]).Some? && IsFloatText(cells[3]) && IsFloatText(cells[4]) && IsFloatText(cells[5])
    ensures r.Some? ==> r.value == Meal(ParseInt(cells[2]).value, cells[3], cells[4], cells[5])
  {
    match ParseInt(cells[2])
    case None => None
    case Some(kcal) =>
      if IsFloatText(cells[3]) && IsFloatText(cells[4]) && IsFloatText(cells[5]) then
        Some(Meal(kcal, cells[3], cells[4], cells[5]))
      else None
  }

  /** What one line of the log adds. */
  function LineMeal(line: string): Option<Meal> {
    if IsTableLine(line) && IsMealRow(Cells(line)) then RowMeal(Cells(line)) else None
  }

  /** What each line adds, in order. */
  function Meals(lines: seq<string>): (r: seq<Option<Meal>>)
    ensures |r| == |lines|
    ensures forall i :: 0 <= i < |lines| ==> r[i] == LineMeal(lines[i])
  {
    seq(|lines|, i requires 0 <= i < |lines| => LineMeal(lines[i]))
  }

  lemma MealsAppend(a: seq<string>, b: seq<string>)
    ensures Meals(a + b) == Meals(a) + Meals(b)
  {
    assert forall k :: 0 <= k < |a| ==> (a + b)[k] == a[k];
    assert forall k :: 0 <= k < |b| ==> (a + b)[|a| + k] == b[k];
  }

  /** The totals of what the lines add, in order. */
  function Total(meals: seq<Option<Meal>>): Totals {
    if meals == [] then NoMeals
    else
      var t := Total(meals[..|meals| - 1]);
      match meals[|meals| - 1]
      case None => t
      case Some(m) => Counted(t, m)
  }

  /** The totals of the lines of a log. */
  function Tally(lines: seq<string>): Totals {
    Total(Meals(lines))
  }

  /** The totals of two runs of lines are the totals of each, added. */
  lemma {:induction false} TotalAppend(a: seq<Option<Meal>>, b: seq<Option<Meal>>)
    ensures Total(a + b) == Plus(Total(a), Total(b))
    decreases |b|
  {
    if b == [] {
      assert a + b == a;
    } else {
      var x := a + b;
      var init := b[..|b| - 1];
      var last := b[|b| - 1];
      assert x[..|x| - 1] == a + init;
      assert x[|x| - 1] == last;
      TotalAppend(a, init);
      var ta, ti := Total(a), Total(init);
      if last.Some? {
        PlusCounted(ta, ti, last.value);
        assert Total(x) == Counted(Plus(ta, ti), last.value);
        assert Total(b) == Counted(ti, last.value);
      } else {
        assert Total(x) == Plus(ta, ti);
        assert Total(b) == ti;
      }
    }
  }

  lemma PlusCounted(t: Totals, u: Totals, m: Meal)
    ensures Plus(t, Counted(u, m)) == Counted(Plus(t, u), m)
  {
    assert t.protein + (u.protein + [m.protein]) == t.protein + u.protein + [m.protein];
    assert t.carbs + (u.carbs + [m.carbs]) == t.carbs + u.carbs + [m.carbs];
    assert t.fat + (u.fat + [m.fat]) == t.fat + u.fat + [m.fat];
  }

  lemma TallyAppend(a: seq<string>, b: seq<string>)
    ensures Tally(a + b) == Plus(Tally(a), Tally(b))
  {
    MealsAppend(a, b);
    TotalAppend(Meals(a), Meals(b));
  }

  /** The body of the loop over the log's lines, up to the additions: a
      line with a bar that is no heading, split into its non-empty stripped
      cells, seven of them and no title or separator row, all parsed. */
  method ReadRow(line: string) returns (meal: Option<Meal>)
    ensures meal == LineMeal(line)
  {
    meal := None;
    if '|' in line && !StartsWith(Strip(line), "#") {
      var parts := Cells(line);
      if |parts| == 7 && parts[0] != TimeTitle && !StartsWith(parts[0], "-") {
        meal := RowMeal(parts);
      }
    }
  }

  /** One more line's meal, counted when there is one. */
  lemma TotalNext(meals: seq<Option<Meal>>, i: nat)
    requires i < |meals|
    ensures meals[i].None? ==> Total(meals[..i + 1]) == Total(meals[..i])
    ensures meals[i].Some? ==> Total(meals[..i + 1]) == Counted(Total(meals[..i]), meals[i].value)
  {
    assert meals[..i + 1][..i] == meals[..i];
  }

  /** The status of the day `today`. */
  datatype NutritionStatus = NutritionStatus(date: string, totals: Totals)

  /** `nutrition_status`, given the day's log (`None` when there is no log
      yet): all zeros without a log, the totals of its lines otherwise. */
  method NutritionStatusOf(log: Option<string>, today: string) returns (s: NutritionStatus)
    ensures s.date == today
    ensures log.None? ==> s.totals == NoMeals
    ensures log.Some? ==> s.totals == Tally(Split(log.value, '\n'))
  {
    if log.None? {
      return NutritionStatus(today, NoMeals);
    }
    var lines := Split(log.value, '\n');
    ghost var meals := Meals(lines);
    var totalKcal := 0;
    var protein: seq<string> := [];
    var carbs: seq<string> := [];
    var fat: seq<string> := [];
    var mealCount := 0;
    var i := 0;
    while i < |lines|
      invariant 0 <= i <= |lines|
      invariant Totals(totalKcal, protein, carbs, fat, mealCount) == Total(meals[..i])
    {
      TotalNext(meals, i);
      var meal := ReadRow(lines[i]);
      if meal.Some? {
        totalKcal := totalKcal + meal.value.kcal;
        protein := protein + [meal.value.protein];
        carbs := carbs + [meal.value.carbs];
        fat := fat + [meal.value.fat];
        mealCount := mealCount + 1;
      }
      i := i + 1;
    }
    assert meals[..i] == meals;
    return NutritionStatus(today, Totals(totalKcal, protein, carbs, fat, mealCount));
  }

  // ---------------------------------------------------------------------------
  // The rows the food tool writes are the rows the totals count
  // ---------------------------------------------------------------------------

  /** `HH:MM`. */
  predicate IsClockTime(t: string) {
    |t| == 5 && IsDigit(t[0]) && IsDigit(t[1]) && t[2] == ':' && IsDigit(t[3]) && IsDigit(t[4])
  }

  /** A cell text the table can carry: no `|`, no line break, and something
      left after stripping. */
  predicate IsCellText(s: string) {
    '|' !in s && '\n' !in s && Strip(s) != []
  }

  /** An entry the food tool writes at `time` as a row the totals read
      back: it has its nutrition, its name, rendered macronutrients and
      source (the values after the time and the kilocalories) are cell
      texts, and the macronutrients are float literals. */
  predicate Loggable(time: string, e: Entry, whole: string -> string) {
    && IsClockTime(time)
    && e.nutrition.Some?
    && var v := RowValues(time, e.name, e.nutrition.value, e.source, whole);
    && (forall k :: 0 <= k < 7 && k != 0 && k != 2 ==> IsCellText(v[k]))
    && IsFloatText(Strip(v[3])) && IsFloatText(Strip(v[4])) && IsFloatText(Strip(v[5]))
  }

  /** The meal a logged entry's row reads back as. */
  function MealOf(e: Entry, whole: string -> string): Meal
    requires e.nutrition.Some?
  {
    var n := e.nutrition.value;
    Meal(n.kcal, Strip(whole(n.protein)), Strip(whole(n.carbs)), Strip(whole(n.fat)))
  }

  /** The totals of the entries themselves, in order. */
  function EntriesTotal(entries: seq<Entry>, whole: string -> string): Totals
    requires HasNutrition(entries)
  {
    if entries == [] then NoMeals
    else Counted(EntriesTotal(entries[..|entries| - 1], whole), MealOf(entries[|entries| - 1], whole))
  }

  /** A row written by the food tool is counted with the entry's own
      kilocalories and macronutrients. */
  lemma RowReadBack(time: string, e: Entry, whole: string -> string)
    requires Loggable(time, e, whole)
    ensures LineMeal(RowLine(time, e.name, e.nutrition.value, e.source, whole)) == Some(MealOf(e, whole))
    ensures '\n' !in RowLine(time, e.name, e.nutrition.value, e.source, whole)
  {
    var n := e.nutrition.value;
    var v := RowValues(time, e.name, n, e.source, whole);
    var line := TableRow(v);
    TimeCell(time);
    KcalCell(n.kcal);
    forall k | 0 <= k < |v|
      ensures '|' !in v[k] && '\n' !in v[k] && Strip(v[k]) != []
    {
      if k == 0 {
        assert v[k] == time;
      } else if k == 2 {
        assert v[k] == IntToString(n.kcal);
      } else {
        assert IsCellText(v[k]);
      }
    }
    TableRowCells(v);
    TableRowWithout(v, '\n');
    TableRowBarred(v);
    BarredIsTableLine(line);
    var cells := Cells(line);
    assert cells[0] == time;
    assert cells[2] == IntToString(n.kcal);
  }

  lemma TimeCell(time: string)
    requires IsClockTime(time)
    ensures '|' !in time && '\n' !in time && Strip(time) == time && time != TimeTitle && !StartsWith(time, "-")
  {
    StripNoop(time);
  }

  lemma KcalCell(kcal: int)
    ensures var k := IntToString(kcal); '|' !in k && '\n' !in k && Strip(k) == k && k != [] && ParseInt(k) == Some(kcal)
  {
    var k := IntToString(kcal);
    DecimalChars(kcal);
    StripNoop(k);
    IntToStringRoundTrip(kcal);
  }

  /** The row lines of loggable entries add up to the entries' own totals. */
  lemma {:induction false} RowLinesTally(time: string, entries: seq<Entry>, whole: string -> string)
    requires HasNutrition(entries)
    requires forall k :: 0 <= k < |entries| ==> Loggable(time, entries[k], whole)
    ensures Tally(RowLines(time, entries, whole)) == EntriesTotal(entries, whole)
    decreases |entries|
  {
    if entries != [] {
      var init := entries[..|entries| - 1];
      var last := entries[|entries| - 1];
      assert forall k :: 0 <= k < |init| ==> init[k] == entries[k];
      RowLinesTally(time, init, whole);
      var line := RowLine(time, last.name, last.nutrition.value, last.source, whole);
      var m := MealOf(last, whole);
      var t := EntriesTotal(init, whole);
      assert RowLines(time, entries, whole) == RowLines(time, init, whole) + [line];
      assert EntriesTotal(entries, whole) == Counted(t, m);
      TallyAppend(RowLines(time, init, whole), [line]);
      RowReadBack(time, last, whole);
      TallyOfOne(line, m);
      PlusCounted(t, NoMeals, m);
      PlusNothing(t);
    }
  }

  lemma TallyOfOne(line: string, m: Meal)
    requires LineMeal(line) == Some(m)
    ensures Tally([line]) == Counted(NoMeals, m)
  {
    assert Meals([line]) == [LineMeal(line)];
    TotalOfOne(m);
  }

  lemma TotalOfOne(m: Meal)
    ensures Total([Some(m)]) == Counted(NoMeals, m)
  {
    assert [Some(m)][..0] == [];
  }

  lemma PlusNothing(t: Totals)
    ensures Plus(t, NoMeals) == t && Plus(NoMeals, t) == t
  {
    assert t.protein + [] == t.protein && t.carbs + [] == t.carbs && t.fat + [] == t.fat;
  }

  /** The empty piece after a final line break adds nothing. */
  lemma TallyDropsEmptyLast(lines: seq<string>)
    ensures Tally(lines + [""]) == Tally(lines)
  {
    TallyAppend(lines, [""]);
    assert Meals([""]) == [None];
    PlusNothing(Tally(lines));
  }

  /** After `log_to_daily`, the day's totals are the totals before it plus
      the kilocalories and macronutrients of exactly the entries it wrote,
      in order: the table head adds nothing and every written row is read
      back as its entry (for a log that ends with a line break, as a new
      day's log does, and entries whose values fit in a cell). */
  lemma TallyAfterLog(before: string, entries: seq<Entry>, time: string, whole: string -> string)
    requires before != [] && before[|before| - 1] == '\n'
    requires forall k :: 0 <= k < Writable(entries) ==> Loggable(time, entries[k], whole)
    ensures Tally(Split(Logged(before, entries, time, whole), '\n'))
      == Plus(Tally(Split(before, '\n')), EntriesTotal(entries[..Writable(entries)], whole))
  {
    var written := entries[..Writable(entries)];
    assert forall k :: 0 <= k < |written| ==> written[k] == entries[k];
    var rows := Rows(time, written, whole);
    RowsTally(time, written, whole);
    var appended := rows;
    if !Contains(before, Marker) {
      appended := TableHead() + rows;
      AppendAssociates(before, TableHead(), rows);
    }
    AppendedTally(rows, appended, EntriesTotal(written, whole));
    TallyAfterText(before, appended, EntriesTotal(written, whole));
  }

  /** What is appended, rows with or without the table head before them,
      adds the rows' totals. */
  lemma AppendedTally(rows: string, appended: string, total: Totals)
    requires appended == rows || appended == TableHead() + rows
    requires Tally(Split(rows, '\n')) == total
    ensures Tally(Split(appended, '\n')) == total
  {
    if appended != rows {
      HeadThenRows(rows, total);
    }
  }

  /** Text appended after a final line break adds its own totals. */
  lemma TallyAfterText(before: string, more: string, total: Totals)
    requires before != [] && before[|before| - 1] == '\n'
    requires Tally(Split(more, '\n')) == total
    ensures Tally(Split(before + more, '\n')) == Plus(Tally(Split(before, '\n')), total)
  {
    SplitAfterTerminator(before, [], '\n');
    assert before + [] == before;
    var front := Split(before, '\n')[..|Split(before, '\n')| - 1];
    TallyDropsEmptyLast(front);
    SplitAfterTerminator(before, more, '\n');
    TallyAppend(front, Split(more, '\n'));
  }

  /** The rows of loggable entries, read back, add up to the entries' totals. */
  lemma RowsTally(time: string, entries: seq<Entry>, whole: string -> string)
    requires HasNutrition(entries)
    requires forall k :: 0 <= k < |entries| ==> Loggable(time, entries[k], whole)
    ensures Tally(Split(Rows(time, entries, whole), '\n')) == EntriesTotal(entries, whole)
  {
    forall k | 0 <= k < |entries|
      ensures '\n' !in RowLine(time, entries[k].name, entries[k].nutrition.value, entries[k].source, whole)
    {
      RowReadBack(time, entries[k], whole);
    }
    RowsReadBack(time, entries, whole);
    RowLinesTally(time, entries, whole);
    TallyDropsEmptyLast(RowLines(time, entries, whole));
  }

  /** Rows after a fresh table head add what they add alone. */
  lemma HeadThenRows(rows: string, total: Totals)
    requires Tally(Split(rows, '\n')) == total
    ensures Tally(Split(TableHead() + rows, '\n')) == total
  {
    HeadLines();
    var head := [Marker, "", ColumnTitles, Separator];
    assert Split(TableHead(), '\n') == head + [""];
    SplitAfterTerminator(TableHead(), rows, '\n');
    assert (head + [""])[..4] == head;
    HeadAddsNothing();
    TallyDropsEmptyLast(head);
    TallyAppend(head, Split(rows, '\n'));
    PlusNothing(total);
  }

  // ---------------------------------------------------------------------------
  // The table head counts for nothing
  // ---------------------------------------------------------------------------

  /** The first cell of a line of bar-free pieces whose first piece is
      empty is its second piece, stripped, when that is not empty. */
  lemma FirstCell(pieces: seq<string>)
    requires |pieces| >= 2 && pieces[0] == [] && Strip(pieces[1]) != []
    requires forall k :: 0 <= k < |pieces| ==> '|' !in pieces[k]
    ensures |Cells(JoinWith(pieces, '|'))| >= 1 && Cells(JoinWith(pieces, '|'))[0] == Strip(pieces[1])
  {
    JoinSplit(pieces, '|');
    var stripped := StripAll(pieces);
    var tail := stripped[1..];
    assert stripped == [[]] + tail;
    NonEmptyAppend([[]], tail);
    assert NonEmpty(tail) == [Strip(pieces[1])] + NonEmpty(tail[1..]);
  }

  /** The heading, the blank line, the column titles and the separator add
      no meal. */
  lemma HeadAddsNothing()
    ensures Tally(Split(TableHead(), '\n')) == NoMeals
  {
    HeadLines();
    HeadingIsNoMeal();
    TitlesAreNoMeal();
    SeparatorIsNoMeal();
    NothingAddedInFive(Marker, "", ColumnTitles, Separator, "");
  }

  lemma NothingAddedInFive(a: string, b: string, c: string, d: string, e: string)
    requires LineMeal(a).None? && LineMeal(b).None? && LineMeal(c).None? && LineMeal(d).None? && LineMeal(e).None?
    ensures Tally([a, b, c, d, e]) == NoMeals
  {
    var lines := [a, b, c, d, e];
    var meals := Meals(lines);
    assert meals == [LineMeal(a), LineMeal(b), LineMeal(c), LineMeal(d), LineMeal(e)];
    TotalOfNothing(meals);
  }

  /** The table head is four lines. */
  lemma HeadLines()
    ensures Split(TableHead(), '\n') == [Marker, "", ColumnTitles, Separator, ""]
  {
    var lines := [Marker, "", ColumnTitles, Separator];
    TerminatedFour(Marker, "", ColumnTitles, Separator);
    assert TableHead() == Terminated(lines);
    HeadLinesUnbroken();
    SplitTerminated(lines);
  }

  lemma TerminatedFour(a: string, b: string, c: string, d: string)
    ensures Terminated([a, b, c, d]) == a + "\n" + b + "\n" + c + "\n" + d + "\n"
  {
    assert [a, b, c, d][..3] == [a, b, c];
    assert [a, b, c][..2] == [a, b];
    assert [a, b][..1] == [a];
    assert [a][..0] == [];
    assert Terminated([a]) == a + "\n";
    assert Terminated([a, b]) == a + "\n" + b + "\n";
    assert Terminated([a, b, c]) == a + "\n" + b + "\n" + c + "\n";
  }

  /** Lines that add nothing leave the totals at zero. */
  lemma {:induction false} TotalOfNothing(meals: seq<Option<Meal>>)
    requires forall k :: 0 <= k < |meals| ==> meals[k].None?
    ensures Total(meals) == NoMeals
    decreases |meals|
  {
    if meals != [] {
      TotalOfNothing(meals[..|meals| - 1]);
    }
  }

  lemma HeadLinesUnbroken()
    ensures forall k :: 0 <= k < 4 ==> '\n' !in [Marker, "", ColumnTitles, Separator][k]
  {
    assert '\n' !in Marker;
    TableRowWithout(ColumnNames, '\n');
    JoinWithout([""] + Rules + [""], '|', '\n');
  }

  lemma HeadingIsNoMeal()
    ensures LineMeal(Marker) == None
  {
    assert '|' !in Marker;
  }

  lemma TitlesAreNoMeal()
    ensures LineMeal(ColumnTitles) == None
  {
    var pieces := [""] + Padded(ColumnNames) + [""];
    assert pieces[1] == " " + TimeTitle + " ";
    StripSpaced(TimeTitle);
    forall k | 0 <= k < |pieces|
      ensures '|' !in pieces[k]
    {
      if 0 < k < |pieces| - 1 {
        assert pieces[k] == " " + ColumnNames[k - 1] + " ";
      }
    }
    FirstCell(pieces);
  }

  lemma SeparatorIsNoMeal()
    ensures LineMeal(Separator) == None
  {
    var pieces := [""] + Rules + [""];
    assert pieces[1] == "---------";
    StripNoop(pieces[1]);
    FirstCell(pieces);
  }

  // ---------------------------------------------------------------------------
  // Chat
  // ---------------------------------------------------------------------------

  /** One chunk of the assistant's reply stream: its `type`, `content` and
      `session_id` entries, each `None` when missing or null. */
  datatype Chunk = Chunk(kind: Option<string>, content: Option<string>, sessionId: Option<string>)

  /** The chat endpoint's reply. */
  datatype ChatResponse = ChatResponse(response: string, sessionId: string)

  /** The HTTP error the endpoint raises. */
  datatype HttpError = HttpError(status: nat, detail: string)

  const Fallback: string := "I processed your request."
  const NoSession: string := "no-session"
  const NotInitialized: string := "Frank agent not initialized"
  const ChatFailed: string := "Error processing chat: "

  /** Python truthiness of an optional string: present and not empty. */
  predicate Truthy(o: Option<string>) {
    o.Some? && o.value != []
  }

  /** What one chunk adds to the reply: its content when it is a text chunk
      with non-empty content, nothing otherwise. */
  function Said(c: Chunk): string {
    if c.kind == Some("text") && Truthy(c.content) then c.content.value else []
  }

  /** The reply: what the chunks say, in order. */
  function Reply(chunks: seq<Chunk>): string {
    if chunks == [] then [] else Reply(chunks[..|chunks| - 1]) + Said(chunks[|chunks| - 1])
  }

  /** The session after the chunks, starting from the request's: each
      chunk with a non-empty `session_id` replaces it. */
  function SessionAfter(start: Option<string>, chunks: seq<Chunk>): (r: Option<string>)
    ensures r == start || Truthy(r)
  {
    if chunks == [] then start
    else
      var last := chunks[|chunks| - 1];
      if Truthy(last.sessionId) then last.sessionId else SessionAfter(start, chunks[..|chunks| - 1])
  }

  /** The answer: the reply stripped, or the fallback text when nothing is
      left; the session, or `no-session` when there is none. Neither is
      ever empty. */
  function Answer(reply: string, session: Option<string>): (r: ChatResponse)
    ensures r.response != [] && r.sessionId != []
    ensures Strip(reply) != [] ==> r.response == Strip(reply)
    ensures Strip(reply) == [] ==> r.response == Fallback
    ensures Truthy(session) ==> r.sessionId == session.value
    ensures !Truthy(session) ==> r.sessionId == NoSession
  {
    ChatResponse(if Strip(reply) != [] then Strip(reply) else Fallback,
                 if Truthy(session) then session.value else NoSession)
  }

  /** `chat_endpoint`: the assistant's stream yields `chunks` and then ends,
      or raises `failure` (whose text is `str(e)`). Without an agent the
      endpoint answers 503; a failing stream answers 500 with the error's
      text; otherwise the answer folds the whole stream. */
  method ChatEndpoint(agentReady: bool, requestSession: Option<string>, chunks: seq<Chunk>, failure: Option<string>)
    returns (r: Result<ChatResponse, HttpError>)
    ensures !agentReady ==> r == Err(HttpError(503, NotInitialized))
    ensures agentReady && failure.Some? ==> r == Err(HttpError(500, ChatFailed + failure.value))
    ensures agentReady && failure.None? ==> r == Ok(Answer(Reply(chunks), SessionAfter(requestSession, chunks)))
  {
    if !agentReady {
      return Err(HttpError(503, NotInitialized));
    }
    var fullResponse := "";
    var finalSession := requestSession;
    for i := 0 to |chunks|
      invariant fullResponse == Reply(chunks[..i])
      invariant finalSession == SessionAfter(requestSession, chunks[..i])
    {
      assert chunks[..i + 1][..i] == chunks[..i];
      var chunk := chunks[i];
      if chunk.kind == Some("text") {
        var content := chunk.content;
        if Truthy(content) {
          fullResponse := fullResponse + content.value;
        }
      }
      if Truthy(chunk.sessionId) {
        finalSession := chunk.sessionId;
      }
    }
    assert chunks[..|chunks|] == chunks;
    if failure.Some? {
      return Err(HttpError(500, ChatFailed + failure.value));
    }
    return Ok(Answer(fullResponse, finalSession));
  }

  /** The reply of a stream cut in two is the two replies, joined. */
  lemma {:induction false} ReplyAppend(a: seq<Chunk>, b: seq<Chunk>)
    ensures Reply(a + b) == Reply(a) + Reply(b)
    decreases |b|
  {
    if b == [] {
      assert a + b == a;
    } else {
      var init := b[..|b| - 1];
      assert (a + b)[..|a + b| - 1] == a + init;
      assert (a + b)[|a + b| - 1] == b[|b| - 1];
      ReplyAppend(a, init);
    }
  }

  /** Only text chunks with content speak: the reply is exactly their
      contents, so chunks that say nothing leave it unchanged. */
  lemma {:induction false} QuietChunks(a: seq<Chunk>, quiet: seq<Chunk>)
    requires forall k :: 0 <= k < |quiet| ==> quiet[k].kind != Some("text") || !Truthy(quiet[k].content)
    ensures Reply(a + quiet) == Reply(a)
    decreases |quiet|
  {
    ReplyAppend(a, quiet);
    SilentReply(quiet);
  }

  lemma {:induction false} SilentReply(quiet: seq<Chunk>)
    requires forall k :: 0 <= k < |quiet| ==> quiet[k].kind != Some("text") || !Truthy(quiet[k].content)
    ensures Reply(quiet) == []
    decreases |quiet|
  {
    if quiet != [] {
      SilentReply(quiet[..|quiet| - 1]);
    }
  }

  /** Every text chunk's content is in the reply, in stream order: the
      reply is the reply before it, its content, and the reply after it. */
  lemma TextIsSaid(chunks: seq<Chunk>, i: nat)
    requires i < |chunks| && chunks[i].kind == Some("text") && Truthy(chunks[i].content)
    ensures Reply(chunks) == Reply(chunks[..i]) + chunks[i].content.value + Reply(chunks[i + 1..])
  {
    var before, c, after := chunks[..i], chunks[i], chunks[i + 1..];
    assert chunks == before + [c] + after;
    ReplyAppend(before + [c], after);
    ReplyAppend(before, [c]);
    assert [c][..0] == [];
    assert Reply([c]) == Said(c);
  }

  /** The last chunk with a non-empty session id decides the session; with
      none, the request's session stays. */
  lemma {:induction false} LastSessionWins(start: Option<string>, chunks: seq<Chunk>, i: nat)
    requires i < |chunks| && Truthy(chunks[i].sessionId)
    requires forall j :: i < j < |chunks| ==> !Truthy(chunks[j].sessionId)
    ensures SessionAfter(start, chunks) == chunks[i].sessionId
    decreases |chunks|
  {
    if i < |chunks| - 1 {
      var init := chunks[..|chunks| - 1];
      assert forall j :: i < j < |init| ==> init[j] == chunks[j];
      LastSessionWins(start, init, i);
    }
  }

  lemma {:induction false} NoSessionKeepsStart(start: Option<string>, chunks: seq<Chunk>)
    requires forall j :: 0 <= j < |chunks| ==> !Truthy(chunks[j].sessionId)
    ensures SessionAfter(start, chunks) == start
    decreases |chunks|
  {
    if chunks != [] {
      NoSessionKeepsStart(start, chunks[..|chunks| - 1]);
    }
  }

  /** Folding a stream cut in two is folding the second part from where
      the first left the session. */
  lemma {:induction false} SessionAppend(start: Option<string>, a: seq<Chunk>, b: seq<Chunk>)
    ensures SessionAfter(start, a + b) == SessionAfter(SessionAfter(start, a), b)
    decreases |b|
  {
    if b == [] {
      assert a + b == a;
    } else {
      var init := b[..|b| - 1];
      assert (a + b)[..|a + b| - 1] == a + init;
      assert (a + b)[|a + b| - 1] == b[|b| - 1];
      SessionAppend(start, a, init);
    }
  }
}

