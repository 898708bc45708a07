/** The food database: a Markdown table of foods with their calories and
    macronutrients per unit, parsed into a dictionary keyed by the
    lower-cased food name. The table-line and cell rules here are shared
    with the daily-log tally. */
module MarkdownParser {
  import opened Wrappers
  import opened Text

  /** One food. The macronutrients are the `float()` literals of their
      cells; their values are not modelled. */
  datatype FoodItem = FoodItem(name: string, kcal: int, protein: string, carbs: string, fat: string, unit: string)

  // ---------------------------------------------------------------------------
  // Table lines and cells
  // ---------------------------------------------------------------------------

  /** A line is looked at when it holds a `|` and, stripped, does not start
      with `#`. */
  predicate IsTableLine(line: string) {
    '|' in line && !StartsWith(Strip(line), "#")
  }

  /** Every piece stripped. */
  function StripAll(parts: seq<string>): (r: seq<string>)
    ensures |r| == |parts|
    ensures forall k :: 0 <= k < |parts| ==> r[k] == Strip(parts[k])
  {
    seq(|parts|, k requires 0 <= k < |parts| => Strip(parts[k]))
  }

  /** The pieces that are not empty, in order: every empty piece goes, not
      only the ones before the first and after the last `|`. */
  function NonEmpty(parts: seq<string>): (r: seq<string>)
    ensures |r| <= |parts|
    ensures forall k :: 0 <= k < |r| ==> r[k] != []
    decreases |parts|
  {
    if parts == [] then []
    else if parts[0] == [] then NonEmpty(parts[1..])
    else [parts[0]] + NonEmpty(parts[1..])
  }

  /** `NonEmpty` drops exactly the empty pieces: it keeps every piece when
      none is empty, and ignores empty pieces wherever they are. */
  lemma {:induction false} NonEmptyKeepsAll(parts: seq<string>)
    requires forall k :: 0 <= k < |parts| ==> parts[k] != []
    ensures NonEmpty(parts) == parts
    decreases |parts|
  {
    if parts != [] {
      NonEmptyKeepsAll(parts[1..]);
    }
  }

  lemma {:induction false} NonEmptyAppend(a: seq<string>, b: seq<string>)
    ensures NonEmpty(a + b) == NonEmpty(a) + NonEmpty(b)
    decreases |a|
  {
    if a == [] {
      assert a + b == b;
    } else {
      assert (a + b)[1..] == a[1..] + b;
      NonEmptyAppend(a[1..], b);
    }
  }

  /** The cells of a table line: the `|`-separated pieces, stripped, with
      the empty ones dropped. */
  function Cells(line: string): (r: seq<string>)
    ensures forall k :: 0 <= k < |r| ==> r[k] != [] && '|' !in r[k]
  {
    var pieces := Split(line, '|');
    var stripped := StripAll(pieces);
    forall k | 0 <= k < |stripped|
      ensures '|' !in stripped[k]
    {
      TrimKeepsAbsence(pieces[k], IsSpace, '|');
    }
    NonEmptyFrom(stripped);
    NonEmpty(stripped)
  }

  /** Every cell `NonEmpty` keeps is one of its pieces. */
  lemma {:induction false} NonEmptyFrom(parts: seq<string>)
    ensures forall k :: 0 <= k < |NonEmpty(parts)| ==> NonEmpty(parts)[k] in parts
    decreases |parts|
  {
    if parts != [] {
      NonEmptyFrom(parts[1..]);
      var rest := NonEmpty(parts[1..]);
      forall k | 0 <= k < |rest|
        ensures rest[k] in parts
      {
        assert rest[k] in parts[1..];
      }
    }
  }

  // ---------------------------------------------------------------------------
  // Rows of the food table
  // ---------------------------------------------------------------------------

  const HeaderName: string := "Nazwa (Alias)"

  /** Six cells, and neither the column-title row nor the separator row. */
  predicate IsFoodRow(cells: seq<string>) {
    |cells| == 6 && cells[0] != HeaderName && !StartsWith(cells[0], "-")
  }

  /** The item a food row describes, or `None` when the calorie cell is no
      integer or a macronutrient cell is no float literal (the row is then
      skipped as a whole). */
  function RowItem(cells: seq<string>): (r: Option<FoodItem>)
    requires |cells| == 6
    ensures r.Some? <==> ParseInt(cells[1]).Some? && IsFloatText(cells[2]) && IsFloatText(cells[3]) && IsFloatText(cells[4])
    ensures r.Some? ==> r.value == FoodItem(cells[0], ParseInt(cells[1]).value, cells[2], cells[3], cells[4], cells[5])
  {
    match ParseInt(cells[1])
    case None => None
    case Some(kcal) =>
      if IsFloatText(cells[2]) && IsFloatText(cells[3]) && IsFloatText(cells[4]) then
        Some(FoodItem(cells[0], kcal, cells[2], cells[3], cells[4], cells[5]))
      else None
  }

  /** What one line of the file contributes: an item, or nothing. */
  function LineItem(line: string): Option<FoodItem> {
    if IsTableLine(line) && IsFoodRow(Cells(line)) then RowItem(Cells(line)) else None
  }

  /** What each line contributes, in order. */
  function Items(lines: seq<string>): (r: seq<Option<FoodItem>>)
    ensures |r| == |lines|
    ensures forall i :: 0 <= i < |lines| ==> r[i] == LineItem(lines[i])
  {
    seq(|lines|, i requires 0 <= i < |lines| => LineItem(lines[i]))
  }

  /** Reading two runs of lines one after the other gives the items of each
      run, in that order. */
  lemma ItemsAppend(a: seq<string>, b: seq<string>)
    ensures Items(a + b) == Items(a) + Items(b)
  {
    assert forall k :: 0 <= k < |a| ==> (a + b)[k] == a[k];
    assert forall k :: 0 <= k < |b| ==> (a + b)[|a| + k] == b[k];
  }

  /** The dictionary built from the items, in order: each item is stored
      under its lower-cased name, replacing what was there. */
  function Catalog(items: seq<Option<FoodItem>>): map<string, FoodItem>
    decreases |items|
  {
    if items == [] then map[]
    else
      var before := Catalog(items[..|items| - 1]);
      match items[|items| - 1]
      case None => before
      case Some(item) => before[Lower(item.name) := item]
  }

  /** Item `i` is present and its lower-cased name is `key`. */
  predicate ItemFor(items: seq<Option<FoodItem>>, i: int, key: string) {
    0 <= i < |items| && items[i].Some? && Lower(items[i].value.name) == key
  }

  /** Item `i` is the last item for `key`. */
  predicate LastFor(items: seq<Option<FoodItem>>, i: int, key: string) {
    ItemFor(items, i, key) && forall j :: i < j < |items| ==> !ItemFor(items, j, key)
  }

  /** A key is in the dictionary exactly when some line holds an item with
      that lower-cased name. */
  lemma {:induction false} CatalogKeys(items: seq<Option<FoodItem>>, key: string)
    ensures key in Catalog(items) <==> exists i :: ItemFor(items, i, key)
    decreases |items|
  {
    if items != [] {
      var n := |items|;
      var init := items[..n - 1];
      CatalogKeys(init, key);
      if !ItemFor(items, n - 1, key) {
        if key in Catalog(items) {
          var i :| ItemFor(init, i, key);
          assert ItemFor(items, i, key);
        } else {
          assert key !in Catalog(init);
          forall i | 0 <= i < n - 1
            ensures !ItemFor(items, i, key)
          {
            assert init[i] == items[i];
            assert !ItemFor(init, i, key);
          }
        }
      }
    }
  }

  /** One more line read: the dictionary of the first `i + 1` items. */
  lemma CatalogNext(items: seq<Option<FoodItem>>, i: nat)
    requires i < |items|
    ensures Catalog(items[..i + 1]) ==
      match items[i]
      case None => Catalog(items[..i])
      case Some(item) => Catalog(items[..i])[Lower(item.name) := item]
  {
    assert items[..i + 1][..i] == items[..i];
  }

  /** The value under a key is the last item for it: a later row replaces
      an earlier one. */
  lemma {:induction false} CatalogLastWins(items: seq<Option<FoodItem>>, key: string, i: int)
    requires LastFor(items, i, key)
    ensures key in Catalog(items) && Catalog(items)[key] == items[i].value
    decreases |items|
  {
    var n := |items|;
    if i < n - 1 {
      var init := items[..n - 1];
      assert forall j :: 0 <= j < n - 1 ==> init[j] == items[j];
      assert ItemFor(init, i, key);
      forall j | i < j < n - 1
        ensures !ItemFor(init, j, key)
      {
        assert !ItemFor(items, j, key);
      }
      CatalogLastWins(init, key, i);
      assert !ItemFor(items, n - 1, key);
    }
  }

  /** Every key is the lower-case form of a name, so it is its own lower
      case. */
  lemma {:induction false} CatalogKeysAreLower(items: seq<Option<FoodItem>>)
    ensures forall key :: key in Catalog(items) ==> Lower(key) == key
    decreases |items|
  {
    if items != [] {
      CatalogKeysAreLower(items[..|items| - 1]);
      var item := items[|items| - 1];
      if item.Some? {
        LowerIdempotent(item.value.name);
      }
    }
  }

  /** A line that holds no item (prose, the title rows, a malformed row)
      leaves the dictionary as it was: a row never half-enters it. */
  lemma SkippedLineChangesNothing(lines: seq<string>, line: string)
    requires LineItem(line).None?
    ensures Catalog(Items(lines + [line])) == Catalog(Items(lines))
  {
    var items := Items(lines + [line]);
    assert items[..|lines|] == Items(lines) by {
      ItemsAppend(lines, [line]);
    }
    assert items[|lines|] == LineItem(line);
  }

  /** The message of the `FileNotFoundError` for a missing database file. */
  function NotFound(path: string): (r: string)
    ensures StartsWith(r, "[Errno 2] No such file or directory: ")
  {
    "[Errno 2] No such file or directory: '" + path + "'"
  }

  /** The parser of one database file, with its dictionary. */
  class FoodDatabaseParser {
    const dbPath: string
    var cache: map<string, FoodItem>

    constructor (dbPath: string)
      ensures this.dbPath == dbPath && cache == map[]
    {
      this.dbPath := dbPath;
      cache := map[];
    }

    /** `load`, given the file's content (`None` when the file is missing).
        The dictionary is emptied first, so nothing from an earlier load
        survives, even when the file is missing. */
    method Load(content: Option<string>) returns (r: Result<map<string, FoodItem>, string>)
      modifies this
      ensures content.None? ==> cache == map[] && r == Err(NotFound(dbPath))
      ensures content.Some? ==> cache == Catalog(Items(Split(content.value, '\n'))) && r == Ok(cache)
    {
      cache := map[];
      if content.None? {
        return Err(NotFound(dbPath));
      }
      var lines := Split(content.value, '\n');
      ghost var items := Items(lines);
      var i := 0;
      while i < |lines|
        invariant 0 <= i <= |lines|
        invariant cache == Catalog(items[..i])
      {
        CatalogNext(items, i);
        var item := ReadRow(lines[i]);
        if item.Some? {
          cache := cache[Lower(item.value.name) := item.value];
        }
        i := i + 1;
      }
      assert items[..i] == items;
      return Ok(cache);
    }

    /** The body of the loop over the lines of the file: a line that is a
        food row with well-formed numbers gives its item. */
    static method ReadRow(line: string) returns (item: Option<FoodItem>)
      ensures item == LineItem(line)
    {
      item := None;
      if IsTableLine(line) {
        var parts := Cells(line);
        if IsFoodRow(parts) {
          item := RowItem(parts);
        }
      }
    }

    /** `lookup`: `dict.get` on the lower-cased name, so an entry is found
        exactly when one is stored under that key, and it is the stored
        one. */
    function Lookup(foodName: string): (r: Option<FoodItem>)
      reads this
      ensures r.Some? <==> Lower(foodName) in cache
      ensures r.Some? ==> r.value == cache[Lower(foodName)]
    {
      if Lower(foodName) in cache then Some(cache[Lower(foodName)]) else None
    }
  }

  /** A lookup ignores letter case: asking with a name or with its
      lower-cased form finds the same entry. */
  lemma LookupIgnoresCase(parser: FoodDatabaseParser, foodName: string)
    ensures parser.Lookup(foodName) == parser.Lookup(Lower(foodName))
  {
    LowerIdempotent(foodName);
  }

  /** After a load of `lines` (the dictionary `Load` leaves behind), a
      lookup finds an item exactly when some row's name matches the asked
      name ignoring letter case; what it finds is the last such row's
      item. */
  lemma LookupAfterLoad(parser: FoodDatabaseParser, lines: seq<string>, foodName: string)
    requires parser.cache == Catalog(Items(lines))
    ensures parser.Lookup(foodName).Some? <==> exists i :: ItemFor(Items(lines), i, Lower(foodName))
    ensures forall i :: LastFor(Items(lines), i, Lower(foodName)) ==> parser.Lookup(foodName) == LineItem(lines[i])
  {
    var items := Items(lines);
    CatalogKeys(items, Lower(foodName));
    forall i | LastFor(items, i, Lower(foodName))
      ensures Lower(foodName) in Catalog(items) && Catalog(items)[Lower(foodName)] == items[i].value
    {
      CatalogLastWins(items, Lower(foodName), i);
    }
  }

  // ---------------------------------------------------------------------------
  // The sample table
  // ---------------------------------------------------------------------------

  /** A line `|c1|...|cn|` whose pieces strip to non-empty cells has exactly
      those cells. */
  lemma RowCells(pieces: seq<string>, cells: seq<string>)
    requires |pieces| >= 1 && forall k :: 0 <= k < |pieces| ==> '|' !in pieces[k]
    requires StripAll(pieces) == [""] + cells + [""]
    requires forall k :: 0 <= k < |cells| ==> cells[k] != []
    ensures Cells(JoinWith(pieces, '|')) == cells
  {
    JoinSplit(pieces, '|');
    NonEmptyAppend([""], cells + [""]);
    NonEmptyAppend(cells, [""]);
    NonEmptyKeepsAll(cells);
    assert [""] + cells + [""] == [""] + (cells + [""]);
  }

  /** A line of six `|`-delimited pieces, given as its first three and its
      last three pieces with their bars. */
  lemma SixPieceLine(line: string, a: string, b: string, c: string, d: string, e: string, f: string)
    requires line == (['|'] + a) + (['|'] + b) + (['|'] + c) + ((['|'] + d) + (['|'] + e) + (['|'] + f + ['|']))
    ensures line == JoinWith(["", a, b, c, d, e, f, ""], '|')
  {
    JoinEight("", a, b, c, d, e, f, "", '|');
  }

  /** The cells of `|v1|...|vn|` are the values' stripped forms, when no
      value holds a bar or strips to nothing. */
  lemma BarredCells(values: seq<string>, cells: seq<string>)
    requires |cells| == |values|
    requires forall k :: 0 <= k < |values| ==> '|' !in values[k] && Strip(values[k]) == cells[k] && cells[k] != []
    ensures Cells(JoinWith([""] + values + [""], '|')) == cells
  {
    var pieces := [""] + values + [""];
    BarredPieces(values, pieces);
    assert StripAll(values) == cells;
    RowCells(pieces, cells);
  }

  lemma BarredPieces(values: seq<string>, pieces: seq<string>)
    requires forall k :: 0 <= k < |values| ==> '|' !in values[k]
    requires pieces == [""] + values + [""]
    ensures forall k :: 0 <= k < |pieces| ==> '|' !in pieces[k]
    ensures StripAll(pieces) == [""] + StripAll(values) + [""]
  {
    StripNoop("");
    forall k | 0 <= k < |pieces|
      ensures '|' !in pieces[k] && StripAll(pieces)[k] == ([""] + StripAll(values) + [""])[k]
    {
      if 0 < k < |pieces| - 1 {
        assert pieces[k] == values[k - 1];
      } else {
        assert pieces[k] == [];
      }
    }
  }

  /** A table row as the daily log writes it: each value with one space on
      either side, between bars (`| v1 | v2 | ... |`). */
  function TableRow(values: seq<string>): string {
    JoinWith([""] + Padded(values) + [""], '|')
  }

  function Padded(values: seq<string>): (r: seq<string>)
    ensures |r| == |values|
    ensures forall k :: 0 <= k < |values| ==> r[k] == " " + values[k] + " "
  {
    seq(|values|, k requires 0 <= k < |values| => " " + values[k] + " ")
  }

  /** Reading a table row's cells gives its values back, stripped, when no
      value holds a bar or strips to nothing. */
  lemma TableRowCells(values: seq<string>)
    requires forall k :: 0 <= k < |values| ==> '|' !in values[k] && Strip(values[k]) != []
    ensures Cells(TableRow(values)) == StripAll(values)
  {
    var pieces := [""] + Padded(values) + [""];
    PaddedPieces(values, pieces);
    RowCells(pieces, StripAll(values));
  }

  /** The pieces of a table row hold no bar and strip to the stripped values
      between two empty ends. */
  lemma PaddedPieces(values: seq<string>, pieces: seq<string>)
    requires forall k :: 0 <= k < |values| ==> '|' !in values[k]
    requires pieces == [""] + Padded(values) + [""]
    ensures forall k :: 0 <= k < |pieces| ==> '|' !in pieces[k]
    ensures StripAll(pieces) == [""] + StripAll(values) + [""]
  {
    var cells := StripAll(values);
    forall k | 0 <= k < |pieces|
      ensures '|' !in pieces[k] && StripAll(pieces)[k] == ([""] + cells + [""])[k]
    {
      if 0 < k < |pieces| - 1 {
        assert pieces[k] == " " + values[k - 1] + " ";
        StripSpaced(values[k - 1]);
      } else {
        assert pieces[k] == [];
      }
    }
  }

  /** A character other than the bar that no value holds is not in the row. */
  lemma TableRowWithout(values: seq<string>, c: char)
    requires c != '|' && c != ' '
    requires forall k :: 0 <= k < |values| ==> c !in values[k]
    ensures c !in TableRow(values)
  {
    var pieces := [""] + Padded(values) + [""];
    forall k | 0 <= k < |pieces|
      ensures c !in pieces[k]
    {
      if 0 < k < |pieces| - 1 {
        assert pieces[k] == " " + values[k - 1] + " ";
      }
    }
    JoinWithout(pieces, '|', c);
  }

  /** A table row starts and ends with a bar. */
  lemma TableRowBarred(values: seq<string>)
    requires values != []
    ensures var line := TableRow(values); |line| >= 2 && line[0] == '|' && line[|line| - 1] == '|'
  {
    var pieces := [""] + Padded(values) + [""];
    JoinWithEnds(pieces, '|');
  }

  /** A line between bars whose six cells are a food row with a whole
      calorie count and numeric macronutrients is loaded as the item those
      cells describe. */
  lemma FoodRowLoaded(line: string, cells: seq<string>)
    requires |line| >= 2 && line[0] == '|' && line[|line| - 1] == '|'
    requires Cells(line) == cells && IsFoodRow(cells)
    requires ParseInt(cells[1]).Some? && IsFloatText(cells[2]) && IsFloatText(cells[3]) && IsFloatText(cells[4])
    ensures LineItem(line) == Some(FoodItem(cells[0], ParseInt(cells[1]).value, cells[2], cells[3], cells[4], cells[5]))
  {
    BarredIsTableLine(line);
  }

  /** A line that starts and ends with `|` is a table line. */
  lemma BarredIsTableLine(line: string)
    requires |line| >= 2 && line[0] == '|' && line[|line| - 1] == '|'
    ensures IsTableLine(line)
  {
    StripNoop(line);
  }
}
