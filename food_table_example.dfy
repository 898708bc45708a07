/** The sample food table of the parser's unit tests, row by row, and the
    dictionary it loads into. */
module FoodTableExample {
  import opened Wrappers
  import opened Text
  import opened MarkdownParser

  /** A cell as the table pads it: one space, the text, `n` more spaces. */
  function Pad(text: string, n: nat): string {
    [' '] + text + seq(n, _ => ' ')
  }

  /** A padded cell strips to its text. */
  lemma PadStrips(text: string, n: nat)
    requires text != [] && !IsSpace(text[0]) && !IsSpace(text[|text| - 1]) && '|' !in text
    ensures Strip(Pad(text, n)) == text && '|' !in Pad(text, n)
  {
    StripPadded([' '], text, seq(n, _ => ' '));
  }

  /** A cell text the table can pad: non-empty, no surrounding whitespace,
      no bar. */
  predicate Padable(text: string) {
    text != [] && !IsSpace(text[0]) && !IsSpace(text[|text| - 1]) && '|' !in text
  }

  /** The cells of a row of six padded cells are their texts. */
  lemma PaddedCells(a: string, b: string, c: string, d: string, e: string, f: string,
                    na: nat, nb: nat, nc: nat, nd: nat, ne: nat, nf: nat)
    requires Padable(a) && Padable(b) && Padable(c) && Padable(d) && Padable(e) && Padable(f)
    ensures Cells(JoinWith(["", Pad(a, na), Pad(b, nb), Pad(c, nc), Pad(d, nd), Pad(e, ne), Pad(f, nf), ""], '|'))
      == [a, b, c, d, e, f]
  {
    var values := [Pad(a, na), Pad(b, nb), Pad(c, nc), Pad(d, nd), Pad(e, ne), Pad(f, nf)];
    var cells := [a, b, c, d, e, f];
    forall k | 0 <= k < 6
      ensures '|' !in values[k] && Strip(values[k]) == cells[k] && cells[k] != []
    {
      if k == 0 { PadStrips(a, na); }
      else if k == 1 { PadStrips(b, nb); }
      else if k == 2 { PadStrips(c, nc); }
      else if k == 3 { PadStrips(d, nd); }
      else if k == 4 { PadStrips(e, ne); }
      else { PadStrips(f, nf); }
    }
    assert ["", Pad(a, na), Pad(b, nb), Pad(c, nc), Pad(d, nd), Pad(e, ne), Pad(f, nf), ""] == [""] + values + [""];
    BarredCells(values, cells);
  }

  // The row `| Nazwa (Alias) | Kcal | Białko (g) | Węgle (g) | Tłuszcz (g) | Jednostka |`.

  lemma HeaderHalves(line: string)
    requires line == "| Nazwa (Alias) | Kcal | Białko (g) | Węgle (g) | Tłuszcz (g) | Jednostka |"
    ensures line == "| Nazwa (Alias) | Kcal | Białko (g) " + "| Węgle (g) | Tłuszcz (g) | Jednostka |"
  {}

  lemma HeaderLeft(x: string)
    requires x == "| Nazwa (Alias) | Kcal | Białko (g) "
    ensures x == "| Nazwa (Alias) " + "| Kcal " + "| Białko (g) "
  {
    assert x == "| Nazwa (Alias) " + "| Kcal | Białko (g) ";
  }

  lemma HeaderRight(x: string)
    requires x == "| Węgle (g) | Tłuszcz (g) | Jednostka |"
    ensures x == "| Węgle (g) " + "| Tłuszcz (g) " + "| Jednostka |"
  {
    assert x == "| Węgle (g) " + "| Tłuszcz (g) | Jednostka |";
  }

  lemma HeaderJoin(line: string)
    requires line == "| Nazwa (Alias) | Kcal | Białko (g) | Węgle (g) | Tłuszcz (g) | Jednostka |"
    ensures line == JoinWith(["", Pad("Nazwa (Alias)", 1), Pad("Kcal", 1), Pad("Białko (g)", 1), Pad("Węgle (g)", 1), Pad("Tłuszcz (g)", 1), Pad("Jednostka", 1), ""], '|')
  {
    HeaderHalves(line);
    HeaderLeft("| Nazwa (Alias) | Kcal | Białko (g) ");
    HeaderRight("| Węgle (g) | Tłuszcz (g) | Jednostka |");
    assert "| Nazwa (Alias) " == ['|'] + Pad("Nazwa (Alias)", 1);
    assert "| Kcal " == ['|'] + Pad("Kcal", 1);
    assert "| Białko (g) " == ['|'] + Pad("Białko (g)", 1);
    assert "| Węgle (g) " == ['|'] + Pad("Węgle (g)", 1);
    assert "| Tłuszcz (g) " == ['|'] + Pad("Tłuszcz (g)", 1);
    assert "| Jednostka |" == ['|'] + Pad("Jednostka", 1) + ['|'];
    SixPieceLine(line, Pad("Nazwa (Alias)", 1), Pad("Kcal", 1), Pad("Białko (g)", 1), Pad("Węgle (g)", 1), Pad("Tłuszcz (g)", 1), Pad("Jednostka", 1));
  }

  lemma HeaderCells()
    ensures Cells(JoinWith(["", Pad("Nazwa (Alias)", 1), Pad("Kcal", 1), Pad("Białko (g)", 1), Pad("Węgle (g)", 1), Pad("Tłuszcz (g)", 1), Pad("Jednostka", 1), ""], '|')) == ["Nazwa (Alias)", "Kcal", "Białko (g)", "Węgle (g)", "Tłuszcz (g)", "Jednostka"]
  {
    PaddedCells("Nazwa (Alias)", "Kcal", "Białko (g)", "Węgle (g)", "Tłuszcz (g)", "Jednostka",
                1, 1, 1, 1, 1, 1);
  }

  /** The column-title row is skipped. */
  lemma HeaderSkipped(line: string)
    requires line == "| Nazwa (Alias) | Kcal | Białko (g) | Węgle (g) | Tłuszcz (g) | Jednostka |"
    ensures LineItem(line) == None
  {
    HeaderJoin(line);
    HeaderCells();
  }

  // The row `|---------------|------|------------|-----------|-------------|-----------|`.

  lemma SeparatorHalves(line: string)
    requires line == "|---------------|------|------------|-----------|-------------|-----------|"
    ensures line == "|---------------|------|------------" + "|-----------|-------------|-----------|"
  {}

  lemma SeparatorLeft(x: string)
    requires x == "|---------------|------|------------"
    ensures x == "|---------------" + "|------" + "|------------"
  {
    assert x == "|---------------" + "|------|------------";
  }

  lemma SeparatorRight(x: string)
    requires x == "|-----------|-------------|-----------|"
    ensures x == "|-----------" + "|-------------" + "|-----------|"
  {
    assert x == "|-----------" + "|-------------|-----------|";
  }

  lemma SeparatorJoin(line: string)
    requires line == "|---------------|------|------------|-----------|-------------|-----------|"
    ensures line == JoinWith(["", "---------------", "------", "------------", "-----------", "-------------", "-----------", ""], '|')
  {
    SeparatorHalves(line);
    SeparatorLeft("|---------------|------|------------");
    SeparatorRight("|-----------|-------------|-----------|");
    assert "|---------------" == ['|'] + "---------------";
    assert "|------" == ['|'] + "------";
    assert "|------------" == ['|'] + "------------";
    assert "|-----------" == ['|'] + "-----------";
    assert "|-------------" == ['|'] + "-------------";
    assert "|-----------|" == ['|'] + "-----------" + ['|'];
    SixPieceLine(line, "---------------", "------", "------------", "-----------", "-------------", "-----------");
  }

  lemma SeparatorCells()
    ensures Cells(JoinWith(["", "---------------", "------", "------------", "-----------", "-------------", "-----------", ""], '|')) == ["---------------", "------", "------------", "-----------", "-------------", "-----------"]
  {
    var values := ["---------------", "------", "------------", "-----------", "-------------", "-----------"];
    forall k | 0 <= k < 6
      ensures '|' !in values[k] && Strip(values[k]) == values[k] && values[k] != []
    {
      if k == 0 { StripNoop("---------------"); }
      else if k == 1 { StripNoop("------"); }
      else if k == 2 { StripNoop("------------"); }
      else if k == 3 { StripNoop("-----------"); }
      else if k == 4 { StripNoop("-------------"); }
      else { StripNoop("-----------"); }
    }
    assert ["", "---------------", "------", "------------", "-----------", "-------------", "-----------", ""] == [""] + values + [""];
    BarredCells(values, values);
  }

  /** The separator row is skipped. */
  lemma SeparatorSkipped(line: string)
    requires line == "|---------------|------|------------|-----------|-------------|-----------|"
    ensures LineItem(line) == None
  {
    SeparatorJoin(line);
    SeparatorCells();
  }

  // The row `| Owsianka      | 450  | 20         | 60        | 15          | porcja    |`.

  lemma OwsiankaHalves(line: string)
    requires line == "| Owsianka      | 450  | 20         | 60        | 15          | porcja    |"
    ensures line == "| Owsianka      | 450  | 20         " + "| 60        | 15          | porcja    |"
  {}

  lemma OwsiankaLeft(x: string)
    requires x == "| Owsianka      | 450  | 20         "
    ensures x == "| Owsianka      " + "| 450  " + "| 20         "
  {
    assert x == "| Owsianka      " + "| 450  | 20         ";
  }

  lemma OwsiankaRight(x: string)
    requires x == "| 60        | 15          | porcja    |"
    ensures x == "| 60        " + "| 15          " + "| porcja    |"
  {
    assert x == "| 60        " + "| 15          | porcja    |";
  }

  lemma OwsiankaJoin(line: string)
    requires line == "| Owsianka      | 450  | 20         | 60        | 15          | porcja    |"
    ensures line == JoinWith(["", Pad("Owsianka", 6), Pad("450", 2), Pad("20", 9), Pad("60", 8), Pad("15", 10), Pad("porcja", 4), ""], '|')
  {
    OwsiankaHalves(line);
    OwsiankaLeft("| Owsianka      | 450  | 20         ");
    OwsiankaRight("| 60        | 15          | porcja    |");
    assert "| Owsianka      " == ['|'] + Pad("Owsianka", 6);
    assert "| 450  " == ['|'] + Pad("450", 2);
    assert "| 20         " == ['|'] + Pad("20", 9);
    assert "| 60        " == ['|'] + Pad("60", 8);
    assert "| 15          " == ['|'] + Pad("15", 10);
    assert "| porcja    |" == ['|'] + Pad("porcja", 4) + ['|'];
    SixPieceLine(line, Pad("Owsianka", 6), Pad("450", 2), Pad("20", 9), Pad("60", 8), Pad("15", 10), Pad("porcja", 4));
  }

  lemma OwsiankaCells()
    ensures Cells(JoinWith(["", Pad("Owsianka", 6), Pad("450", 2), Pad("20", 9), Pad("60", 8), Pad("15", 10), Pad("porcja", 4), ""], '|')) == ["Owsianka", "450", "20", "60", "15", "porcja"]
  {
    PaddedCells("Owsianka", "450", "20", "60", "15", "porcja",
                6, 2, 9, 8, 10, 4);
  }

  /** The first food row is loaded with its cells' values. */
  lemma OwsiankaLoaded(line: string)
    requires line == "| Owsianka      | 450  | 20         | 60        | 15          | porcja    |"
    ensures LineItem(line) == Some(FoodItem("Owsianka", 450, "20", "60", "15", "porcja"))
  {
    OwsiankaLineCells(line);
    OwsiankaItem(line);
  }

  lemma OwsiankaLineCells(line: string)
    requires line == "| Owsianka      | 450  | 20         | 60        | 15          | porcja    |"
    ensures Cells(line) == ["Owsianka", "450", "20", "60", "15", "porcja"] && |line| >= 2 && line[0] == '|' && line[|line| - 1] == '|'
  {
    OwsiankaJoin(line);
    OwsiankaCells();
  }

  lemma OwsiankaItem(line: string)
    requires Cells(line) == ["Owsianka", "450", "20", "60", "15", "porcja"]
    requires |line| >= 2 && line[0] == '|' && line[|line| - 1] == '|'
    ensures LineItem(line) == Some(FoodItem("Owsianka", 450, "20", "60", "15", "porcja"))
  {
    OwsiankaNumbers();
    assert "Owsianka"[0] == 'O' && |"Owsianka"| != |HeaderName|;
    FoodRowLoaded(line, ["Owsianka", "450", "20", "60", "15", "porcja"]);
  }

  lemma OwsiankaNumbers()
    ensures ParseInt("450") == Some(450) && IsFloatText("20") && IsFloatText("60") && IsFloatText("15")
  {
    NatToStringValue(450);
    assert NatToString(450) == "450";
    DigitsAreDecimalText("20");
    DigitsAreDecimalText("60");
    DigitsAreDecimalText("15");
  }

  // The row `| Banan         | 105  | 1          | 27        | 0           | sztuka    |`.

  lemma BananHalves(line: string)
    requires line == "| Banan         | 105  | 1          | 27        | 0           | sztuka    |"
    ensures line == "| Banan         | 105  | 1          " + "| 27        | 0           | sztuka    |"
  {}

  lemma BananLeft(x: string)
    requires x == "| Banan         | 105  | 1          "
    ensures x == "| Banan         " + "| 105  " + "| 1          "
  {
    assert x == "| Banan         " + "| 105  | 1          ";
  }

  lemma BananRight(x: string)
    requires x == "| 27        | 0           | sztuka    |"
    ensures x == "| 27        " + "| 0           " + "| sztuka    |"
  {
    assert x == "| 27        " + "| 0           | sztuka    |";
  }

  lemma BananJoin(line: string)
    requires line == "| Banan         | 105  | 1          | 27        | 0           | sztuka    |"
    ensures line == JoinWith(["", Pad("Banan", 9), Pad("105", 2), Pad("1", 10), Pad("27", 8), Pad("0", 11), Pad("sztuka", 4), ""], '|')
  {
    BananHalves(line);
    BananLeft("| Banan         | 105  | 1          ");
    BananRight("| 27        | 0           | sztuka    |");
    assert "| Banan         " == ['|'] + Pad("Banan", 9);
    assert "| 105  " == ['|'] + Pad("105", 2);
    assert "| 1          " == ['|'] + Pad("1", 10);
    assert "| 27        " == ['|'] + Pad("27", 8);
    assert "| 0           " == ['|'] + Pad("0", 11);
    assert "| sztuka    |" == ['|'] + Pad("sztuka", 4) + ['|'];
    SixPieceLine(line, Pad("Banan", 9), Pad("105", 2), Pad("1", 10), Pad("27", 8), Pad("0", 11), Pad("sztuka", 4));
  }

  lemma BananCells()
    ensures Cells(JoinWith(["", Pad("Banan", 9), Pad("105", 2), Pad("1", 10), Pad("27", 8), Pad("0", 11), Pad("sztuka", 4), ""], '|')) == ["Banan", "105", "1", "27", "0", "sztuka"]
  {
    PaddedCells("Banan", "105", "1", "27", "0", "sztuka",
                9, 2, 10, 8, 11, 4);
  }

  /** The second food row is loaded with its cells' values. */
  lemma BananLoaded(line: string)
    requires line == "| Banan         | 105  | 1          | 27        | 0           | sztuka    |"
    ensures LineItem(line) == Some(FoodItem("Banan", 105, "1", "27", "0", "sztuka"))
  {
    BananLineCells(line);
    BananItem(line);
  }

  lemma BananLineCells(line: string)
    requires line == "| Banan         | 105  | 1          | 27        | 0           | sztuka    |"
    ensures Cells(line) == ["Banan", "105", "1", "27", "0", "sztuka"] && |line| >= 2 && line[0] == '|' && line[|line| - 1] == '|'
  {
    BananJoin(line);
    BananCells();
  }

  lemma BananItem(line: string)
    requires Cells(line) == ["Banan", "105", "1", "27", "0", "sztuka"]
    requires |line| >= 2 && line[0] == '|' && line[|line| - 1] == '|'
    ensures LineItem(line) == Some(FoodItem("Banan", 105, "1", "27", "0", "sztuka"))
  {
    BananNumbers();
    assert "Banan"[0] == 'B' && |"Banan"| != |HeaderName|;
    FoodRowLoaded(line, ["Banan", "105", "1", "27", "0", "sztuka"]);
  }

  lemma BananNumbers()
    ensures ParseInt("105") == Some(105) && IsFloatText("1") && IsFloatText("27") && IsFloatText("0")
  {
    NatToStringValue(105);
    assert NatToString(105) == "105";
    DigitsAreDecimalText("1");
    DigitsAreDecimalText("27");
    DigitsAreDecimalText("0");
  }

  // The whole file.

  const Oats: FoodItem := FoodItem("Owsianka", 450, "20", "60", "15", "porcja")
  const Banana: FoodItem := FoodItem("Banan", 105, "1", "27", "0", "sztuka")

  /** The lines of the sample file (it ends with a newline, hence the last
      empty line): the title, a blank line, the column titles, the
      separator and two foods. Only the two foods give items. */
  lemma SampleItems(title: string, header: string, separator: string, oats: string, banana: string)
    requires title == "# Moja Baza Posiłków"
    requires header == "| Nazwa (Alias) | Kcal | Białko (g) | Węgle (g) | Tłuszcz (g) | Jednostka |"
    requires separator == "|---------------|------|------------|-----------|-------------|-----------|"
    requires oats == "| Owsianka      | 450  | 20         | 60        | 15          | porcja    |"
    requires banana == "| Banan         | 105  | 1          | 27        | 0           | sztuka    |"
    ensures Items([title, "", header, separator, oats, banana, ""]) == [None, None, None, None, Some(Oats), Some(Banana), None]
  {
    TitleSkipped(title);
    HeaderSkipped(header);
    SeparatorSkipped(separator);
    OwsiankaLoaded(oats);
    BananLoaded(banana);
    var none: Option<FoodItem> := None;
    OneItem(title, none);
    OneItem("", none);
    OneItem(header, none);
    OneItem(separator, none);
    OneItem(oats, Some(Oats));
    OneItem(banana, Some(Banana));
    SevenItems(title, "", header, separator, oats, banana, "", none, none, none, none, Some(Oats), Some(Banana), none);
  }

  lemma OneItem(line: string, x: Option<FoodItem>)
    requires LineItem(line) == x
    ensures Items([line]) == [x]
  {
  }

  /** Items line by line, put together. */
  lemma SevenItems(l0: string, l1: string, l2: string, l3: string, l4: string, l5: string, l6: string,
                   x0: Option<FoodItem>, x1: Option<FoodItem>, x2: Option<FoodItem>, x3: Option<FoodItem>,
                   x4: Option<FoodItem>, x5: Option<FoodItem>, x6: Option<FoodItem>)
    requires Items([l0]) == [x0] && Items([l1]) == [x1] && Items([l2]) == [x2] && Items([l3]) == [x3]
    requires Items([l4]) == [x4] && Items([l5]) == [x5] && Items([l6]) == [x6]
    ensures Items([l0, l1, l2, l3, l4, l5, l6]) == [x0, x1, x2, x3, x4, x5, x6]
  {
    ItemsAppend([l0], [l1]);
    assert [l0] + [l1] == [l0, l1];
    ItemsAppend([l0, l1], [l2]);
    assert [l0, l1] + [l2] == [l0, l1, l2];
    ItemsAppend([l0, l1, l2], [l3]);
    assert [l0, l1, l2] + [l3] == [l0, l1, l2, l3];
    ItemsAppend([l0, l1, l2, l3], [l4]);
    assert [l0, l1, l2, l3] + [l4] == [l0, l1, l2, l3, l4];
    ItemsAppend([l0, l1, l2, l3, l4], [l5]);
    assert [l0, l1, l2, l3, l4] + [l5] == [l0, l1, l2, l3, l4, l5];
    ItemsAppend([l0, l1, l2, l3, l4, l5], [l6]);
    assert [l0, l1, l2, l3, l4, l5] + [l6] == [l0, l1, l2, l3, l4, l5, l6];
  }

  lemma TitleSkipped(line: string)
    requires line == "# Moja Baza Posiłków"
    ensures LineItem(line) == None
  {
    assert line[0] == '#';
    assert '|' !in line;
  }

  /** The sample loads into exactly two keys, "owsianka" (450 kcal, protein
      "20") and "banan" (105 kcal). */
  lemma SampleCatalog(items: seq<Option<FoodItem>>)
    requires items == [None, None, None, None, Some(Oats), Some(Banana), None]
    ensures Catalog(items) == map["owsianka" := Oats, "banan" := Banana]
  {
    LowerExamples();
    var none: Option<FoodItem> := None;
    var i0: seq<Option<FoodItem>> := [];
    var i1 := i0 + [none];
    var i2 := i1 + [none];
    var i3 := i2 + [none];
    var i4 := i3 + [none];
    var i5 := i4 + [Some(Oats)];
    var i6 := i5 + [Some(Banana)];
    var i7 := i6 + [none];
    assert i1[..0] == i0 && i2[..1] == i1 && i3[..2] == i2 && i4[..3] == i3;
    assert i5[..4] == i4 && i6[..5] == i5 && i7[..6] == i6;
    assert Catalog(i1) == map[];
    assert Catalog(i2) == map[];
    assert Catalog(i3) == map[];
    assert Catalog(i4) == map[];
    assert Catalog(i5) == map["owsianka" := Oats];
    assert Catalog(i6) == map["owsianka" := Oats, "banan" := Banana];
    assert items == i7;
  }

  /** After loading the sample, "OWSIANKA" and "oWsIaNkA" find the oats and
      "Pizza" finds nothing. */
  lemma SampleLookups(p: MarkdownParser.FoodDatabaseParser)
    requires p.cache == map["owsianka" := Oats, "banan" := Banana]
    ensures p.Lookup("OWSIANKA") == Some(Oats) && p.Lookup("oWsIaNkA") == Some(Oats) && p.Lookup("owsianka") == Some(Oats)
    ensures p.Lookup("Pizza") == None
  {
    LowerExamples();
  }

  lemma LowerExamples()
    ensures Lower("Owsianka") == "owsianka" && Lower("OWSIANKA") == "owsianka" && Lower("oWsIaNkA") == "owsianka"
    ensures Lower("owsianka") == "owsianka" && Lower("Banan") == "banan" && Lower("Pizza") == "pizza"
  {
    LowerOf("Owsianka", "owsianka");
    LowerOf("OWSIANKA", "owsianka");
    LowerOf("oWsIaNkA", "owsianka");
    LowerOf("owsianka", "owsianka");
    LowerOf("Banan", "banan");
    LowerOf("Pizza", "pizza");
  }

  lemma LowerOf(s: string, t: string)
    requires |s| == |t| && forall i :: 0 <= i < |s| ==> LowerChar(s[i]) == t[i]
    ensures Lower(s) == t
  {
  }
}
