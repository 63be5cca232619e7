/**
 * The two legends of `addLegends`: one row per grade of a fixed grade list,
 * each row a colour swatch `bucket(grade + 1)` and a label `grade–next`
 * (`grade+` when there is no next grade). The colour scale is a parameter,
 * as `getColor` and `getCityColor` are parameters of `addLegends`.
 */
module Legend {
  import opened Buckets
  import opened Wrappers
  import Cities

  /** The grades of the country legend. */
  const CountryGrades: seq<int> := [0, 10, 20, 50, 100, 200]

  /** The grades of the city legend. */
  const CityGrades: seq<int> := [10, 20, 50, 100]

  /** One legend row: the swatch colour and the text after it. */
  datatype LegendRow = LegendRow(color: string, text: string)

  /** The decimal digit character for `d`. */
  function DigitChar(d: nat): char
    requires d < 10
  {
    "0123456789"[d]
  }

  /** The value of a decimal digit character. */
  function DigitValue(c: char): int
  {
    c as int - '0' as int
  }

  /** The decimal digits of `n`, most significant first, without leading zeros. */
  function Digits(n: nat): (s: string)
    ensures |s| > 0
    ensures forall i :: 0 <= i < |s| ==> '0' <= s[i] <= '9'
    decreases n
  {
    if n < 10 then [DigitChar(n)] else Digits(n / 10) + [DigitChar(n % 10)]
  }

  /** The number a string of decimal digits denotes. */
  function DigitsValue(s: string): int
  {
    if s == [] then 0 else DigitsValue(s[..|s| - 1]) * 10 + DigitValue(s[|s| - 1])
  }

  /**
   * JavaScript's conversion of an integer to text in a template literal, for
   * integers of magnitude below 10^21 (larger ones print in exponent form).
   */
  function Decimal(n: int): (s: string)
    ensures |s| > 0
  {
    if n < 0 then "-" + Digits(-n) else Digits(n)
  }

  /** The digits of `n` read back as a number give `n`: the label shows the grade itself. */
  lemma {:induction false} DigitsRoundTrip(n: nat)
    ensures DigitsValue(Digits(n)) == n
  {
    if n >= 10 {
      DigitsRoundTrip(n / 10);
      var s := Digits(n);
      assert s[..|s| - 1] == Digits(n / 10);
      assert DigitValue(s[|s| - 1]) == n % 10;
    } else {
      assert DigitValue(DigitChar(n)) == n;
    }
  }

  /**
   * The label of row `i`: the grade, then `&ndash;` and the next grade when the
   * next grade is truthy (present and not 0), otherwise `+`.
   */
  function Label(grades: seq<int>, i: nat): string
    requires i < |grades|
  {
    Decimal(grades[i]) + if i + 1 < |grades| && grades[i + 1] != 0 then "&ndash;" + Decimal(grades[i + 1]) else "+"
  }

  /** The row the loop appends for grade `i`. */
  function RowAt(grades: seq<int>, bucket: int -> string, i: nat): LegendRow
    requires i < |grades|
  {
    LegendRow(bucket(grades[i] + 1), Label(grades, i))
  }

  /** All rows of a legend, in grade order. */
  function LegendRows(grades: seq<int>, bucket: int -> string): seq<LegendRow>
  {
    seq(|grades|, i requires 0 <= i < |grades| => RowAt(grades, bucket, i))
  }

  /** The swatch colours of a legend, top to bottom. */
  function Colors(rows: seq<LegendRow>): seq<string>
  {
    seq(|rows|, i requires 0 <= i < |rows| => rows[i].color)
  }

  /** A sequence holding row `i` of the legend at each index `i` is the whole legend. */
  lemma RowsAreLegendRows(grades: seq<int>, bucket: int -> string, rows: seq<LegendRow>)
    requires |rows| == |grades|
    requires forall i :: 0 <= i < |grades| ==> rows[i] == RowAt(grades, bucket, i)
    ensures rows == LegendRows(grades, bucket)
  {
    var spec := LegendRows(grades, bucket);
    forall i | 0 <= i < |grades| ensures rows[i] == spec[i] {
      assert spec[i] == RowAt(grades, bucket, i);
    }
  }

  /** The `for` loop of a legend's `onAdd`, appending one row per grade. */
  method BuildLegend(grades: seq<int>, bucket: int -> string) returns (rows: seq<LegendRow>)
    ensures rows == LegendRows(grades, bucket)
  {
    rows := [];
    var i := 0;
    while i < |grades|
      invariant 0 <= i <= |grades|
      invariant |rows| == i
      invariant forall j :: 0 <= j < i ==> rows[j] == RowAt(grades, bucket, j)
    {
      var next := if i + 1 < |grades| && grades[i + 1] != 0 then "&ndash;" + Decimal(grades[i + 1]) else "+";
      var row := LegendRow(bucket(grades[i] + 1), Decimal(grades[i]) + next);
      assert row == RowAt(grades, bucket, i);
      rows := rows + [row];
      i := i + 1;
    }
    RowsAreLegendRows(grades, bucket, rows);
  }

  /**
   * Over ascending grades starting at 0 or above, every row but the last is a
   * closed range `grade&ndash;next` and the last is open-ended `grade+`.
   */
  lemma LegendLabels(grades: seq<int>)
    requires Ascending(grades) && |grades| > 0 && grades[0] >= 0
    ensures forall i :: 0 <= i < |grades| - 1 ==>
              Label(grades, i) == Decimal(grades[i]) + "&ndash;" + Decimal(grades[i + 1])
    ensures Label(grades, |grades| - 1) == Decimal(grades[|grades| - 1]) + "+"
  {
    forall i | 0 <= i < |grades| - 1
      ensures Label(grades, i) == Decimal(grades[i]) + "&ndash;" + Decimal(grades[i + 1])
    {
      assert grades[0] <= grades[i] < grades[i + 1];
    }
  }

  /**
   * The country legend shows the six `getColor` colours, lowest bucket first,
   * each once.
   */
  lemma CountryLegendColors()
    ensures Colors(LegendRows(CountryGrades, CountryColor)) == CountryPalette
    ensures Distinct(Colors(LegendRows(CountryGrades, CountryColor)))
  {
    PalettesDistinct();
  }

  /**
   * The city legend shows the four `getCityColor` colours a drawn marker can
   * have (every bucket but the lowest), each once.
   */
  lemma CityLegendColors()
    ensures Colors(LegendRows(CityGrades, CityColor)) == CityPalette[1..]
    ensures Distinct(Colors(LegendRows(CityGrades, CityColor)))
  {
    PalettesDistinct();
  }

  /**
   * The country legend tells the truth: a count above a row's grade and up to
   * the next grade gets that row's colour, and so does any count above the last
   * grade. The first row, `0&ndash;10`, also covers every count at or below 0,
   * among them the default count 0 of a country missing from the table.
   * Adjacent labels share their boundary grade; that count takes the colour of
   * the lower row.
   */
  lemma CountryLegendTruthful(i: nat, d: int)
    requires i < |CountryGrades|
    requires (i == 0 || CountryGrades[i] < d) && (i + 1 < |CountryGrades| ==> d <= CountryGrades[i + 1])
    ensures CountryColor(d) == LegendRows(CountryGrades, CountryColor)[i].color
  {
    CountryBands(d);
    CountryBands(CountryGrades[i] + 1);
  }

  /**
   * The city legend tells the truth for `getCityColor`: a count above a row's
   * grade and up to the next grade gets that row's colour, and so does any
   * count above the last grade. Counts at or below 10 have no row, as no
   * marker is drawn for them; a shared boundary grade takes the lower row's
   * colour.
   */
  lemma CityLegendTruthful(i: nat, d: int)
    requires i < |CityGrades|
    requires CityGrades[i] < d && (i + 1 < |CityGrades| ==> d <= CityGrades[i + 1])
    ensures CityColor(d) == LegendRows(CityGrades, CityColor)[i].color
  {
    CityBands(d);
    CityBands(CityGrades[i] + 1);
  }

  /** The city legend explains every marker: each marker's colour is one of its swatches. */
  lemma MarkerColorInCityLegend<C>(order: seq<string>, counts: map<string, int>,
                                   coords: map<string, Option<C>>, m: Cities.Marker<C>)
    requires forall k :: k in order ==> k in counts
    requires m in Cities.Markers(order, counts, coords)
    ensures m.color in Colors(LegendRows(CityGrades, CityColor))
  {
    Cities.MarkersExactly(order, counts, coords);
    CityLegendColors();
    CityBands(m.count);
  }

  /** The label texts of both legends. */
  lemma LegendText()
    ensures Label(CountryGrades, 0) == "0&ndash;10" && Label(CountryGrades, 5) == "200+"
    ensures Label(CityGrades, 0) == "10&ndash;20" && Label(CityGrades, 3) == "100+"
  {
    assert Decimal(0) == "0";
    assert Decimal(10) == "10" by { assert Digits(10) == Digits(1) + "0"; }
    assert Decimal(20) == "20" by { assert Digits(20) == Digits(2) + "0"; }
    assert Decimal(100) == "100" by { assert Digits(10) == "10"; assert Digits(100) == Digits(10) + "0"; }
    assert Decimal(200) == "200" by { assert Digits(20) == "20"; assert Digits(200) == Digits(20) + "0"; }
    assert Label(CountryGrades, 0) == Decimal(0) + "&ndash;" + Decimal(10);
    assert Label(CountryGrades, 5) == Decimal(200) + "+";
    assert Label(CityGrades, 0) == Decimal(10) + "&ndash;" + Decimal(20);
    assert Label(CityGrades, 3) == Decimal(100) + "+";
    assert "0" + "&ndash;" + "10" == "0&ndash;10";
    assert "10" + "&ndash;" + "20" == "10&ndash;20";
    assert "200" + "+" == "200+" && "100" + "+" == "100+";
  }
}
