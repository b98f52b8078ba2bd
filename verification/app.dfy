/** The dashboard script from the loaded table onwards: clean and rename the
    header row, look up the three numeric columns, and, when a `Genre`
    column exists, build the genre frequency table for the bar chart. That
    last step is reached only by the script with its Streamlit and Plotly
    imports (`Run`); as written it stops at line 33 (`RunAsWritten`). */
module App {
  import Headers
  import Rename
  import opened DataFrame
  import Genres
  import Counts

  /** Exceptions the script can stop with. */
  datatype Failure =
    /** `df[name]` on a label the header row does not have. */
    | KeyError(key: string)
    /** `df[name]` on a repeated label gives a DataFrame: `pd.to_numeric`
        raises `TypeError` on it and it has no `.str` accessor. */
    | NotASeries(key: string)
    /** A module name used without having been imported. */
    | NameError(identifier: string)

  datatype Outcome =
    /** The (`Genre`, `Count`) table handed to the bar chart. */
    | GenreChart(table: seq<Counts.GenreCount>)
    /** The `Genre column not found!` branch. */
    | GenreColumnNotFound
    | Raised(failure: Failure)

  /** Lines 6 and 9-26: every label cleaned, then renamed; the cells stay
      where they were. */
  function Normalize(df: Frame): (r: Frame)
    ensures |r| == |df|
    ensures forall i :: 0 <= i < |df| ==> r[i].cells == df[i].cells
    ensures Labels(r) == Rename.RenameColumns(Headers.CleanHeaders(Labels(df)))
  {
    seq(|df|, i requires 0 <= i < |df| =>
      Column(Rename.RenameLabel(Headers.CleanHeader(df[i].name)), df[i].cells))
  }

  /** The columns lines 29-31 convert, in the order they are converted. */
  const NumericColumns: seq<string> := ["Rating", "Num_Episodes", "Year"]

  /** Position of the first of `names` that does not select exactly one
      column, or `|names|` when each of them does. */
  function FirstUnselectable(df: Frame, names: seq<string>): (k: nat)
    ensures k <= |names|
    ensures forall j :: 0 <= j < k ==> multiset(Labels(df))[names[j]] == 1
    ensures k < |names| ==> multiset(Labels(df))[names[k]] != 1
    decreases |names|
  {
    if names == [] then 0
    else if multiset(Labels(df))[names[0]] != 1 then 0
    else
      var k := FirstUnselectable(df, names[1..]);
      assert forall j :: 1 <= j < k + 1 ==> names[j] == names[1..][j - 1];
      k + 1
  }

  /** The exception, if any, that selecting `names` one after the other
      raises: the first label that is missing or repeated decides it. */
  function SelectionFailure(df: Frame, names: seq<string>): (f: Option<Failure>)
    ensures f == None <==> forall k :: 0 <= k < |names| ==> multiset(Labels(df))[names[k]] == 1
    ensures f.Some? ==> exists k :: && 0 <= k < |names|
                                   && (forall j :: 0 <= j < k ==> multiset(Labels(df))[names[j]] == 1)
                                   && multiset(Labels(df))[names[k]] != 1
                                   && f.value == (if names[k] in Labels(df) then NotASeries(names[k]) else KeyError(names[k]))
  {
    var k := FirstUnselectable(df, names);
    if k == |names| then None
    else
      match Select(df, names[k])
      case Absent => Some(KeyError(names[k]))
      case SubFrame => Some(NotASeries(names[k]))
  }

  /** When the first name selects one column and the second is missing,
      the second selection raises `KeyError`. */
  lemma SecondNameMissing(df: Frame, names: seq<string>)
    requires |names| >= 2
    requires multiset(Labels(df))[names[0]] == 1
    requires names[1] !in Labels(df)
    ensures SelectionFailure(df, names) == Some(KeyError(names[1]))
  {
    var f := SelectionFailure(df, names);
    assert f.Some?;
    var k :| && 0 <= k < |names|
             && (forall j :: 0 <= j < k ==> multiset(Labels(df))[names[j]] == 1)
             && multiset(Labels(df))[names[k]] != 1
             && f.value == (if names[k] in Labels(df) then NotASeries(names[k]) else KeyError(names[k]));
    assert k == 1;
  }

  /** The genre step of lines 36-47 on a normalized table. */
  function GenreStep(d: Frame): (o: Outcome)
    ensures o == GenreColumnNotFound <==> "Genre" !in Labels(d)
    ensures o.GenreChart? <==> multiset(Labels(d))["Genre"] == 1
    ensures o.Raised? ==> o.failure == NotASeries("Genre")
    ensures o.GenreChart? ==> exists i :: && 0 <= i < |d| && d[i].name == "Genre"
                                         && Counts.IsFrequencyTable(Genres.Tokens(d[i].cells), o.table)
  {
    if "Genre" !in Labels(d) then GenreColumnNotFound
    else
      match Select(d, "Genre")
      case Series(cells) => GenreChart(Counts.ValueCounts(Genres.Tokens(cells)))
      case _ => Raised(NotASeries("Genre"))
  }

  /** The script with `streamlit` imported as `st` and `plotly.express` as
      `px`, the rendering calls left to those libraries. */
  function Run(df: Frame): (o: Outcome)
    ensures SelectionFailure(Normalize(df), NumericColumns).Some? ==>
              o == Raised(SelectionFailure(Normalize(df), NumericColumns).value)
    ensures SelectionFailure(Normalize(df), NumericColumns) == None ==> o == GenreStep(Normalize(df))
    ensures o.GenreChart? ==> exists i :: && 0 <= i < |df| && Headers.CleanHeader(df[i].name) == "Genre"
                                         && Counts.IsFrequencyTable(Genres.Tokens(df[i].cells), o.table)
  {
    var d := Normalize(df);
    match SelectionFailure(d, NumericColumns)
    case Some(f) => Raised(f)
    case None =>
      GenreColumnOfRawTable(df);
      GenreStep(d)
  }

  /** The column the genre table is built from is the one whose raw header
      cleans to `Genre`. */
  lemma GenreColumnOfRawTable(df: Frame)
    ensures GenreStep(Normalize(df)).GenreChart? ==>
              exists i :: && 0 <= i < |df| && Headers.CleanHeader(df[i].name) == "Genre"
                          && Counts.IsFrequencyTable(Genres.Tokens(df[i].cells), GenreStep(Normalize(df)).table)
  {
    var d := Normalize(df);
    var o := GenreStep(d);
    if o.GenreChart? {
      var i :| && 0 <= i < |d| && d[i].name == "Genre"
               && Counts.IsFrequencyTable(Genres.Tokens(d[i].cells), o.table);
      CleanedHasNoUnderscore(df[i].name);
      Rename.RenamePreimages(Headers.CleanHeader(df[i].name));
      assert Headers.CleanHeader(df[i].name) == "Genre";
    }
  }

  /** The script as it stands: neither `st` nor `px` is imported, so once
      lines 29-31 have run, line 33 stops it with a `NameError`. */
  function RunAsWritten(df: Frame): (o: Outcome)
    ensures o.Raised?
    ensures SelectionFailure(Normalize(df), NumericColumns) == None ==> o == Raised(NameError("st"))
  {
    var d := Normalize(df);
    match SelectionFailure(d, NumericColumns)
    case Some(f) => Raised(f)
    case None => Raised(NameError("st"))
  }

  /** Whenever the script with its imports would draw the genre chart, the
      script as written has already stopped at line 33; on every input where
      the intended script raises, both raise the same exception. */
  lemma AsWrittenNeverCharts(df: Frame)
    ensures Run(df).GenreChart? ==> RunAsWritten(df) == Raised(NameError("st"))
    ensures Run(df).Raised? && Run(df).failure != NotASeries("Genre") ==> RunAsWritten(df) == Run(df)
  {
  }

  lemma CleanedHasNoUnderscore(h: string)
    ensures '_' !in Headers.CleanHeader(h)
  {
    var c := Headers.CleanHeader(h);
    assert forall i :: 0 <= i < |c| ==> c[i] != '_' by {
      forall i | 0 <= i < |c|
        ensures c[i] != '_'
      {
        assert Headers.Kept(c[i]);
      }
    }
  }

  /** The line 36 guard on the loaded table: a column is called `Genre`
      after renaming exactly when some header cleans to `Genre`. */
  lemma GenreGuard(df: Frame)
    ensures "Genre" in Labels(Normalize(df)) <==> exists i :: 0 <= i < |df| && Headers.CleanHeader(df[i].name) == "Genre"
  {
    var cleaned := Headers.CleanHeaders(Labels(df));
    Rename.GenreSurvivesRename(cleaned);
    if "Genre" in cleaned {
      var i :| 0 <= i < |cleaned| && cleaned[i] == "Genre";
      assert Headers.CleanHeader(df[i].name) == "Genre";
    }
  }

  /** Without a header that cleans to `Number c`, there is no
      `Num_Episodes` column, and once `Rating` has been found line 30 raises
      `KeyError`. */
  lemma MissingEpisodesColumn(df: Frame)
    requires multiset(Labels(Normalize(df)))["Rating"] == 1
    requires forall i :: 0 <= i < |df| ==> Headers.CleanHeader(df[i].name) != "Number c"
    ensures Run(df) == Raised(KeyError("Num_Episodes"))
  {
    var d := Normalize(df);
    NoEpisodesColumn(df);
    SecondNameMissing(d, NumericColumns);
  }

  lemma NoEpisodesColumn(df: Frame)
    requires forall i :: 0 <= i < |df| ==> Headers.CleanHeader(df[i].name) != "Number c"
    ensures "Num_Episodes" !in Labels(Normalize(df))
  {
    var d := Normalize(df);
    forall i | 0 <= i < |d|
      ensures d[i].name != "Num_Episodes"
    {
      CleanedHasNoUnderscore(df[i].name);
      Rename.RenamePreimages(Headers.CleanHeader(df[i].name));
    }
  }

  /** A table on which the two scripts differ: the intended one draws the
      genre chart, the one as written raises `NameError` first. */
  lemma NameErrorExample()
    ensures var df := [Column("Rating", []), Column("Number c", []), Column("Year", []), Column("Genre", [Some("Drama")])];
            Run(df).GenreChart? && RunAsWritten(df) == Raised(NameError("st"))
  {
    var df := [Column("Rating", []), Column("Number c", []), Column("Year", []), Column("Genre", [Some("Drama")])];
    ExampleLabels(df);
    CanonicalRowCharts(Normalize(df));
  }

  lemma ExampleLabels(df: Frame)
    requires Labels(df) == ["Rating", "Number c", "Year", "Genre"]
    ensures Labels(Normalize(df)) == ["Rating", "Num_Episodes", "Year", "Genre"]
  {
    var labels := Labels(df);
    forall i | 0 <= i < |labels|
      ensures Headers.CleanHeader(labels[i]) == labels[i]
    {
      CleanUnchanged(labels[i]);
    }
    CleanedRowUnchanged(labels);
    Rename.RenameCanonicalRow();
  }

  /** Cleanup leaves a header row alone when it leaves each header alone. */
  lemma CleanedRowUnchanged(labels: seq<string>)
    requires forall i :: 0 <= i < |labels| ==> Headers.CleanHeader(labels[i]) == labels[i]
    ensures Headers.CleanHeaders(labels) == labels
  {
  }

  lemma CleanUnchanged(x: string)
    requires x in {"Rating", "Number c", "Year", "Genre"}
    ensures Headers.CleanHeader(x) == x
  {
    KeptWord(x);
    Headers.CleanFixes(x);
  }

  lemma KeptWord(x: string)
    requires x in {"Rating", "Number c", "Year", "Genre"}
    ensures Headers.AllKept(x) && x[0] != ' ' && x[|x| - 1] != ' '
  {
  }

  /** A table whose columns are exactly the four the script reads gets past
      lines 29-31 and reaches the chart. */
  lemma CanonicalRowCharts(d: Frame)
    requires Labels(d) == ["Rating", "Num_Episodes", "Year", "Genre"]
    ensures SelectionFailure(d, NumericColumns) == None
    ensures GenreStep(d).GenreChart?
  {
    assert multiset(Labels(d)) == multiset{"Rating", "Num_Episodes", "Year", "Genre"};
  }
}
