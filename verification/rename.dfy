/** The canonical-name table of the dashboard script and pandas'
    `DataFrame.rename(columns=...)`, which applies it to the header row. */
module Rename {
  import Headers

  /** The sixteen entries of the renaming table: seven truncated or garbled
      header names with their canonical names, and nine canonical names
      mapped to themselves. */
  const Aliases: map<string, string> := map[
    "Aired Date" := "Aired_Date",
    "Year of re" := "Year",
    "Original N" := "Network",
    "Aired On" := "Aired_On",
    "Number c" := "Num_Episodes",
    "Duration" := "Duration",
    "Content R" := "Content_Rating",
    "Rating" := "Rating",
    "Synopsis" := "Synopsis",
    "Genre" := "Genre",
    "Tags" := "Tags",
    "Director" := "Director",
    "Screenwri" := "Screenwriter",
    "Cast" := "Cast",
    "Production" := "Production",
    "Rank" := "Rank"
  ]

  /** One label under `rename`: a key of the table is replaced by its value,
      any other label passes through. */
  function RenameLabel(name: string): string {
    if name in Aliases then Aliases[name] else name
  }

  /** `rename(columns=Aliases)` on a header row: same number of columns, same
      order, each table key replaced by its canonical name and every other
      label left as it was. */
  function RenameColumns(labels: seq<string>): (r: seq<string>)
    ensures |r| == |labels|
    ensures forall i :: 0 <= i < |labels| && labels[i] in Aliases ==> r[i] == Aliases[labels[i]]
    ensures forall i :: 0 <= i < |labels| && labels[i] !in Aliases ==> r[i] == labels[i]
  {
    seq(|labels|, i requires 0 <= i < |labels| => RenameLabel(labels[i]))
  }

  /** Every canonical name that is itself a key of the table maps to itself. */
  lemma AliasTargetsAreFixed()
    ensures forall k :: k in Aliases && Aliases[k] in Aliases ==> Aliases[Aliases[k]] == Aliases[k]
  {
  }

  /** Renaming a second time changes nothing. */
  lemma RenameIdempotent(labels: seq<string>)
    ensures RenameColumns(RenameColumns(labels)) == RenameColumns(labels)
  {
    AliasTargetsAreFixed();
  }

  /** No two keys share a canonical name. */
  lemma AliasesInjective()
    ensures forall a, b :: a in Aliases && b in Aliases && a != b ==> Aliases[a] != Aliases[b]
  {
  }

  /** Which labels a cleaned header (one without `_`) must have had to end up
      with each of the names the rest of the script reads. */
  lemma RenamePreimages(a: string)
    requires '_' !in a
    ensures RenameLabel(a) == "Genre" <==> a == "Genre"
    ensures RenameLabel(a) == "Rating" <==> a == "Rating"
    ensures RenameLabel(a) == "Num_Episodes" <==> a == "Number c"
    ensures RenameLabel(a) == "Year" <==> a == "Year of re" || a == "Year"
  {
    assert "Num_Episodes"[3] == '_';
  }

  /** The line 36 guard sees a `Genre` column after renaming exactly when the
      header row had one before: only `Genre` itself is renamed to `Genre`. */
  lemma GenreSurvivesRename(labels: seq<string>)
    ensures "Genre" in RenameColumns(labels) <==> "Genre" in labels
  {
    var r := RenameColumns(labels);
    if "Genre" in r {
      var i :| 0 <= i < |r| && r[i] == "Genre";
      assert labels[i] == "Genre";
    }
    if "Genre" in labels {
      var i :| 0 <= i < |labels| && labels[i] == "Genre";
      assert r[i] == "Genre";
    }
  }

  /** Two different cleaned headers (no `_`) that get the same name after
      renaming are one of three pairs: a truncated name next to the full one. */
  lemma RenameCollisions(a: string, b: string)
    requires '_' !in a && '_' !in b
    requires a != b && RenameLabel(a) == RenameLabel(b)
    ensures || {a, b} == {"Year of re", "Year"}
            || {a, b} == {"Original N", "Network"}
            || {a, b} == {"Screenwri", "Screenwriter"}
  {
    AliasesInjective();
    assert "Aired_Date"[5] == '_';
    assert "Aired_On"[5] == '_';
    assert "Num_Episodes"[3] == '_';
    assert "Content_Rating"[7] == '_';
  }

  /** The collision is real: both spellings of the year column become `Year`. */
  lemma YearCollides()
    ensures RenameColumns(["Year of re", "Year"]) == ["Year", "Year"]
  {
  }

  /** The four headers the script reads, as a well-formed file spells them. */
  lemma RenameCanonicalRow()
    ensures RenameColumns(["Rating", "Number c", "Year", "Genre"]) == ["Rating", "Num_Episodes", "Year", "Genre"]
  {
  }
}
