/** The part of a pandas DataFrame the dashboard script touches: an ordered
    list of labelled columns, and column selection by label. */
module DataFrame {

  /** A cell after loading: `None` for a missing value, otherwise its text. */
  datatype Option<+T> = None | Some(value: T)

  datatype Column = Column(name: string, cells: seq<Option<string>>)

  /** Columns in header order; labels may repeat, as they may in pandas. */
  type Frame = seq<Column>

  /** `df.columns`. */
  function Labels(df: Frame): (r: seq<string>)
    ensures |r| == |df|
    ensures forall i :: 0 <= i < |df| ==> r[i] == df[i].name
  {
    seq(|df|, i requires 0 <= i < |df| => df[i].name)
  }

  /** What `df[name]` yields: nothing (pandas raises `KeyError`), the one
      column carrying that label as a Series, or, when the label repeats, a
      sub-DataFrame on which Series operations are not available. */
  datatype Selection = Absent | Series(cells: seq<Option<string>>) | SubFrame

  /** `df[name]`. */
  function Select(df: Frame, name: string): (r: Selection)
    ensures r.Absent? <==> name !in Labels(df)
    ensures r.Series? <==> multiset(Labels(df))[name] == 1
    ensures r.SubFrame? <==> multiset(Labels(df))[name] >= 2
    ensures r.Series? ==> exists i :: 0 <= i < |df| && df[i].name == name && df[i].cells == r.cells
    decreases |df|
  {
    if df == [] then Absent
    else
      assert Labels(df) == [df[0].name] + Labels(df[1..]);
      var rest := Select(df[1..], name);
      if df[0].name != name then
        assert rest.Series? ==> exists i :: 1 <= i < |df| && df[i].name == name && df[i].cells == rest.cells;
        rest
      else if rest.Absent? then Series(df[0].cells)
      else SubFrame
  }
}
