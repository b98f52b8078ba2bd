/** Turning the `Genre` column into genre tokens: drop missing cells, split
    each remaining cell on `,`, flatten (pandas `explode`) and strip each
    piece. Empty pieces are kept. */
module Genres {
  import Headers
  import opened DataFrame

  /** `sep.join(parts)` in Python. */
  function Join(parts: seq<string>, sep: char): string
    decreases |parts|
  {
    if |parts| == 0 then ""
    else if |parts| == 1 then parts[0]
    else parts[0] + [sep] + Join(parts[1..], sep)
  }

  function Occurrences(s: string, c: char): nat
    decreases |s|
  {
    if s == [] then 0 else (if s[0] == c then 1 else 0) + Occurrences(s[1..], c)
  }

  /** Python's `s.split(sep)` for a one-character separator: a string with
      k separators falls into k + 1 separator-free pieces that join back
      to it; in particular `""` gives `[""]` and a trailing separator gives a
      trailing empty piece. */
  function Split(s: string, sep: char): (parts: seq<string>)
    ensures |parts| == Occurrences(s, sep) + 1
    ensures forall i :: 0 <= i < |parts| ==> sep !in parts[i]
    decreases |s|
  {
    if s == [] then [""]
    else
      var rest := Split(s[1..], sep);
      if s[0] == sep then
        [""] + rest
      else
        var parts := [[s[0]] + rest[0]] + rest[1..];
        assert parts[1..] == rest[1..];
        parts
  }

  /** Joining the pieces gives back the string that was split. */
  lemma {:induction false} JoinSplit(s: string, sep: char)
    ensures Join(Split(s, sep), sep) == s
    decreases |s|
  {
    if s != [] {
      JoinSplit(s[1..], sep);
      var rest := Split(s[1..], sep);
      var tail := s[1..];
      assert Join(rest, sep) == tail;
      if s[0] == sep {
        var parts := [""] + rest;
        assert Split(s, sep) == parts;
        assert parts[1..] == rest;
        assert Join(parts, sep) == "" + [sep] + tail;
      } else {
        var head := [s[0]] + rest[0];
        var parts := [head] + rest[1..];
        assert Split(s, sep) == parts;
        assert parts[1..] == rest[1..];
        if |rest| == 1 {
          assert Join(parts, sep) == head;
          assert Join(rest, sep) == rest[0];
        } else {
          var more := Join(rest[1..], sep);
          assert Join(parts, sep) == head + [sep] + more;
          assert Join(rest, sep) == rest[0] + [sep] + more;
          assert head + [sep] + more == [s[0]] + (rest[0] + [sep] + more);
        }
      }
      assert s == [s[0]] + tail;
    }
  }

  /** Splitting a separator-free prefix off: it lands at the front of the first piece. */
  lemma {:induction false} SplitFreePrefix(p: string, t: string, sep: char)
    requires sep !in p
    ensures Split(p + t, sep) == [p + Split(t, sep)[0]] + Split(t, sep)[1..]
    decreases |p|
  {
    var st := Split(t, sep);
    if p != [] {
      assert (p + t)[1..] == p[1..] + t;
      assert (p + t)[0] == p[0];
      SplitFreePrefix(p[1..], t, sep);
      var rest := Split(p[1..] + t, sep);
      assert rest[0] == p[1..] + st[0];
      assert rest[1..] == st[1..];
      assert Split(p + t, sep) == [[p[0]] + rest[0]] + rest[1..];
      assert [p[0]] + (p[1..] + st[0]) == p + st[0];
    } else {
      assert p + t == t;
      assert p + st[0] == st[0];
      assert st == [st[0]] + st[1..];
    }
  }

  /** Splitting undoes joining when no piece contains the separator. */
  lemma {:induction false} SplitJoin(parts: seq<string>, sep: char)
    requires |parts| >= 1
    requires forall i :: 0 <= i < |parts| ==> sep !in parts[i]
    ensures Split(Join(parts, sep), sep) == parts
    decreases |parts|
  {
    var p := parts[0];
    if |parts| == 1 {
      SplitFreePrefix(p, "", sep);
      assert Split("", sep) == [""];
      assert p + "" == p;
      assert Join(parts, sep) == p;
      assert parts == [p];
    } else {
      var j := Join(parts[1..], sep);
      SplitJoin(parts[1..], sep);
      assert Split([sep] + j, sep) == [""] + Split(j, sep) by {
        assert ([sep] + j)[1..] == j;
      }
      assert Join(parts, sep) == p + [sep] + j;
      assert p + [sep] + j == p + ([sep] + j);
      assert sep !in parts[0];
      SplitFreePrefix(p, [sep] + j, sep);
      var S := Split([sep] + j, sep);
      assert S[0] == "" && S[1..] == parts[1..];
      assert p + S[0] == p;
      assert parts == [p] + parts[1..];
    }
  }

  /** `.str.strip()` applied to every piece. */
  function StripAll(parts: seq<string>): (r: seq<string>)
    ensures |r| == |parts|
    ensures forall i :: 0 <= i < |parts| ==> r[i] == Headers.Strip(parts[i])
  {
    seq(|parts|, i requires 0 <= i < |parts| => Headers.Strip(parts[i]))
  }

  /** A token is what `.str.strip()` leaves of a comma-separated piece: no
      comma inside and no whitespace at either end (possibly empty). */
  predicate IsToken(t: string) {
    && ',' !in t
    && (t != [] ==> !Headers.IsSpace(t[0]) && !Headers.IsSpace(t[|t| - 1]))
  }

  /** The tokens one cell contributes: none for a missing cell (`dropna`),
      otherwise one per comma-separated piece, empty pieces included. */
  function CellTokens(cell: Option<string>): (r: seq<string>)
    ensures |r| == (match cell case None => 0 case Some(s) => Occurrences(s, ',') + 1)
    ensures forall i :: 0 <= i < |r| ==> IsToken(r[i])
    ensures cell.Some? ==> var parts := Split(cell.value, ',');
                           |r| == |parts| && forall i :: 0 <= i < |r| ==> Headers.StripsTo(parts[i], r[i])
  {
    match cell
    case None => []
    case Some(s) =>
      var parts := Split(s, ',');
      var r := StripAll(parts);
      assert forall i :: 0 <= i < |r| ==> IsToken(r[i]) by {
        forall i | 0 <= i < |r|
          ensures IsToken(r[i])
        {
          var lo :| Headers.StripsAt(parts[i], r[i], lo);
          assert forall k :: 0 <= k < |r[i]| ==> r[i][k] == parts[i][lo + k];
        }
      }
      r
  }

  /** A present cell's tokens are the stripped pieces of some cutting of the
      cell at every comma: pieces without commas that join back to it. */
  lemma CellTokensAreStrippedPieces(s: string)
    ensures var r := CellTokens(Some(s));
            exists pieces: seq<string> ::
              && |pieces| == |r|
              && Join(pieces, ',') == s
              && (forall i :: 0 <= i < |pieces| ==> ',' !in pieces[i])
              && (forall i :: 0 <= i < |r| ==> Headers.StripsTo(pieces[i], r[i]))
  {
    JoinSplit(s, ',');
    var pieces := Split(s, ',');
    assert Join(pieces, ',') == s;
  }

  /** Tokens a column is expected to yield: a present cell with k commas
      yields k + 1, a missing cell none. */
  function ExpectedTokenCount(cells: seq<Option<string>>): nat
    decreases |cells|
  {
    if cells == [] then 0
    else
      (match cells[0] case None => 0 case Some(s) => Occurrences(s, ',') + 1)
      + ExpectedTokenCount(cells[1..])
  }

  /** Lines 38-43: the flattened token sequence of the `Genre` column, in row order. */
  function Tokens(cells: seq<Option<string>>): (r: seq<string>)
    ensures |r| == ExpectedTokenCount(cells)
    ensures forall i :: 0 <= i < |r| ==> IsToken(r[i])
    ensures cells == [] ==> r == []
    ensures |cells| == 1 ==> r == CellTokens(cells[0])
    decreases |cells|
  {
    if cells == [] then []
    else
      var rest := Tokens(cells[1..]);
      assert |cells| == 1 ==> rest == [];
      CellTokens(cells[0]) + rest
  }

  /** Exploding works row by row: the tokens of two blocks of rows are the
      tokens of the first followed by those of the second. */
  lemma {:induction false} TokensAppend(a: seq<Option<string>>, b: seq<Option<string>>)
    ensures Tokens(a + b) == Tokens(a) + Tokens(b)
    decreases |a|
  {
    if a != [] {
      assert (a + b)[0] == a[0];
      assert (a + b)[1..] == a[1..] + b;
      TokensAppend(a[1..], b);
    } else {
      assert a + b == b;
    }
  }

  /** A present cell's tokens are its comma-separated pieces, each stripped. */
  lemma CellTokensOfPresent(s: string)
    ensures CellTokens(Some(s)) == StripAll(Split(s, ','))
  {
  }

  /** Tokens are counted, not records: `"Comedy, Comedy"` yields `Comedy` twice. */
  lemma RepeatedGenreExample()
    ensures CellTokens(Some("Comedy, Comedy")) == ["Comedy", "Comedy"]
  {
    SplitComedy();
    StripPair("Comedy", " Comedy");
    StripComedy();
    CellTokensOfPresent("Comedy, Comedy");
  }

  lemma SplitComedy()
    ensures Split("Comedy, Comedy", ',') == ["Comedy", " Comedy"]
  {
    var parts := ["Comedy", " Comedy"];
    assert Join(parts, ',') == "Comedy" + [','] + " Comedy";
    assert "Comedy" + [','] + " Comedy" == "Comedy, Comedy";
    assert ',' !in parts[0] && ',' !in parts[1];
    SplitJoin(parts, ',');
  }

  lemma StripPair(a: string, b: string)
    ensures StripAll([a, b]) == [Headers.Strip(a), Headers.Strip(b)]
  {
  }

  lemma StripComedy()
    ensures Headers.Strip("Comedy") == "Comedy"
    ensures Headers.Strip(" Comedy") == "Comedy"
  {
    var c := "Comedy";
    assert !Headers.IsSpace(c[0]) && !Headers.IsSpace(c[5]);
    Headers.StripKeepsTrimmed(c);
    var g := " Comedy";
    assert c == g[1..7];
    assert Headers.StripsAt(g, c, 1);
    Headers.StripsToUnique(g, Headers.Strip(g), c);
  }

  /** Empty pieces are kept: `"A,"` yields `A` and the empty token. */
  lemma TrailingCommaExample()
    ensures CellTokens(Some("A,")) == ["A", ""]
  {
    var parts := ["A", ""];
    assert Join(parts, ',') == "A,";
    SplitJoin(parts, ',');
    Headers.StripKeepsTrimmed("A");
    Headers.StripKeepsTrimmed("");
  }
}
