/**
 * Cross-VPU id stitching (scripts/7_add_nat_hru_id.py): the per-VPU
 * parameter files of one source type are ordered by a token of their name,
 * each gets a national HRU id (its `hru_id` shifted by the number of rows
 * before it) and a `vpu` column, is rewritten in place, and all are
 * concatenated into one merged table.
 */
module Stitch {
  import opened Core
  import Sorting

  /** A CSV cell as pandas reads it. */
  datatype Cell = Int(i: int) | Num(x: real) | Text(s: string)

  /** Column order and rows; a row without a key holds a missing value there. */
  datatype Table = Table(columns: seq<string>, rows: seq<map<string, Cell>>)

  /** A file of the input directory with its content. */
  datatype Entry = Entry(name: string, table: Table)

  // ---------------------------------------------------------------------
  // File selection and order
  // ---------------------------------------------------------------------

  function Prefix(sourceType: string): string
  {
    "base_nhm_" + sourceType + "_"
  }

  const Suffix: string := "_param.csv"

  /** `glob("base_nhm_{source_type}_*_param.csv")`. */
  predicate Matches(name: string, sourceType: string)
  {
    IsPrefix(Prefix(sourceType), name) && IsSuffix(Suffix, name) && |name| >= |Prefix(sourceType)| + |Suffix|
  }

  /** `Path.stem` of a `.csv` name. */
  function Stem(name: string): string
  {
    if IsSuffix(".csv", name) then name[..|name| - 4] else name
  }

  /** `stem.split("_")[3]`, the sort key and the `vpu` label. */
  function Token(name: string): (t: string)
    ensures '_' !in t
    ensures |Split(Stem(name), '_')| > 3 ==> t in Split(Stem(name), '_')
  {
    var parts := Split(Stem(name), '_');
    if |parts| > 3 then parts[3] else ""
  }

  /** Every matched name has a fourth token, so the index never fails. */
  lemma MatchedNameHasToken(name: string, sourceType: string)
    requires Matches(name, sourceType)
    ensures |Split(Stem(name), '_')| > 3
  {
    var p := Prefix(sourceType);
    var stem := Stem(name);
    assert IsSuffix(".csv", name) by {
      assert name[|name| - 4..] == Suffix[6..];
    }
    assert stem == p + stem[|p|..];
    CountAppend(p, stem[|p|..], '_');
    assert p == "base" + "_" + "nhm" + "_" + sourceType + "_";
    CountAppend("base" + "_" + "nhm" + "_" + sourceType, "_", '_');
    CountAppend("base" + "_" + "nhm" + "_", sourceType, '_');
    CountAppend("base" + "_" + "nhm", "_", '_');
    CountAppend("base" + "_", "nhm", '_');
    CountAppend("base", "_", '_');
    SplitCount(stem, '_');
  }

  /** A piece without `_` followed by `_` splits off as the first part. */
  lemma SplitFirst(a: string, rest: string)
    requires '_' !in a
    ensures Split(a + "_" + rest, '_') == [a] + Split(rest, '_')
  {
    assert a + "_" + rest == a + ['_'] + rest;
    SplitAround(a, rest, '_');
    SplitNoSeparator(a, '_');
  }

  /** Splitting `a_b_c_d_rest` where a, b, c, d hold no `_`. */
  lemma FourthPiece(a: string, b: string, c: string, d: string, rest: string)
    requires '_' !in a && '_' !in b && '_' !in c && '_' !in d
    ensures var parts := Split(a + "_" + b + "_" + c + "_" + d + "_" + rest, '_');
      |parts| > 4 && parts[..4] == [a, b, c, d]
  {
    var s3 := d + "_" + rest;
    var s2 := c + "_" + s3;
    var s1 := b + "_" + s2;
    assert a + "_" + b + "_" + c + "_" + d + "_" + rest == a + "_" + s1;
    SplitFirst(a, s1);
    SplitFirst(b, s2);
    SplitFirst(c, s3);
    SplitFirst(d, rest);
    var parts := [a] + ([b] + ([c] + ([d] + Split(rest, '_'))));
    assert parts[..4] == [a, b, c, d];
  }

  function FileName(sourceType: string, vpu: string): string
  {
    "base_nhm_" + sourceType + "_" + vpu + "_param.csv"
  }

  lemma StemOfFileName(sourceType: string, vpu: string)
    ensures Stem(FileName(sourceType, vpu)) == "base_nhm_" + sourceType + "_" + vpu + "_param"
  {
    var n := FileName(sourceType, vpu);
    assert n == ("base_nhm_" + sourceType + "_" + vpu + "_param") + ".csv";
  }

  /** When neither the source type nor the VPU holds `_`, the token is the VPU. */
  lemma TokenIsVpu(sourceType: string, vpu: string)
    requires '_' !in sourceType && '_' !in vpu
    ensures Token(FileName(sourceType, vpu)) == vpu
  {
    StemOfFileName(sourceType, vpu);
    assert "base_nhm_" + sourceType + "_" + vpu + "_param" == "base" + "_" + "nhm" + "_" + sourceType + "_" + vpu + "_" + "param";
    FourthPiece("base", "nhm", sourceType, vpu, "param");
  }

  /** For `soil_moist_max` the token is "moist" whatever the VPU. */
  lemma TokenOfSoilMoistMax(vpu: string)
    ensures Token(FileName("soil_moist_max", vpu)) == "moist"
  {
    var rest := "max_" + vpu + "_param";
    StemOfFileName("soil_moist_max", vpu);
    assert "base_nhm_" + "soil_moist_max" + "_" + vpu + "_param" == "base_nhm_soil_moist_" + rest by {
      assert "base_nhm_" + "soil_moist_max" + "_" == "base_nhm_soil_moist_" + "max_";
    }
    assert "base" + "_" + "nhm" + "_" + "soil" + "_" + "moist" + "_" == "base_nhm_soil_moist_";
    FourthPiece("base", "nhm", "soil", "moist", rest);
  }

  function Select(listing: seq<Entry>, sourceType: string): (r: seq<Entry>)
    ensures forall e :: e in r <==> e in listing && Matches(e.name, sourceType)
    ensures multiset(r) <= multiset(listing)
    decreases |listing|
  {
    if |listing| == 0 then []
    else
      var rest := Select(listing[1..], sourceType);
      assert listing == [listing[0]] + listing[1..];
      if Matches(listing[0].name, sourceType) then [listing[0]] + rest else rest
  }

  function ByToken(a: Entry, b: Entry): bool
  {
    LexLeq(Token(a.name), Token(b.name))
  }

  lemma ByTokenIsTotalPreorder()
    ensures Sorting.TotalPreorder(ByToken)
  {
    forall a: Entry, b: Entry
      ensures ByToken(a, b) || ByToken(b, a)
    {
      LexTotal(Token(a.name), Token(b.name));
    }
    forall a: Entry, b: Entry, c: Entry | ByToken(a, b) && ByToken(b, c)
      ensures ByToken(a, c)
    {
      LexTransitive(Token(a.name), Token(b.name), Token(c.name));
    }
  }

  /**
   * The matched files in ascending token order; files with the same token
   * keep their directory order (`sorted` is stable).
   */
  function Ordered(listing: seq<Entry>, sourceType: string): (files: seq<Entry>)
    ensures multiset(files) == multiset(Select(listing, sourceType))
    ensures forall e :: e in files <==> e in listing && Matches(e.name, sourceType)
    ensures forall i, j :: 0 <= i < j < |files| ==> LexLeq(Token(files[i].name), Token(files[j].name))
    ensures forall e :: Sorting.Tied(files, e, ByToken) == Sorting.Tied(Select(listing, sourceType), e, ByToken)
  {
    ByTokenIsTotalPreorder();
    var files := Sorting.SortBy(Select(listing, sourceType), ByToken);
    Sorting.SortByIsStable(Select(listing, sourceType), ByToken);
    assert forall e :: e in files <==> e in multiset(files);
    files
  }

  /** A matched name is the file name of the part between prefix and suffix. */
  lemma MatchedNameIsFileName(name: string, sourceType: string)
    requires Matches(name, sourceType)
    ensures name == FileName(sourceType, name[|Prefix(sourceType)|..|name| - |Suffix|])
  {
    var p := Prefix(sourceType);
    var mid := name[|p|..|name| - |Suffix|];
    assert name == name[..|p|] + mid + name[|name| - |Suffix|..];
    assert FileName(sourceType, mid) == p + mid + Suffix;
  }

  /** When every matched file has the same token, the order is the directory order. */
  lemma OneTokenKeepsListingOrder(listing: seq<Entry>, sourceType: string, t: string)
    requires forall e :: e in listing && Matches(e.name, sourceType) ==> Token(e.name) == t
    ensures Ordered(listing, sourceType) == Select(listing, sourceType)
  {
    var sel := Select(listing, sourceType);
    var files := Ordered(listing, sourceType);
    if |sel| == 0 {
      assert |files| == |multiset(files)| == 0;
    } else {
      var y := sel[0];
      LexTotal(t, t);
      forall k | 0 <= k < |sel|
        ensures ByToken(y, sel[k]) && ByToken(sel[k], y)
      {
        assert sel[k] in sel;
      }
      forall k | 0 <= k < |files|
        ensures ByToken(y, files[k]) && ByToken(files[k], y)
      {
        assert files[k] in files;
      }
      Sorting.AllTied(sel, y, ByToken);
      Sorting.AllTied(files, y, ByToken);
    }
  }

  /**
   * Every `soil_moist_max` file has the token "moist", so those files are
   * processed, and given their offsets, in directory order.
   */
  lemma SoilMoistMaxKeepsListingOrder(listing: seq<Entry>)
    ensures Ordered(listing, "soil_moist_max") == Select(listing, "soil_moist_max")
  {
    forall e | e in listing && Matches(e.name, "soil_moist_max")
      ensures Token(e.name) == "moist"
    {
      MatchedNameIsFileName(e.name, "soil_moist_max");
      TokenOfSoilMoistMax(e.name[|Prefix("soil_moist_max")|..|e.name| - |Suffix|]);
    }
    OneTokenKeepsListingOrder(listing, "soil_moist_max", "moist");
  }

  // ---------------------------------------------------------------------
  // Rewriting one file
  // ---------------------------------------------------------------------

  /** No column name occurs twice, as pandas keeps them. */
  predicate Distinct(s: seq<string>)
  {
    forall i, j :: 0 <= i < j < |s| ==> s[i] != s[j]
  }

  /** Appending names that are distinct and new keeps names distinct. */
  lemma DistinctAppend(a: seq<string>, b: seq<string>)
    requires Distinct(b)
    requires forall x :: x in b ==> x !in a
    ensures Distinct(a) ==> Distinct(a + b)
  {
    forall i, j | 0 <= i < j < |a + b| && Distinct(a)
      ensures (a + b)[i] != (a + b)[j]
    {
      if j >= |a| {
        assert (a + b)[j] == b[j - |a|];
        if i < |a| {
          assert b[j - |a|] in b;
        }
      }
    }
  }

  /** Where a name first occurs. */
  function FirstIndex(s: seq<string>, x: string): (k: nat)
    requires x in s
    ensures k < |s| && s[k] == x && x !in s[..k]
  {
    if s[0] == x then 0
    else
      var k := FirstIndex(s[1..], x);
      assert s[..k + 1] == [s[0]] + s[1..][..k];
      k + 1
  }

  /** Assigning a column keeps its position, or appends it when new. */
  function SetColumn(columns: seq<string>, c: string): (r: seq<string>)
    ensures c in r
    ensures forall x :: x in columns ==> x in r
    ensures |r| >= |columns| && forall k :: 0 <= k < |columns| ==> r[k] == columns[k]
    ensures |r| == |columns| + (if c in columns then 0 else 1)
    ensures forall x :: x in r ==> x in columns || x == c
    ensures Distinct(columns) ==> Distinct(r)
  {
    if c in columns then columns
    else
      DistinctAppend(columns, [c]);
      columns + [c]
  }

  /** Assigning the columns `names` in turn. */
  function SetColumns(columns: seq<string>, names: seq<string>): (r: seq<string>)
    ensures forall x :: x in names ==> x in r
    ensures |r| >= |columns| && forall k :: 0 <= k < |columns| ==> r[k] == columns[k]
    ensures forall x :: x in r ==> x in columns || x in names
    ensures Distinct(columns) ==> Distinct(r)
    decreases |names|
  {
    if |names| == 0 then columns else SetColumns(SetColumn(columns, names[0]), names[1..])
  }

  /** Assigning columns in turn appends the new ones, in first-seen order, once each. */
  lemma {:induction false} SetColumnsAppendsNew(columns: seq<string>, names: seq<string>)
    ensures SetColumns(columns, names) == columns + NewColumns(columns, names)
    decreases |names|
  {
    if |names| > 0 {
      var c := names[0];
      var first := SetColumn(columns, c);
      SetColumnsAppendsNew(first, names[1..]);
      assert SetColumns(columns, names) == SetColumns(first, names[1..]);
      if c in columns {
        assert first == columns;
        assert NewColumns(columns, names) == NewColumns(columns, names[1..]);
      } else {
        assert first == columns + [c];
        assert NewColumns(columns, names) == [c] + NewColumns(first, names[1..]);
        AppendAssoc(columns, [c], NewColumns(first, names[1..]));
      }
    }
  }

  lemma AppendAssoc<T>(a: seq<T>, b: seq<T>, c: seq<T>)
    ensures (a + b) + c == a + (b + c)
  {
  }

  /** A row whose `hru_id`, if present, is a number. */
  predicate NumericId(row: map<string, Cell>)
  {
    "hru_id" in row ==> !row["hru_id"].Text?
  }

  predicate NumericIds(rows: seq<map<string, Cell>>)
    decreases |rows|
  {
    |rows| == 0 || (NumericId(rows[0]) && NumericIds(rows[1..]))
  }

  lemma {:induction false} NumericIdsMeans(rows: seq<map<string, Cell>>)
    ensures NumericIds(rows) <==> forall i :: 0 <= i < |rows| ==> NumericId(rows[i])
    decreases |rows|
  {
    if |rows| > 0 {
      NumericIdsMeans(rows[1..]);
      assert forall i :: 1 <= i < |rows| ==> rows[i] == rows[1..][i - 1];
    }
  }

  function Shift(c: Cell, offset: int): (r: Cell)
    requires !c.Text?
    ensures r.Int? <==> c.Int?
  {
    match c
    case Int(i) => Int(i + offset)
    case Num(x) => Num(x + offset as real)
  }

  /**
   * `df["nat_hru_id"] = df["hru_id"] + offset` (missing where the id is
   * missing), then `df["vpu"] = vpu`, on one row.
   */
  function RewriteRow(row: map<string, Cell>, offset: int, vpu: string): map<string, Cell>
    requires NumericId(row)
  {
    var withId := if "hru_id" in row then row["nat_hru_id" := Shift(row["hru_id"], offset)] else row - {"nat_hru_id"};
    withId["vpu" := Text(vpu)]
  }

  function RewriteRows(rows: seq<map<string, Cell>>, offset: int, vpu: string): (r: seq<map<string, Cell>>)
    requires NumericIds(rows)
    ensures |r| == |rows|
    decreases |rows|
  {
    if |rows| == 0 then [] else [RewriteRow(rows[0], offset, vpu)] + RewriteRows(rows[1..], offset, vpu)
  }

  lemma {:induction false} RewriteRowsAt(rows: seq<map<string, Cell>>, offset: int, vpu: string, i: nat)
    requires NumericIds(rows) && i < |rows|
    ensures NumericId(rows[i]) && RewriteRows(rows, offset, vpu)[i] == RewriteRow(rows[i], offset, vpu)
    decreases |rows|
  {
    if i > 0 {
      RewriteRowsAt(rows[1..], offset, vpu, i - 1);
    }
  }

  /**
   * One file: a missing `hru_id` column is refused, a text id cannot take
   * the offset, and otherwise the two columns are set.
   */
  function Rewrite(e: Entry, offset: int): (r: Result<Table>)
    ensures r.Err? <==> "hru_id" !in e.table.columns || !NumericIds(e.table.rows)
    ensures r.Err? ==> r.failure == (if "hru_id" !in e.table.columns then MissingColumn("hru_id") else NonNumericId(e.name))
    ensures r.Ok? ==> |r.value.rows| == |e.table.rows|
    ensures r.Ok? ==> |r.value.columns| >= |e.table.columns| && forall k :: 0 <= k < |e.table.columns| ==> r.value.columns[k] == e.table.columns[k]
    ensures r.Ok? ==> "nat_hru_id" in r.value.columns && "vpu" in r.value.columns
    ensures r.Ok? ==> forall c :: c in r.value.columns ==> c in e.table.columns || c == "nat_hru_id" || c == "vpu"
    ensures r.Ok? ==> r.value.columns == e.table.columns + NewColumns(e.table.columns, ["nat_hru_id", "vpu"])
    ensures r.Ok? && Distinct(e.table.columns) ==> Distinct(r.value.columns)
  {
    if "hru_id" !in e.table.columns then Err(MissingColumn("hru_id"))
    else if !NumericIds(e.table.rows) then Err(NonNumericId(e.name))
    else
      SetColumnsAppendsNew(e.table.columns, ["nat_hru_id", "vpu"]);
      Ok(Table(SetColumns(e.table.columns, ["nat_hru_id", "vpu"]), RewriteRows(e.table.rows, offset, Token(e.name))))
  }

  /**
   * Row by row: `vpu` holds the file's token, `nat_hru_id` is `hru_id` plus
   * the offset (missing where `hru_id` is), and every other cell is kept.
   */
  lemma RewriteEffect(e: Entry, offset: int, i: int)
    requires Rewrite(e, offset).Ok? && 0 <= i < |e.table.rows|
    ensures var row, out := e.table.rows[i], Rewrite(e, offset).value.rows[i];
      && NumericId(row)
      && "vpu" in out && out["vpu"] == Text(Token(e.name))
      && ("hru_id" in row <==> "nat_hru_id" in out)
      && ("hru_id" in row ==> out["nat_hru_id"] == Shift(row["hru_id"], offset))
      && out.Keys - {"nat_hru_id", "vpu"} == row.Keys - {"nat_hru_id", "vpu"}
      && (forall k :: k in row && k != "nat_hru_id" && k != "vpu" ==> k in out && out[k] == row[k])
  {
    var vpu := Token(e.name);
    assert NumericIds(e.table.rows);
    RewriteRowsAt(e.table.rows, offset, vpu, i);
    assert Rewrite(e, offset).value.rows == RewriteRows(e.table.rows, offset, vpu);
    var row := e.table.rows[i];
    assert NumericId(row);
    var out := RewriteRow(row, offset, vpu);
    assert Rewrite(e, offset).value.rows[i] == out;
  }

  /** Rewriting a rewritten file with the same offset changes nothing. */
  lemma RewriteIsIdempotent(e: Entry, offset: int)
    requires Rewrite(e, offset).Ok?
    ensures Rewrite(Entry(e.name, Rewrite(e, offset).value), offset) == Rewrite(e, offset)
  {
    var t := Rewrite(e, offset).value;
    var e' := Entry(e.name, t);
    assert "hru_id" != "nat_hru_id" && "hru_id" != "vpu";
    forall i | 0 <= i < |t.rows|
      ensures NumericId(t.rows[i])
    {
      RewriteEffect(e, offset, i);
      assert "hru_id" in t.rows[i] ==> "hru_id" in t.rows[i].Keys - {"nat_hru_id", "vpu"};
    }
    NumericIdsMeans(t.rows);
    var t2 := Rewrite(e', offset).value;
    forall i | 0 <= i < |t.rows|
      ensures t2.rows[i] == t.rows[i]
    {
      RewriteRowTwice(e, offset, i);
    }
    assert t2.rows == t.rows;
  }

  /** Row `i` of a rewritten table is unchanged by a second rewrite. */
  lemma RewriteRowTwice(e: Entry, offset: int, i: int)
    requires Rewrite(e, offset).Ok? && 0 <= i < |e.table.rows|
    requires Rewrite(Entry(e.name, Rewrite(e, offset).value), offset).Ok?
    ensures Rewrite(Entry(e.name, Rewrite(e, offset).value), offset).value.rows[i] == Rewrite(e, offset).value.rows[i]
  {
    var e' := Entry(e.name, Rewrite(e, offset).value);
    RewriteEffect(e, offset, i);
    RewriteEffect(e', offset, i);
    var row, once, twice := e.table.rows[i], e'.table.rows[i], Rewrite(e', offset).value.rows[i];
    assert "hru_id" in once <==> "hru_id" in row by {
      assert "hru_id" != "nat_hru_id" && "hru_id" != "vpu";
      assert "hru_id" in once <==> "hru_id" in once.Keys - {"nat_hru_id", "vpu"};
      assert "hru_id" in row <==> "hru_id" in row.Keys - {"nat_hru_id", "vpu"};
    }
    AgreeOutsideAdded(once, twice);
  }

  /**
   * Two rows equal once they have the same columns apart from the two added
   * ones, agree on those, and agree on both added columns.
   */
  lemma AgreeOutsideAdded(a: map<string, Cell>, b: map<string, Cell>)
    requires b.Keys - {"nat_hru_id", "vpu"} == a.Keys - {"nat_hru_id", "vpu"}
    requires forall k :: k in a && k != "nat_hru_id" && k != "vpu" ==> k in b && b[k] == a[k]
    requires "nat_hru_id" in a <==> "nat_hru_id" in b
    requires "nat_hru_id" in a ==> a["nat_hru_id"] == b["nat_hru_id"]
    requires "vpu" in a && "vpu" in b && a["vpu"] == b["vpu"]
    ensures a == b
  {
    forall k | k in b
      ensures k in a && b[k] == a[k]
    {
      if k != "nat_hru_id" && k != "vpu" {
        assert k in b.Keys - {"nat_hru_id", "vpu"};
      }
    }
    forall k | k in a
      ensures k in b
    {
      if k != "nat_hru_id" && k != "vpu" {
        assert k in a.Keys - {"nat_hru_id", "vpu"};
      }
    }
    assert a.Keys == b.Keys;
  }

  // ---------------------------------------------------------------------
  // The fold
  // ---------------------------------------------------------------------

  /**
   * `pd.concat([merged, df])`: rows appended; the columns of `a` in place,
   * then those of `b` that `a` lacks, in the order `b` first has them (see
   * `NewColumns` and `NewColumnsInFirstSeenOrder`).
   */
  function Concat(a: Table, b: Table): (r: Table)
    ensures r.rows == a.rows + b.rows
    ensures forall c :: c in r.columns <==> c in a.columns || c in b.columns
    ensures |r.columns| >= |a.columns| && forall k :: 0 <= k < |a.columns| ==> r.columns[k] == a.columns[k]
    ensures r.columns[|a.columns|..] == NewColumns(a.columns, b.columns)
    ensures Distinct(a.columns) ==> Distinct(r.columns)
  {
    var n := NewColumns(a.columns, b.columns);
    var cs := a.columns + n;
    assert cs[|a.columns|..] == n;
    DistinctAppend(a.columns, n);
    Table(cs, a.rows + b.rows)
  }

  /** The names of `cs` not in `seen`, each once. */
  function NewColumns(seen: seq<string>, cs: seq<string>): (r: seq<string>)
    ensures forall c :: c in r <==> c in cs && c !in seen
    ensures Distinct(r)
    decreases |cs|
  {
    if |cs| == 0 then []
    else if cs[0] in seen then NewColumns(seen, cs[1..])
    else
      var rest := NewColumns(seen + [cs[0]], cs[1..]);
      var r := [cs[0]] + rest;
      assert cs[0] in seen + [cs[0]];
      assert forall k :: 1 <= k < |r| ==> r[k] == rest[k - 1] && rest[k - 1] in rest && r[k] != cs[0];
      r
  }

  /** `NewColumns` keeps the order in which `cs` first has the names. */
  lemma {:induction false} NewColumnsInFirstSeenOrder(seen: seq<string>, cs: seq<string>)
    ensures forall i, j :: 0 <= i < j < |NewColumns(seen, cs)| ==>
      FirstIndex(cs, NewColumns(seen, cs)[i]) < FirstIndex(cs, NewColumns(seen, cs)[j])
    decreases |cs|
  {
    if |cs| > 0 {
      var r := NewColumns(seen, cs);
      if cs[0] in seen {
        NewColumnsInFirstSeenOrder(seen, cs[1..]);
        assert r == NewColumns(seen, cs[1..]);
        forall k | 0 <= k < |r|
          ensures FirstIndex(cs, r[k]) == FirstIndex(cs[1..], r[k]) + 1
        {
          FirstIndexInTail(cs, r[k]);
        }
      } else {
        var rest := NewColumns(seen + [cs[0]], cs[1..]);
        NewColumnsInFirstSeenOrder(seen + [cs[0]], cs[1..]);
        assert r == [cs[0]] + rest;
        forall k | 0 <= k < |rest|
          ensures FirstIndex(cs, rest[k]) == FirstIndex(cs[1..], rest[k]) + 1
        {
          FirstIndexInTail(cs, rest[k]);
        }
        forall i, j | 0 <= i < j < |r|
          ensures FirstIndex(cs, r[i]) < FirstIndex(cs, r[j])
        {
          assert r[j] == rest[j - 1];
          assert FirstIndex(cs, r[j]) == FirstIndex(cs[1..], rest[j - 1]) + 1;
          if i > 0 {
            assert r[i] == rest[i - 1];
            assert FirstIndex(cs[1..], rest[i - 1]) < FirstIndex(cs[1..], rest[j - 1]);
          } else {
            assert FirstIndex(cs, r[i]) == 0;
          }
        }
      }
    }
  }

  /** A name other than the head is first found one place later than in the tail. */
  lemma FirstIndexInTail(cs: seq<string>, x: string)
    requires |cs| > 0 && x in cs[1..] && x != cs[0]
    ensures FirstIndex(cs, x) == FirstIndex(cs[1..], x) + 1
  {
  }

  /** Files rewritten so far, and the failure that stopped the loop. */
  datatype StitchRun = StitchRun(rewritten: seq<Entry>, failure: Option<Failure>)

  /**
   * The loop, for a per-file step (the script's is `Rewrite`): each file is
   * stepped with the rows of the files before it as offset, and a failure
   * stops it.  The offset grows by the file's row count, which the step
   * keeps (`Rewrite` only adds columns).
   */
  function Fold(files: seq<Entry>, offset: int, step: (Entry, int) -> Result<Table>): (r: StitchRun)
    ensures |r.rewritten| <= |files|
    ensures r.failure.None? ==> |r.rewritten| == |files|
    ensures forall k :: 0 <= k < |r.rewritten| ==> r.rewritten[k].name == files[k].name
    decreases |files|
  {
    if |files| == 0 then StitchRun([], None)
    else match step(files[0], offset)
      case Err(f) => StitchRun([], Some(f))
      case Ok(t) =>
        var rest := Fold(files[1..], offset + |files[0].table.rows|, step);
        StitchRun([Entry(files[0].name, t)] + rest.rewritten, rest.failure)
  }

  /**
   * `merged = pd.concat([merged, df])` over the rewritten files in order.
   * The merged table is only written once the loop has finished, so it is
   * computed from the rewritten files afterwards.
   */
  function MergeAll(merged: Table, es: seq<Entry>): (r: Table)
    ensures |r.rows| >= |merged.rows| && r.rows[..|merged.rows|] == merged.rows
    ensures |r.columns| >= |merged.columns| && r.columns[..|merged.columns|] == merged.columns
    ensures Distinct(merged.columns) ==> Distinct(r.columns)
    decreases |es|
  {
    if |es| == 0 then merged else MergeAll(Concat(merged, es[0].table), es[1..])
  }

  function AllRows(es: seq<Entry>): seq<map<string, Cell>>
  {
    if |es| == 0 then [] else es[0].table.rows + AllRows(es[1..])
  }

  /** The merged table holds every row of every file, in file order, and every column. */
  lemma MergeAllContents(merged: Table, es: seq<Entry>)
    ensures MergeAll(merged, es).rows == merged.rows + AllRows(es)
    ensures forall c :: c in MergeAll(merged, es).columns <==>
      c in merged.columns || exists k :: 0 <= k < |es| && c in es[k].table.columns
  {
    MergeAllRows(merged, es);
    MergeAllColumns(merged, es);
  }

  lemma {:induction false} MergeAllRows(merged: Table, es: seq<Entry>)
    ensures MergeAll(merged, es).rows == merged.rows + AllRows(es)
    decreases |es|
  {
    if |es| > 0 {
      var m := Concat(merged, es[0].table);
      MergeAllRows(m, es[1..]);
      assert MergeAll(merged, es) == MergeAll(m, es[1..]);
      assert m.rows == merged.rows + es[0].table.rows;
      assert AllRows(es) == es[0].table.rows + AllRows(es[1..]);
      AppendAssoc(merged.rows, es[0].table.rows, AllRows(es[1..]));
    }
  }

  lemma {:induction false} MergeAllColumns(merged: Table, es: seq<Entry>)
    ensures forall c :: c in MergeAll(merged, es).columns <==>
      c in merged.columns || exists k :: 0 <= k < |es| && c in es[k].table.columns
    decreases |es|
  {
    if |es| > 0 {
      MergeAllColumns(Concat(merged, es[0].table), es[1..]);
      forall c
        ensures c in MergeAll(merged, es).columns <==>
          c in merged.columns || exists k :: 0 <= k < |es| && c in es[k].table.columns
      {
        ColumnInSomeFile(es, c);
      }
    }
  }

  /** A column is in one of the files iff it is in the first or in one of the rest. */
  lemma ColumnInSomeFile(es: seq<Entry>, c: string)
    requires |es| > 0
    ensures (exists k :: 0 <= k < |es| && c in es[k].table.columns) <==>
      c in es[0].table.columns || exists k :: 0 <= k < |es[1..]| && c in es[1..][k].table.columns
  {
    if exists k :: 0 <= k < |es[1..]| && c in es[1..][k].table.columns {
      var k :| 0 <= k < |es[1..]| && c in es[1..][k].table.columns;
      assert c in es[k + 1].table.columns;
    }
    if exists k :: 0 <= k < |es| && c in es[k].table.columns {
      var k :| 0 <= k < |es| && c in es[k].table.columns;
      if k > 0 {
        assert c in es[1..][k - 1].table.columns;
      }
    }
  }

  /** Rows in the files before position `k`. */
  function RowsBefore(files: seq<Entry>, k: nat): int
    requires k <= |files|
  {
    if k == 0 then 0 else RowsBefore(files, k - 1) + |files[k - 1].table.rows|
  }

  lemma {:induction false} RowsBeforeShift(files: seq<Entry>, k: nat)
    requires 0 < |files| && k < |files|
    ensures RowsBefore(files, k + 1) == |files[0].table.rows| + RowsBefore(files[1..], k)
  {
    if k > 0 {
      RowsBeforeShift(files, k - 1);
    }
  }

  /** The loop reaches the files in order and stops at the first failure. */
  lemma {:induction false} FoldLength(files: seq<Entry>, offset: int, step: (Entry, int) -> Result<Table>)
    ensures var r := Fold(files, offset, step);
      |r.rewritten| <= |files| && (r.failure.None? ==> |r.rewritten| == |files|)
      && (r.failure.Some? ==> |r.rewritten| < |files|)
    decreases |files|
  {
    if |files| > 0 && step(files[0], offset).Ok? {
      FoldLength(files[1..], offset + |files[0].table.rows|, step);
    }
  }

  /** File k is rewritten with the starting offset plus the rows of the files before it. */
  lemma {:induction false} FoldRewrites(files: seq<Entry>, offset: int, step: (Entry, int) -> Result<Table>, k: nat)
    requires k < |Fold(files, offset, step).rewritten|
    ensures k < |files|
    ensures var r := Fold(files, offset, step);
      r.rewritten[k].name == files[k].name
      && step(files[k], offset + RowsBefore(files, k)) == Ok(r.rewritten[k].table)
    decreases |files|
  {
    FoldLength(files, offset, step);
    if k > 0 {
      FoldRewrites(files[1..], offset + |files[0].table.rows|, step, k - 1);
      RowsBeforeShift(files, k - 1);
    }
  }

  /** A loop that stops does so at a file whose own rewrite fails, at its offset. */
  lemma {:induction false} FoldFailure(files: seq<Entry>, offset: int, step: (Entry, int) -> Result<Table>)
    requires Fold(files, offset, step).failure.Some?
    ensures var r := Fold(files, offset, step);
      |r.rewritten| < |files|
      && step(files[|r.rewritten|], offset + RowsBefore(files, |r.rewritten|)) == Err(r.failure.value)
    decreases |files|
  {
    FoldLength(files, offset, step);
    if step(files[0], offset).Ok? {
      var r := Fold(files, offset, step);
      var rest := Fold(files[1..], offset + |files[0].table.rows|, step);
      assert r.rewritten == [Entry(files[0].name, step(files[0], offset).value)] + rest.rewritten;
      assert r.failure == rest.failure;
      FoldFailure(files[1..], offset + |files[0].table.rows|, step);
      assert files[|r.rewritten|] == files[1..][|rest.rewritten|];
      RowsBeforeShift(files, |rest.rewritten|);
    }
  }

  // ---------------------------------------------------------------------
  // The script
  // ---------------------------------------------------------------------

  datatype Outcome = Outcome(rewritten: seq<Entry>, mergedFile: Option<Entry>, failure: Option<Failure>)

  /**
   * `process_files`: the input directory must exist; the ordered files are
   * folded from offset 0 and, if every file was rewritten, the merged table
   * is written to `output_dir/merged_file`.
   */
  function ProcessFiles(outputDir: string, sourceType: string, mergedFile: string, paths: set<string>, listing: seq<Entry>): (o: Outcome)
    ensures Join(outputDir, sourceType) !in paths ==> o == Outcome([], None, Some(MissingPath(Join(outputDir, sourceType))))
    ensures o.failure.None? <==> o.mergedFile.Some?
    ensures o.mergedFile.Some? ==> o.mergedFile.value.name == Join(outputDir, mergedFile)
  {
    var inputDir := Join(outputDir, sourceType);
    if inputDir !in paths then Outcome([], None, Some(MissingPath(inputDir)))
    else
      var r := Fold(Ordered(listing, sourceType), 0, Rewrite);
      Outcome(r.rewritten,
              if r.failure.None? then Some(Entry(Join(outputDir, mergedFile), MergeAll(Table([], []), r.rewritten))) else None,
              r.failure)
  }

  /** With the input directory present the outcome is the loop's over the ordered files. */
  lemma ProcessFilesRuns(outputDir: string, sourceType: string, mergedFile: string, paths: set<string>, listing: seq<Entry>)
    requires Join(outputDir, sourceType) in paths
    ensures var o := ProcessFiles(outputDir, sourceType, mergedFile, paths, listing);
      var r := Fold(Ordered(listing, sourceType), 0, Rewrite);
      && o.rewritten == r.rewritten && o.failure == r.failure
      && (o.mergedFile.Some? ==> o.mergedFile.value.table == MergeAll(Table([], []), r.rewritten))
  {
  }

  /** With files of 10, 7 and 5 rows the third is shifted by 17. */
  lemma OffsetExample(files: seq<Entry>)
    requires |files| == 3
    requires |files[0].table.rows| == 10 && |files[1].table.rows| == 7 && |files[2].table.rows| == 5
    ensures RowsBefore(files, 2) == 17
    ensures RowsBefore(files, 3) == 22
  {
    assert RowsBefore(files, 1) == 10;
    assert RowsBefore(files, 2) == 17;
  }

  /**
   * Earlier files end before later files begin: with ids 1..n in each file,
   * the national ids of different files cannot meet.
   */
  lemma {:induction false} OffsetsAreIncreasing(files: seq<Entry>, j: nat, k: nat)
    requires j < k <= |files|
    ensures RowsBefore(files, j) + |files[j].table.rows| <= RowsBefore(files, k)
    decreases k
  {
    if k > j + 1 {
      OffsetsAreIncreasing(files, j, k - 1);
    }
  }

  /** Two rows of different files with ids in their files' 1..n ranges get different national ids. */
  lemma NationalIdsAreDistinct(files: seq<Entry>, j: nat, k: nat, a: int, b: int)
    requires j < k < |files|
    requires 1 <= a <= |files[j].table.rows| && 1 <= b <= |files[k].table.rows|
    ensures a + RowsBefore(files, j) != b + RowsBefore(files, k)
  {
    OffsetsAreIncreasing(files, j, k);
  }
}
