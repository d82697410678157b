/**
 * Shared vocabulary of the pipeline model: optional values, results carrying
 * the failure a script raises, path joining, and the few string operations
 * the scripts rely on (splitting on a separator, substring tests, ASCII
 * lower-casing and the lexicographic order Python uses to compare strings).
 */
module Core {

  datatype Option<+T> = None | Some(value: T)

  /** The exception classes the scripts raise (or let a library raise). */
  datatype ExceptionClass = FileNotFoundError | ValueError | KeyError | IndexError | TypeError | LibraryError

  /** Every way a run can stop, with the offending path or value. */
  datatype Failure =
    | MissingPath(path: string)             // a required file or folder is absent
    | InvalidGrid(folder: string)           // a folder without an ESRI Grid header
    | UnknownVpu(vpu: string)               // a VPU code the configuration does not list
    | InconsistentCrs(crs: set<string>)     // merge inputs disagree on the coordinate system
    | UnknownName(name: string)             // a dataset name or source type no branch handles
    | MissingColumn(column: string)         // a table lacks a column the script checks for
    | AbsentLabel(column: string)           // pandas indexing by a column label that is absent
    | EmptyArgmax                           // a row-wise argmax over no columns
    | EmptyMerge                            // a merge over no rasters
    | NonNumericId(file: string)            // text in an `hru_id` column meets `+ offset`
    | Unreadable(path: string)              // a raster or table library cannot open a path

  function ClassOf(f: Failure): ExceptionClass
  {
    match f
    case MissingPath(_) => FileNotFoundError
    case InvalidGrid(_) => ValueError
    case UnknownVpu(_) => ValueError
    case InconsistentCrs(_) => ValueError
    case UnknownName(_) => ValueError
    case MissingColumn(_) => ValueError
    case AbsentLabel(_) => KeyError
    case EmptyArgmax => ValueError
    case EmptyMerge => IndexError
    case NonNumericId(_) => TypeError
    case Unreadable(_) => LibraryError
  }

  datatype Result<+T> = Ok(value: T) | Err(failure: Failure) {
    predicate IsFailure() { Err? }

    function PropagateFailure<U>(): Result<U>
      requires Err?
    {
      Err(failure)
    }

    function Extract(): T
      requires Ok?
    {
      value
    }
  }

  // ---------------------------------------------------------------------
  // Paths
  // ---------------------------------------------------------------------

  /**
   * Path join by string concatenation with one '/': an absolute right operand
   * replaces the left one, and an empty one leaves it.  Separators already in
   * the operands are not normalised.
   */
  function Join(dir: string, name: string): (p: string)
    ensures |name| > 0 && name[0] == '/' ==> p == name
    ensures |name| == 0 ==> p == dir
    ensures |name| > 0 && name[0] != '/' ==> |p| == |dir| + 1 + |name|
  {
    if |name| > 0 && name[0] == '/' then name
    else if |name| == 0 then dir
    else dir + "/" + name
  }

  /** Joining twice is joining once with the two relative names separated by '/'. */
  lemma JoinTwice(dir: string, sub: string, name: string)
    requires |sub| > 0 && sub[0] != '/' && |name| > 0 && name[0] != '/'
    ensures Join(Join(dir, sub), name) == Join(dir, sub + "/" + name)
  {
    assert (sub + "/" + name)[0] == sub[0];
    assert dir + "/" + sub + "/" + name == dir + "/" + (sub + "/" + name);
  }

  /** Relative names are recovered from the joined path. */
  lemma JoinInjective(dir: string, a: string, b: string)
    requires |a| > 0 && |b| > 0 && a[0] != '/' && b[0] != '/'
    requires Join(dir, a) == Join(dir, b)
    ensures a == b
  {
    assert a == Join(dir, a)[|dir| + 1..];
    assert b == Join(dir, b)[|dir| + 1..];
  }

  /** `str.lstrip(c)`: drops every leading occurrence of `c`. */
  function LStrip(s: string, c: char): (r: string)
    ensures |r| <= |s| && r == s[|s| - |r|..]
    ensures |r| == 0 || r[0] != c
    ensures forall k :: 0 <= k < |s| - |r| ==> s[k] == c
  {
    if |s| > 0 && s[0] == c then LStrip(s[1..], c) else s
  }

  // ---------------------------------------------------------------------
  // Strings
  // ---------------------------------------------------------------------

  predicate IsPrefix(p: string, s: string)
  {
    |p| <= |s| && s[..|p|] == p
  }

  predicate IsSuffix(p: string, s: string)
  {
    |p| <= |s| && s[|s| - |p|..] == p
  }

  predicate OccursAt(needle: string, hay: string, i: int)
  {
    0 <= i && i + |needle| <= |hay| && hay[i..i + |needle|] == needle
  }

  /** Python's `needle in hay` on two strings. */
  predicate IsSubstring(needle: string, hay: string)
    ensures IsSubstring(needle, hay) ==> |needle| <= |hay|
    ensures |needle| == 0 ==> IsSubstring(needle, hay)
    ensures IsSuffix(needle, hay) ==> IsSubstring(needle, hay)
    decreases |hay|
  {
    IsPrefix(needle, hay) || (|hay| > 0 && IsSubstring(needle, hay[1..]))
  }

  /** `IsSubstring` holds exactly when the needle occurs at some offset. */
  lemma {:induction false} IsSubstringMeans(needle: string, hay: string)
    ensures IsSubstring(needle, hay) <==> exists i :: OccursAt(needle, hay, i)
    decreases |hay|
  {
    if IsPrefix(needle, hay) {
      assert OccursAt(needle, hay, 0);
    } else if |hay| > 0 {
      IsSubstringMeans(needle, hay[1..]);
      forall i | 0 <= i - 1
        ensures OccursAt(needle, hay, i) <==> OccursAt(needle, hay[1..], i - 1)
      {
        if i + |needle| <= |hay| {
          TailSlice(hay, i, |needle|);
        }
      }
      assert !OccursAt(needle, hay, 0);
      if IsSubstring(needle, hay[1..]) {
        var j :| OccursAt(needle, hay[1..], j);
        assert OccursAt(needle, hay, j + 1);
      }
    }
  }

  lemma TailSlice(hay: string, i: int, n: nat)
    requires 1 <= i && i + n <= |hay|
    ensures hay[1..][i - 1..i - 1 + n] == hay[i..i + n]
  {
    var a, b := hay[1..][i - 1..i - 1 + n], hay[i..i + n];
    assert forall k :: 0 <= k < n ==> a[k] == b[k];
  }

  lemma {:induction false} LongerIsNotSubstring(needle: string, hay: string)
    requires |needle| > |hay|
    ensures !IsSubstring(needle, hay)
    decreases |hay|
  {
    if |hay| > 0 {
      LongerIsNotSubstring(needle, hay[1..]);
    }
  }

  /** Number of occurrences of the character `c` in `s`. */
  function Count(s: string, c: char): nat
  {
    if |s| == 0 then 0 else (if s[0] == c then 1 else 0) + Count(s[1..], c)
  }

  /**
   * Python's `s.split(sep)` for a one-character separator: the pieces between
   * consecutive separators, empty pieces included.
   */
  function Split(s: string, sep: char): (parts: seq<string>)
    ensures |parts| >= 1
    ensures forall k :: 0 <= k < |parts| ==> sep !in parts[k]
    decreases |s|
  {
    if |s| == 0 then [""]
    else if s[0] == sep then [""] + Split(s[1..], sep)
    else
      var rest := Split(s[1..], sep);
      [[s[0]] + rest[0]] + rest[1..]
  }

  /** `sep.join(parts)`, the inverse of `Split`. */
  function JoinWith(parts: seq<string>, sep: char): string
    requires |parts| >= 1
  {
    if |parts| == 1 then parts[0] else parts[0] + [sep] + JoinWith(parts[1..], sep)
  }

  /** Splitting and re-joining on the same separator gives back the string. */
  lemma {:induction false} JoinSplit(s: string, sep: char)
    ensures JoinWith(Split(s, sep), sep) == s
    decreases |s|
  {
    if |s| == 0 {
    } else if s[0] == sep {
      JoinSplit(s[1..], sep);
      var rest := Split(s[1..], sep);
      assert Split(s, sep) == [""] + rest;
      assert ([""] + rest)[1..] == rest;
      assert s == [sep] + s[1..];
    } else {
      JoinSplit(s[1..], sep);
      var rest := Split(s[1..], sep);
      var parts := [[s[0]] + rest[0]] + rest[1..];
      if |rest| == 1 {
        assert s == [s[0]] + s[1..];
      } else {
        assert parts[1..] == rest[1..];
        assert JoinWith(rest, sep) == rest[0] + [sep] + JoinWith(rest[1..], sep);
        assert s == [s[0]] + s[1..];
      }
    }
  }

  /** `Split` returns one piece more than there are separators. */
  lemma {:induction false} SplitCount(s: string, sep: char)
    ensures |Split(s, sep)| == Count(s, sep) + 1
    decreases |s|
  {
    if |s| > 0 {
      SplitCount(s[1..], sep);
    }
  }

  lemma {:induction false} CountAppend(a: string, b: string, c: char)
    ensures Count(a + b, c) == Count(a, c) + Count(b, c)
    decreases |a|
  {
    if |a| > 0 {
      assert (a + b)[1..] == a[1..] + b;
      CountAppend(a[1..], b, c);
    } else {
      assert a + b == b;
    }
  }

  /** A string without the separator splits into itself alone. */
  lemma {:induction false} SplitNoSeparator(s: string, sep: char)
    requires sep !in s
    ensures Split(s, sep) == [s]
    decreases |s|
  {
    if |s| > 0 {
      assert s[0] in s;
      assert forall k :: 1 <= k < |s| ==> s[1..][k - 1] == s[k];
      assert sep !in s[1..];
      SplitNoSeparator(s[1..], sep);
      assert s == [s[0]] + s[1..];
    }
  }

  /** Splitting `a + [sep] + b` splits `a` and `b` apart. */
  lemma {:induction false} SplitAround(a: string, b: string, sep: char)
    ensures Split(a + [sep] + b, sep) == Split(a, sep) + Split(b, sep)
    decreases |a|
  {
    if |a| == 0 {
      assert a + [sep] + b == [sep] + b;
      assert ([sep] + b)[1..] == b;
    } else {
      assert (a + [sep] + b)[1..] == a[1..] + [sep] + b;
      SplitAround(a[1..], b, sep);
      if a[0] == sep {
      } else {
        var l := Split(a[1..], sep);
        var r := Split(b, sep);
        assert Split(a + [sep] + b, sep) == [[a[0]] + (l + r)[0]] + (l + r)[1..];
        assert (l + r)[0] == l[0];
        assert (l + r)[1..] == l[1..] + r;
      }
    }
  }

  /** ASCII `str.lower()` (non-ASCII letters are left as they are). */
  function LowerChar(c: char): char
  {
    if 'A' <= c <= 'Z' then (c as int + 32) as char else c
  }

  function Lower(s: string): (r: string)
    ensures |r| == |s|
    ensures forall k :: 0 <= k < |s| ==> r[k] == LowerChar(s[k])
  {
    if |s| == 0 then "" else [LowerChar(s[0])] + Lower(s[1..])
  }

  /** Python's `a <= b` on strings: lexicographic by code point. */
  predicate LexLeq(a: string, b: string)
    ensures IsPrefix(a, b) ==> LexLeq(a, b)
  {
    |a| == 0 || (|b| > 0 && (a[0] < b[0] || (a[0] == b[0] && LexLeq(a[1..], b[1..]))))
  }

  lemma {:induction false} LexTotal(a: string, b: string)
    ensures LexLeq(a, b) || LexLeq(b, a)
    decreases |a|
  {
    if |a| > 0 && |b| > 0 && a[0] == b[0] {
      LexTotal(a[1..], b[1..]);
    }
  }

  lemma {:induction false} LexTransitive(a: string, b: string, c: string)
    requires LexLeq(a, b) && LexLeq(b, c)
    ensures LexLeq(a, c)
    decreases |a|
  {
    if |a| > 0 && a[0] == b[0] && b[0] == c[0] {
      LexTransitive(a[1..], b[1..], c[1..]);
    }
  }

  lemma {:induction false} LexAntisymmetric(a: string, b: string)
    requires LexLeq(a, b) && LexLeq(b, a)
    ensures a == b
    decreases |a|
  {
    if |a| > 0 {
      LexAntisymmetric(a[1..], b[1..]);
      assert a == [a[0]] + a[1..] && b == [b[0]] + b[1..];
    }
  }
}
