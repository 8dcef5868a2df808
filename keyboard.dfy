/**
 * The keyboard layout table of src/index.js: the constant KEYS (rows of
 * key names, with `null` for a gap) and the dictionary `positions` that
 * generatePositions fills from it, mapping every key name to the
 * horizontal spawn position of that key.
 *
 * Positions are exact reals: the double-precision rounding of JavaScript
 * is not modelled.
 */
module Keyboard {
  import opened Wrappers

  /** KEYS: four rows of the main block, then five rows of the numeric pad. */
  const KEYS: seq<seq<Option<string>>> := [
    [Some("`"), Some("1"), Some("2"), Some("3"), Some("4"), Some("5"), Some("6"), Some("7"), Some("8"), Some("9"), Some("0"), Some("-"), Some("="), None],
    [None, Some("Q"), Some("W"), Some("E"), Some("R"), Some("T"), Some("Y"), Some("U"), Some("I"), Some("O"), Some("P"), Some("["), Some("]"), Some("\\")],
    [None, Some("A"), Some("S"), Some("D"), Some("F"), Some("G"), Some("H"), Some("J"), Some("K"), Some("L"), Some(";"), Some("'"), None],
    [None, None, Some("Z"), Some("X"), Some("C"), Some("V"), Some("B"), Some("N"), Some("M"), Some(","), Some("."), Some("/"), None, None],
    [None, None, None, None, None, None, None, None, None, None, None, None, None, None, None, Some("num-/"), Some("num-*"), Some("num--")],
    [None, None, None, None, None, None, None, None, None, None, None, None, None, None, Some("num-7"), Some("num-8"), Some("num-9"), Some("num-+")],
    [None, None, None, None, None, None, None, None, None, None, None, None, None, None, Some("num-4"), Some("num-5"), Some("num-6"), None],
    [None, None, None, None, None, None, None, None, None, None, None, None, None, None, Some("num-1"), Some("num-2"), Some("num-3"), None],
    [None, None, None, None, None, None, None, None, None, None, None, None, None, None, None, Some("num-0"), None, Some("num-."), None]
  ]

  /** A cell generatePositions does not skip: `if (!letter) return;` skips `null` and `''`. */
  predicate IsKey(cell: Option<string>) {
    cell.Some? && cell.value != ""
  }

  /** The position of column i of a row of length len: the midpoint of its slot. */
  function Slot(i: nat, len: nat, width: real): real
    requires i < len
  {
    ((i as real / len as real) + (0.5 / len as real)) * width
  }

  /** `positions` after the assignments for the first n cells of one row. */
  function PlaceRow(m: map<string, real>, row: seq<Option<string>>, n: nat, width: real): map<string, real>
    requires n <= |row|
  {
    if n == 0 then m
    else
      var before := PlaceRow(m, row, n - 1, width);
      if IsKey(row[n - 1]) then before[row[n - 1].value := Slot(n - 1, |row|, width)] else before
  }

  /** `positions` after the assignments for the first n rows. */
  function PlaceRows(m: map<string, real>, rows: seq<seq<Option<string>>>, n: nat, width: real): map<string, real>
    requires n <= |rows|
  {
    if n == 0 then m else PlaceRow(PlaceRows(m, rows, n - 1, width), rows[n - 1], |rows[n - 1]|, width)
  }

  /** The table that generatePositions writes for a viewport of the given width. */
  function Positions(width: real): map<string, real> {
    PlaceRows(map[], KEYS, |KEYS|, width)
  }

  /** The keys of the first n cells of a row, in the order generatePositions visits them. */
  function RowKeys(row: seq<Option<string>>, n: nat): seq<string>
    requires n <= |row|
  {
    if n == 0 then [] else RowKeys(row, n - 1) + (if IsKey(row[n - 1]) then [row[n - 1].value] else [])
  }

  /** The keys of the first n rows, in visiting order. */
  function LayoutKeys(rows: seq<seq<Option<string>>>, n: nat): seq<string>
    requires n <= |rows|
  {
    if n == 0 then [] else LayoutKeys(rows, n - 1) + RowKeys(rows[n - 1], |rows[n - 1]|)
  }

  /**
   * Where a key sits in KEYS (row, column), written out key by key. This is
   * an independent description of the layout; KEYS is checked against it.
   * One-character keys are compared by code point (`key[0] as int`), one
   * integer test per branch, which the verifier unfolds far more cheaply
   * than string equalities or a `match` on characters.
   */
  function Cell(key: string): Option<(nat, nat)> {
    if |key| == 1 then
      var c := key[0] as int;
      if c == '`' as int then Some((0, 0)) else
      if c == '1' as int then Some((0, 1)) else
      if c == '2' as int then Some((0, 2)) else
      if c == '3' as int then Some((0, 3)) else
      if c == '4' as int then Some((0, 4)) else
      if c == '5' as int then Some((0, 5)) else
      if c == '6' as int then Some((0, 6)) else
      if c == '7' as int then Some((0, 7)) else
      if c == '8' as int then Some((0, 8)) else
      if c == '9' as int then Some((0, 9)) else
      if c == '0' as int then Some((0, 10)) else
      if c == '-' as int then Some((0, 11)) else
      if c == '=' as int then Some((0, 12)) else
      if c == 'Q' as int then Some((1, 1)) else
      if c == 'W' as int then Some((1, 2)) else
      if c == 'E' as int then Some((1, 3)) else
      if c == 'R' as int then Some((1, 4)) else
      if c == 'T' as int then Some((1, 5)) else
      if c == 'Y' as int then Some((1, 6)) else
      if c == 'U' as int then Some((1, 7)) else
      if c == 'I' as int then Some((1, 8)) else
      if c == 'O' as int then Some((1, 9)) else
      if c == 'P' as int then Some((1, 10)) else
      if c == '[' as int then Some((1, 11)) else
      if c == ']' as int then Some((1, 12)) else
      if c == '\\' as int then Some((1, 13)) else
      if c == 'A' as int then Some((2, 1)) else
      if c == 'S' as int then Some((2, 2)) else
      if c == 'D' as int then Some((2, 3)) else
      if c == 'F' as int then Some((2, 4)) else
      if c == 'G' as int then Some((2, 5)) else
      if c == 'H' as int then Some((2, 6)) else
      if c == 'J' as int then Some((2, 7)) else
      if c == 'K' as int then Some((2, 8)) else
      if c == 'L' as int then Some((2, 9)) else
      if c == ';' as int then Some((2, 10)) else
      if c == '\'' as int then Some((2, 11)) else
      if c == 'Z' as int then Some((3, 2)) else
      if c == 'X' as int then Some((3, 3)) else
      if c == 'C' as int then Some((3, 4)) else
      if c == 'V' as int then Some((3, 5)) else
      if c == 'B' as int then Some((3, 6)) else
      if c == 'N' as int then Some((3, 7)) else
      if c == 'M' as int then Some((3, 8)) else
      if c == ',' as int then Some((3, 9)) else
      if c == '.' as int then Some((3, 10)) else
      if c == '/' as int then Some((3, 11)) else
      None
    else if |key| == 5 && key[..4] == "num-" then
      var c := key[4] as int;
      if c == '/' as int then Some((4, 15)) else
      if c == '*' as int then Some((4, 16)) else
      if c == '-' as int then Some((4, 17)) else
      if c == '7' as int then Some((5, 14)) else
      if c == '8' as int then Some((5, 15)) else
      if c == '9' as int then Some((5, 16)) else
      if c == '+' as int then Some((5, 17)) else
      if c == '4' as int then Some((6, 14)) else
      if c == '5' as int then Some((6, 15)) else
      if c == '6' as int then Some((6, 16)) else
      if c == '1' as int then Some((7, 14)) else
      if c == '2' as int then Some((7, 15)) else
      if c == '3' as int then Some((7, 16)) else
      if c == '0' as int then Some((8, 15)) else
      if c == '.' as int then Some((8, 17)) else
      None
    else None
  }

  // ---------------------------------------------------------------- slots

  /** For a positive width every slot midpoint lies strictly inside the viewport. */
  lemma SlotInside(i: nat, len: nat, width: real)
    requires i < len && width > 0.0
    ensures 0.0 < Slot(i, len, width) < width
  {
    var l := len as real;
    var f := (i as real / l) + (0.5 / l);
    assert f == (i as real + 0.5) / l;
    assert 0.0 < f < 1.0 by {
      if f <= 0.0 { assert false; }
      if f >= 1.0 { assert false; }
    }
    assert Slot(i, len, width) == f * width;
    assert width - f * width == (1.0 - f) * width;
  }

  /** Within a row, a key further right gets a larger position. */
  lemma SlotIncreasing(i: nat, j: nat, len: nat, width: real)
    requires i < j < len && width > 0.0
    ensures Slot(i, len, width) < Slot(j, len, width)
  {
    var d := (j as real - i as real) / len as real;
    assert d > 0.0;
    assert Slot(j, len, width) - Slot(i, len, width) == d * width;
  }

  // ------------------------------------------- what the assignments write

  /** Writing the cells of a row into m keeps the entries of m the row does not overwrite. */
  lemma {:induction false} PlaceRowUnion(m: map<string, real>, row: seq<Option<string>>, n: nat, width: real)
    requires n <= |row|
    ensures PlaceRow(m, row, n, width) == m + PlaceRow(map[], row, n, width)
  {
    if n > 0 {
      PlaceRowUnion(m, row, n - 1, width);
    }
  }

  /** generatePositions never deletes an entry: it only adds or overwrites. */
  lemma {:induction false} PlaceRowsUnion(m: map<string, real>, rows: seq<seq<Option<string>>>, n: nat, width: real)
    requires n <= |rows|
    ensures PlaceRows(m, rows, n, width) == m + PlaceRows(map[], rows, n, width)
  {
    if n > 0 {
      var before := PlaceRows(m, rows, n - 1, width);
      var table := PlaceRows(map[], rows, n - 1, width);
      PlaceRowsUnion(m, rows, n - 1, width);
      PlaceRowUnion(before, rows[n - 1], |rows[n - 1]|, width);
      PlaceRowUnion(table, rows[n - 1], |rows[n - 1]|, width);
    }
  }

  /** No entry of the old table is lost. */
  lemma PlaceRowsKeepsKeys(m: map<string, real>, rows: seq<seq<Option<string>>>, n: nat, width: real)
    requires n <= |rows|
    ensures m.Keys <= PlaceRows(m, rows, n, width).Keys
  {
    PlaceRowsUnion(m, rows, n, width);
  }

  /** A row writes exactly the keys of its non-skipped cells. */
  lemma {:induction false} PlaceRowDomain(m: map<string, real>, row: seq<Option<string>>, n: nat, width: real, key: string)
    requires n <= |row|
    ensures key in PlaceRow(m, row, n, width) <==>
            key in m || exists i :: 0 <= i < n && IsKey(row[i]) && row[i].value == key
  {
    if n > 0 {
      PlaceRowDomain(m, row, n - 1, width, key);
    }
  }

  /** The rows write exactly the keys of their non-skipped cells. */
  lemma {:induction false} PlaceRowsDomain(m: map<string, real>, rows: seq<seq<Option<string>>>, n: nat, width: real, key: string)
    requires n <= |rows|
    ensures key in PlaceRows(m, rows, n, width) <==>
            key in m || exists r, i :: 0 <= r < n && 0 <= i < |rows[r]| && IsKey(rows[r][i]) && rows[r][i].value == key
  {
    if n > 0 {
      PlaceRowsDomain(m, rows, n - 1, width, key);
      PlaceRowDomain(PlaceRows(m, rows, n - 1, width), rows[n - 1], |rows[n - 1]|, width, key);
      if key in PlaceRows(m, rows, n, width) && key !in m {
        if key in PlaceRows(m, rows, n - 1, width) {
          var r, i :| 0 <= r < n - 1 && 0 <= i < |rows[r]| && IsKey(rows[r][i]) && rows[r][i].value == key;
          assert 0 <= r < n;
        } else {
          var i :| 0 <= i < |rows[n - 1]| && IsKey(rows[n - 1][i]) && rows[n - 1][i].value == key;
          assert 0 <= n - 1 < n;
        }
      }
      if exists r, i :: 0 <= r < n && 0 <= i < |rows[r]| && IsKey(rows[r][i]) && rows[r][i].value == key {
        var r, i :| 0 <= r < n && 0 <= i < |rows[r]| && IsKey(rows[r][i]) && rows[r][i].value == key;
        if r == n - 1 {
          assert 0 <= i < |rows[n - 1]|;
        } else {
          assert 0 <= r < n - 1;
        }
      }
    }
  }

  /** A key that occurs in none of the first n cells of a row keeps its entry. */
  lemma {:induction false} PlaceRowFrame(m: map<string, real>, row: seq<Option<string>>, n: nat, width: real, key: string)
    requires n <= |row|
    requires forall i :: 0 <= i < n ==> row[i] != Some(key)
    ensures key in PlaceRow(m, row, n, width) <==> key in m
    ensures key in m ==> PlaceRow(m, row, n, width)[key] == m[key]
  {
    if n > 0 {
      PlaceRowFrame(m, row, n - 1, width, key);
    }
  }

  /** A key that occurs once in a row gets the slot of its column. */
  lemma {:induction false} PlaceRowAt(m: map<string, real>, row: seq<Option<string>>, n: nat, width: real, i: nat)
    requires i < n <= |row| && IsKey(row[i])
    requires forall j :: i < j < n ==> row[j] != row[i]
    ensures row[i].value in PlaceRow(m, row, n, width)
    ensures PlaceRow(m, row, n, width)[row[i].value] == Slot(i, |row|, width)
  {
    if n - 1 > i {
      PlaceRowAt(m, row, n - 1, width, i);
    }
  }

  /** A key that occurs once in the rows gets the slot of its cell. */
  lemma {:induction false} PlaceRowsAt(m: map<string, real>, rows: seq<seq<Option<string>>>, n: nat, width: real, r: nat, i: nat)
    requires r < n <= |rows| && i < |rows[r]| && IsKey(rows[r][i])
    requires forall r', j :: 0 <= r' < n && 0 <= j < |rows[r']| && rows[r'][j] == rows[r][i] ==> r' == r && j == i
    ensures rows[r][i].value in PlaceRows(m, rows, n, width)
    ensures PlaceRows(m, rows, n, width)[rows[r][i].value] == Slot(i, |rows[r]|, width)
  {
    var before := PlaceRows(m, rows, n - 1, width);
    var last := rows[n - 1];
    if r == n - 1 {
      PlaceRowAt(before, last, |last|, width, i);
    } else {
      PlaceRowsAt(m, rows, n - 1, width, r, i);
      PlaceRowFrame(before, last, |last|, width, rows[r][i].value);
    }
  }

  // ---------------------------------------------- the order of the visits

  /** No element of s occurs twice. */
  predicate Distinct(s: seq<string>) {
    forall a, b :: 0 <= a < b < |s| ==> s[a] != s[b]
  }

  /** Two runs without repeats, with nothing in common, make a run without repeats. */
  lemma DistinctAppend(s: seq<string>, t: seq<string>)
    requires Distinct(s) && Distinct(t)
    requires forall k :: k in s ==> k !in t
    ensures Distinct(s + t)
  {
    forall a, b | 0 <= a < b < |s + t| ensures (s + t)[a] != (s + t)[b] {
      if b < |s| {
        assert (s + t)[a] == s[a] && (s + t)[b] == s[b];
      } else if a >= |s| {
        assert (s + t)[a] == t[a - |s|] && (s + t)[b] == t[b - |s|];
      } else {
        assert (s + t)[a] == s[a] && s[a] in s;
        assert (s + t)[b] == t[b - |s|] && t[b - |s|] in t;
      }
    }
  }

  /** A row visits exactly the keys of its non-skipped cells. */
  lemma {:induction false} RowKeysMember(row: seq<Option<string>>, n: nat, key: string)
    requires n <= |row|
    ensures key in RowKeys(row, n) <==> exists i :: 0 <= i < n && IsKey(row[i]) && row[i].value == key
  {
    if n > 0 {
      RowKeysMember(row, n - 1, key);
      if key in RowKeys(row, n) && key !in RowKeys(row, n - 1) {
        assert IsKey(row[n - 1]) && row[n - 1].value == key;
      }
      if exists i :: 0 <= i < n && IsKey(row[i]) && row[i].value == key {
        var i :| 0 <= i < n && IsKey(row[i]) && row[i].value == key;
        if i == n - 1 {
          assert RowKeys(row, n) == RowKeys(row, n - 1) + [key];
        }
      }
    }
  }

  /** The rows visit exactly the keys of their non-skipped cells. */
  lemma {:induction false} LayoutKeysMember(rows: seq<seq<Option<string>>>, n: nat, key: string)
    requires n <= |rows|
    ensures key in LayoutKeys(rows, n) <==>
            exists r, i :: 0 <= r < n && 0 <= i < |rows[r]| && IsKey(rows[r][i]) && rows[r][i].value == key
  {
    if n > 0 {
      var last := rows[n - 1];
      LayoutKeysMember(rows, n - 1, key);
      RowKeysMember(last, |last|, key);
      if key in LayoutKeys(rows, n) {
        if key in LayoutKeys(rows, n - 1) {
          var r, i :| 0 <= r < n - 1 && 0 <= i < |rows[r]| && IsKey(rows[r][i]) && rows[r][i].value == key;
          assert 0 <= r < n;
        } else {
          var i :| 0 <= i < |last| && IsKey(last[i]) && last[i].value == key;
          assert 0 <= n - 1 < n && rows[n - 1][i] == last[i];
        }
      }
      if exists r, i :: 0 <= r < n && 0 <= i < |rows[r]| && IsKey(rows[r][i]) && rows[r][i].value == key {
        var r, i :| 0 <= r < n && 0 <= i < |rows[r]| && IsKey(rows[r][i]) && rows[r][i].value == key;
        if r == n - 1 {
          assert key in RowKeys(last, |last|);
        } else {
          assert key in LayoutKeys(rows, n - 1);
        }
      }
    }
  }

  /** A row whose keys occur once is visited without repeats. */
  lemma {:induction false} RowKeysDistinct(row: seq<Option<string>>, n: nat)
    requires n <= |row|
    requires forall i, j :: 0 <= i < j < n && IsKey(row[i]) ==> row[j] != row[i]
    ensures Distinct(RowKeys(row, n))
  {
    if n > 0 {
      RowKeysDistinct(row, n - 1);
      if IsKey(row[n - 1]) {
        var key := row[n - 1].value;
        RowKeysMember(row, n - 1, key);
        forall i | 0 <= i < n - 1 && IsKey(row[i]) ensures row[i].value != key {
          assert row[n - 1] != row[i];
        }
        DistinctAppend(RowKeys(row, n - 1), [key]);
      }
    }
  }

  /** Rows whose keys occur once are visited without repeats. */
  lemma {:induction false} LayoutKeysDistinct(rows: seq<seq<Option<string>>>, n: nat)
    requires n <= |rows|
    requires forall r, i, r', j ::
               0 <= r < n && 0 <= i < |rows[r]| && 0 <= r' < n && 0 <= j < |rows[r']| &&
               IsKey(rows[r][i]) && rows[r'][j] == rows[r][i]
               ==> r' == r && j == i
    ensures Distinct(LayoutKeys(rows, n))
  {
    if n > 0 {
      var last := rows[n - 1];
      LayoutKeysDistinct(rows, n - 1);
      forall i, j | 0 <= i < j < |last| && IsKey(last[i]) ensures last[j] != last[i] {
        assert rows[n - 1][i] == last[i] && rows[n - 1][j] == last[j];
      }
      RowKeysDistinct(last, |last|);
      forall key | key in LayoutKeys(rows, n - 1) ensures key !in RowKeys(last, |last|) {
        LayoutKeysMember(rows, n - 1, key);
        RowKeysMember(last, |last|, key);
        var r, i :| 0 <= r < n - 1 && 0 <= i < |rows[r]| && IsKey(rows[r][i]) && rows[r][i].value == key;
        forall j | 0 <= j < |last| ensures last[j] != rows[r][i] {
          assert rows[n - 1][j] == last[j];
        }
      }
      DistinctAppend(LayoutKeys(rows, n - 1), RowKeys(last, |last|));
    }
  }

  // ------------------------------------------------ KEYS against Cell

  /** Columns i.. of row r agree with Cell. */
  predicate RowAgreesFrom(r: nat, i: nat)
    requires r < |KEYS| && i <= |KEYS[r]|
    decreases |KEYS[r]| - i
  {
    i == |KEYS[r]| ||
    ((KEYS[r][i].Some? ==> Cell(KEYS[r][i].value) == Some((r, i))) && RowAgreesFrom(r, i + 1))
  }

  lemma {:induction false} RowAgreesAt(r: nat, i: nat, j: nat)
    requires r < |KEYS| && i <= j < |KEYS[r]| && RowAgreesFrom(r, i)
    ensures KEYS[r][j].Some? ==> Cell(KEYS[r][j].value) == Some((r, j))
    decreases j - i
  {
    if i < j {
      RowAgreesAt(r, i + 1, j);
    }
  }

  // Each row is checked in a lemma of its own, a few columns per step, so
  // that every proof obligation stays small.
  lemma Row0RightAgrees()
    ensures RowAgreesFrom(0, 7)
  {
    assert RowAgreesFrom(0, 10);
  }

  lemma Row0Agrees()
    ensures RowAgreesFrom(0, 0)
  {
    Row0RightAgrees();
    assert RowAgreesFrom(0, 4);
  }

  lemma Row1RightAgrees()
    ensures RowAgreesFrom(1, 7)
  {
    assert RowAgreesFrom(1, 10);
  }

  lemma Row1Agrees()
    ensures RowAgreesFrom(1, 0)
  {
    Row1RightAgrees();
    assert RowAgreesFrom(1, 4);
  }

  lemma Row2RightAgrees()
    ensures RowAgreesFrom(2, 7)
  {
    assert RowAgreesFrom(2, 10);
  }

  lemma Row2Agrees()
    ensures RowAgreesFrom(2, 0)
  {
    Row2RightAgrees();
    assert RowAgreesFrom(2, 4);
  }

  lemma Row3FarRightAgrees()
    ensures RowAgreesFrom(3, 9)
  {
  }

  lemma Row3RightAgrees()
    ensures RowAgreesFrom(3, 6)
  {
    Row3FarRightAgrees();
  }

  lemma Row3MiddleAgrees()
    ensures RowAgreesFrom(3, 4)
  {
    Row3RightAgrees();
  }

  lemma Row3Agrees()
    ensures RowAgreesFrom(3, 0)
  {
    Row3MiddleAgrees();
  }

  lemma Row4Agrees()
    ensures RowAgreesFrom(4, 0)
  {
    assert RowAgreesFrom(4, 12);
    assert RowAgreesFrom(4, 6);
  }

  lemma Row5Agrees()
    ensures RowAgreesFrom(5, 0)
  {
    assert RowAgreesFrom(5, 12);
    assert RowAgreesFrom(5, 6);
  }

  lemma Row6Agrees()
    ensures RowAgreesFrom(6, 0)
  {
    assert RowAgreesFrom(6, 12);
    assert RowAgreesFrom(6, 6);
  }

  lemma Row7Agrees()
    ensures RowAgreesFrom(7, 0)
  {
    assert RowAgreesFrom(7, 12);
    assert RowAgreesFrom(7, 6);
  }

  lemma Row8Agrees()
    ensures RowAgreesFrom(8, 0)
  {
    assert RowAgreesFrom(8, 12);
    assert RowAgreesFrom(8, 6);
  }

  /** Row r of KEYS agrees with Cell. */
  lemma RowAgrees(r: nat)
    requires r < |KEYS|
    ensures RowAgreesFrom(r, 0)
  {
    if r == 0 { Row0Agrees(); }
    else if r == 1 { Row1Agrees(); }
    else if r == 2 { Row2Agrees(); }
    else if r == 3 { Row3Agrees(); }
    else if r == 4 { Row4Agrees(); }
    else if r == 5 { Row5Agrees(); }
    else if r == 6 { Row6Agrees(); }
    else if r == 7 { Row7Agrees(); }
    else { Row8Agrees(); }
  }

  /** Every cell of KEYS that holds a key is where Cell puts that key. */
  lemma KeysAgreeWithCell(r: nat, i: nat)
    requires r < |KEYS| && i < |KEYS[r]| && KEYS[r][i].Some?
    ensures Cell(KEYS[r][i].value) == Some((r, i))
  {
    RowAgrees(r);
    RowAgreesAt(r, 0, i);
  }

  /** Every key Cell places is in KEYS at that cell. */
  lemma CellInKeys(key: string)
    requires Cell(key).Some?
    ensures Cell(key).value.0 < |KEYS| && Cell(key).value.1 < |KEYS[Cell(key).value.0]|
    ensures KEYS[Cell(key).value.0][Cell(key).value.1] == Some(key)
  {
    if |key| == 1 {
      assert key == [key[0]];
    } else {
      NumCellInKeys(key[4]);
      assert key == "num-" + [key[4]];
    }
  }

  lemma NumCellInKeys(c: char)
    requires Cell("num-" + [c]).Some?
    ensures Cell("num-" + [c]).value.0 < |KEYS| && Cell("num-" + [c]).value.1 < |KEYS[Cell("num-" + [c]).value.0]|
    ensures KEYS[Cell("num-" + [c]).value.0][Cell("num-" + [c]).value.1] == Some("num-" + [c])
  {
    var key := "num-" + [c];
    assert |key| == 5 && key[..4] == "num-" && key[4] == c;
    var (r, i) := Cell(key).value;
    var v := KEYS[r][i];
    assert v.Some? && |v.value| == 5 && v.value[..4] == "num-" && v.value[4] == c;
    assert v.value == v.value[..4] + [v.value[4]];
  }

  // ---------------------------------------------- the table of KEYS

  /** No key appears twice in KEYS. */
  lemma NoDuplicateKeys(r: nat, i: nat, r': nat, i': nat)
    requires r < |KEYS| && i < |KEYS[r]| && r' < |KEYS| && i' < |KEYS[r']|
    requires KEYS[r][i].Some? && KEYS[r'][i'] == KEYS[r][i]
    ensures r == r' && i == i'
  {
    KeysAgreeWithCell(r, i);
    KeysAgreeWithCell(r', i');
  }

  /** The keys of the table are exactly the keys of KEYS, whatever the width. */
  lemma PositionsDomain(width: real, key: string)
    ensures key in Positions(width) <==> Cell(key).Some?
  {
    PlaceRowsDomain(map[], KEYS, |KEYS|, width, key);
    if key in Positions(width) {
      var r, i :| 0 <= r < |KEYS| && 0 <= i < |KEYS[r]| && IsKey(KEYS[r][i]) && KEYS[r][i].value == key;
      KeysAgreeWithCell(r, i);
    }
    if Cell(key).Some? {
      CellInKeys(key);
      var (r, i) := Cell(key).value;
      assert 0 <= r < |KEYS| && 0 <= i < |KEYS[r]| && IsKey(KEYS[r][i]) && KEYS[r][i].value == key;
    }
  }

  /** Each key gets ((i / L) + (0.5 / L)) * width, for its column i in a row of length L. */
  lemma PositionsAt(width: real, key: string, r: nat, i: nat)
    requires Cell(key) == Some((r, i))
    ensures r < |KEYS| && i < |KEYS[r]|
    ensures key in Positions(width) && Positions(width)[key] == Slot(i, |KEYS[r]|, width)
  {
    CellInKeys(key);
    forall r', j | 0 <= r' < |KEYS| && 0 <= j < |KEYS[r']| && KEYS[r'][j] == KEYS[r][i]
      ensures r' == r && j == i
    {
      NoDuplicateKeys(r, i, r', j);
    }
    PlaceRowsAt(map[], KEYS, |KEYS|, width, r, i);
  }

  /** For a positive width every position lies strictly between 0 and the width. */
  lemma PositionsInside(width: real, key: string)
    requires width > 0.0 && key in Positions(width)
    ensures 0.0 < Positions(width)[key] < width
  {
    PositionsDomain(width, key);
    var (r, i) := Cell(key).value;
    PositionsAt(width, key, r, i);
    SlotInside(i, |KEYS[r]|, width);
  }

  /**
   * Whatever `positions` held before, as long as it holds only keys of the
   * layout, generatePositions leaves exactly the table for the new width:
   * every old entry is overwritten.
   */
  lemma Regenerate(m: map<string, real>, width: real)
    requires forall key :: key in m ==> Cell(key).Some?
    ensures PlaceRows(m, KEYS, |KEYS|, width) == Positions(width)
  {
    var table := Positions(width);
    PlaceRowsUnion(m, KEYS, |KEYS|, width);
    forall key | key in m ensures key in table {
      PositionsDomain(width, key);
    }
    assert m + table == table;
  }

  /** Re-running generatePositions with the same width changes nothing. */
  lemma RegenerateSameWidth(width: real)
    ensures PlaceRows(Positions(width), KEYS, |KEYS|, width) == Positions(width)
  {
    forall key | key in Positions(width) ensures Cell(key).Some? {
      PositionsDomain(width, key);
    }
    Regenerate(Positions(width), width);
  }

  /** generatePositions visits exactly the keys of KEYS, each of them once. */
  lemma LayoutVisitsEachKeyOnce(key: string)
    ensures key in LayoutKeys(KEYS, |KEYS|) <==> Cell(key).Some?
    ensures Distinct(LayoutKeys(KEYS, |KEYS|))
  {
    LayoutKeysMember(KEYS, |KEYS|, key);
    PlaceRowsDomain(map[], KEYS, |KEYS|, 0.0, key);
    PositionsDomain(0.0, key);
    forall r, i, r', j | 0 <= r < |KEYS| && 0 <= i < |KEYS[r]| && 0 <= r' < |KEYS| && 0 <= j < |KEYS[r']| &&
        IsKey(KEYS[r][i]) && KEYS[r'][j] == KEYS[r][i]
      ensures r' == r && j == i
    {
      NoDuplicateKeys(r, i, r', j);
    }
    LayoutKeysDistinct(KEYS, |KEYS|);
  }
}
