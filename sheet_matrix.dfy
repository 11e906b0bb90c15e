/**
 * `sheetDataToMatrix`: a sheet record becomes a rectangular grid whose
 * height and width are the largest row and column among its references;
 * every position no reference addresses holds null.
 */
module SheetMatrix {
  import opened Wrappers
  import opened JsString
  import opened JsObject
  import opened RefCoords
  import opened CellValues
  import opened SparseSheet

  /** The coordinates of keys in order, or the error of the first key `refToCoords` rejects. */
  function DecodeAll(keys: seq<string>): (r: Result<seq<Coords>>)
    ensures r.Ok? ==> |r.value| == |keys| && forall i :: 0 <= i < |keys| ==> Decode(keys[i]) == Ok(r.value[i])
    ensures r.Err? <==> exists i :: 0 <= i < |keys| && Decode(keys[i]).Err?
    ensures r.Err? ==> exists i :: 0 <= i < |keys| && Decode(keys[i]) == Err(r.error)
  {
    if keys == [] then Ok([])
    else
      var last := keys[|keys| - 1];
      assert forall i :: 0 <= i < |keys| - 1 ==> keys[..|keys| - 1][i] == keys[i];
      match DecodeAll(keys[..|keys| - 1])
      case Err(e) => Err(e)
      case Ok(cs) =>
        match Decode(last)
        case Err(e) => Err(e)
        case Ok(c) => Ok(cs + [c])
  }

  /** The largest row of cs, 0 for none. */
  function MaxRow(cs: seq<Coords>): (m: int)
    ensures m >= 0 && forall i :: 0 <= i < |cs| ==> cs[i].row <= m
    ensures m == 0 || exists i :: 0 <= i < |cs| && cs[i].row == m
  {
    if cs == [] then 0
    else
      var m := MaxRow(cs[..|cs| - 1]);
      assert forall i :: 0 <= i < |cs| - 1 ==> cs[..|cs| - 1][i] == cs[i];
      if cs[|cs| - 1].row > m then cs[|cs| - 1].row else m
  }

  /** The largest column of cs, 0 for none. */
  function MaxCol(cs: seq<Coords>): (m: int)
    ensures m >= 0 && forall i :: 0 <= i < |cs| ==> cs[i].col <= m
    ensures m == 0 || exists i :: 0 <= i < |cs| && cs[i].col == m
  {
    if cs == [] then 0
    else
      var m := MaxCol(cs[..|cs| - 1]);
      assert forall i :: 0 <= i < |cs| - 1 ==> cs[..|cs| - 1][i] == cs[i];
      if cs[|cs| - 1].col > m then cs[|cs| - 1].col else m
  }

  /** `Object.entries(data)` yields each key with its value. */
  function EntryValue(data: SheetData, key: string): CellValue
  {
    match Get(data, key)
    case Some(v) => v
    case None => Null
  }

  /**
   * The value written last at (row, col) when the entries of keys[0..n) are
   * written at cs[0..n), in order; null where none of them is written.
   */
  function ValueAt(data: SheetData, keys: seq<string>, cs: seq<Coords>, n: nat, row: int, col: int): CellValue
    requires n <= |keys| == |cs|
  {
    if n == 0 then Null
    else if cs[n - 1] == Coords(row, col) then EntryValue(data, keys[n - 1])
    else ValueAt(data, keys, cs, n - 1, row, col)
  }

  /** A position none of the keys addresses stays null, so data starting in column C has leading nulls. */
  lemma {:induction false} UnaddressedIsNull(data: SheetData, keys: seq<string>, cs: seq<Coords>, n: nat, row: int, col: int)
    requires n <= |keys| == |cs|
    requires forall i :: 0 <= i < n ==> cs[i] != Coords(row, col)
    ensures ValueAt(data, keys, cs, n, row, col) == Null
  {
    if n > 0 {
      UnaddressedIsNull(data, keys, cs, n - 1, row, col);
    }
  }

  lemma {:induction false} DecodeAllKeepsError(keys: seq<string>, k: nat)
    requires k <= |keys| && DecodeAll(keys[..k]).Err?
    ensures DecodeAll(keys) == DecodeAll(keys[..k])
    decreases |keys| - k
  {
    if k < |keys| {
      assert keys[..k + 1][..k] == keys[..k];
      DecodeAllKeepsError(keys, k + 1);
    } else {
      assert keys[..k] == keys;
    }
  }

  lemma DecodeAllSnoc(keys: seq<string>, k: nat)
    requires k < |keys|
    ensures DecodeAll(keys[..k + 1]) ==
      match DecodeAll(keys[..k])
      case Err(e) => Err(e)
      case Ok(cs) => (match Decode(keys[k]) case Err(e) => Err(e) case Ok(c) => Ok(cs + [c]))
  {
    assert keys[..k + 1][..k] == keys[..k];
  }

  /** The first loop of `sheetDataToMatrix`: the largest row and column over the keys, or the first rejection. */
  method MatrixExtent(keys: seq<string>) returns (r: Result<(int, int)>)
    ensures r.Err? <==> DecodeAll(keys).Err?
    ensures r.Err? ==> r.error == DecodeAll(keys).error
    ensures r.Ok? ==> r.value == (MaxRow(DecodeAll(keys).value), MaxCol(DecodeAll(keys).value))
  {
    var maxRow, maxCol := 0, 0;
    ghost var cs: seq<Coords> := [];
    for k := 0 to |keys|
      invariant DecodeAll(keys[..k]) == Ok(cs)
      invariant maxRow == MaxRow(cs) && maxCol == MaxCol(cs)
    {
      var coords := RefToCoords(keys[k]);
      DecodeAllSnoc(keys, k);
      if coords.Err? {
        DecodeAllKeepsError(keys, k + 1);
        return Err(coords.error);
      }
      assert (cs + [coords.value])[..|cs|] == cs;
      cs := cs + [coords.value];
      if coords.value.row > maxRow {
        maxRow := coords.value.row;
      }
      if coords.value.col > maxCol {
        maxCol := coords.value.col;
      }
    }
    assert keys[..|keys|] == keys;
    return Ok((maxRow, maxCol));
  }

  /** Every position of matrix holds what the first n entries leave there. */
  ghost predicate Filled(matrix: array2<CellValue>, data: SheetData, keys: seq<string>, cs: seq<Coords>, n: nat)
    requires n <= |keys| == |cs|
    reads matrix
  {
    forall i, j :: 0 <= i < matrix.Length0 && 0 <= j < matrix.Length1 ==>
      matrix[i, j] == ValueAt(data, keys, cs, n, i + 1, j + 1)
  }

  /** The second loop of `sheetDataToMatrix`: each entry is written at its coordinates, in order. */
  method FillMatrix(matrix: array2<CellValue>, data: SheetData, keys: seq<string>, ghost cs: seq<Coords>)
    requires DecodeAll(keys) == Ok(cs)
    requires matrix.Length0 == MaxRow(cs) && matrix.Length1 == MaxCol(cs)
    requires forall i, j :: 0 <= i < matrix.Length0 && 0 <= j < matrix.Length1 ==> matrix[i, j] == Null
    modifies matrix
    ensures forall i, j :: 0 <= i < matrix.Length0 && 0 <= j < matrix.Length1 ==>
      matrix[i, j] == ValueAt(data, keys, cs, |keys|, i + 1, j + 1)
  {
    for k := 0 to |keys|
      invariant Filled(matrix, data, keys, cs, k)
    {
      var coords := RefToCoords(keys[k]);
      EntryInRange(keys, cs, k, coords);
      var value := EntryValue(data, keys[k]);
      WriteEntry(matrix, data, keys, cs, k, coords.value.row - 1, coords.value.col - 1, value);
    }
  }

  /** The k-th key decodes to the k-th coordinates, which lie inside the extent. */
  lemma EntryInRange(keys: seq<string>, cs: seq<Coords>, k: nat, coords: Result<Coords>)
    requires DecodeAll(keys) == Ok(cs) && k < |keys|
    requires coords == Decode(keys[k]) && (coords.Ok? ==> coords.value.row >= 1 && coords.value.col >= 1)
    ensures coords == Ok(cs[k]) && k < |cs|
    ensures 1 <= cs[k].row <= MaxRow(cs) && 1 <= cs[k].col <= MaxCol(cs)
  {
  }

  /** One step of the second loop: the k-th entry is written at its position. */
  method WriteEntry(matrix: array2<CellValue>, data: SheetData, keys: seq<string>, ghost cs: seq<Coords>,
                    k: nat, row: int, col: int, value: CellValue)
    requires k < |keys| == |cs| && cs[k] == Coords(row + 1, col + 1)
    requires 0 <= row < matrix.Length0 && 0 <= col < matrix.Length1
    requires value == EntryValue(data, keys[k])
    requires Filled(matrix, data, keys, cs, k)
    modifies matrix
    ensures Filled(matrix, data, keys, cs, k + 1)
  {
    label Before:
    matrix[row, col] := value;
    forall i, j | 0 <= i < matrix.Length0 && 0 <= j < matrix.Length1
      ensures matrix[i, j] == ValueAt(data, keys, cs, k + 1, i + 1, j + 1)
    {
      if i != row || j != col {
        assert cs[k] != Coords(i + 1, j + 1);
        assert matrix[i, j] == old@Before(matrix[i, j]);
      }
    }
  }

  /**
   * m is the matrix of data: MaxRow by MaxCol over the coordinates of the
   * keys, each position holding the entry written there last, or null.
   */
  ghost predicate Depicts(m: array2<CellValue>, data: SheetData)
    reads m
  {
    var keys := OwnKeys(data);
    DecodeAll(keys).Ok? &&
    var cs := DecodeAll(keys).value;
    && m.Length0 == MaxRow(cs) && m.Length1 == MaxCol(cs)
    && forall i, j :: 0 <= i < m.Length0 && 0 <= j < m.Length1 ==> m[i, j] == ValueAt(data, keys, cs, |cs|, i + 1, j + 1)
  }

  /** r is the outcome `sheetDataToMatrix(data)` promises: the first bad key's error, or a matrix depicting data. */
  ghost predicate Converts(r: Result<array2<CellValue>>, data: SheetData)
    reads if r.Ok? then {r.value} else {}
  {
    && (r.Err? <==> DecodeAll(OwnKeys(data)).Err?)
    && (r.Err? ==> r.error == DecodeAll(OwnKeys(data)).error)
    && (r.Ok? ==> Depicts(r.value, data))
  }

  /**
   * `sheetDataToMatrix(data)`, the matrix held in a two-dimensional array:
   * rejected with the error of the first key (in `Object.keys` order) that is
   * not a cell reference; otherwise MaxRow by MaxCol, each position holding
   * the entry written there last, or null.
   */
  method SheetDataToMatrix(data: SheetData) returns (r: Result<array2<CellValue>>)
    ensures r.Err? <==> DecodeAll(OwnKeys(data)).Err?
    ensures r.Err? ==> r.error == DecodeAll(OwnKeys(data)).error
    ensures r.Ok? ==> fresh(r.value) && Depicts(r.value, data)
  {
    var keys := OwnKeys(data);
    var extent := MatrixExtent(keys);
    if extent.Err? {
      return Err(extent.error);
    }
    var (maxRow, maxCol) := extent.value;
    var matrix := new CellValue[maxRow, maxCol]((i, j) => Null);
    FillMatrix(matrix, data, keys, DecodeAll(keys).value);
    return Ok(matrix);
  }

  /** An empty record gives an empty matrix. */
  lemma EmptySheet(data: SheetData)
    requires data == []
    ensures DecodeAll(OwnKeys(data)) == Ok([])
    ensures MaxRow([]) == 0 && MaxCol([]) == 0
  {
    assert OwnKeys(data) == [];
  }

  /** The matrix is rejected exactly when some key of the record is not a cell reference, with that key in the message. */
  lemma InvalidKey(data: SheetData)
    ensures DecodeAll(OwnKeys(data)).Err? <==> exists k :: k in Keys(data) && !IsCellRef(k)
    ensures DecodeAll(OwnKeys(data)).Err? ==>
      exists k :: k in Keys(data) && !IsCellRef(k) && DecodeAll(OwnKeys(data)).error == InvalidRefPrefix + k
  {
    var keys := OwnKeys(data);
    forall k | k in keys
      ensures Decode(k).Err? <==> !IsCellRef(k)
      ensures Decode(k).Err? ==> Decode(k).error == InvalidRefPrefix + k
    {
      DecodeOkIff(k);
    }
    if exists k :: k in Keys(data) && !IsCellRef(k) {
      var k :| k in Keys(data) && !IsCellRef(k);
      var i :| 0 <= i < |keys| && keys[i] == k;
      assert Decode(keys[i]).Err?;
    }
  }

  /**
   * When every key is written in canonical form (no leading zero in the
   * row), each key's value lands at its own position: matrix[r-1][c-1] is
   * data[key] for the key with coordinates (r, c).
   */
  lemma CanonicalKeysLand(data: SheetData, key: string)
    requires forall k :: k in Keys(data) ==> IsCanonicalRef(k)
    requires key in Keys(data)
    ensures DecodeAll(OwnKeys(data)).Ok? && Decode(key).Ok?
    ensures var c := Decode(key).value; var cs := DecodeAll(OwnKeys(data)).value;
      && 1 <= c.row <= MaxRow(cs) && 1 <= c.col <= MaxCol(cs)
      && ValueAt(data, OwnKeys(data), cs, |cs|, c.row, c.col) == Get(data, key).value
  {
    var keys := OwnKeys(data);
    KeyLands(data, keys, key);
    assert EntryValue(data, key) == Get(data, key).value;
  }

  /** CanonicalKeysLand over any sequence of canonical keys written in order. */
  lemma KeyLands(data: SheetData, keys: seq<string>, key: string)
    requires forall k :: k in keys ==> IsCanonicalRef(k)
    requires key in keys
    ensures DecodeAll(keys).Ok? && Decode(key).Ok?
    ensures var c := Decode(key).value; var cs := DecodeAll(keys).value;
      && 1 <= c.row <= MaxRow(cs) && 1 <= c.col <= MaxCol(cs)
      && ValueAt(data, keys, cs, |cs|, c.row, c.col) == EntryValue(data, key)
  {
    AllDecode(keys);
    var cs := DecodeAll(keys).value;
    var i :| 0 <= i < |keys| && keys[i] == key;
    OnlyWriter(keys, cs, i);
    ValueAtOnlyWriter(data, keys, cs, |cs|, key, cs[i]);
  }

  lemma AllDecode(keys: seq<string>)
    requires forall k :: k in keys ==> IsCanonicalRef(k)
    ensures DecodeAll(keys).Ok?
  {
    forall k | k in keys
      ensures Decode(k).Ok?
    {
      DecodeThenEncode(k);
    }
  }

  /** Among canonical references only the key itself decodes to its coordinates. */
  lemma OnlyWriter(keys: seq<string>, cs: seq<Coords>, i: nat)
    requires forall k :: k in keys ==> IsCanonicalRef(k)
    requires DecodeAll(keys) == Ok(cs) && i < |keys|
    ensures forall j :: 0 <= j < |cs| && cs[j] == cs[i] ==> keys[j] == keys[i]
  {
    forall j | 0 <= j < |cs| && cs[j] == cs[i]
      ensures keys[j] == keys[i]
    {
      CanonicalRefInjective(keys[j], keys[i]);
    }
  }

  lemma {:induction false} ValueAtOnlyWriter(data: SheetData, keys: seq<string>, cs: seq<Coords>, n: nat, key: string, c: Coords)
    requires n <= |keys| == |cs|
    requires exists i :: 0 <= i < n && cs[i] == c
    requires forall i :: 0 <= i < n && cs[i] == c ==> keys[i] == key
    ensures ValueAt(data, keys, cs, n, c.row, c.col) == EntryValue(data, key)
  {
    if cs[n - 1] != Coords(c.row, c.col) {
      ValueAtOnlyWriter(data, keys, cs, n - 1, key, c);
    }
  }
}
