/**
 * Conversion between spreadsheet cell references such as "XFD1048576" and
 * one-based { row, col } pairs (src/utils/ref-coords.ts).  Columns are
 * written in bijective base 26, leftmost letter most significant.
 */
module RefCoords {
  import opened Wrappers
  import opened JsString

  datatype Coords = Coords(row: int, col: int)

  const InvalidRefPrefix := "Invalid cell reference: "
  const NonPositiveMessage := "Row and column must be positive (1-based)"

  /** The number of leading A-Z letters of s. */
  function LetterRunLength(s: string): (n: nat)
    ensures n <= |s| && AllUpper(s[..n])
    ensures n < |s| ==> !IsUpper(s[n])
  {
    if s != [] && IsUpper(s[0]) then
      var m := LetterRunLength(s[1..]);
      assert s[..m + 1] == [s[0]] + s[1..][..m];
      m + 1
    else 0
  }

  /** s is one or more A-Z letters followed by one or more decimal digits: /^[A-Z]+\d+$/. */
  predicate MatchesPattern(s: string)
  {
    exists k :: 1 <= k < |s| && AllUpper(s[..k]) && AllDigits(s[k..])
  }

  /** `/^([A-Z]+)(\d+)$/.exec(ref)`: the letter group and the digit group, or None. */
  function MatchRef(ref: string): Option<(string, string)>
  {
    var n := LetterRunLength(ref);
    if 1 <= n < |ref| && AllDigits(ref[n..]) then Some((ref[..n], ref[n..])) else None
  }

  /** The match succeeds exactly on the strings of the pattern, and its groups split the reference. */
  lemma MatchRefMeaning(ref: string)
    ensures MatchRef(ref).Some? <==> MatchesPattern(ref)
    ensures MatchRef(ref).Some? ==> var (letters, digits) := MatchRef(ref).value;
      ref == letters + digits && letters != [] && digits != [] && AllUpper(letters) && AllDigits(digits)
  {
    LetterRunEndsAtDigits(ref);
    var n := LetterRunLength(ref);
    if MatchRef(ref).Some? {
      assert ref == ref[..n] + ref[n..];
    }
  }

  /** The column number of A-Z letters in bijective base 26: A = 1, Z = 26, AA = 27. */
  function ColumnValue(letters: string): nat
    requires AllUpper(letters)
  {
    if letters == [] then 0
    else ColumnValue(letters[..|letters| - 1]) * 26 + (letters[|letters| - 1] as int - 'A' as int + 1)
  }

  /** What `refToCoords` returns or throws. */
  function Decode(ref: string): Result<Coords>
  {
    match MatchRef(ref)
    case None => Err(InvalidRefPrefix + ref)
    case Some((letters, digits)) =>
      if DecimalValue(digits) <= 0 then Err(InvalidRefPrefix + ref)
      else Ok(Coords(DecimalValue(digits), ColumnValue(letters)))
  }

  /** A reference refToCoords accepts: letters, then digits whose value is positive. */
  predicate IsCellRef(ref: string)
  {
    exists k :: 1 <= k < |ref| && AllUpper(ref[..k]) && AllDigits(ref[k..]) && DecimalValue(ref[k..]) > 0
  }

  /** A reference whose row digits have no leading zero: the form coordsToRef writes. */
  predicate IsCanonicalRef(ref: string)
  {
    exists k :: 1 <= k < |ref| && AllUpper(ref[..k]) && IsCanonicalDecimal(ref[k..]) && DecimalValue(ref[k..]) > 0
  }

  /** Where letters are followed by digits, the letter run ends at the first digit. */
  lemma LetterRunEndsAtDigits(ref: string)
    ensures forall k :: 1 <= k < |ref| && AllUpper(ref[..k]) && AllDigits(ref[k..]) ==> LetterRunLength(ref) == k
  {
    var n := LetterRunLength(ref);
    forall k | 1 <= k < |ref| && AllUpper(ref[..k]) && AllDigits(ref[k..])
      ensures n == k
    {
      UpperPrefixBound(ref, k);
      assert ref[k..][0] == ref[k];
      RunStopsAt(ref, k);
    }
  }

  /** The letter run covers every all-upper prefix. */
  lemma {:induction false} UpperPrefixBound(s: string, k: nat)
    requires k <= |s| && AllUpper(s[..k])
    ensures LetterRunLength(s) >= k
  {
    if k > 0 {
      assert s[..k][0] == s[0];
      assert s[1..][..k - 1] == s[..k][1..];
      UpperPrefixBound(s[1..], k - 1);
    }
  }

  /** The letter run ends no later than the first character that is not a letter. */
  lemma {:induction false} RunStopsAt(s: string, k: nat)
    requires k < |s| && !IsUpper(s[k])
    ensures LetterRunLength(s) <= k
  {
    if k > 0 && IsUpper(s[0]) {
      assert s[1..][k - 1] == s[k];
      RunStopsAt(s[1..], k - 1);
    }
  }

  /** The match groups are the split at the end of the letter run. */
  lemma MatchRefSplit(ref: string, k: int)
    requires 1 <= k < |ref| && AllUpper(ref[..k]) && AllDigits(ref[k..])
    ensures MatchRef(ref) == Some((ref[..k], ref[k..]))
  {
    LetterRunEndsAtDigits(ref);
  }

  /** refToCoords succeeds exactly on the references of /^[A-Z]+\d+$/ whose row is not 0, and otherwise names the reference in its error. */
  lemma DecodeOkIff(ref: string)
    ensures Decode(ref).Ok? <==> IsCellRef(ref)
    ensures Decode(ref).Err? ==> Decode(ref).error == InvalidRefPrefix + ref
  {
    if IsCellRef(ref) {
      var k :| 1 <= k < |ref| && AllUpper(ref[..k]) && AllDigits(ref[k..]) && DecimalValue(ref[k..]) > 0;
      MatchRefSplit(ref, k);
    }
    if Decode(ref).Ok? {
      MatchRefMeaning(ref);
      var (letters, digits) := MatchRef(ref).value;
      assert ref[..|letters|] == letters && ref[|letters|..] == digits;
    }
  }

  /** `refToCoords`: the regular-expression match, the row as a decimal number, and the column accumulated letter by letter. */
  method RefToCoords(ref: string) returns (r: Result<Coords>)
    ensures r == Decode(ref)
    ensures r.Ok? ==> r.value.row >= 1 && r.value.col >= 1
  {
    var m := MatchRef(ref);
    if m.None? {
      return Err(InvalidRefPrefix + ref);
    }
    var (colLetters, rowDigits) := m.value;
    var row := DecimalValue(rowDigits);
    if row <= 0 {
      return Err(InvalidRefPrefix + ref);
    }
    var col := 0;
    for i := 0 to |colLetters|
      invariant col == ColumnValue(colLetters[..i])
    {
      assert colLetters[..i + 1][..i] == colLetters[..i];
      col := col * 26 + (colLetters[i] as int - 'A' as int + 1);
    }
    assert colLetters[..|colLetters|] == colLetters;
    ColumnValuePositive(colLetters);
    return Ok(Coords(row, col));
  }

  lemma ColumnValuePositive(letters: string)
    requires AllUpper(letters) && letters != []
    ensures ColumnValue(letters) >= 1
  {
  }

  /** The column letters coordsToRef builds for n; empty for 0. */
  function Letters(n: nat): string
  {
    if n == 0 then [] else Letters((n - 1) / 26) + [('A' as int + (n - 1) % 26) as char]
  }

  /** What `coordsToRef` returns or throws. */
  function Encode(c: Coords): Result<string>
  {
    if c.row <= 0 || c.col <= 0 then Err(NonPositiveMessage)
    else Ok(Letters(c.col) + NatToDecimal(c.row))
  }

  /** `coordsToRef`: letters are prepended, least significant first, while n is divided down. */
  method CoordsToRef(c: Coords) returns (r: Result<string>)
    ensures r == Encode(c)
    ensures r.Err? <==> c.row <= 0 || c.col <= 0
  {
    if c.row <= 0 || c.col <= 0 {
      return Err(NonPositiveMessage);
    }
    var colLetters := "";
    var n := c.col;
    while n > 0
      invariant 0 <= n <= c.col
      invariant Letters(n) + colLetters == Letters(c.col)
    {
      var rem := (n - 1) % 26;
      assert Letters(n) == Letters((n - 1) / 26) + [('A' as int + rem) as char];
      colLetters := [('A' as int + rem) as char] + colLetters;
      n := (n - 1) / 26;
    }
    assert colLetters == Letters(c.col);
    return Ok(colLetters + NatToDecimal(c.row));
  }

  /** Letters(n) is a non-empty run of A-Z letters for every n >= 1, and its column value is n. */
  lemma {:induction false} LettersValue(n: nat)
    ensures AllUpper(Letters(n))
    ensures n >= 1 ==> Letters(n) != []
    ensures ColumnValue(Letters(n)) == n
  {
    if n > 0 {
      var m := (n - 1) / 26;
      LettersValue(m);
      var s := Letters(n);
      assert s[..|s| - 1] == Letters(m);
    }
  }

  /** Every run of A-Z letters is what coordsToRef writes for its column value. */
  lemma {:induction false} LettersOfColumnValue(letters: string)
    requires AllUpper(letters)
    ensures Letters(ColumnValue(letters)) == letters
  {
    if letters != [] {
      var p := letters[..|letters| - 1];
      var d := letters[|letters| - 1] as int - 'A' as int + 1;
      LettersOfColumnValue(p);
      var v := ColumnValue(letters);
      assert v == ColumnValue(p) * 26 + d;
      assert (v - 1) / 26 == ColumnValue(p) && (v - 1) % 26 == d - 1;
      assert letters == p + [letters[|letters| - 1]];
    }
  }

  /** refToCoords(coordsToRef(c)) == c for every c with row >= 1 and col >= 1. */
  lemma EncodeThenDecode(c: Coords)
    requires c.row >= 1 && c.col >= 1
    ensures Encode(c).Ok? && Decode(Encode(c).value) == Ok(c)
  {
    var letters := Letters(c.col);
    var digits := NatToDecimal(c.row);
    LettersValue(c.col);
    NatToDecimalIsCanonical(c.row);
    var ref := letters + digits;
    assert ref[..|letters|] == letters && ref[|letters|..] == digits;
    MatchRefSplit(ref, |letters|);
  }

  /** coordsToRef(refToCoords(ref)) == ref for every accepted reference whose row has no leading zero. */
  lemma DecodeThenEncode(ref: string)
    requires IsCanonicalRef(ref)
    ensures Decode(ref).Ok? && Encode(Decode(ref).value) == Ok(ref)
  {
    var k :| 1 <= k < |ref| && AllUpper(ref[..k]) && IsCanonicalDecimal(ref[k..]) && DecimalValue(ref[k..]) > 0;
    var letters, digits := ref[..k], ref[k..];
    MatchRefSplit(ref, k);
    assert Decode(ref) == Ok(Coords(DecimalValue(digits), ColumnValue(letters)));
    LettersOfColumnValue(letters);
    DecimalRoundTrip(digits);
    ColumnValuePositive(letters);
    assert ref == letters + digits;
  }

  /** Two canonical references that decode to the same coordinates are the same reference. */
  lemma CanonicalRefInjective(a: string, b: string)
    requires IsCanonicalRef(a) && IsCanonicalRef(b)
    requires Decode(a) == Decode(b)
    ensures a == b
  {
    DecodeThenEncode(a);
    DecodeThenEncode(b);
  }

  /** The boundary values the library's tests pin down. */
  lemma ColumnExamples()
    ensures ColumnValue("A") == 1 && ColumnValue("Z") == 26 && ColumnValue("AA") == 27
    ensures ColumnValue("AZ") == 52 && ColumnValue("ZZ") == 702 && ColumnValue("AAA") == 703
    ensures ColumnValue("ABC") == 731 && ColumnValue("XFD") == 16384
    ensures Letters(16384) == "XFD"
  {
    LettersOfColumnValue("XFD");
  }

  /** The largest reference of a worksheet decodes to the largest row and column. */
  lemma MaxRefExample()
    ensures Decode("XFD1048576") == Ok(Coords(1048576, 16384))
  {
    var ref := "XFD1048576";
    assert ref[..3] == "XFD" && ref[3..] == "1048576";
    MatchRefSplit(ref, 3);
    MaxRowValue();
    ColumnExamples();
  }

  lemma MaxRowValue()
    ensures DecimalValue("1048576") == 1048576
  {
    assert "1048576"[..6] == "104857" && "104857"[..5] == "10485" && "10485"[..4] == "1048";
    assert "1048"[..3] == "104" && "104"[..2] == "10" && "10"[..1] == "1" && "1"[..0] == "";
    assert DecimalValue("1") == 1;
    assert DecimalValue("10") == 10;
    assert DecimalValue("104") == 104;
    assert DecimalValue("1048") == 1048;
    assert DecimalValue("10485") == 10485;
    assert DecimalValue("104857") == 104857;
  }

  /** "A01" is accepted, and coordsToRef writes its coordinates back as "A1". */
  lemma LeadingZeroExample()
    ensures Decode("A01") == Ok(Coords(1, 1))
    ensures Encode(Coords(1, 1)) == Ok("A1")
  {
    MatchRefSplit("A01", 1);
    assert "A01"[..1] == "A" && "A01"[1..] == "01";
    assert "01"[..1] == "0" && "0"[..0] == "";
    EncodeA1();
  }

  lemma EncodeA1()
    ensures Encode(Coords(1, 1)) == Ok("A1")
  {
    assert Letters(0) == [];
    assert Letters(1) == ['A'];
    assert NatToDecimal(1) == ['1'];
    assert Letters(1) + NatToDecimal(1) == "A1";
  }

  /** References the tests expect to be rejected. */
  lemma RejectedExamples()
    ensures Decode("").Err? && Decode("123").Err? && Decode("ABC").Err?
    ensures Decode("a1").Err? && Decode("Aa1").Err? && Decode("A1B").Err?
    ensures Decode("A0") == Err("Invalid cell reference: A0") && Decode("A-1").Err?
  {
    RejectedShapes();
    RejectedCharacters();
    RejectedRowZero();
  }

  lemma RejectedShapes()
    ensures Decode("").Err? && Decode("123").Err? && Decode("ABC").Err?
  {
  }

  lemma RejectedCharacters()
    ensures Decode("a1").Err? && Decode("Aa1").Err? && Decode("A1B").Err? && Decode("A-1").Err?
  {
    assert !IsDigit("A1B"[2]);
    assert !IsDigit("A-1"[1]) && !IsUpper("A-1"[1]);
    assert !IsUpper("a1"[0]) && !IsUpper("Aa1"[1]) && !IsDigit("Aa1"[1]);
  }

  lemma RejectedRowZero()
    ensures Decode("A0") == Err("Invalid cell reference: A0")
  {
    MatchRefSplit("A0", 1);
    assert "A0"[..1] == "A" && "A0"[1..] == "0";
  }
}
