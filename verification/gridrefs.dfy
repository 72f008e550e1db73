/** Grid references ("A1" .. "J10") and their translation into a tile index
    of the 10 x 10 board, as `gridToSliceIndex` in internal/game/board.go does
    it. References are strings of ASCII characters, one byte per character. */
module GridRefs {
  import opened Common

  /** Tiles on a board: 10 rows `A`..`J` times 10 columns `1`..`10`. */
  const BoardSize := 100

  /** The five ways a reference is rejected, in the order they are checked. */
  datatype RefError = TooShort | TooLong | RowOutOfBounds | InvalidColumn | ColumnOutOfBounds

  /** ASCII lower-casing, as `strings.ToLower` does on ASCII input. */
  function ToLower(c: char): char
  {
    if 'A' <= c <= 'Z' then (c as int + 32) as char else c
  }

  predicate IsDigit(c: char)
  {
    '0' <= c <= '9'
  }

  predicate AllDigits(s: string)
  {
    forall i :: 0 <= i < |s| ==> IsDigit(s[i])
  }

  /** The decimal value of a string of digits (leading zeros allowed). */
  function DigitsValue(s: string): nat
    requires AllDigits(s)
  {
    if s == [] then 0 else DigitsValue(s[..|s| - 1]) * 10 + (s[|s| - 1] as int - '0' as int)
  }

  /** `strconv.Atoi`: an optional `+` or `-` sign followed by at least one
      decimal digit; anything else is a syntax error (None). */
  function Atoi(s: string): Option<int>
  {
    if s == [] then None
    else
      var digits := if s[0] == '-' || s[0] == '+' then s[1..] else s;
      if digits == [] || !AllDigits(digits) then None
      else if s[0] == '-' then Some(0 - DigitsValue(digits) as int)
      else Some(DigitsValue(digits))
  }

  /** `gridToSliceIndex`: length 2..3, then a row letter a..j (either case),
      then a column that `Atoi` reads as 1..10; the index is row * 10 + col - 1.
      Go subtracts the row letter as a byte, so letters below 'a' wrap around
      to values above 9; both sides fail the same `row < 0 || row > 9` test,
      which is why a plain integer difference gives the same outcome. */
  function GridToIndex(ref: string): (r: Result<int, RefError>)
    ensures r.Ok? ==> 0 <= r.value < BoardSize
  {
    if |ref| < 2 then Err(TooShort)
    else if |ref| > 3 then Err(TooLong)
    else
      var row := ToLower(ref[0]) as int - 'a' as int;
      if row < 0 || row > 9 then Err(RowOutOfBounds)
      else
        match Atoi(ref[1..])
        case None => Err(InvalidColumn)
        case Some(col) =>
          if col < 1 || col > 10 then Err(ColumnOutOfBounds)
          else Ok(row * 10 + col - 1)
  }

  // ---------------------------------------------------------------------------
  // An independent description of the accepted references

  predicate IsRowLetter(c: char)
  {
    'a' <= c <= 'j' || 'A' <= c <= 'J'
  }

  function RowNumber(c: char): (r: int)
    requires IsRowLetter(c)
    ensures 0 <= r < 10
  {
    if 'a' <= c <= 'j' then c as int - 'a' as int else c as int - 'A' as int
  }

  /** Every two-character-or-shorter text that `Atoi` reads as a number in
      1..10: a digit 1..9, "10", or a digit 1..9 behind a `0` or a `+`. */
  predicate IsColumnText(t: string)
  {
    || (|t| == 1 && '1' <= t[0] <= '9')
    || t == "10"
    || (|t| == 2 && (t[0] == '0' || t[0] == '+') && '1' <= t[1] <= '9')
  }

  function ColumnNumber(t: string): (c: int)
    requires IsColumnText(t)
    ensures 1 <= c <= 10
  {
    if t == "10" then 10 else t[|t| - 1] as int - '0' as int
  }

  /** Atoi on the one or two characters a reference leaves for its column. */
  lemma AtoiColumn(t: string)
    requires 1 <= |t| <= 2
    ensures (Atoi(t).Some? && 1 <= Atoi(t).value <= 10) <==> IsColumnText(t)
    ensures IsColumnText(t) ==> Atoi(t) == Some(ColumnNumber(t))
  {
    if |t| == 1 {
      if IsDigit(t[0]) {
        assert t[..0] == [];
      }
    } else if t[0] == '-' || t[0] == '+' {
      var d := t[1..];
      if AllDigits(d) {
        assert d[..0] == [];
        assert DigitsValue(d) == t[1] as int - '0' as int;
      }
    } else if AllDigits(t) {
      assert t[..1][..0] == [];
      assert t[..1] == [t[0]];
      assert DigitsValue(t) == (t[0] as int - '0' as int) * 10 + (t[1] as int - '0' as int);
      if t[0] == '1' && t[1] == '0' {
        assert t == "10";
      }
    }
  }

  /** A reference is accepted exactly when it is a row letter followed by a
      column text, and it then names row * 10 + column - 1. */
  lemma GridToIndexAccepts(ref: string)
    ensures GridToIndex(ref).Ok? <==> (|ref| >= 2 && IsRowLetter(ref[0]) && IsColumnText(ref[1..]))
    ensures GridToIndex(ref).Ok? ==>
              GridToIndex(ref).value == RowNumber(ref[0]) * 10 + ColumnNumber(ref[1..]) - 1
  {
    if 2 <= |ref| <= 3 {
      AtoiColumn(ref[1..]);
    }
  }

  /** The rejections, one condition each. */
  lemma GridToIndexRejects(ref: string)
    ensures |ref| < 2 ==> GridToIndex(ref) == Err(TooShort)
    ensures |ref| > 3 ==> GridToIndex(ref) == Err(TooLong)
    ensures 2 <= |ref| <= 3 && !IsRowLetter(ref[0]) ==> GridToIndex(ref) == Err(RowOutOfBounds)
    ensures 2 <= |ref| <= 3 && IsRowLetter(ref[0]) && Atoi(ref[1..]).None? ==>
              GridToIndex(ref) == Err(InvalidColumn)
    ensures 2 <= |ref| <= 3 && IsRowLetter(ref[0]) && Atoi(ref[1..]).Some? && !IsColumnText(ref[1..]) ==>
              GridToIndex(ref) == Err(ColumnOutOfBounds)
  {
    if 2 <= |ref| <= 3 {
      AtoiColumn(ref[1..]);
    }
  }

  // ---------------------------------------------------------------------------
  // Canonical references: the bijection with 0..99

  const RowLetters := "ABCDEFGHIJ"

  /** The column label as the board header prints it. */
  function ColumnLabel(col: int): string
    requires 1 <= col <= 10
  {
    if col == 10 then "10" else [('0' as int + col) as char]
  }

  /** The upper-case reference without sign or leading zero for an index. */
  function CanonicalRef(i: int): string
    requires 0 <= i < BoardSize
  {
    [RowLetters[i / 10]] + ColumnLabel(i % 10 + 1)
  }

  predicate IsCanonical(ref: string)
  {
    && |ref| >= 2
    && 'A' <= ref[0] <= 'J'
    && (ref[1..] == "10" || (|ref| == 2 && '1' <= ref[1] <= '9'))
  }

  /** Every index has a canonical reference that parses back to it. */
  lemma CanonicalRoundTrip(i: int)
    requires 0 <= i < BoardSize
    ensures IsCanonical(CanonicalRef(i))
    ensures GridToIndex(CanonicalRef(i)) == Ok(i)
  {
    var ref := CanonicalRef(i);
    assert ref[1..] == ColumnLabel(i % 10 + 1);
    GridToIndexAccepts(ref);
  }

  /** Every canonical reference is the canonical reference of the index it
      parses to; with CanonicalRoundTrip, parsing is a bijection between the
      canonical references and 0..99. */
  lemma CanonicalUnique(ref: string)
    requires IsCanonical(ref)
    ensures GridToIndex(ref).Ok?
    ensures CanonicalRef(GridToIndex(ref).value) == ref
  {
    GridToIndexAccepts(ref);
    var i := GridToIndex(ref).value;
    var c := CanonicalRef(i);
    assert i / 10 == RowNumber(ref[0]);
    assert c[0] == ref[0];
    assert c[1..] == ref[1..];
  }

  /** Outside the canonical forms the mapping is not injective: a leading
      zero or a `+` sign is accepted, and the row letter may be lower case. */
  lemma NonCanonicalAliases()
    ensures GridToIndex("A1") == Ok(0)
    ensures GridToIndex("a1") == Ok(0)
    ensures GridToIndex("A01") == Ok(0)
    ensures GridToIndex("a+1") == Ok(0)
    ensures GridToIndex("a-1") == Err(ColumnOutOfBounds)
  {
    GridToIndexAccepts("A01");
    GridToIndexAccepts("a+1");
    GridToIndexAccepts("A1");
    GridToIndexAccepts("a1");
    GridToIndexRejects("a-1");
    AtoiColumn("-1");
  }

  /** The cases of the repository's table-driven parser test. */
  lemma TestedReferences()
    ensures GridToIndex("A1") == Ok(0)
    ensures GridToIndex("c5") == Ok(24)
    ensures GridToIndex("j10") == Ok(99)
    ensures GridToIndex("a") == Err(TooShort)
    ensures GridToIndex("ab12") == Err(TooLong)
    ensures GridToIndex("k5") == Err(RowOutOfBounds)
    ensures GridToIndex("a11") == Err(ColumnOutOfBounds)
    ensures GridToIndex("ab") == Err(InvalidColumn)
  {
    GridToIndexAccepts("A1");
    GridToIndexAccepts("c5");
    GridToIndexAccepts("j10");
    AtoiColumn("11");
    assert "a11"[1..] == "11";
    assert "ab"[1..] == "b";
  }
}
