/**
 * The records of the baggage service: rooms that hold bags, the bags
 * themselves, and the label a bag's position is shown with.
 */
module BaggageModels {
  import opened Common

  // ---------------------------------------------------------------------
  // Decimal rendering of columns (Python's str() on a non-negative int)
  // ---------------------------------------------------------------------

  predicate AllDigits(s: string)
  {
    forall i :: 0 <= i < |s| ==> IsDigit(s[i])
  }

  function DigitChar(d: nat): (c: char)
    requires d < 10
    ensures IsDigit(c) && c as int - '0' as int == d
  {
    ('0' as int + d) as char
  }

  /** The decimal text of `n`, without sign and without leading zeros. */
  function Decimal(n: nat): (s: string)
    ensures |s| >= 1 && AllDigits(s)
    ensures s[0] == '0' ==> n == 0 && s == "0"
    decreases n
  {
    if n < 10 then [DigitChar(n)] else Decimal(n / 10) + [DigitChar(n % 10)]
  }

  /** The value of a string of decimal digits, most significant first. */
  function DigitsValue(s: string): nat
    requires AllDigits(s)
    decreases |s|
  {
    if s == [] then 0
    else DigitsValue(s[..|s| - 1]) * 10 + (s[|s| - 1] as int - '0' as int)
  }

  /** Reads a non-empty run of decimal digits; anything else is not a number. */
  function ParseDecimal(s: string): Option<nat>
  {
    if s != [] && AllDigits(s) then Some(DigitsValue(s)) else None
  }

  /** Rendering a column and reading it back gives the column. */
  lemma {:induction false} ParseDecimalOfDecimal(n: nat)
    ensures ParseDecimal(Decimal(n)) == Some(n)
    decreases n
  {
    if n >= 10 {
      ParseDecimalOfDecimal(n / 10);
      var s := Decimal(n / 10);
      var t := s + [DigitChar(n % 10)];
      assert Decimal(n) == t;
      assert t[..|t| - 1] == s;
      assert DigitsValue(t) == (n / 10) * 10 + n % 10;
    } else {
      var t := [DigitChar(n)];
      assert t[..0] == [];
      assert DigitsValue(t) == n;
    }
  }

  /** Digits that do not start with a zero stand for a positive number. */
  lemma {:induction false} LeadingDigitPositive(s: string)
    requires s != [] && AllDigits(s) && s[0] != '0'
    ensures DigitsValue(s) > 0
    decreases |s|
  {
    if |s| > 1 {
      var p := s[..|s| - 1];
      assert p[0] == s[0];
      LeadingDigitPositive(p);
    }
  }

  /** A run of digits without leading zeros is the decimal text of the number it reads to. */
  lemma {:induction false} DecimalOfParseDecimal(s: string)
    requires ParseDecimal(s).Some? && (s[0] != '0' || |s| == 1)
    ensures Decimal(ParseDecimal(s).value) == s
    decreases |s|
  {
    var last := s[|s| - 1];
    var d := last as int - '0' as int;
    if |s| == 1 {
      assert s[..0] == [];
      assert DigitsValue(s) == d;
      assert [DigitChar(d)] == s;
    } else {
      var p := s[..|s| - 1];
      assert p[0] == s[0];
      assert ParseDecimal(p) == Some(DigitsValue(p));
      DecimalOfParseDecimal(p);
      LeadingDigitPositive(p);
      var v := DigitsValue(s);
      assert v == DigitsValue(p) * 10 + d;
      assert v / 10 == DigitsValue(p) && v % 10 == d;
      assert DigitChar(d) == last;
      assert Decimal(v) == p + [last];
      assert p + [last] == s;
    }
  }

  // ---------------------------------------------------------------------
  // Room
  // ---------------------------------------------------------------------

  /**
   * A room where bags are kept: its name is the primary key, the other
   * fields are non-negative integers that default to 0.
   */
  datatype Room = Room(name: string, rows: nat, cols: nat, doorRow: nat, doorCol: nat)

  // ---------------------------------------------------------------------
  // Bag
  // ---------------------------------------------------------------------

  /** A bag is either still stored (`'A'`) or handed back (`'R'`). */
  datatype BagStatus = Added | Removed

  /** The one-letter code a status is stored as. */
  function StatusCode(s: BagStatus): (c: char)
    ensures StatusFromCode(c) == Some(s)
  {
    match s
    case Added => 'A'
    case Removed => 'R'
  }

  /** Reads a stored status code; only the two choices are statuses. */
  function StatusFromCode(c: char): (s: Option<BagStatus>)
    ensures s.Some? <==> c == 'A' || c == 'R'
  {
    if c == 'A' then Some(Added) else if c == 'R' then Some(Removed) else None
  }

  /** Widths of the bag's character columns. */
  const RowWidth := 15
  const TypeWidth := 10
  const ColorWidth := 2

  /**
   * A baggage item. `owner` and `inby` are never null; `outby` is null until
   * the bag is checked out; `room` is null when the room name did not resolve.
   */
  datatype Bag = Bag(
    bid: nat,
    owner: UserId,
    inby: UserId,
    outby: Option<UserId>,
    status: BagStatus,
    room: Option<string>,
    row: string,
    col: nat,
    btype: string,
    color: string,
    description: Option<string>,
    special: bool)

  /** The character columns hold values no wider than the column allows. */
  predicate FitsColumns(b: Bag)
  {
    |b.row| <= RowWidth && |b.btype| <= TypeWidth && |b.color| <= ColorWidth
  }

  /**
   * The label a bag's position is shown with: `'@'` and the column for a
   * special bag, the row followed by the column otherwise.
   */
  function Position(b: Bag): (shown: string)
    ensures b.special ==> |shown| >= 2 && shown[0] == '@' && ParseDecimal(shown[1..]) == Some(b.col)
                          && (shown[1] == '0' ==> b.col == 0 && shown == "@0")
    ensures !b.special ==> |shown| > |b.row| && shown[..|b.row|] == b.row
                           && ParseDecimal(shown[|b.row|..]) == Some(b.col)
                           && (shown[|b.row|] == '0' ==> b.col == 0 && shown == b.row + "0")
  {
    ParseDecimalOfDecimal(b.col);
    if b.special then
      assert ("@" + Decimal(b.col))[1..] == Decimal(b.col);
      "@" + Decimal(b.col)
    else
      assert (b.row + Decimal(b.col))[|b.row|..] == Decimal(b.col);
      b.row + Decimal(b.col)
  }
}
