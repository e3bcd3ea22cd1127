/** Data type codes: every base code names a family of five. */
module DataTypes {

  const BLOB_LOCATOR := 408
  const CLOB_LOCATOR := 424
  const STRUCT := 440
  const VARCHAR := 448
  const CHAR := 452
  const LONG_VARCHAR := 456
  const VAR_GRAPHIC := 464
  const GRAPHIC := 468
  const LONG_VAR_GRAPHIC := 472
  const FLOAT := 480
  const DECIMAL := 484
  const INTEGER := 496
  const SMALL_INT := 500
  const ARRAY := 504
  const ARRAY_ND := 508
  const BIG_INT := 600
  const NUMBER := 604
  const VAR_BYTE := 688
  const BYTE := 692
  const LONG_VAR_BYTE := 696
  const DATE_ANSI := 748
  const DATE_INTEGER := 752
  const BYTE_INT := 756
  const TIME := 760
  const TIMESTAMP := 764
  const TIME_TZ := 768
  const TIMESTAMP_TZ := 772
  const INTERVAL_YEAR := 776
  const INTERVAL_MIN_TO_SEC := 820
  const INTERVAL_SECOND := 824

  /** n consecutive base codes; they are four apart. */
  function Run(first: int, n: nat): seq<int> { seq(n, i => first + 4 * i) }

  /** tdTypeFamilyBases, in its order: LOBs, struct, character and graphic
      types, FLOAT and DECIMAL, integers and arrays, BIGINT and NUMBER,
      bytes, dates to intervals, periods and XML, JSON. */
  const BASES: seq<int> :=
    Run(400, 3) + Run(416, 3) + Run(440, 1) + Run(448, 3) + Run(464, 3) + Run(480, 2) + Run(496, 6)
    + Run(600, 2) + Run(688, 3) + Run(748, 20) + Run(832, 11) + Run(880, 3)

  predicate InFamily(dataType: int, base: int) {
    dataType == base || dataType == base + 1 || base + 500 <= dataType <= base + 502
  }

  function FirstFamily(dataType: int, bases: seq<int>): int {
    if bases == [] then 0
    else if InFamily(dataType, bases[0]) then bases[0]
    else FirstFamily(dataType, bases[1..])
  }

  /** getTdBasicType: the base of the first matching family, or 0. */
  function BasicType(dataType: int): int { FirstFamily(dataType, BASES) }

  datatype Mode = Unknown | In | InOut | Out

  function FirstMode(dataType: int, bases: seq<int>): Mode {
    if bases == [] then Unknown
    else if dataType == bases[0] || dataType == bases[0] + 1 then Unknown
    else if dataType == bases[0] + 500 then In
    else if dataType == bases[0] + 501 then InOut
    else if dataType == bases[0] + 502 then Out
    else FirstMode(dataType, bases[1..])
  }

  /** getTdParameterMode. */
  function ParameterMode(dataType: int): Mode { FirstMode(dataType, BASES) }

  predicate Spaced(bases: seq<int>) {
    forall i :: 0 <= i < |bases| ==> 400 <= bases[i] <= 888 && bases[i] % 4 == 0
  }

  // Families do not overlap, so the search finds the family a code was
  // built from, whatever the order of the table, and its mode.
  lemma {:induction false} FamilyFound(bases: seq<int>, base: int, offset: int)
    requires Spaced(bases) && base in bases
    requires offset in {0, 1, 500, 501, 502}
    ensures FirstFamily(base + offset, bases) == base
    ensures FirstMode(base + offset, bases) ==
            (if offset == 500 then In else if offset == 501 then InOut else if offset == 502 then Out else Unknown)
  {
    if bases[0] != base {
      FamilyFound(bases[1..], base, offset);
    }
  }

  lemma {:induction false} TableSpaced()
    ensures Spaced(BASES)
  {}
}
