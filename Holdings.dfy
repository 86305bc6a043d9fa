/** The owned-token record the asset list works on, the sort keys a user
    can choose, and the comparator the list is sorted with. */
module Holdings {
  import Text

  datatype RentStartDate = RentStartDate(date: string)

  /** One owned RealToken, reduced to the fields the asset list reads.
      JavaScript numbers are modelled as exact reals. */
  datatype Holding = Holding(
    shortName: string,
    fullName: string,
    value: real,
    annualPercentageYield: real,
    amount: real,
    netRentDayPerToken: real,
    rentStartDate: RentStartDate,
    totalInvestment: real,
    totalUnits: real,
    rentedUnits: real)

  /** The ten sort keys, plus `Other` for any other string the persisted
      sort choice may hold. */
  datatype SortKey =
    | Value | Apr | Rent | RentStart | Name | Supply | Token
    | TotalUnit | RentedUnit | Occupancy | Other

  /** The comparator means what the key says for `h`. OCCUPANCY divides
      `rentedUnits` by `totalUnits`: a positive total gives a number, and a
      zero total with some rented units gives +Infinity. */
  predicate Comparable(key: SortKey, h: Holding) {
    key == Occupancy ==> h.totalUnits > 0.0 || (h.totalUnits == 0.0 && h.rentedUnits > 0.0)
  }

  predicate AllComparable(key: SortKey, s: seq<Holding>) {
    forall h :: h in s ==> Comparable(key, h)
  }

  function DailyRent(h: Holding): real {
    h.amount * h.netRentDayPerToken
  }

  /** The value of a JavaScript division: a number or a signed infinity. */
  datatype Ratio = Finite(value: real) | PlusInfinity | MinusInfinity

  /** `rentedUnits / totalUnits`. A zero total gives an infinity of the sign
      of `rentedUnits`. Where JavaScript computes 0 / 0 and gets NaN, the
      model takes 0, so such a holding sorts as unoccupied. */
  function OccupancyRate(h: Holding): Ratio {
    if h.totalUnits != 0.0 then Finite(h.rentedUnits / h.totalUnits)
    else if h.rentedUnits > 0.0 then PlusInfinity
    else if h.rentedUnits < 0.0 then MinusInfinity
    else Finite(0.0)
  }

  /** The sign of `x - y` as `sort` reads it: a finite difference is kept,
      an infinite one becomes 1 or -1 (only its sign matters), and
      Infinity - Infinity, which is NaN, reads as 0. */
  function RatioDiff(x: Ratio, y: Ratio): real {
    match (x, y)
    case (Finite(u), Finite(v)) => u - v
    case (PlusInfinity, PlusInfinity) => 0.0
    case (MinusInfinity, MinusInfinity) => 0.0
    case (PlusInfinity, _) => 1.0
    case (_, PlusInfinity) => -1.0
    case (MinusInfinity, _) => -1.0
    case (_, MinusInfinity) => 1.0
  }

  /** The comparator passed to `sort`: negative when `a` goes first,
      positive when `b` goes first, zero when the two tie. */
  function Compare(key: SortKey, a: Holding, b: Holding): real {
    match key
    case Value => b.value - a.value
    case Apr => b.annualPercentageYield - a.annualPercentageYield
    case Rent => DailyRent(b) - DailyRent(a)
    case RentStart => Text.Compare(a.rentStartDate.date, b.rentStartDate.date) as real
    case Name => Text.Compare(a.shortName, b.shortName) as real
    case Supply => b.totalInvestment - a.totalInvestment
    case Token => b.amount - a.amount
    case TotalUnit => b.totalUnits - a.totalUnits
    case RentedUnit => b.rentedUnits - a.rentedUnits
    case Occupancy => RatioDiff(OccupancyRate(b), OccupancyRate(a))
    case Other => 0.0
  }

  /** The order each key asks for, stated field by field and independently
      of `Compare`: `a` may be listed before `b`. Numeric keys are
      non-increasing and the two string keys non-decreasing. For OCCUPANCY
      a holding with no units comes first, and the others are compared by
      cross-multiplication. */
  predicate InOrder(key: SortKey, a: Holding, b: Holding) {
    match key
    case Value => a.value >= b.value
    case Apr => a.annualPercentageYield >= b.annualPercentageYield
    case Rent => a.amount * a.netRentDayPerToken >= b.amount * b.netRentDayPerToken
    case RentStart => Text.LexLe(a.rentStartDate.date, b.rentStartDate.date)
    case Name => Text.LexLe(a.shortName, b.shortName)
    case Supply => a.totalInvestment >= b.totalInvestment
    case Token => a.amount >= b.amount
    case TotalUnit => a.totalUnits >= b.totalUnits
    case RentedUnit => a.rentedUnits >= b.rentedUnits
    case Occupancy =>
      a.totalUnits == 0.0
      || (b.totalUnits != 0.0 && a.rentedUnits * b.totalUnits >= b.rentedUnits * a.totalUnits)
    case Other => true
  }

  lemma RatioOrder(x: real, tx: real, y: real, ty: real)
    requires tx > 0.0 && ty > 0.0
    ensures x / tx >= y / ty <==> x * ty >= y * tx
  {
    var p, q := x / tx, y / ty;
    assert x == p * tx && y == q * ty;
    assert x * ty == p * (tx * ty) && y * tx == q * (tx * ty);
    assert tx * ty > 0.0;
  }

  /** A non-positive comparator result means exactly that the key's order
      allows `a` before `b`. */
  lemma CompareMeansInOrder(key: SortKey, a: Holding, b: Holding)
    requires Comparable(key, a) && Comparable(key, b)
    ensures Compare(key, a, b) <= 0.0 <==> InOrder(key, a, b)
  {
    match key
    case RentStart => Text.CompareIsLexicographic(a.rentStartDate.date, b.rentStartDate.date);
    case Name => Text.CompareIsLexicographic(a.shortName, b.shortName);
    case Occupancy =>
      if a.totalUnits > 0.0 && b.totalUnits > 0.0 {
        RatioOrder(a.rentedUnits, a.totalUnits, b.rentedUnits, b.totalUnits);
      }
    case _ =>
  }

  /** By OCCUPANCY, a holding with rented units but no units in total
      (ratio +Infinity) must come before any holding with units. */
  lemma NoUnitsComesFirst(a: Holding, b: Holding)
    requires a.totalUnits == 0.0 && a.rentedUnits > 0.0 && b.totalUnits != 0.0
    ensures Compare(Occupancy, a, b) < 0.0
  {
  }

  /** Swapping the arguments negates the comparator. */
  lemma CompareAntisymmetric(key: SortKey, a: Holding, b: Holding)
    ensures Compare(key, b, a) == -Compare(key, a, b)
  {
    match key
    case RentStart => Text.CompareAntisymmetric(a.rentStartDate.date, b.rentStartDate.date);
    case Name => Text.CompareAntisymmetric(a.shortName, b.shortName);
    case Occupancy => RatioDiffAntisymmetric(OccupancyRate(b), OccupancyRate(a));
    case _ =>
  }

  lemma CompareTransitive(key: SortKey, a: Holding, b: Holding, c: Holding)
    requires Compare(key, a, b) <= 0.0 && Compare(key, b, c) <= 0.0
    ensures Compare(key, a, c) <= 0.0
  {
    match key
    case RentStart =>
      Text.CompareTransitive(a.rentStartDate.date, b.rentStartDate.date, c.rentStartDate.date);
    case Name => Text.CompareTransitive(a.shortName, b.shortName, c.shortName);
    case Occupancy => RatioDiffTransitive(OccupancyRate(a), OccupancyRate(b), OccupancyRate(c));
    case _ =>
  }

  /** Subtracting the other way round negates the difference, infinities
      and NaN included. */
  lemma RatioDiffAntisymmetric(x: Ratio, y: Ratio)
    ensures RatioDiff(y, x) == -RatioDiff(x, y)
  {
  }

  /** "At least as large", read off the difference, is transitive over the
      numbers and both infinities. */
  lemma RatioDiffTransitive(x: Ratio, y: Ratio, z: Ratio)
    requires RatioDiff(y, x) <= 0.0 && RatioDiff(z, y) <= 0.0
    ensures RatioDiff(z, x) <= 0.0
  {
  }
}
