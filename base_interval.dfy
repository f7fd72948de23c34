/**
 * The base interval resolver: looks up, or interpolates, the recommended
 * pumping interval (in years) for a tank capacity (gallons) and a household
 * size (people) in a two-dimensional interval table.
 *
 * The table is a parameter. Every outcome for which the original produces
 * `undefined` or `NaN` is `None` here.
 */
module BaseInterval {
  import opened Wrappers
  import opened Interpolation

  /** household size -> base interval in years */
  type Row = map<int, real>
  /** tank capacity -> row */
  type Table = map<int, Row>

  /** The household-size column used at the edges of the tank range. */
  const EdgePeople: int := 6

  /**
   * A bracket as `Math.max` / `Math.min` of a filtered key list yield it:
   * the empty list gives -Infinity or +Infinity.
   */
  datatype Extended = NegInfinity | Finite(n: int) | PosInfinity

  /** The table has at least one row and every cell is a positive interval. */
  ghost predicate WellFormed(t: Table) {
    && t.Keys != {}
    && forall tank, p :: tank in t && p in t[tank] ==> t[tank][p] > 0.0
  }

  /** Every row has the same household-size keys. */
  ghost predicate Rectangular(t: Table) {
    forall a, b :: a in t && b in t ==> t[a].Keys == t[b].Keys
  }

  lemma NoElementMeansEmpty(s: set<int>)
    requires forall x :: x !in s
    ensures s == {}
  {
    assert forall x :: x in s <==> x in {};
  }

  lemma HasElement(s: set<int>)
    requires s != {}
    ensures exists x :: x in s
  {
    if !(exists x :: x in s) {
      NoElementMeansEmpty(s);
    }
  }

  lemma LargestExists(s: set<int>)
    requires s != {}
    ensures exists m :: m in s && forall k :: k in s ==> k <= m
  {
    HasElement(s);
    var x :| x in s;
    if s != {x} {
      LargestExists(s - {x});
      var m :| m in s - {x} && forall k :: k in s - {x} ==> k <= m;
      var top := if x > m then x else m;
      forall k | k in s ensures k <= top {
        if k != x { assert k in s - {x}; }
      }
    } else {
      forall k | k in s ensures k <= x {
        assert k in {x};
      }
    }
  }

  lemma SmallestExists(s: set<int>)
    requires s != {}
    ensures exists m :: m in s && forall k :: k in s ==> m <= k
  {
    HasElement(s);
    var x :| x in s;
    if s != {x} {
      SmallestExists(s - {x});
      var m :| m in s - {x} && forall k :: k in s - {x} ==> m <= k;
      var bottom := if x < m then x else m;
      forall k | k in s ensures bottom <= k {
        if k != x { assert k in s - {x}; }
      }
    } else {
      forall k | k in s ensures x <= k {
        assert k in {x};
      }
    }
  }

  function Largest(s: set<int>): (m: int)
    requires s != {}
    ensures m in s && forall k :: k in s ==> k <= m
  {
    LargestExists(s);
    var m :| m in s && forall k :: k in s ==> k <= m;
    m
  }

  function Smallest(s: set<int>): (m: int)
    requires s != {}
    ensures m in s && forall k :: k in s ==> m <= k
  {
    SmallestExists(s);
    var m :| m in s && forall k :: k in s ==> m <= k;
    m
  }

  /** The largest key not above `x`, or -Infinity when every key is above `x`. */
  function ClosestSmaller(keys: set<int>, x: int): (r: Extended)
    ensures !r.PosInfinity?
    ensures r.NegInfinity? <==> forall k :: k in keys ==> x < k
    ensures r.Finite? ==> r.n in keys && r.n <= x && forall k :: k in keys && k <= x ==> k <= r.n
  {
    var below := set k | k in keys && k <= x;
    if below == {} then
      assert forall k :: k in keys ==> x < k by {
        forall k | k in keys ensures x < k {
          assert k <= x ==> k in below;
        }
      }
      NegInfinity
    else
      var m := Largest(below);
      assert forall k :: k in keys && k <= x ==> k <= m by {
        forall k | k in keys && k <= x ensures k <= m {
          assert k in below;
        }
      }
      Finite(m)
  }

  /** The smallest key not below `x`, or +Infinity when every key is below `x`. */
  function ClosestLarger(keys: set<int>, x: int): (r: Extended)
    ensures !r.NegInfinity?
    ensures r.PosInfinity? <==> forall k :: k in keys ==> k < x
    ensures r.Finite? ==> r.n in keys && x <= r.n && forall k :: k in keys && x <= k ==> r.n <= k
  {
    var above := set k | k in keys && x <= k;
    if above == {} then
      assert forall k :: k in keys ==> k < x by {
        forall k | k in keys ensures k < x {
          assert x <= k ==> k in above;
        }
      }
      PosInfinity
    else
      var m := Smallest(above);
      assert forall k :: k in keys && x <= k ==> m <= k by {
        forall k | k in keys && x <= k ensures m <= k {
          assert k in above;
        }
      }
      Finite(m)
  }

  /** `table[tank][people]`: undefined unless both keys are present. */
  function Cell(t: Table, tank: int, people: Extended): (r: Option<real>)
    requires WellFormed(t)
    ensures r.Some? <==> tank in t && people.Finite? && people.n in t[tank]
    ensures r.Some? ==> r.value == t[tank][people.n] && r.value > 0.0
  {
    if tank in t && people.Finite? && people.n in t[tank] then Some(t[tank][people.n]) else None
  }

  /**
   * The lookup at either edge of the tank range: column `min(6, people)`,
   * falling back to column 6. The cells are positive, so JavaScript's `||`
   * falls back exactly when the first column is absent.
   */
  function EdgeLookup(row: Row, people: int): (r: Option<real>)
    requires forall p :: p in row ==> row[p] > 0.0
    ensures r.Some? ==> r.value > 0.0
    ensures r.None? <==> (if people < EdgePeople then people else EdgePeople) !in row && EdgePeople !in row
  {
    var column := if people < EdgePeople then people else EdgePeople;
    if column in row then Some(row[column])
    else if EdgePeople in row then Some(row[EdgePeople])
    else None
  }

  /**
   * The resolver. Branches, in order: exact hit; tank below / above every
   * key (edge row, no interpolation); then, with the household size
   * bracketed in the smaller tank's row: interpolation along tank size,
   * bilinear interpolation, or interpolation along household size.
   */
  function CalculateBaseInterval(t: Table, tankSize: int, householdSize: int): (r: Option<real>)
    requires WellFormed(t)
    ensures r.Some? ==> r.value > 0.0
  {
    if tankSize in t && householdSize in t[tankSize] then
      Some(t[tankSize][householdSize])
    else
      var smallerTank := ClosestSmaller(t.Keys, tankSize);
      var largerTank := ClosestLarger(t.Keys, tankSize);
      if smallerTank == NegInfinity then
        assert largerTank.Finite? by {
          HasElement(t.Keys);
        }
        EdgeLookup(t[largerTank.n], householdSize)
      else if largerTank == PosInfinity then
        EdgeLookup(t[smallerTank.n], householdSize)
      else
        var lo, hi := smallerTank.n, largerTank.n;
        var smallerPeople := ClosestSmaller(t[lo].Keys, householdSize);
        var largerPeople := ClosestLarger(t[lo].Keys, householdSize);
        if smallerPeople == largerPeople then
          if lo == hi then
            Cell(t, lo, smallerPeople)
          else
            var smallerTankValue := Cell(t, lo, smallerPeople);
            var largerTankValue := Cell(t, hi, smallerPeople);
            if smallerTankValue.None? || largerTankValue.None? then None
            else Some(Lerp(lo as real, hi as real, tankSize as real,
                           smallerTankValue.value, largerTankValue.value))
        else if lo != hi then
          var fQ11 := Cell(t, lo, smallerPeople);
          var fQ12 := Cell(t, lo, largerPeople);
          var fQ21 := Cell(t, hi, smallerPeople);
          var fQ22 := Cell(t, hi, largerPeople);
          if fQ11.None? || fQ12.None? || fQ21.None? || fQ22.None? then None
          else Some(Bilinear(lo as real, hi as real, tankSize as real,
                             smallerPeople.n as real, largerPeople.n as real, householdSize as real,
                             fQ11.value, fQ12.value, fQ21.value, fQ22.value))
        else
          var smallerPeopleValue := Cell(t, lo, smallerPeople);
          var largerPeopleValue := Cell(t, lo, largerPeople);
          if smallerPeopleValue.None? || largerPeopleValue.None? then None
          else Some(Lerp(smallerPeople.n as real, largerPeople.n as real, householdSize as real,
                         smallerPeopleValue.value, largerPeopleValue.value))
  }

  /** A tabulated (tank, household) pair gives exactly its cell: no interpolation drift. */
  lemma ExactHit(t: Table, tankSize: int, householdSize: int)
    requires WellFormed(t)
    requires tankSize in t && householdSize in t[tankSize]
    ensures CalculateBaseInterval(t, tankSize, householdSize) == Some(t[tankSize][householdSize])
  {
  }

  /**
   * Below every tabulated tank size the smallest size's row is used, at
   * column min(6, people) or else column 6, without interpolation.
   */
  lemma BelowRangeUsesSmallestRow(t: Table, tankSize: int, householdSize: int, smallest: int)
    requires WellFormed(t)
    requires smallest in t && forall k :: k in t ==> smallest <= k
    requires tankSize < smallest
    ensures var row := t[smallest];
            var column := if householdSize < EdgePeople then householdSize else EdgePeople;
            CalculateBaseInterval(t, tankSize, householdSize)
            == if column in row then Some(row[column])
               else if EdgePeople in row then Some(row[EdgePeople])
               else None
  {
    var larger := ClosestLarger(t.Keys, tankSize);
    assert larger == Finite(smallest);
  }

  /**
   * Above every tabulated tank size the largest size's row is used, at
   * column min(6, people) or else column 6, without interpolation.
   */
  lemma AboveRangeUsesLargestRow(t: Table, tankSize: int, householdSize: int, largest: int)
    requires WellFormed(t)
    requires largest in t && forall k :: k in t ==> k <= largest
    requires largest < tankSize
    ensures var row := t[largest];
            var column := if householdSize < EdgePeople then householdSize else EdgePeople;
            CalculateBaseInterval(t, tankSize, householdSize)
            == if column in row then Some(row[column])
               else if EdgePeople in row then Some(row[EdgePeople])
               else None
  {
    var smaller := ClosestSmaller(t.Keys, tankSize);
    assert smaller == Finite(largest);
  }

  /** `lo` and `hi` are neighbouring keys of `keys` that enclose `x` strictly. */
  ghost predicate Brackets(keys: set<int>, lo: int, hi: int, x: int) {
    && lo in keys && hi in keys
    && lo < x < hi
    && forall k :: k in keys ==> k <= lo || hi <= k
  }

  lemma BracketsFound(keys: set<int>, lo: int, hi: int, x: int)
    requires Brackets(keys, lo, hi, x)
    ensures ClosestSmaller(keys, x) == Finite(lo)
    ensures ClosestLarger(keys, x) == Finite(hi)
  {
  }

  /**
   * A tank size strictly between two neighbouring tabulated sizes, at a
   * household size tabulated in both rows, lies between the two cells.
   */
  lemma TankInterpolationBetween(t: Table, tankSize: int, householdSize: int, lo: int, hi: int)
    requires WellFormed(t)
    requires Brackets(t.Keys, lo, hi, tankSize)
    requires householdSize in t[lo] && householdSize in t[hi]
    ensures var r := CalculateBaseInterval(t, tankSize, householdSize);
            var a, b := t[lo][householdSize], t[hi][householdSize];
            && r.Some?
            && Min(a, b) <= r.value <= Max(a, b)
            && (a != b ==> Min(a, b) < r.value < Max(a, b))
  {
    BracketsFound(t.Keys, lo, hi, tankSize);
    var smallerPeople := ClosestSmaller(t[lo].Keys, householdSize);
    var largerPeople := ClosestLarger(t[lo].Keys, householdSize);
    assert smallerPeople == largerPeople == Finite(householdSize);
  }

  /**
   * A tabulated tank size, at a household size strictly between two
   * neighbouring tabulated sizes of its row, lies between the two cells.
   */
  lemma PeopleInterpolationBetween(t: Table, tankSize: int, householdSize: int, lo: int, hi: int)
    requires WellFormed(t)
    requires tankSize in t
    requires Brackets(t[tankSize].Keys, lo, hi, householdSize)
    ensures var r := CalculateBaseInterval(t, tankSize, householdSize);
            var a, b := t[tankSize][lo], t[tankSize][hi];
            && r.Some?
            && Min(a, b) <= r.value <= Max(a, b)
            && (a != b ==> Min(a, b) < r.value < Max(a, b))
  {
    BracketsFound(t[tankSize].Keys, lo, hi, householdSize);
    var smallerTank := ClosestSmaller(t.Keys, tankSize);
    var largerTank := ClosestLarger(t.Keys, tankSize);
    assert smallerTank == largerTank == Finite(tankSize);
  }

  /**
   * Neither axis tabulated: with all four corners present the result is a
   * convex combination of them, so it lies between their minimum and maximum.
   */
  lemma BilinearBetweenCorners(t: Table, tankSize: int, householdSize: int,
                               tank0: int, tank1: int, people0: int, people1: int)
    requires WellFormed(t)
    requires Brackets(t.Keys, tank0, tank1, tankSize)
    requires Brackets(t[tank0].Keys, people0, people1, householdSize)
    requires people0 in t[tank1] && people1 in t[tank1]
    ensures var r := CalculateBaseInterval(t, tankSize, householdSize);
            var q11, q12 := t[tank0][people0], t[tank0][people1];
            var q21, q22 := t[tank1][people0], t[tank1][people1];
            && r.Some?
            && Min(Min(q11, q12), Min(q21, q22)) <= r.value <= Max(Max(q11, q12), Max(q21, q22))
  {
    BracketsFound(t.Keys, tank0, tank1, tankSize);
    BracketsFound(t[tank0].Keys, people0, people1, householdSize);
  }

  /**
   * `lo` and `hi` are the tank brackets the resolver picks for `x`: either
   * neighbouring keys that enclose `x` strictly, or `x` itself when it is a key.
   */
  ghost predicate Encloses(keys: set<int>, lo: int, hi: int, x: int) {
    && lo in keys && hi in keys
    && lo <= x <= hi
    && (x in keys ==> lo == x == hi)
    && forall k :: k in keys ==> k <= lo || hi <= k
  }

  lemma EnclosesFound(keys: set<int>, lo: int, hi: int, x: int)
    requires Encloses(keys, lo, hi, x)
    ensures ClosestSmaller(keys, x) == Finite(lo)
    ensures ClosestLarger(keys, x) == Finite(hi)
  {
  }

  /**
   * Inside the tank range, its end keys included, a household size beyond
   * the keys of the smaller bracket's row leaves one household bracket
   * infinite, and the original computes `NaN`: the column-6 fallback serves
   * only tank sizes strictly outside the table.
   */
  lemma PeopleOutOfRangeIsUndefined(t: Table, tankSize: int, householdSize: int, lo: int, hi: int)
    requires WellFormed(t)
    requires Encloses(t.Keys, lo, hi, tankSize)
    requires (forall k :: k in t[lo] ==> householdSize < k) || (forall k :: k in t[lo] ==> k < householdSize)
    ensures CalculateBaseInterval(t, tankSize, householdSize) == None
  {
    EnclosesFound(t.Keys, lo, hi, tankSize);
  }

  /**
   * At the largest tabulated tank size a household larger than every column
   * is undefined, while one gallon more reads column 6 of the same row.
   */
  lemma EdgeColumnOnlyAboveLargestTank(t: Table, largest: int, householdSize: int)
    requires WellFormed(t)
    requires largest in t && forall k :: k in t ==> k <= largest
    requires EdgePeople in t[largest] && EdgePeople <= householdSize
    requires forall p :: p in t[largest] ==> p < householdSize
    ensures CalculateBaseInterval(t, largest, householdSize) == None
    ensures CalculateBaseInterval(t, largest + 1, householdSize) == Some(t[largest][EdgePeople])
  {
    PeopleOutOfRangeIsUndefined(t, largest, householdSize, largest, largest);
    AboveRangeUsesLargestRow(t, largest + 1, householdSize, largest);
  }

  /**
   * On a rectangular table whose rows all hold column 6, every household
   * size within the rows' key range resolves to a value, for every tank size.
   */
  lemma DefinedWithinPeopleRange(t: Table, tankSize: int, householdSize: int, fewest: int, most: int)
    requires WellFormed(t) && Rectangular(t)
    requires forall tank :: tank in t ==> EdgePeople in t[tank] && fewest in t[tank] && most in t[tank]
    requires fewest <= householdSize <= most
    ensures CalculateBaseInterval(t, tankSize, householdSize).Some?
  {
    if !(tankSize in t && householdSize in t[tankSize]) {
      var smallerTank := ClosestSmaller(t.Keys, tankSize);
      var largerTank := ClosestLarger(t.Keys, tankSize);
      if smallerTank.Finite? && largerTank.Finite? {
        var lo, hi := smallerTank.n, largerTank.n;
        assert t[lo].Keys == t[hi].Keys;
        var smallerPeople := ClosestSmaller(t[lo].Keys, householdSize);
        var largerPeople := ClosestLarger(t[lo].Keys, householdSize);
        assert smallerPeople.Finite? && largerPeople.Finite?;
      }
    }
  }
}
