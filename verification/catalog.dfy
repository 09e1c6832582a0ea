/** Selection of a reference building from the catalog by country, size
    class, construction year and refurbishment status. The catalog is an
    abstract sequence of rows; reading it from disk is not modelled. */
module Catalog {
  import opened Common

  /** A year column as read from the catalog: a number, or text that is not one. */
  datatype YearCell = Numeric(year: real) | NonNumeric

  /** The columns of a catalog row that the selection reads. */
  datatype Row = Row(
    country: string,           // Code_Country
    sizeClass: string,         // Code_BuildingSizeClass
    dataType: string,          // Code_DataType_Building
    year1: YearCell,           // Year1_Building
    year2: YearCell,           // Year2_Building
    variant: int,              // Number_BuildingVariant
    code: string               // Code_BuildingVariant
  )

  datatype Query = Query(country: string, buildingType: string, constructionYear: int, status: string)

  /** More than one row survived the filters: an assertion failure in the source. */
  datatype SelectError = Ambiguous(count: nat)

  /** The data-type marker of reference-exemplary rows. */
  const ReferenceExemplary: string := "ReEx"

  /** A year that does not parse as a number counts as zero. */
  function YearOf(c: YearCell): real
  {
    match c
    case Numeric(y) => y
    case NonNumeric => 0.0
  }

  /** The variant index of a known refurbishment status; any other status
      applies no variant filter. */
  function VariantIndex(status: string): (r: Option<int>)
    ensures r.Some? <==> status in {"no_refurbishment", "usual_refurbishment", "advanced_refurbishment"}
    ensures r.Some? ==> 1 <= r.value <= 3
  {
    if status == "no_refurbishment" then Some(1)
    else if status == "usual_refurbishment" then Some(2)
    else if status == "advanced_refurbishment" then Some(3)
    else None
  }

  /** The first filter: country, size class, data type and year range. */
  predicate BaseMatch(row: Row, q: Query)
  {
    && row.country == q.country
    && row.sizeClass == q.buildingType
    && row.dataType == ReferenceExemplary
    && YearOf(row.year1) <= q.constructionYear as real
    && YearOf(row.year2) >= q.constructionYear as real
  }

  /** A row is selected by a query: the base filter plus, for a known status, its variant. */
  predicate Matches(row: Row, q: Query)
  {
    BaseMatch(row, q) && (VariantIndex(q.status).Some? ==> row.variant == VariantIndex(q.status).value)
  }

  function FilterBase(rows: seq<Row>, q: Query): (r: seq<Row>)
    ensures |r| <= |rows|
    ensures forall x :: x in r <==> x in rows && BaseMatch(x, q)
  {
    if |rows| == 0 then []
    else (if BaseMatch(rows[0], q) then [rows[0]] else []) + FilterBase(rows[1..], q)
  }

  function FilterVariant(rows: seq<Row>, index: int): (r: seq<Row>)
    ensures |r| <= |rows|
    ensures forall x :: x in r <==> x in rows && x.variant == index
  {
    if |rows| == 0 then []
    else (if rows[0].variant == index then [rows[0]] else []) + FilterVariant(rows[1..], index)
  }

  /** The rows a query selects, in catalog order, by one conjunctive filter. */
  function Survivors(rows: seq<Row>, q: Query): (r: seq<Row>)
    ensures |r| <= |rows|
    ensures forall x :: x in r <==> x in rows && Matches(x, q)
  {
    if |rows| == 0 then []
    else (if Matches(rows[0], q) then [rows[0]] else []) + Survivors(rows[1..], q)
  }

  /** The two filters applied one after the other, as the source does. */
  function TwoStage(rows: seq<Row>, q: Query): seq<Row>
  {
    var base := FilterBase(rows, q);
    match VariantIndex(q.status)
    case Some(index) => FilterVariant(base, index)
    case None => base
  }

  /** Filtering in two stages keeps exactly the rows, in order, that the
      conjunctive filter keeps. */
  lemma {:induction false} TwoStageIsConjunction(rows: seq<Row>, q: Query)
    ensures TwoStage(rows, q) == Survivors(rows, q)
    decreases |rows|
  {
    if |rows| > 0 {
      TwoStageIsConjunction(rows[1..], q);
      var head := if BaseMatch(rows[0], q) then [rows[0]] else [];
      assert FilterBase(rows, q) == head + FilterBase(rows[1..], q);
      match VariantIndex(q.status)
      case Some(index) =>
        FilterVariantAppend(head, FilterBase(rows[1..], q), index);
      case None =>
    }
  }

  lemma {:induction false} FilterVariantAppend(xs: seq<Row>, ys: seq<Row>, index: int)
    ensures FilterVariant(xs + ys, index) == FilterVariant(xs, index) + FilterVariant(ys, index)
    decreases |xs|
  {
    if |xs| == 0 {
      assert xs + ys == ys;
    } else {
      assert (xs + ys)[1..] == xs[1..] + ys;
      FilterVariantAppend(xs[1..], ys, index);
    }
  }

  function Codes(rows: seq<Row>): (cs: seq<string>)
    ensures |cs| == |rows|
    ensures forall i :: 0 <= i < |rows| ==> cs[i] == rows[i].code
  {
    if |rows| == 0 then [] else [rows[0].code] + Codes(rows[1..])
  }

  /** The building-variant codes of the selected rows. More than one
      survivor fails; none is allowed and yields no code. */
  function Select(rows: seq<Row>, q: Query): (r: Result<seq<string>, SelectError>)
    ensures r.Ok? <==> |Survivors(rows, q)| <= 1
    ensures r.Ok? ==> r.value == Codes(Survivors(rows, q))
    ensures r.Err? ==> r.error.count == |Survivors(rows, q)|
  {
    var survivors := TwoStage(rows, q);
    TwoStageIsConjunction(rows, q);
    if |survivors| > 1 then Err(Ambiguous(|survivors|)) else Ok(Codes(survivors))
  }

  /** A selected code belongs to a row that meets every selection condition,
      and no row meeting them all is missed. */
  lemma SelectSound(rows: seq<Row>, q: Query)
    requires Select(rows, q).Ok?
    ensures |Select(rows, q).value| <= 1
    ensures forall c :: c in Select(rows, q).value ==>
      exists x :: x in rows && Matches(x, q) && x.code == c
    ensures forall x :: x in rows && Matches(x, q) ==> Select(rows, q).value == [x.code]
  {
    var s := Survivors(rows, q);
    forall c | c in Select(rows, q).value
      ensures exists x :: x in rows && Matches(x, q) && x.code == c
    {
      assert s[0] in s;
    }
    forall x | x in rows && Matches(x, q)
      ensures Select(rows, q).value == [x.code]
    {
      assert x in s;
    }
  }
}
