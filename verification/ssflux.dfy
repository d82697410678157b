/**
 * Subsurface-flux parameters (scripts/6_create_ssflux_params.py): lithology
 * permeability is joined to the HRU area weights, prorated and summed per
 * HRU, combined with slope and area into seven raw fluxes, and each flux is
 * rescaled onto fixed bounds.  The area weights, the slope means, the HRU
 * areas, `10**x` and the degree-to-fraction conversion come from outside
 * the repository and enter as parameters.
 */
module SsFlux {
  import opened Core
  import DemParams

  /** Polygon areas are positive. */
  type Area = x: real | x > 0.0 witness 1.0

  // ---------------------------------------------------------------------
  // Permeability floor and join
  // ---------------------------------------------------------------------

  const KPermMin: real := -16.48

  /** `replace(0, -16.48)`: a zero log-permeability becomes the floor. */
  function FloorZero(k: real): (r: real)
    ensures r != 0.0
    ensures k != 0.0 ==> r == k
    ensures k == 0.0 ==> r == -16.48
  {
    if k == 0.0 then KPermMin else k
  }

  /** Flooring twice floors once. */
  lemma FloorZeroIdempotent(k: real)
    ensures FloorZero(FloorZero(k)) == FloorZero(k)
  {
  }

  /** One lithology polygon; its position in the layer is its `flux_id`. */
  datatype SourceRow = SourceRow(kPerm: real)

  /** One row of the area-weight table. */
  datatype WeightRow = WeightRow(hruId: int, fluxId: int, areaWeight: real, fluxIdArea: Area)

  /** A weight row joined to its polygon's permeability. */
  datatype Contribution = Contribution(hruId: int, kPerm: real, areaWeight: real, fluxIdArea: Area)

  predicate Matched(w: WeightRow, source: seq<SourceRow>)
  {
    0 <= w.fluxId < |source|
  }

  function Attach(w: WeightRow, source: seq<SourceRow>): Contribution
    requires Matched(w, source)
  {
    Contribution(w.hruId, source[w.fluxId].kPerm, w.areaWeight, w.fluxIdArea)
  }

  /**
   * The inner merge on `flux_id`: weight rows keep their order, and a row
   * whose `flux_id` names no polygon is dropped.
   */
  function InnerJoin(weights: seq<WeightRow>, source: seq<SourceRow>): (j: seq<Contribution>)
    ensures |j| <= |weights|
    ensures forall x :: x in j ==> exists w :: w in weights && Matched(w, source) && x == Attach(w, source)
    ensures forall w :: w in weights && Matched(w, source) ==> Attach(w, source) in j
    decreases |weights|
  {
    if |weights| == 0 then []
    else
      var rest := InnerJoin(weights[1..], source);
      assert forall w :: w in weights[1..] ==> w in weights;
      assert forall w :: w in weights ==> w == weights[0] || w in weights[1..];
      if Matched(weights[0], source) then [Attach(weights[0], source)] + rest else rest
  }

  /** When every `flux_id` names a polygon, the join drops nothing and keeps the order. */
  lemma {:induction false} InnerJoinKeepsMatchedRows(weights: seq<WeightRow>, source: seq<SourceRow>)
    requires forall i :: 0 <= i < |weights| ==> Matched(weights[i], source)
    ensures |InnerJoin(weights, source)| == |weights|
    ensures forall i :: 0 <= i < |weights| ==> InnerJoin(weights, source)[i] == Attach(weights[i], source)
    decreases |weights|
  {
    if |weights| > 0 {
      InnerJoinKeepsMatchedRows(weights[1..], source);
    }
  }

  /** The positions from `i` on whose `flux_id` names a polygon, in increasing order. */
  function MatchedFrom(weights: seq<WeightRow>, source: seq<SourceRow>, i: nat): (p: seq<nat>)
    requires i <= |weights|
    ensures forall k :: 0 <= k < |p| ==> i <= p[k] < |weights| && Matched(weights[p[k]], source)
    ensures forall k, l :: 0 <= k < l < |p| ==> p[k] < p[l]
    ensures forall x :: i <= x < |weights| && Matched(weights[x], source) ==> x in p
    decreases |weights| - i
  {
    if i == |weights| then []
    else (if Matched(weights[i], source) then [i] else []) + MatchedFrom(weights, source, i + 1)
  }

  lemma {:induction false} InnerJoinFrom(weights: seq<WeightRow>, source: seq<SourceRow>, i: nat)
    requires i <= |weights|
    ensures |InnerJoin(weights[i..], source)| == |MatchedFrom(weights, source, i)|
    ensures forall k :: 0 <= k < |MatchedFrom(weights, source, i)| ==>
      InnerJoin(weights[i..], source)[k] == Attach(weights[MatchedFrom(weights, source, i)[k]], source)
    decreases |weights| - i
  {
    if i < |weights| {
      InnerJoinFrom(weights, source, i + 1);
      var tail := InnerJoin(weights[i + 1..], source);
      var p := MatchedFrom(weights, source, i + 1);
      var j := InnerJoin(weights[i..], source);
      var q := MatchedFrom(weights, source, i);
      assert weights[i..][1..] == weights[i + 1..];
      assert weights[i..][0] == weights[i];
      if Matched(weights[i], source) {
        var a := Attach(weights[i], source);
        assert j == [a] + tail;
        assert q == [i] + p;
        forall k | 0 <= k < |q|
          ensures j[k] == Attach(weights[q[k]], source)
        {
          if k > 0 {
            ConsIndex(a, tail, k);
            ConsIndex(i, p, k);
          }
        }
      } else {
        assert j == tail;
        assert q == p;
      }
    }
  }

  lemma ConsIndex<T>(x: T, s: seq<T>, k: nat)
    requires 1 <= k <= |s|
    ensures ([x] + s)[k] == s[k - 1]
  {
  }

  /**
   * The join is exactly the matched weight rows, each joined to its polygon,
   * in the order of the weight table and once each.
   */
  lemma InnerJoinInOrder(weights: seq<WeightRow>, source: seq<SourceRow>)
    ensures |InnerJoin(weights, source)| == |MatchedFrom(weights, source, 0)|
    ensures forall k :: 0 <= k < |MatchedFrom(weights, source, 0)| ==>
      InnerJoin(weights, source)[k] == Attach(weights[MatchedFrom(weights, source, 0)[k]], source)
  {
    InnerJoinFrom(weights, source, 0);
    assert weights[0..] == weights;
  }

  /** The floor applied to every joined row. */
  function FloorAll(rows: seq<Contribution>): (r: seq<Contribution>)
    ensures |r| == |rows|
    ensures forall i :: 0 <= i < |r| ==> r[i] == rows[i].(kPerm := FloorZero(rows[i].kPerm)) && r[i].kPerm != 0.0
  {
    seq(|rows|, i requires 0 <= i < |rows| => rows[i].(kPerm := FloorZero(rows[i].kPerm)))
  }

  // ---------------------------------------------------------------------
  // Prorated sum per HRU
  // ---------------------------------------------------------------------

  /** `10**k_perm * (area_weight / flux_id_area)`. */
  function Prorated(c: Contribution, pow10: real -> real): real
  {
    pow10(c.kPerm) * (c.areaWeight / c.fluxIdArea)
  }

  /** The HRU ids the rows name. */
  function HruIds(rows: seq<Contribution>): set<int>
    decreases |rows|
  {
    if |rows| == 0 then {} else {rows[0].hruId} + HruIds(rows[1..])
  }

  /** The reference sum: prorated permeability over the rows of one HRU. */
  function SumFor(h: int, rows: seq<Contribution>, pow10: real -> real): (t: real)
    ensures h !in HruIds(rows) ==> t == 0.0
    decreases |rows|
  {
    if |rows| == 0 then 0.0
    else (if rows[0].hruId == h then Prorated(rows[0], pow10) else 0.0) + SumFor(h, rows[1..], pow10)
  }

  function Total(rows: seq<Contribution>, pow10: real -> real): real
    decreases |rows|
  {
    if |rows| == 0 then 0.0 else Prorated(rows[0], pow10) + Total(rows[1..], pow10)
  }

  predicate StrictlyIncreasing(ks: seq<int>)
  {
    forall i, j :: 0 <= i < j < |ks| ==> ks[i] < ks[j]
  }

  function InsertKey(k: int, ks: seq<int>): (r: seq<int>)
    requires StrictlyIncreasing(ks)
    ensures StrictlyIncreasing(r)
    ensures forall x :: x in r <==> x in ks || x == k
    decreases |ks|
  {
    if |ks| == 0 then [k]
    else if k < ks[0] then [k] + ks
    else if k == ks[0] then ks
    else
      var tail := InsertKey(k, ks[1..]);
      RestAbove(ks);
      ConsIncreasing(ks[0], tail);
      assert ks == [ks[0]] + ks[1..];
      [ks[0]] + tail
  }

  lemma RestAbove(ks: seq<int>)
    requires |ks| > 0 && StrictlyIncreasing(ks)
    ensures forall x :: x in ks[1..] ==> ks[0] < x
  {
    forall x | x in ks[1..]
      ensures ks[0] < x
    {
      var i :| 0 <= i < |ks[1..]| && ks[1..][i] == x;
      assert ks[i + 1] == x;
    }
  }

  lemma ConsIncreasing(a: int, t: seq<int>)
    requires StrictlyIncreasing(t) && forall x :: x in t ==> a < x
    ensures StrictlyIncreasing([a] + t)
  {
    forall i, j | 0 <= i < j < |[a] + t|
      ensures ([a] + t)[i] < ([a] + t)[j]
    {
      assert ([a] + t)[j] == t[j - 1];
      if i > 0 {
        assert ([a] + t)[i] == t[i - 1];
      } else {
        assert t[j - 1] in t;
      }
    }
  }

  /** The distinct `hru_id`s in ascending order, as `groupby` produces them. */
  function Keys(rows: seq<Contribution>): (ks: seq<int>)
    ensures StrictlyIncreasing(ks)
    ensures forall h :: h in ks <==> exists i :: 0 <= i < |rows| && rows[i].hruId == h
    decreases |rows|
  {
    if |rows| == 0 then []
    else
      var ks := InsertKey(rows[0].hruId, Keys(rows[1..]));
      assert forall i :: 1 <= i < |rows| ==> rows[i].hruId == rows[1..][i - 1].hruId;
      ks
  }

  datatype Extensive = Extensive(hruId: int, kPermWtd: real)

  predicate HasHru(rows: seq<Contribution>, h: int)
  {
    exists i :: 0 <= i < |rows| && rows[i].hruId == h
  }

  /** `groupby("hru_id").sum()` then `sort_values("hru_id")`. */
  function Aggregate(rows: seq<Contribution>, pow10: real -> real): (agg: seq<Extensive>)
    ensures forall i, j :: 0 <= i < j < |agg| ==> agg[i].hruId < agg[j].hruId
    ensures forall i :: 0 <= i < |agg| ==> HasHru(rows, agg[i].hruId)
    ensures forall i :: 0 <= i < |agg| ==> agg[i].kPermWtd == SumFor(agg[i].hruId, rows, pow10)
  {
    var ks := Keys(rows);
    assert forall i :: 0 <= i < |ks| ==> ks[i] in ks;
    seq(|ks|, i requires 0 <= i < |ks| => Extensive(ks[i], SumFor(ks[i], rows, pow10)))
  }

  /** Every HRU that has a contribution gets an aggregated row. */
  lemma AggregateCoversRows(rows: seq<Contribution>, pow10: real -> real)
    ensures var agg := Aggregate(rows, pow10);
      forall i :: 0 <= i < |rows| ==> exists j :: 0 <= j < |agg| && agg[j].hruId == rows[i].hruId
  {
    var ks := Keys(rows);
    var agg := Aggregate(rows, pow10);
    forall i | 0 <= i < |rows|
      ensures exists j :: 0 <= j < |agg| && agg[j].hruId == rows[i].hruId
    {
      assert rows[i].hruId in ks;
      var j :| 0 <= j < |ks| && ks[j] == rows[i].hruId;
      assert agg[j].hruId == rows[i].hruId;
    }
  }

  function SumKeys(ks: seq<int>, rows: seq<Contribution>, pow10: real -> real): real
    decreases |ks|
  {
    if |ks| == 0 then 0.0 else SumFor(ks[0], rows, pow10) + SumKeys(ks[1..], rows, pow10)
  }

  function Hits(ks: seq<int>, h: int): nat
    decreases |ks|
  {
    if |ks| == 0 then 0 else (if ks[0] == h then 1 else 0) + Hits(ks[1..], h)
  }

  lemma {:induction false} HitsOfDistinct(ks: seq<int>, h: int)
    requires StrictlyIncreasing(ks)
    ensures Hits(ks, h) == (if h in ks then 1 else 0)
    decreases |ks|
  {
    if |ks| > 0 {
      HitsOfDistinct(ks[1..], h);
      if ks[0] == h {
        assert h !in ks[1..];
      }
    }
  }

  lemma {:induction false} SumKeysCons(ks: seq<int>, c: Contribution, rows: seq<Contribution>, pow10: real -> real)
    ensures SumKeys(ks, [c] + rows, pow10) == (Hits(ks, c.hruId) as real) * Prorated(c, pow10) + SumKeys(ks, rows, pow10)
    decreases |ks|
  {
    if |ks| > 0 {
      SumKeysCons(ks[1..], c, rows, pow10);
      assert ([c] + rows)[1..] == rows;
    }
  }

  /** Summing the groups over any distinct cover of the ids gives the total. */
  lemma {:induction false} SumKeysIsTotal(ks: seq<int>, rows: seq<Contribution>, pow10: real -> real)
    requires StrictlyIncreasing(ks)
    requires forall i :: 0 <= i < |rows| ==> rows[i].hruId in ks
    ensures SumKeys(ks, rows, pow10) == Total(rows, pow10)
    decreases |rows|
  {
    if |rows| > 0 {
      var rest := rows[1..];
      assert rows == [rows[0]] + rest;
      SumKeysCons(ks, rows[0], rest, pow10);
      assert rows[0].hruId in ks;
      HitsOfDistinct(ks, rows[0].hruId);
      assert SumKeys(ks, rows, pow10) == Prorated(rows[0], pow10) + SumKeys(ks, rest, pow10);
      assert forall i :: 0 <= i < |rest| ==> rest[i] == rows[i + 1];
      SumKeysIsTotal(ks, rest, pow10);
      assert Total(rows, pow10) == Prorated(rows[0], pow10) + Total(rest, pow10);
    } else {
      SumKeysOfNothing(ks, rows, pow10);
    }
  }

  lemma {:induction false} SumKeysOfNothing(ks: seq<int>, rows: seq<Contribution>, pow10: real -> real)
    requires |rows| == 0
    ensures SumKeys(ks, rows, pow10) == 0.0
    decreases |ks|
  {
    if |ks| > 0 {
      SumKeysOfNothing(ks[1..], rows, pow10);
    }
  }

  function SumWtd(agg: seq<Extensive>): real
    decreases |agg|
  {
    if |agg| == 0 then 0.0 else agg[0].kPermWtd + SumWtd(agg[1..])
  }

  lemma {:induction false} SumWtdIsSumKeys(ks: seq<int>, rows: seq<Contribution>, pow10: real -> real)
    ensures SumWtd(seq(|ks|, i requires 0 <= i < |ks| => Extensive(ks[i], SumFor(ks[i], rows, pow10)))) == SumKeys(ks, rows, pow10)
    decreases |ks|
  {
    if |ks| > 0 {
      var agg := seq(|ks|, i requires 0 <= i < |ks| => Extensive(ks[i], SumFor(ks[i], rows, pow10)));
      var tail := seq(|ks[1..]|, i requires 0 <= i < |ks[1..]| => Extensive(ks[1..][i], SumFor(ks[1..][i], rows, pow10)));
      assert agg[1..] == tail;
      SumWtdIsSumKeys(ks[1..], rows, pow10);
    }
  }

  /** The per-HRU sums add up to the prorated permeability of every joined row. */
  lemma AggregateConservesTotal(rows: seq<Contribution>, pow10: real -> real)
    ensures SumWtd(Aggregate(rows, pow10)) == Total(rows, pow10)
  {
    var ks := Keys(rows);
    SumWtdIsSumKeys(ks, rows, pow10);
    assert forall i :: 0 <= i < |rows| ==> rows[i].hruId in ks;
    SumKeysIsTotal(ks, rows, pow10);
  }

  // ---------------------------------------------------------------------
  // Left merges and raw fluxes
  // ---------------------------------------------------------------------

  /** One HRU after the two left merges; an HRU without a match gets a missing value. */
  datatype HruRow = HruRow(hruId: int, kPermWtd: real, slope: Option<real>, area: Option<Area>)

  function LeftMerge(agg: seq<Extensive>, slopeMeans: map<int, real>, degToFraction: real -> real, areas: map<int, Area>): (rows: seq<HruRow>)
    ensures |rows| == |agg|
    ensures forall i :: 0 <= i < |rows| ==>
      && rows[i].hruId == agg[i].hruId && rows[i].kPermWtd == agg[i].kPermWtd
      && (rows[i].slope.Some? <==> agg[i].hruId in slopeMeans)
      && (rows[i].area.Some? <==> agg[i].hruId in areas)
      && (rows[i].slope.Some? ==> rows[i].slope.value == degToFraction(slopeMeans[agg[i].hruId]))
      && (rows[i].area.Some? ==> rows[i].area.value == areas[agg[i].hruId])
  {
    seq(|agg|, i requires 0 <= i < |agg| =>
      var h := agg[i].hruId;
      HruRow(h, agg[i].kPermWtd,
             if h in slopeMeans then Some(degToFraction(slopeMeans[h])) else None,
             if h in areas then Some(areas[h]) else None))
  }

  /** The seven PRMS parameters, in the order of the output columns. */
  datatype Param = Soil2gwMax | Ssr2gwRate | FastcoefLin | SlowcoefLin | GwflowCoef | DprstSeepRateOpen | DprstFlowCoef

  const FluxParams: seq<Param> := [Soil2gwMax, Ssr2gwRate, FastcoefLin, SlowcoefLin, GwflowCoef, DprstSeepRateOpen, DprstFlowCoef]

  function Name(p: Param): string
  {
    match p
    case Soil2gwMax => "soil2gw_max"
    case Ssr2gwRate => "ssr2gw_rate"
    case FastcoefLin => "fastcoef_lin"
    case SlowcoefLin => "slowcoef_lin"
    case GwflowCoef => "gwflow_coef"
    case DprstSeepRateOpen => "dprst_seep_rate_open"
    case DprstFlowCoef => "dprst_flow_coef"
  }

  function Lo(p: Param): real
  {
    match p
    case Soil2gwMax => 0.1
    case Ssr2gwRate => 0.3
    case FastcoefLin => 0.01
    case SlowcoefLin => 0.005
    case GwflowCoef => 0.005
    case DprstSeepRateOpen => 0.005
    case DprstFlowCoef => 0.005
  }

  function Hi(p: Param): real
  {
    match p
    case Soil2gwMax => 0.3
    case Ssr2gwRate => 0.7
    case FastcoefLin => 0.6
    case SlowcoefLin => 0.3
    case GwflowCoef => 0.3
    case DprstSeepRateOpen => 0.2
    case DprstFlowCoef => 0.5
  }

  /** Every target interval is non-empty. */
  lemma BoundsAreOrdered(p: Param)
    ensures Lo(p) < Hi(p)
  {
  }

  function SsrOf(r: HruRow): Option<real>
  {
    match r.slope
    case None => None
    case Some(s) => Some(r.kPermWtd * (1.0 - s))
  }

  function SlowOf(r: HruRow): Option<real>
  {
    if r.slope.Some? && r.area.Some? then Some(r.kPermWtd * r.slope.value / r.area.value) else None
  }

  function Twice(x: Option<real>): Option<real>
  {
    match x
    case None => None
    case Some(v) => Some(2.0 * v)
  }

  /** The raw `r_` value of a parameter; missing slope or area propagates as missing. */
  function Raw(p: Param, r: HruRow): (v: Option<real>)
    ensures v.Some? <==> p == Soil2gwMax || (r.slope.Some? && (p == Ssr2gwRate || p == DprstSeepRateOpen || r.area.Some?))
  {
    match p
    case Soil2gwMax => Some(r.kPermWtd * r.kPermWtd * r.kPermWtd)
    case Ssr2gwRate => SsrOf(r)
    case SlowcoefLin => SlowOf(r)
    case FastcoefLin => Twice(SlowOf(r))
    case GwflowCoef => SlowOf(r)
    case DprstSeepRateOpen => SsrOf(r)
    case DprstFlowCoef => Twice(SlowOf(r))
  }

  /** The aliases among the seven formulas. */
  lemma RawAliases(r: HruRow)
    ensures Raw(GwflowCoef, r) == Raw(SlowcoefLin, r)
    ensures Raw(DprstSeepRateOpen, r) == Raw(Ssr2gwRate, r)
    ensures Raw(DprstFlowCoef, r) == Raw(FastcoefLin, r)
    ensures Raw(FastcoefLin, r).Some? ==> Raw(FastcoefLin, r).value == 2.0 * Raw(SlowcoefLin, r).value
    ensures Raw(Soil2gwMax, r).Some?
    ensures Raw(Ssr2gwRate, r).Some? <==> r.slope.Some?
    ensures Raw(SlowcoefLin, r).Some? <==> r.slope.Some? && r.area.Some?
  {
  }

  function RawColumn(p: Param, rows: seq<HruRow>): (col: seq<Option<real>>)
    ensures |col| == |rows|
    ensures forall i :: 0 <= i < |rows| ==> col[i] == Raw(p, rows[i])
  {
    seq(|rows|, i requires 0 <= i < |rows| => Raw(p, rows[i]))
  }

  // ---------------------------------------------------------------------
  // Min-max rescaling
  // ---------------------------------------------------------------------

  /** The smallest present value of a column (`min` skips missing values). */
  function ColumnMin(col: seq<Option<real>>): (m: Option<real>)
    ensures m.None? <==> forall i :: 0 <= i < |col| ==> col[i].None?
    ensures m.Some? ==> (exists i :: 0 <= i < |col| && col[i] == m)
    ensures m.Some? ==> forall i :: 0 <= i < |col| && col[i].Some? ==> m.value <= col[i].value
    decreases |col|
  {
    if |col| == 0 then None
    else
      var rest := ColumnMin(col[1..]);
      assert forall i :: 1 <= i < |col| ==> col[i] == col[1..][i - 1];
      if col[0].None? then rest
      else if rest.None? || col[0].value <= rest.value then col[0]
      else rest
  }

  function ColumnMax(col: seq<Option<real>>): (m: Option<real>)
    ensures m.None? <==> forall i :: 0 <= i < |col| ==> col[i].None?
    ensures m.Some? ==> (exists i :: 0 <= i < |col| && col[i] == m)
    ensures m.Some? ==> forall i :: 0 <= i < |col| && col[i].Some? ==> col[i].value <= m.value
    decreases |col|
  {
    if |col| == 0 then None
    else
      var rest := ColumnMax(col[1..]);
      assert forall i :: 1 <= i < |col| ==> col[i] == col[1..][i - 1];
      if col[0].None? then rest
      else if rest.None? || rest.value <= col[0].value then col[0]
      else rest
  }

  /** `(x - minIn) / (maxIn - minIn) * (hi - lo) + lo`. */
  function Rescale(x: real, minIn: real, maxIn: real, lo: real, hi: real): (y: real)
    requires minIn < maxIn
    ensures (y - lo) * (maxIn - minIn) == (x - minIn) * (hi - lo)
  {
    var y := (x - minIn) / (maxIn - minIn) * (hi - lo) + lo;
    assert (y - lo) * (maxIn - minIn) == (x - minIn) / (maxIn - minIn) * (maxIn - minIn) * (hi - lo);
    y
  }

  lemma RescaleEnds(minIn: real, maxIn: real, lo: real, hi: real)
    requires minIn < maxIn
    ensures Rescale(minIn, minIn, maxIn, lo, hi) == lo
    ensures Rescale(maxIn, minIn, maxIn, lo, hi) == hi
  {
  }

  lemma RescaleMonotone(x: real, y: real, minIn: real, maxIn: real, lo: real, hi: real)
    requires minIn < maxIn && lo <= hi && x <= y
    ensures Rescale(x, minIn, maxIn, lo, hi) <= Rescale(y, minIn, maxIn, lo, hi)
  {
    var d := maxIn - minIn;
    assert (x - minIn) / d <= (y - minIn) / d;
    assert (x - minIn) / d * (hi - lo) <= (y - minIn) / d * (hi - lo);
  }

  lemma RescaleWithin(x: real, minIn: real, maxIn: real, lo: real, hi: real)
    requires minIn < maxIn && lo <= hi && minIn <= x <= maxIn
    ensures lo <= Rescale(x, minIn, maxIn, lo, hi) <= hi
  {
    RescaleEnds(minIn, maxIn, lo, hi);
    RescaleMonotone(minIn, x, minIn, maxIn, lo, hi);
    RescaleMonotone(x, maxIn, minIn, maxIn, lo, hi);
  }

  /** The observed range is positive: both ends exist and differ. */
  predicate Spread(col: seq<Option<real>>)
  {
    ColumnMin(col).Some? && ColumnMax(col).Some? && ColumnMin(col).value < ColumnMax(col).value
  }

  /**
   * One column rescaled onto `[lo, hi]`. Missing values stay missing; a
   * column without spread divides 0 by 0 and every value becomes NaN (missing).
   */
  function Normalize(col: seq<Option<real>>, lo: real, hi: real): (out: seq<Option<real>>)
    ensures |out| == |col|
    ensures forall i :: 0 <= i < |col| ==> (out[i].Some? <==> col[i].Some? && Spread(col))
    ensures Spread(col) ==> forall i :: 0 <= i < |col| && col[i].Some? ==>
              out[i].value == Rescale(col[i].value, ColumnMin(col).value, ColumnMax(col).value, lo, hi)
  {
    var mn := ColumnMin(col);
    var mx := ColumnMax(col);
    seq(|col|, i requires 0 <= i < |col| =>
      if col[i].Some? && mn.Some? && mx.Some? && mn.value < mx.value
      then Some(Rescale(col[i].value, mn.value, mx.value, lo, hi))
      else None)
  }

  /** The observed minimum maps to `lo`, the maximum to `hi`, everything lies between, and order is kept. */
  lemma NormalizeProperties(col: seq<Option<real>>, lo: real, hi: real)
    requires Spread(col) && lo <= hi
    ensures var out := Normalize(col, lo, hi);
      && (forall i :: 0 <= i < |col| && col[i] == ColumnMin(col) ==> out[i] == Some(lo))
      && (forall i :: 0 <= i < |col| && col[i] == ColumnMax(col) ==> out[i] == Some(hi))
      && (forall i :: 0 <= i < |col| && out[i].Some? ==> lo <= out[i].value <= hi)
      && (forall i, j :: 0 <= i < |col| && 0 <= j < |col| && col[i].Some? && col[j].Some? && col[i].value <= col[j].value ==>
            out[i].value <= out[j].value)
  {
    var out := Normalize(col, lo, hi);
    var mn := ColumnMin(col).value;
    var mx := ColumnMax(col).value;
    RescaleEnds(mn, mx, lo, hi);
    forall i | 0 <= i < |col| && out[i].Some?
      ensures lo <= out[i].value <= hi
    {
      RescaleWithin(col[i].value, mn, mx, lo, hi);
    }
    forall i, j | 0 <= i < |col| && 0 <= j < |col| && col[i].Some? && col[j].Some? && col[i].value <= col[j].value
      ensures out[i].value <= out[j].value
    {
      RescaleMonotone(col[i].value, col[j].value, mn, mx, lo, hi);
    }
  }

  /** soil2gw_max: raw values 1, 2, 3 become 0.1, 0.2, 0.3. */
  lemma Soil2gwExample()
    ensures Normalize([Some(1.0), Some(2.0), Some(3.0)], Lo(Soil2gwMax), Hi(Soil2gwMax)) == [Some(0.1), Some(0.2), Some(0.3)]
  {
    var col := [Some(1.0), Some(2.0), Some(3.0)];
    assert ColumnMin(col[2..]) == Some(3.0);
    assert ColumnMin(col[1..]) == Some(2.0);
    assert ColumnMin(col) == Some(1.0);
    assert ColumnMax(col[2..]) == Some(3.0);
    assert ColumnMax(col[1..]) == Some(3.0);
    assert ColumnMax(col) == Some(3.0);
  }

  // ---------------------------------------------------------------------
  // Output table and the script
  // ---------------------------------------------------------------------

  datatype FluxRow = FluxRow(hruId: int, kPermWtd: real, slope: Option<real>, area: Option<Area>, values: seq<Option<real>>)

  datatype FluxTable = FluxTable(header: seq<string>, rows: seq<FluxRow>)

  /** The columns kept after the `r_` intermediates are dropped. */
  function Header(): (h: seq<string>)
    ensures |h| == 4 + |FluxParams|
    ensures forall k :: 0 <= k < |FluxParams| ==> h[4 + k] == Name(FluxParams[k])
  {
    ["hru_id", "k_perm_wtd", "mean_slope_fraction", "hru_area"]
      + seq(|FluxParams|, k requires 0 <= k < |FluxParams| => Name(FluxParams[k]))
  }

  /** No dropped intermediate survives in the output header. */
  lemma HeaderHasNoIntermediates()
    ensures forall k :: 0 <= k < |Header()| ==> !IsPrefix("r_", Header()[k])
  {
    var h := Header();
    forall k | 0 <= k < |h|
      ensures !IsPrefix("r_", h[k])
    {
      if k >= 4 {
        var p := FluxParams[k - 4];
        assert h[k] == Name(p);
        assert h[k][0] != 'r';
      } else {
        assert h[k][0] != 'r';
      }
    }
  }

  function Flux(rows: seq<HruRow>): (t: FluxTable)
    ensures t.header == Header()
    ensures |t.rows| == |rows|
    ensures forall i :: 0 <= i < |rows| ==>
      && t.rows[i].hruId == rows[i].hruId && t.rows[i].kPermWtd == rows[i].kPermWtd
      && t.rows[i].slope == rows[i].slope && t.rows[i].area == rows[i].area
      && |t.rows[i].values| == |FluxParams|
      && forall k :: 0 <= k < |FluxParams| ==>
           t.rows[i].values[k] == Normalize(RawColumn(FluxParams[k], rows), Lo(FluxParams[k]), Hi(FluxParams[k]))[i]
  {
    var cols := seq(|FluxParams|, k requires 0 <= k < |FluxParams| =>
      Normalize(RawColumn(FluxParams[k], rows), Lo(FluxParams[k]), Hi(FluxParams[k])));
    FluxTable(Header(), seq(|rows|, i requires 0 <= i < |rows| =>
      FluxRow(rows[i].hruId, rows[i].kPermWtd, rows[i].slope, rows[i].area,
              seq(|FluxParams|, k requires 0 <= k < |FluxParams| => cols[k][i]))))
  }

  /** slowcoef_lin and gwflow_coef share raw values and bounds, so their columns agree row by row. */
  lemma SlowcoefEqualsGwflow(rows: seq<HruRow>)
    ensures var t := Flux(rows);
      forall i :: 0 <= i < |t.rows| ==> t.rows[i].values[3] == t.rows[i].values[4]
  {
    assert FluxParams[3] == SlowcoefLin && FluxParams[4] == GwflowCoef;
    assert RawColumn(SlowcoefLin, rows) == RawColumn(GwflowCoef, rows);
  }

  /**
   * The output table built from the floored contributions: one row per HRU in
   * ascending id order, carrying that HRU's area-weighted permeability.
   */
  function PermeabilityTable(
    contributions: seq<Contribution>, slopeMeans: map<int, real>, degToFraction: real -> real,
    areas: map<int, Area>, pow10: real -> real): (t: FluxTable)
    ensures var agg := Aggregate(contributions, pow10);
      && t.header == Header()
      && |t.rows| == |agg|
      && (forall i :: 0 <= i < |agg| ==>
            (t.rows[i].hruId == agg[i].hruId
             && t.rows[i].kPermWtd == SumFor(agg[i].hruId, contributions, pow10)))
      && (forall i, j :: 0 <= i < j < |agg| ==> t.rows[i].hruId < t.rows[j].hruId)
  {
    Flux(LeftMerge(Aggregate(contributions, pow10), slopeMeans, degToFraction, areas))
  }

  datatype SsFluxRun = SsFluxRun(weightsWritten: Option<string>, output: string, table: FluxTable)

  /** A `source_type` missing from the configuration is formatted as "None". */
  function SourceTypeText(sourceType: Option<string>): string
  {
    match sourceType
    case None => "None"
    case Some(s) => s
  }

  function SlopeTable(outputDir: string, vpu: string): string
  {
    Join(outputDir, "slope/base_nhm_slope_" + vpu + "_param.csv")
  }

  lemma SlopeTableName(vpu: string)
    ensures DemParams.ParamPrefix("slope", vpu) + ".csv" == "base_nhm_slope_" + vpu + "_param.csv"
  {
    assert "base_nhm_" + "slope" + "_" == "base_nhm_slope_";
    assert "_param" + ".csv" == "_param.csv";
  }

  /** The slope table read here is the file the slope run of the DEM parameters writes. */
  lemma SlopeTableIsDemParamsOutput(outputDir: string, vpu: string)
    ensures SlopeTable(outputDir, vpu) == Join(Join(outputDir, "slope"), DemParams.ParamPrefix("slope", vpu) + ".csv")
  {
    var name := "base_nhm_slope_" + vpu + "_param.csv";
    SlopeTableName(vpu);
    assert name[0] == 'b';
    JoinTwice(outputDir, "slope", name);
    assert "slope" + "/" + name == "slope/" + name;
  }

  function FluxCsv(outputDir: string, sourceType: Option<string>, vpu: string): string
  {
    Join(outputDir, "ssflux/base_nhm_" + SourceTypeText(sourceType) + "_" + vpu + "_param.csv")
  }

  function LithologyLayer(baseSourceDir: string): string
  {
    Join(baseSourceDir, "data_layers/soils_litho/Lithology_exp_Konly_Project.shp")
  }

  function WeightFile(weightDir: string, vpu: string): string
  {
    Join(weightDir, "lith_weights_vpu_" + vpu + ".csv")
  }

  /**
   * The script: the geopackage must exist, then the lithology layer and the
   * slope table are read; area weights are generated and saved only when the
   * weight file is absent (the same rows either way).
   */
  function CreateSsfluxParams(
    baseSourceDir: string, targetSourceDir: string, outputDir: string, weightDir: string,
    sourceType: Option<string>, vpu: string, paths: set<string>,
    source: seq<SourceRow>, weights: seq<WeightRow>,
    slopeMeans: map<int, real>, degToFraction: real -> real, areas: map<int, Area>,
    pow10: real -> real): (r: Result<SsFluxRun>)
    ensures DemParams.GpkgPath(targetSourceDir, vpu) !in paths ==> r == Err(MissingPath(DemParams.GpkgPath(targetSourceDir, vpu)))
    ensures r.Ok? <==> DemParams.GpkgPath(targetSourceDir, vpu) in paths && LithologyLayer(baseSourceDir) in paths && SlopeTable(outputDir, vpu) in paths
    ensures r.Ok? ==> (r.value.weightsWritten.Some? <==> WeightFile(weightDir, vpu) !in paths)
    ensures r.Ok? ==> r.value.output == FluxCsv(outputDir, sourceType, vpu)
    ensures r.Ok? ==> r.value.table == PermeabilityTable(FloorAll(InnerJoin(weights, source)), slopeMeans, degToFraction, areas, pow10)
  {
    var gpkg := DemParams.GpkgPath(targetSourceDir, vpu);
    if gpkg !in paths then Err(MissingPath(gpkg))
    else if LithologyLayer(baseSourceDir) !in paths then Err(Unreadable(LithologyLayer(baseSourceDir)))
    else if SlopeTable(outputDir, vpu) !in paths then Err(Unreadable(SlopeTable(outputDir, vpu)))
    else
      var weightFile := WeightFile(weightDir, vpu);
      var written := if weightFile !in paths then Some(weightFile) else None;
      var contributions := FloorAll(InnerJoin(weights, source));
      var table := PermeabilityTable(contributions, slopeMeans, degToFraction, areas, pow10);
      Ok(SsFluxRun(written, FluxCsv(outputDir, sourceType, vpu), table))
  }
}
