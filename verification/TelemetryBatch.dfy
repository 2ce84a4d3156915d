/** Saving telemetry (TelemetryService): one INSERT per point, or one generated multi-row INSERT. */
module TelemetryBatch {
  datatype Point = Point(device: string, lat: real, lng: real, speed: real, heading: real, timestamp: int, accuracy: string)

  /** Bound parameters and stored columns. */
  datatype Cell =
    | Text(s: string)
    | Num(n: real)
    | Time(t: int)
    | Geometry(x: Cell, y: Cell)
    | Unbound

  /** The two kinds of expression in the VALUES lists: `$n`, and the SRID-tagged point of two of them. */
  datatype Expr = Placeholder(n: int) | MakePoint(x: int, y: int)

  type Row = seq<Cell>

  const COLUMNS := 7

  /** `(a, b, ..., g, ST_SetSRID(ST_MakePoint(c, b), 4326))` with placeholders counted from base + 1. */
  function Tuple(base: int): seq<Expr> {
    [Placeholder(base + 1), Placeholder(base + 2), Placeholder(base + 3), Placeholder(base + 4),
     Placeholder(base + 5), Placeholder(base + 6), Placeholder(base + 7), MakePoint(base + 3, base + 2)]
  }

  function Bound(params: seq<Cell>, n: int): Cell {
    if 1 <= n <= |params| then params[n - 1] else Unbound
  }

  function EvalExpr(e: Expr, params: seq<Cell>): Cell {
    match e
    case Placeholder(n) => Bound(params, n)
    case MakePoint(x, y) => Geometry(Bound(params, x), Bound(params, y))
  }

  function EvalTuple(tuple: seq<Expr>, params: seq<Cell>): Row {
    seq(|tuple|, i requires 0 <= i < |tuple| => EvalExpr(tuple[i], params))
  }

  /** The rows an INSERT adds. */
  function Insert(tuples: seq<seq<Expr>>, params: seq<Cell>): seq<Row> {
    seq(|tuples|, i requires 0 <= i < |tuples| => EvalTuple(tuples[i], params))
  }

  function Params(p: Point): seq<Cell> {
    [Text(p.device), Num(p.lat), Num(p.lng), Num(p.speed), Num(p.heading), Time(p.timestamp), Text(p.accuracy)]
  }

  function BatchTuples(n: nat): seq<seq<Expr>> {
    seq(n, i => Tuple(i * COLUMNS))
  }

  /** points.flatMap(...) */
  function FlatParams(points: seq<Point>): seq<Cell> {
    if points == [] then [] else FlatParams(points[..|points| - 1]) + Params(points[|points| - 1])
  }

  /** What a point should be stored as: its fields in column order and a geometry at (lng, lat). */
  function Stored(p: Point): Row {
    [Text(p.device), Num(p.lat), Num(p.lng), Num(p.speed), Num(p.heading), Time(p.timestamp), Text(p.accuracy),
     Geometry(Num(p.lng), Num(p.lat))]
  }

  /** The rows hold the points: device, latitude, longitude, speed, heading, time, accuracy, and (lng, lat). */
  ghost predicate IsStoredAs(rows: seq<Row>, points: seq<Point>) {
    && |rows| == |points|
    && forall i :: 0 <= i < |rows| ==>
         && |rows[i]| == 8
         && rows[i][0] == Text(points[i].device) && rows[i][1] == Num(points[i].lat) && rows[i][2] == Num(points[i].lng)
         && rows[i][3] == Num(points[i].speed) && rows[i][4] == Num(points[i].heading)
         && rows[i][5] == Time(points[i].timestamp) && rows[i][6] == Text(points[i].accuracy)
         && rows[i][7] == Geometry(Num(points[i].lng), Num(points[i].lat))
  }

  function StoredAll(points: seq<Point>): seq<Row> {
    seq(|points|, i requires 0 <= i < |points| => Stored(points[i]))
  }

  lemma {:induction false} FlatParamsAt(points: seq<Point>, i: nat, c: nat)
    requires i < |points| && c < COLUMNS
    ensures |FlatParams(points)| == COLUMNS * |points|
    ensures FlatParams(points)[i * COLUMNS + c] == Params(points[i])[c]
  {
    var init := points[..|points| - 1];
    if init == [] {
      assert FlatParams(init) == [];
    } else {
      FlatParamsAt(init, if i < |init| then i else 0, c);
    }
  }

  /** savePoint's statement stores the point. */
  lemma PointInsertStores(p: Point)
    ensures Insert([Tuple(0)], Params(p)) == [Stored(p)]
    ensures IsStoredAs(Insert([Tuple(0)], Params(p)), [p])
  {
    assert Params(p)[0..COLUMNS] == Params(p);
    TupleStores(Params(p), 0, p);
    StoredAsItself(p);
    hide EvalTuple, Stored, IsStoredAs, Tuple;
    assert Insert([Tuple(0)], Params(p)) == [Stored(p)];
  }

  lemma StoredAsItself(p: Point)
    ensures IsStoredAs([Stored(p)], [p])
  {
  }

  lemma TupleStores(params: seq<Cell>, base: nat, p: Point)
    requires base + COLUMNS <= |params| && params[base..base + COLUMNS] == Params(p)
    ensures EvalTuple(Tuple(base), params) == Stored(p)
  {
    var own := params[base..base + COLUMNS];
    assert forall c :: 0 <= c < COLUMNS ==> own[c] == Bound(params, base + c + 1);
    assert Bound(params, base + 2) == own[1] && Bound(params, base + 3) == own[2];
    forall k | 0 <= k < 8 ensures EvalTuple(Tuple(base), params)[k] == Stored(p)[k] {
      assert k < COLUMNS ==> Tuple(base)[k] == Placeholder(base + k + 1) && Stored(p)[k] == own[k];
    }
  }

  lemma BatchTupleStores(points: seq<Point>, i: nat)
    requires i < |points|
    ensures EvalTuple(Tuple(i * COLUMNS), FlatParams(points)) == Stored(points[i])
  {
    var params, base := FlatParams(points), i * COLUMNS;
    hide FlatParams, EvalTuple, Stored, Tuple;
    FlatParamsAt(points, i, 0);
    FlatParamsAt(points, i, COLUMNS - 1);
    forall c: nat | c < COLUMNS ensures params[base..base + COLUMNS][c] == Params(points[i])[c] {
      FlatParamsAt(points, i, c);
    }
    TupleStores(params, base, points[i]);
  }

  /** Placeholders stay within the bound parameters, whatever the batch size. */
  lemma PlaceholdersAreBound(points: seq<Point>, i: nat, e: Expr)
    requires i < |points| && e in BatchTuples(|points|)[i]
    ensures match e
            case Placeholder(n) => 1 <= n <= |FlatParams(points)|
            case MakePoint(x, y) => 1 <= x <= |FlatParams(points)| && 1 <= y <= |FlatParams(points)|
  {
    FlatParamsAt(points, i, 0);
    assert BatchTuples(|points|)[i] == Tuple(i * COLUMNS);
  }

  /** savePoint called on each point in order. */
  function OneByOne(points: seq<Point>): seq<Row> {
    if points == [] then []
    else OneByOne(points[..|points| - 1]) + Insert([Tuple(0)], Params(points[|points| - 1]))
  }

  lemma {:induction false} OneByOneStores(points: seq<Point>)
    ensures OneByOne(points) == StoredAll(points)
  {
    if points == [] {
    } else {
      OneByOneStores(points[..|points| - 1]);
      PointInsertStores(points[|points| - 1]);
    }
  }

  lemma StoredAllIsStoredAs(points: seq<Point>)
    ensures IsStoredAs(StoredAll(points), points)
  {
  }

  lemma BatchInsertStores(points: seq<Point>)
    ensures Insert(BatchTuples(|points|), FlatParams(points)) == StoredAll(points)
    ensures IsStoredAs(Insert(BatchTuples(|points|), FlatParams(points)), points)
  {
    StoredAllIsStoredAs(points);
    hide IsStoredAs, EvalTuple, Stored, FlatParams, Tuple;
    forall i | 0 <= i < |points|
      ensures Insert(BatchTuples(|points|), FlatParams(points))[i] == StoredAll(points)[i]
    {
      BatchTupleStores(points, i);
    }
  }

  /** The generated multi-row INSERT adds exactly the rows of saving point by point, in that order. */
  lemma BatchEqualsOneByOne(points: seq<Point>)
    ensures Insert(BatchTuples(|points|), FlatParams(points)) == OneByOne(points)
  {
    BatchInsertStores(points);
    OneByOneStores(points);
  }

  class TelemetryService {
    var table: seq<Row>

    constructor ()
      ensures table == []
    {
      table := [];
    }

    method SavePoint(p: Point)
      modifies this
      ensures table == old(table) + [Stored(p)] && IsStoredAs([Stored(p)], [p])
    {
      PointInsertStores(p);
      table := table + Insert([Tuple(0)], Params(p));
    }

    method SaveBatch(points: seq<Point>)
      modifies this
      ensures table == old(table) + StoredAll(points) == old(table) + OneByOne(points)
      ensures IsStoredAs(StoredAll(points), points)
    {
      StoredAllIsStoredAs(points);
      OneByOneStores(points);
      if |points| == 0 {
        return;
      }
      BatchInsertStores(points);
      table := table + Insert(BatchTuples(|points|), FlatParams(points));
    }
  }
}
