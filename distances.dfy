/**
 * calculateDistanceBetweenPoints and getAttendanceWithDistances: the
 * origin/destination lists sent to the distance-matrix service, the reading of
 * its reply, and the in-place annotation of the day's records with the
 * distance from the previous record.
 */
module Distances {
  import opened Common
  import opened Users
  import opened Attendance

  /** `locations.slice(0, -1)` and `locations.slice(1)`: leg i runs from point i to point i + 1. */
  function MatrixRequest(points: seq<Point>): (r: (seq<Point>, seq<Point>))
    ensures |r.0| == |r.1| == (if |points| == 0 then 0 else |points| - 1)
    ensures forall i :: 0 <= i < |r.0| ==> r.0[i] == points[i] && r.1[i] == points[i + 1]
  {
    if |points| == 0 then ([], []) else (points[..|points| - 1], points[1..])
  }

  /** One cell of the matrix: `elements[j].distance.text`, None when the cell carries no distance. */
  datatype Element = Element(distanceText: Option<string>)
  datatype MatrixRow = MatrixRow(elements: seq<Element>)

  /** The service's reply: the fetch or JSON decoding failed, or a status with one row per origin. */
  datatype MatrixReply = MatrixFailed | Matrix(status: string, rows: seq<MatrixRow>)

  /** The reply is the service's correct answer for these origins and destinations under `dist`. */
  ghost predicate Answers(reply: MatrixReply, origins: seq<Point>, destinations: seq<Point>, dist: (Point, Point) -> string)
  {
    && reply.Matrix? && reply.status == "OK" && |reply.rows| == |origins|
    && forall i :: 0 <= i < |origins| ==>
         && |reply.rows[i].elements| == |destinations|
         && forall j :: 0 <= j < |destinations| ==>
              reply.rows[i].elements[j] == Element(Some(dist(origins[i], destinations[j])))
  }

  /** `row.elements[j].distance.text` can be read without throwing. */
  predicate Readable(row: MatrixRow, j: int)
  {
    0 <= j < |row.elements| && row.elements[j].distanceText.Some?
  }

  /**
   * `data.rows.map(row => row.elements[0].distance.text)` as written: None (the call throws
   * "Error calculating distances") on a failed fetch, a non-OK status or an unreadable cell.
   */
  function LegDistancesAsWritten(reply: MatrixReply): (r: Option<seq<string>>)
    ensures r.Some? <==> reply.Matrix? && reply.status == "OK" && forall i :: 0 <= i < |reply.rows| ==> Readable(reply.rows[i], 0)
    ensures r.Some? ==> |r.value| == |reply.rows|
  {
    if reply.MatrixFailed? || reply.status != "OK" then None
    else if exists i :: 0 <= i < |reply.rows| && !Readable(reply.rows[i], 0) then None
    else Some(seq(|reply.rows|, i requires 0 <= i < |reply.rows| => reply.rows[i].elements[0].distanceText.value))
  }

  /** As written, every leg is measured from point i to the second point, not to point i + 1. */
  lemma AsWrittenMeasuresToSecondPoint(points: seq<Point>, reply: MatrixReply, dist: (Point, Point) -> string)
    requires |points| >= 2
    requires Answers(reply, MatrixRequest(points).0, MatrixRequest(points).1, dist)
    ensures LegDistancesAsWritten(reply) == Some(seq(|points| - 1, i requires 0 <= i < |points| - 1 => dist(points[i], points[1])))
  {
    var (origins, destinations) := MatrixRequest(points);
    forall i | 0 <= i < |reply.rows| ensures Readable(reply.rows[i], 0) {
      assert reply.rows[i].elements[0] == Element(Some(dist(origins[i], destinations[0])));
    }
    var legs := LegDistancesAsWritten(reply).value;
    var expected := seq(|points| - 1, i requires 0 <= i < |points| - 1 => dist(points[i], points[1]));
    forall i | 0 <= i < |legs| ensures legs[i] == expected[i] {
      assert reply.rows[i].elements[0] == Element(Some(dist(origins[i], destinations[0])));
    }
    assert legs == expected;
  }

  /** Three points where the source's second annotation is not the B-to-C leg. */
  lemma AsWrittenMissesSecondLeg(dist: (Point, Point) -> string, reply: MatrixReply)
    requires dist == ((p: Point, q: Point) => if p == q then "1 m" else "5 km")
    requires Answers(reply, [Point(0.0, 0.0), Point(1.0, 1.0)], [Point(1.0, 1.0), Point(2.0, 2.0)], dist)
    ensures LegDistancesAsWritten(reply).Some? && LegDistancesAsWritten(reply).value[1] == "1 m"
    ensures dist(Point(1.0, 1.0), Point(2.0, 2.0)) == "5 km"
  {
    var points := [Point(0.0, 0.0), Point(1.0, 1.0), Point(2.0, 2.0)];
    assert points[..2] == [Point(0.0, 0.0), Point(1.0, 1.0)];
    assert points[1..] == [Point(1.0, 1.0), Point(2.0, 2.0)];
    AsWrittenMeasuresToSecondPoint(points, reply, dist);
  }

  /** The intended reading: row i, element i — the leg from origin i to destination i. */
  function LegDistances(reply: MatrixReply): (r: Option<seq<string>>)
    ensures r.Some? <==> reply.Matrix? && reply.status == "OK" && forall i :: 0 <= i < |reply.rows| ==> Readable(reply.rows[i], i)
    ensures r.Some? ==> |r.value| == |reply.rows|
  {
    if reply.MatrixFailed? || reply.status != "OK" then None
    else if exists i :: 0 <= i < |reply.rows| && !Readable(reply.rows[i], i) then None
    else Some(seq(|reply.rows|, i requires 0 <= i < |reply.rows| => reply.rows[i].elements[i].distanceText.value))
  }

  /** For a correct reply, leg i is the distance from point i to point i + 1, one leg per consecutive pair. */
  lemma LegDistancesAreConsecutive(points: seq<Point>, reply: MatrixReply, dist: (Point, Point) -> string)
    requires |points| >= 2
    requires Answers(reply, MatrixRequest(points).0, MatrixRequest(points).1, dist)
    ensures LegDistances(reply) == Some(seq(|points| - 1, i requires 0 <= i < |points| - 1 => dist(points[i], points[i + 1])))
  {
    var (origins, destinations) := MatrixRequest(points);
    forall i | 0 <= i < |reply.rows| ensures Readable(reply.rows[i], i) {
      assert reply.rows[i].elements[i] == Element(Some(dist(origins[i], destinations[i])));
    }
    var legs := LegDistances(reply).value;
    var expected := seq(|points| - 1, i requires 0 <= i < |points| - 1 => dist(points[i], points[i + 1]));
    forall i | 0 <= i < |legs| ensures legs[i] == expected[i] {
      assert reply.rows[i].elements[i] == Element(Some(dist(origins[i], destinations[i])));
    }
    assert legs == expected;
  }

  // ---------------------------------------------------------------------------------------------
  // getAttendanceWithDistances

  /** A returned record with the `distanceFromPrevious` field the handler may add (None: absent). */
  datatype Annotated = Annotated(record: Record, distanceFromPrevious: Option<string>)

  /** The `forEach` over the fetched records: record i > 0 gets `distances[i - 1]`; record 0 is left alone. */
  method Annotate(a: array<Annotated>, distances: seq<string>)
    modifies a
    ensures a.Length > 0 ==> a[0] == old(a[0])
    ensures forall i :: 1 <= i < a.Length ==>
              a[i] == old(a[i]).(distanceFromPrevious := if i - 1 < |distances| then Some(distances[i - 1]) else None)
  {
    var index := 1;
    while index < a.Length
      invariant 1 <= index
      invariant a.Length > 0 ==> a[0] == old(a[0])
      invariant forall i :: 1 <= i < index && i < a.Length ==>
                  a[i] == old(a[i]).(distanceFromPrevious := if i - 1 < |distances| then Some(distances[i - 1]) else None)
      invariant forall i :: index <= i < a.Length ==> a[i] == old(a[i])
    {
      a[index] := a[index].(distanceFromPrevious := if index - 1 < |distances| then Some(distances[index - 1]) else None);
      index := index + 1;
    }
  }

  /** The locations of some records, in order. */
  function Locations(rs: seq<Record>): (r: seq<Point>)
    ensures |r| == |rs| && forall i :: 0 <= i < |rs| ==> r[i] == rs[i].location
  {
    seq(|rs|, i requires 0 <= i < |rs| => rs[i].location)
  }

  /**
   * The part of the handler after the query: with more than one record, a failed reading of the
   * distances (`legs` None) answers 500; otherwise record i > 0 is annotated with leg i - 1.
   */
  method AnnotateFound(found: seq<Record>, legs: Option<seq<string>>) returns (r: Response<seq<Annotated>>)
    ensures r.Failure? <==> |found| > 1 && legs.None?
    ensures r.Failure? ==> r == Failure(500, "Server error")
    ensures r.Success? ==>
              && r.status == 200 && |r.body| == |found|
              && (forall i :: 0 <= i < |found| ==> r.body[i].record == found[i])
              && (|found| <= 1 ==> forall i :: 0 <= i < |found| ==> r.body[i].distanceFromPrevious.None?)
              && (|found| > 1 ==>
                    && r.body[0].distanceFromPrevious.None?
                    && forall i :: 1 <= i < |found| ==>
                         r.body[i].distanceFromPrevious
                         == (if i - 1 < |legs.value| then Some(legs.value[i - 1]) else None))
  {
    var a := new Annotated[|found|](i requires 0 <= i < |found| => Annotated(found[i], None));
    if |found| > 1 {
      if legs.None? {
        return Failure(500, "Server error");
      }
      Annotate(a, legs.value);
    }
    return Success(200, a[..]);
  }

  /**
   * getAttendanceWithDistances as written: the user's records of the day (last millisecond
   * excluded); when there is more than one, the service is asked once for the whole day and
   * record i > 0 is annotated with the `elements[0]` reading of row i - 1. The records and their
   * order are otherwise unchanged.
   */
  method AttendanceWithDistances(records: seq<Record>, user: UserId, date: DateParam,
                                 matrix: (seq<Point>, seq<Point>) -> MatrixReply)
    returns (r: Response<seq<Annotated>>)
    ensures !date.Parsed? ==> r == Failure(500, "Server error")
    ensures date.Parsed? ==>
              var found := Query(records, {user}, WithDistancesWindow(date.ms));
              var request := MatrixRequest(Locations(found));
              && (r.Failure? <==> |found| > 1 && LegDistancesAsWritten(matrix(request.0, request.1)).None?)
              && (r.Failure? ==> r.error == "Server error" && r.status == 500)
              && (r.Success? ==>
                    && r.status == 200 && |r.body| == |found|
                    && (forall i :: 0 <= i < |found| ==> r.body[i].record == found[i])
                    && (|found| <= 1 ==> forall i :: 0 <= i < |found| ==> r.body[i].distanceFromPrevious.None?)
                    && (|found| > 1 ==>
                          var legs := LegDistancesAsWritten(matrix(request.0, request.1)).value;
                          && r.body[0].distanceFromPrevious.None?
                          && forall i :: 1 <= i < |found| ==>
                               r.body[i].distanceFromPrevious == (if i - 1 < |legs| then Some(legs[i - 1]) else None)))
  {
    if !date.Parsed? {
      return Failure(500, "Server error");
    }
    var found := Query(records, {user}, WithDistancesWindow(date.ms));
    var legs := None;
    if |found| > 1 {
      var request := MatrixRequest(Locations(found));
      legs := LegDistancesAsWritten(matrix(request.0, request.1));
    }
    r := AnnotateFound(found, legs);
  }

  /** The handler with the intended reading of the reply (row i, element i); otherwise the same. */
  method CorrectedAttendanceWithDistances(records: seq<Record>, user: UserId, date: DateParam,
                                          matrix: (seq<Point>, seq<Point>) -> MatrixReply)
    returns (r: Response<seq<Annotated>>)
    ensures !date.Parsed? ==> r == Failure(500, "Server error")
    ensures date.Parsed? ==>
              var found := Query(records, {user}, WithDistancesWindow(date.ms));
              var request := MatrixRequest(Locations(found));
              && (r.Failure? <==> |found| > 1 && LegDistances(matrix(request.0, request.1)).None?)
              && (r.Failure? ==> r.error == "Server error" && r.status == 500)
              && (r.Success? ==>
                    && r.status == 200 && |r.body| == |found|
                    && (forall i :: 0 <= i < |found| ==> r.body[i].record == found[i])
                    && (|found| <= 1 ==> forall i :: 0 <= i < |found| ==> r.body[i].distanceFromPrevious.None?)
                    && (|found| > 1 ==>
                          var legs := LegDistances(matrix(request.0, request.1)).value;
                          && r.body[0].distanceFromPrevious.None?
                          && forall i :: 1 <= i < |found| ==>
                               r.body[i].distanceFromPrevious == (if i - 1 < |legs| then Some(legs[i - 1]) else None)))
  {
    if !date.Parsed? {
      return Failure(500, "Server error");
    }
    var found := Query(records, {user}, WithDistancesWindow(date.ms));
    var legs := None;
    if |found| > 1 {
      var request := MatrixRequest(Locations(found));
      legs := LegDistances(matrix(request.0, request.1));
    }
    r := AnnotateFound(found, legs);
  }

  /**
   * End to end as written: when the service answers correctly, every record after the first
   * carries the distance from the record before it to the second record of the day.
   */
  lemma AsWrittenAnnotationsMeasureToSecondRecord(found: seq<Record>, reply: MatrixReply, dist: (Point, Point) -> string,
                                                  body: seq<Annotated>)
    requires |found| > 1
    requires Answers(reply, MatrixRequest(Locations(found)).0, MatrixRequest(Locations(found)).1, dist)
    requires |body| == |found|
    requires LegDistancesAsWritten(reply).Some?
    requires forall i :: 1 <= i < |found| ==>
               var legs := LegDistancesAsWritten(reply).value;
               body[i].distanceFromPrevious == (if i - 1 < |legs| then Some(legs[i - 1]) else None)
    ensures forall i :: 1 <= i < |found| ==>
              body[i].distanceFromPrevious == Some(dist(found[i - 1].location, found[1].location))
  {
    AsWrittenMeasuresToSecondPoint(Locations(found), reply, dist);
  }

  /**
   * End to end: when the service answers correctly, every record after the first carries the
   * distance from the record before it.
   */
  lemma AnnotationsFollowConsecutiveRecords(found: seq<Record>, reply: MatrixReply, dist: (Point, Point) -> string,
                                            body: seq<Annotated>)
    requires |found| > 1
    requires Answers(reply, MatrixRequest(Locations(found)).0, MatrixRequest(Locations(found)).1, dist)
    requires |body| == |found|
    requires LegDistances(reply).Some?
    requires forall i :: 1 <= i < |found| ==>
               var legs := LegDistances(reply).value;
               body[i].distanceFromPrevious == (if i - 1 < |legs| then Some(legs[i - 1]) else None)
    ensures forall i :: 1 <= i < |found| ==>
              body[i].distanceFromPrevious == Some(dist(found[i - 1].location, found[i].location))
  {
    LegDistancesAreConsecutive(Locations(found), reply, dist);
  }
}
