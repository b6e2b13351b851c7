/**
 * markAttendance: request checks, the `data:` URL parser, the bounded
 * quality-stepping compression loop, the reverse-geocoding fallback and the
 * record that is finally stored.
 *
 * The JPEG encoder, base64 decoding, the image upload, `JSON.parse` of the
 * location, the geocoding reply and the two clock reads are inputs.
 */
module AttendanceCapture {
  import opened Common
  import opened Users
  import opened Attendance

  type Bytes = seq<bv8>

  // ---------------------------------------------------------------------------------------------
  // The image data URL: /^data:([A-Za-z-+/]+);base64,(.+)$/

  /** The regular expression's character class `[A-Za-z-+/]`. */
  predicate MimeChar(c: char)
  {
    ('A' <= c <= 'Z') || ('a' <= c <= 'z') || c == '-' || c == '+' || c == '/'
  }

  /** The characters `.` does not match. */
  predicate LineTerminator(c: char)
  {
    c == '\n' || c == '\r' || c == '\U{2028}' || c == '\U{2029}'
  }

  /** What it means for `s` to match the pattern with capture groups `mime` and `payload`. */
  ghost predicate IsDataUrl(s: string, mime: string, payload: string)
  {
    && s == "data:" + mime + ";base64," + payload
    && |mime| > 0 && (forall i :: 0 <= i < |mime| ==> MimeChar(mime[i]))
    && |payload| > 0 && (forall i :: 0 <= i < |payload| ==> !LineTerminator(payload[i]))
  }

  /** The first index at or after `i` whose character is outside the class. */
  function MimeEnd(s: string, i: nat): (k: nat)
    requires i <= |s|
    ensures i <= k <= |s|
    ensures forall j :: i <= j < k ==> MimeChar(s[j])
    ensures k < |s| ==> !MimeChar(s[k])
    decreases |s| - i
  {
    if i == |s| || !MimeChar(s[i]) then i else MimeEnd(s, i + 1)
  }

  /** `image.match(...)`: the two capture groups, or None when the string does not match. */
  function ParseDataUrl(s: string): (r: Option<(string, string)>)
    ensures r.Some? ==> IsDataUrl(s, r.value.0, r.value.1)
  {
    if |s| < 5 || s[..5] != "data:" then None
    else
      var k := MimeEnd(s, 5);
      if k == 5 || |s| < k + 8 || s[k..k + 8] != ";base64," then None
      else
        var payload := s[k + 8..];
        if |payload| == 0 || exists i :: 0 <= i < |payload| && LineTerminator(payload[i]) then None
        else
          assert s == s[..5] + s[5..k] + s[k..k + 8] + payload;
          Some((s[5..k], payload))
  }

  /** Every string of the data-URL shape is accepted, with exactly its own mime type and payload. */
  lemma ParseDataUrlComplete(s: string, mime: string, payload: string)
    requires IsDataUrl(s, mime, payload)
    ensures ParseDataUrl(s) == Some((mime, payload))
  {
    var k := 5 + |mime|;
    assert s[..5] == "data:";
    assert s[5..k] == mime;
    assert s[k] == ';' && !MimeChar(s[k]);
    forall j | 5 <= j < k ensures MimeChar(s[j]) { assert s[j] == mime[j - 5]; }
    var e := MimeEnd(s, 5);
    assert e == k;
    assert s[k..k + 8] == ";base64,";
    assert s[k + 8..] == payload;
  }

  // ---------------------------------------------------------------------------------------------
  // compressImageToTargetSize

  /** The qualities the loop tries: it starts at 100, steps down by 10 and stops before 10. */
  const Qualities: seq<int> := seq(9, i => 100 - 10 * i)  // 100, 90, ..., 20

  /** `length / 1024 <= maxSizeInKB` over the reals, i.e. at most maxSizeInKB * 1024 bytes. */
  predicate Fits(b: Bytes, maxKB: int)
  {
    |b| <= maxKB * 1024
  }

  /**
   * The outcome of trying qualities `qs` in order with `encode` (None: the encoder threw):
   * the first encoding that fits, or the original buffer when none does.
   */
  function FirstFit(buffer: Bytes, maxKB: int, encode: (Bytes, int) -> Option<Bytes>, qs: seq<int>): Option<Bytes>
  {
    if qs == [] then Some(buffer)
    else
      match encode(buffer, qs[0])
      case None => None
      case Some(b) => if Fits(b, maxKB) then Some(b) else FirstFit(buffer, maxKB, encode, qs[1..])
  }

  /** Quality q was tried and produced an encoding that is too large. */
  predicate TooLarge(buffer: Bytes, maxKB: int, encode: (Bytes, int) -> Option<Bytes>, q: int)
  {
    encode(buffer, q).Some? && !Fits(encode(buffer, q).value, maxKB)
  }

  /**
   * The scan answers with the first quality that is not too large: its encoding if it fits,
   * a failure if the encoder threw there, and the untouched original if every encoding is too large.
   */
  lemma {:induction false} FirstFitMeaning(buffer: Bytes, maxKB: int, encode: (Bytes, int) -> Option<Bytes>, qs: seq<int>)
    ensures (forall k :: 0 <= k < |qs| ==> TooLarge(buffer, maxKB, encode, qs[k]))
            ==> FirstFit(buffer, maxKB, encode, qs) == Some(buffer)
    ensures forall k :: 0 <= k < |qs| && (forall j :: 0 <= j < k ==> TooLarge(buffer, maxKB, encode, qs[j])) ==>
              && (encode(buffer, qs[k]).None? ==> FirstFit(buffer, maxKB, encode, qs).None?)
              && ((encode(buffer, qs[k]).Some? && Fits(encode(buffer, qs[k]).value, maxKB))
                    ==> FirstFit(buffer, maxKB, encode, qs) == encode(buffer, qs[k]))
  {
    if qs != [] {
      FirstFitMeaning(buffer, maxKB, encode, qs[1..]);
      forall k | 0 <= k < |qs| && (forall j :: 0 <= j < k ==> TooLarge(buffer, maxKB, encode, qs[j]))
        ensures && (encode(buffer, qs[k]).None? ==> FirstFit(buffer, maxKB, encode, qs).None?)
                && ((encode(buffer, qs[k]).Some? && Fits(encode(buffer, qs[k]).value, maxKB))
                      ==> FirstFit(buffer, maxKB, encode, qs) == encode(buffer, qs[k]))
      {
        if k > 0 {
          assert TooLarge(buffer, maxKB, encode, qs[0]);
          assert qs[1..][k - 1] == qs[k];
          forall j | 0 <= j < k - 1 ensures TooLarge(buffer, maxKB, encode, qs[1..][j]) {
            assert qs[1..][j] == qs[j + 1];
          }
        }
      }
      if forall k :: 0 <= k < |qs| ==> TooLarge(buffer, maxKB, encode, qs[k]) {
        assert TooLarge(buffer, maxKB, encode, qs[0]);
        forall k | 0 <= k < |qs[1..]| ensures TooLarge(buffer, maxKB, encode, qs[1..][k]) {
          assert qs[1..][k] == qs[k + 1];
        }
      }
    }
  }

  /**
   * compressImageToTargetSize. `tried` lists the qualities handed to the encoder, in order:
   * a prefix of 100, 90, ..., 20, so never more than nine encodings and never quality 10.
   */
  method CompressToTargetSize(buffer: Bytes, maxKB: int, encode: (Bytes, int) -> Option<Bytes>)
    returns (r: Option<Bytes>, ghost tried: seq<int>)
    ensures r == FirstFit(buffer, maxKB, encode, Qualities)
    ensures tried <= Qualities && |tried| > 0
    ensures r.Some? && |tried| < |Qualities| ==> r == encode(buffer, tried[|tried| - 1])
  {
    var quality := 100;
    r := Some(buffer);
    tried := [];
    while quality > 10
      invariant |tried| <= |Qualities| && quality == 100 - 10 * |tried|
      invariant tried == Qualities[..|tried|]
      invariant FirstFit(buffer, maxKB, encode, Qualities) == FirstFit(buffer, maxKB, encode, Qualities[|tried|..])
      invariant r == Some(buffer)
      decreases quality
    {
      assert Qualities[|tried|] == quality;
      assert Qualities[..|tried| + 1] == tried + [quality];
      tried := tried + [quality];
      var compressed := encode(buffer, quality);
      if compressed.None? {
        return None, tried;
      }
      if Fits(compressed.value, maxKB) {
        r := compressed;
        return;
      }
      assert Qualities[|tried| - 1..][1..] == Qualities[|tried|..];
      quality := quality - 10;
    }
  }

  // ---------------------------------------------------------------------------------------------
  // getLocationName

  /** The geocoding reply: the fetch or JSON decoding failed, or a status with the formatted addresses. */
  datatype GeocodeReply = GeocodeFailed | Geocoded(status: string, addresses: seq<string>)

  const UnknownLocation: string := "Unknown location"

  /** The first address of an OK reply with results; "Unknown location" for every other reply. It never fails. */
  function LocationName(reply: GeocodeReply): (r: string)
    ensures reply.Geocoded? && reply.status == "OK" && |reply.addresses| > 0 ==> r == reply.addresses[0]
    ensures !(reply.Geocoded? && reply.status == "OK" && |reply.addresses| > 0) ==> r == UnknownLocation
  {
    match reply
    case GeocodeFailed => UnknownLocation
    case Geocoded(status, addresses) =>
      if status != "OK" then UnknownLocation
      else if |addresses| > 0 then addresses[0]
      else UnknownLocation
  }

  // ---------------------------------------------------------------------------------------------
  // markAttendance

  /** The request body; a missing string field is "". */
  datatype MarkRequest = MarkRequest(location: string, image: string, purpose: string, feedback: JsValue)

  /** Everything markAttendance learns from outside the request body. */
  datatype CaptureEnv = CaptureEnv(
    decodeBase64: string -> Bytes,
    encode: (Bytes, int) -> Option<Bytes>,   // sharp JPEG encoding of the decoded image at a quality
    upload: Bytes -> Option<string>,         // the stored image's secure URL, or None on an upload error
    parseLocation: string -> Option<Point>,  // JSON.parse of the location field
    geocode: Point -> GeocodeReply,
    stampClock: int,                         // the clock read for `timestamp`
    dateClock: int,                          // the clock read for `date`, after geocoding returned
    user: Option<UserId>,                    // req.user._id
    writeOk: bool)                           // whether the store accepts the new record

  const MaxSizeKB: int := 10

  /** The record as the source builds it: `date` comes from the second clock read. */
  function NewRecordAsWritten(user: UserId, stampClock: int, dateClock: int, location: Point,
                              locationName: string, purpose: string, feedback: JsValue, image: string): (r: Record)
    ensures r.user == user && r.timestamp == stampClock && r.date == DayOf(dateClock)
  {
    Record(user, stampClock, DayOf(dateClock), location, locationName, purpose, feedback, image)
  }

  /**
   * The clock is read again after the awaited geocoding call, so a request whose timestamp falls just
   * before UTC midnight can be stored under the next day.
   */
  lemma AsWrittenDateCanMissTimestampDay()
    ensures exists stampClock: int, dateClock: int ::
              stampClock <= dateClock <= stampClock + 1000 &&
              !DatedByTimestamp(NewRecordAsWritten(0, stampClock, dateClock, Point(0.0, 0.0), "", "", Undefined, ""))
  {
    var stamp, later := DayMs - 100, DayMs + 100;
    assert DayOf(stamp) == 0 && DayOf(later) == 1;
    assert !DatedByTimestamp(NewRecordAsWritten(0, stamp, later, Point(0.0, 0.0), "", "", Undefined, ""));
  }

  /** The record with `date` taken from its own timestamp. */
  function NewRecord(user: UserId, stamp: int, location: Point, locationName: string,
                     purpose: string, feedback: JsValue, image: string): (r: Record)
    ensures DatedByTimestamp(r) && r.timestamp == stamp && r.user == user
  {
    Record(user, stamp, DayOf(stamp), location, locationName, purpose, feedback, image)
  }

  /** When both clock reads fall on the same UTC day, the record as written is the corrected record. */
  lemma AsWrittenAgreesOnSameDay(user: UserId, stampClock: int, dateClock: int, location: Point,
                                 locationName: string, purpose: string, feedback: JsValue, image: string)
    requires DayOf(dateClock) == DayOf(stampClock)
    ensures NewRecordAsWritten(user, stampClock, dateClock, location, locationName, purpose, feedback, image)
            == NewRecord(user, stampClock, location, locationName, purpose, feedback, image)
  {
  }

  /** The compressed image that markAttendance uploads, when the request gets that far. */
  function CompressedImage(req: MarkRequest, env: CaptureEnv): Option<Bytes>
    requires ParseDataUrl(req.image).Some?
  {
    FirstFit(env.decodeBase64(ParseDataUrl(req.image).value.1), MaxSizeKB, env.encode, Qualities)
  }

  /** The request passes the four checks that answer 400. */
  predicate ChecksPass(req: MarkRequest)
  {
    req.image != "" && req.location != "" && req.purpose != "" && ParseDataUrl(req.image).Some?
  }

  /**
   * markAttendance. The checks run in a fixed order and the first failing one decides the
   * 400 message; later failures answer 500; success stores one record (returned in `saved`).
   */
  method MarkAttendance(req: MarkRequest, env: CaptureEnv) returns (status: nat, message: string, saved: Option<Record>)
    ensures req.image == "" ==> status == 400 && message == "Image is required"
    ensures req.image != "" && req.location == "" ==> status == 400 && message == "Location is required"
    ensures (req.image != "" && req.location != "" && req.purpose == "")
              ==> status == 400 && message == "Purpose of visit is required"
    ensures (req.image != "" && req.location != "" && req.purpose != "" && ParseDataUrl(req.image).None?)
              ==> status == 400 && message == "Invalid image format"
    ensures status == 400 <==> (req.image == "" || req.location == "" || req.purpose == "" || ParseDataUrl(req.image).None?)
    ensures status == 201 <==> saved.Some?
    ensures status in {201, 400, 500}
    ensures ChecksPass(req) && CompressedImage(req, env).None? ==>
              status == 500 && message == "Error processing image"
    ensures ChecksPass(req) && CompressedImage(req, env).Some? && env.upload(CompressedImage(req, env).value).None? ==>
              status == 500 && message == "Cloudinary upload failed"
    ensures ChecksPass(req) && CompressedImage(req, env).Some? && env.upload(CompressedImage(req, env).value).Some?
            && (env.parseLocation(req.location).None? || env.user.None? || !env.writeOk) ==>
              status == 500 && message == "Server error"
    ensures ChecksPass(req) && CompressedImage(req, env).Some? && env.upload(CompressedImage(req, env).value).Some?
            && env.parseLocation(req.location).Some? && env.user.Some? && env.writeOk ==>
              status == 201 && saved.Some?
    ensures saved.Some? ==>
              && message == "Attendance saved successfully"
              && CompressedImage(req, env).Some?
              && env.upload(CompressedImage(req, env).value).Some?
              && env.parseLocation(req.location).Some? && env.user.Some? && env.writeOk
              && saved.value == NewRecordAsWritten(env.user.value, env.stampClock, env.dateClock,
                                                   env.parseLocation(req.location).value,
                                                   LocationName(env.geocode(env.parseLocation(req.location).value)),
                                                   req.purpose, req.feedback, env.upload(CompressedImage(req, env).value).value)
  {
    saved := None;
    if req.image == "" {
      return 400, "Image is required", saved;
    }
    if req.location == "" {
      return 400, "Location is required", saved;
    }
    if req.purpose == "" {
      return 400, "Purpose of visit is required", saved;
    }
    var matches := ParseDataUrl(req.image);
    if matches.None? {
      return 400, "Invalid image format", saved;
    }
    var buffer := env.decodeBase64(matches.value.1);
    var resized, _ := CompressToTargetSize(buffer, MaxSizeKB, env.encode);
    if resized.None? {
      return 500, "Error processing image", saved;
    }
    var imageUrl := env.upload(resized.value);
    if imageUrl.None? {
      return 500, "Cloudinary upload failed", saved;
    }
    var parsedLocation := env.parseLocation(req.location);
    if parsedLocation.None? {
      return 500, "Server error", saved;
    }
    var locationName := LocationName(env.geocode(parsedLocation.value));
    if env.user.None? || !env.writeOk {
      return 500, "Server error", saved;
    }
    var record := NewRecordAsWritten(env.user.value, env.stampClock, env.dateClock, parsedLocation.value, locationName,
                                     req.purpose, req.feedback, imageUrl.value);
    saved := Some(record);
    return 201, "Attendance saved successfully", saved;
  }
}
