/**
 * The validation pipes of src/common/pipes/validation.pipe.ts: how the
 * validator's errors become the single message of the BadRequest (HTTP) or
 * WsException (socket) the pipe throws. Running the validator is the
 * library's job; the rules it checks for each request body are in the DTO
 * modules.
 */
module ValidationPipe {
  import opened Wrappers
  import opened Responses

  /**
   * A class-validator ValidationError: the property it is about and, when the
   * property itself broke rules, the messages of its `constraints` object in
   * key order (an object with no keys is still present).
   */
  datatype ValidationError = ValidationError(property: string, constraints: Option<seq<string>>)

  // ---------------------------------------------------------------------------
  // Array.prototype.join

  /** `parts.join(sep)`. */
  function Join(parts: seq<string>, sep: string): string
  {
    if |parts| == 0 then ""
    else if |parts| == 1 then parts[0]
    else Join(parts[..|parts| - 1], sep) + sep + parts[|parts| - 1]
  }

  /** Where the `i`-th part starts in the joined string: the parts before it, each followed by the separator. */
  function Offset(parts: seq<string>, sep: string, i: nat): (n: nat)
    requires i <= |parts|
    ensures i > 0 ==> n >= |sep|
  {
    if i == 0 then 0 else Offset(parts, sep, i - 1) + |parts[i - 1]| + |sep|
  }

  /** The offset of a part depends only on the parts before it. */
  lemma {:induction false} OffsetPrefix(parts: seq<string>, sep: string, i: nat, j: nat)
    requires i <= j <= |parts|
    ensures Offset(parts[..j], sep, i) == Offset(parts, sep, i)
  {
    if i > 0 {
      OffsetPrefix(parts, sep, i - 1, j);
      assert parts[..j][i - 1] == parts[i - 1];
    }
  }

  /** The joined string is as long as the parts with a separator between each two. */
  lemma {:induction false} JoinLength(parts: seq<string>, sep: string)
    requires |parts| > 0
    ensures |Join(parts, sep)| + |sep| == Offset(parts, sep, |parts|)
  {
    if |parts| > 1 {
      var init := parts[..|parts| - 1];
      JoinLength(init, sep);
      OffsetPrefix(parts, sep, |parts| - 1, |parts| - 1);
    }
  }

  /** Slicing inside the first operand of a concatenation. */
  lemma SliceLeft(head: string, rest: string, lo: nat, hi: nat)
    requires lo <= hi <= |head|
    ensures (head + rest)[lo..hi] == head[lo..hi]
  {
  }

  /** Slicing the second operand of a concatenation. */
  lemma SliceRight(head: string, rest: string, lo: nat, hi: nat)
    requires |head| <= lo <= hi <= |head| + |rest|
    ensures (head + rest)[lo..hi] == rest[lo - |head|..hi - |head|]
  {
  }

  /** Joining one more part appends the separator and the part. */
  lemma JoinSnoc(parts: seq<string>, sep: string)
    requires |parts| > 1
    ensures Join(parts, sep) == Join(parts[..|parts| - 1], sep) + (sep + parts[|parts| - 1])
    ensures |Join(parts[..|parts| - 1], sep)| + |sep| == Offset(parts, sep, |parts| - 1)
  {
    JoinLength(parts[..|parts| - 1], sep);
    OffsetPrefix(parts, sep, |parts| - 1, |parts| - 1);
  }

  /** The joined string spells out the `i`-th part at its offset. */
  lemma {:induction false} JoinPartAt(parts: seq<string>, sep: string, i: nat)
    requires i < |parts|
    ensures Offset(parts, sep, i) + |parts[i]| <= |Join(parts, sep)|
    ensures Join(parts, sep)[Offset(parts, sep, i)..Offset(parts, sep, i) + |parts[i]|] == parts[i]
  {
    var n := |parts|;
    JoinLength(parts, sep);
    if n > 1 {
      var init := parts[..n - 1];
      JoinSnoc(parts, sep);
      var o := Offset(parts, sep, i);
      if i == n - 1 {
        SliceRight(Join(init, sep), sep + parts[n - 1], o, o + |parts[i]|);
      } else {
        JoinPartAt(init, sep, i);
        OffsetPrefix(parts, sep, i, n - 1);
        SliceLeft(Join(init, sep), sep + parts[n - 1], o, o + |parts[i]|);
      }
    }
  }

  /** Between the `i`-th part and the next, the joined string holds the separator. */
  lemma {:induction false} JoinSepAfter(parts: seq<string>, sep: string, i: nat)
    requires i + 1 < |parts|
    ensures Offset(parts, sep, i + 1) <= |Join(parts, sep)|
    ensures Join(parts, sep)[Offset(parts, sep, i) + |parts[i]|..Offset(parts, sep, i + 1)] == sep
  {
    var n := |parts|;
    var init := parts[..n - 1];
    var joined := Join(parts, sep);
    var head := Join(init, sep);
    var tail := sep + parts[n - 1];
    JoinLength(parts, sep);
    JoinSnoc(parts, sep);
    assert joined == head + tail;
    var o := Offset(parts, sep, i) + |parts[i]|;
    assert Offset(parts, sep, i + 1) == o + |sep|;
    if i + 1 == n - 1 {
      SliceRight(head, tail, o, o + |sep|);
      assert tail[..|sep|] == sep;
    } else {
      JoinSepAfter(init, sep, i);
      OffsetPrefix(parts, sep, i, n - 1);
      OffsetPrefix(parts, sep, i + 1, n - 1);
      assert init[i] == parts[i];
      SliceLeft(head, tail, o, o + |sep|);
    }
  }

  // ---------------------------------------------------------------------------
  // getErrorMessages

  /** The segment one error contributes. */
  function Segment(err: ValidationError): string
  {
    match err.constraints
    case Some(messages) => Join(messages, ", ")
    case None => err.property + " has an error field"
  }

  /** One segment per error, in the order of the errors. */
  function Segments(errors: seq<ValidationError>): (segments: seq<string>)
    ensures |segments| == |errors|
    ensures forall i :: 0 <= i < |errors| ==> segments[i] == Segment(errors[i])
  {
    if errors == [] then [] else Segments(errors[..|errors| - 1]) + [Segment(errors[|errors| - 1])]
  }

  ghost function ErrorMessages(errors: seq<ValidationError>): string
  {
    Join(Segments(errors), ", ")
  }

  /** getErrorMessages: push each error's segment, then join them with ", ". */
  method GetErrorMessages(errors: seq<ValidationError>) returns (message: string)
    ensures message == ErrorMessages(errors)
  {
    var accumulateErrMessage: seq<string> := [];
    for i := 0 to |errors|
      invariant accumulateErrMessage == Segments(errors[..i])
    {
      var err := errors[i];
      match err.constraints {
        case Some(messages) =>
          accumulateErrMessage := accumulateErrMessage + [Join(messages, ", ")];
        case None =>
          accumulateErrMessage := accumulateErrMessage + [err.property + " has an error field"];
      }
      assert errors[..i + 1][..i] == errors[..i];
    }
    assert errors[..|errors|] == errors;
    message := Join(accumulateErrMessage, ", ");
  }

  /** No errors give the empty message; a single error gives its own segment. */
  lemma ErrorMessagesSmall(errors: seq<ValidationError>)
    ensures errors == [] ==> ErrorMessages(errors) == ""
    ensures |errors| == 1 ==> ErrorMessages(errors) == Segment(errors[0])
  {
  }

  /** A present but empty constraint object contributes an empty segment, not the "has an error field" fallback. */
  lemma EmptyConstraintsEmptySegment(property: string)
    ensures Segment(ValidationError(property, Some([]))) == ""
  {
  }

  /** The message spells out each error's segment at that segment's offset. */
  lemma ErrorMessagesSegmentAt(errors: seq<ValidationError>, i: nat)
    requires i < |errors|
    ensures var o := Offset(Segments(errors), ", ", i);
      && o + |Segment(errors[i])| <= |ErrorMessages(errors)|
      && ErrorMessages(errors)[o..o + |Segment(errors[i])|] == Segment(errors[i])
  {
    var segments := Segments(errors);
    var message := Join(segments, ", ");
    assert segments[i] == Segment(errors[i]);
    JoinPartAt(segments, ", ", i);
    assert message == ErrorMessages(errors);
  }

  /** Between one error's segment and the next, the message holds ", ". */
  lemma ErrorMessagesSeparator(errors: seq<ValidationError>, i: nat)
    requires i + 1 < |errors|
    ensures var segments := Segments(errors); var e := Offset(segments, ", ", i) + |Segment(errors[i])|;
      && Offset(segments, ", ", i + 1) == e + 2
      && e + 2 <= |ErrorMessages(errors)|
      && ErrorMessages(errors)[e..e + 2] == ", "
  {
    var segments := Segments(errors);
    var message := Join(segments, ", ");
    assert segments[i] == Segment(errors[i]);
    JoinSepAfter(segments, ", ", i);
    assert message == ErrorMessages(errors);
  }

  // ---------------------------------------------------------------------------
  // The two pipes' exception factories

  /** HttpValidationPipe: a BadRequest whose error response carries the message and no field errors. */
  method HttpExceptionFactory(errors: seq<ValidationError>) returns (e: Exception)
    ensures e == BadRequest(ErrorResponse(ErrorMessages(errors), None))
  {
    var errorMessages := GetErrorMessages(errors);
    e := BadRequest(CreateErrorResponse(errorMessages));
  }

  /** WsValidationPipe: the same response inside a WsException. */
  method WsExceptionFactory(errors: seq<ValidationError>) returns (e: Exception)
    ensures e == WsException(ErrorResponse(ErrorMessages(errors), None))
  {
    var errorMessages := GetErrorMessages(errors);
    e := WsException(CreateErrorResponse(errorMessages));
  }
}
