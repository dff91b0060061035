/**
 * The scan of an OData batch result after a create, update or delete:
 * every response that failed overwrites the error message with the
 * message of its body, two fixed messages cover a body that cannot be read
 * and a result without responses, and the caller is told whether an error
 * was shown.
 */
module Batch {
  import opened Values

  /** The body of a response as `JSON.parse` leaves it. */
  datatype Body =
    | Unparsable                            // `JSON.parse` throws
    | Parsed(errorMessage: Option<Value>)   // Some(v): `error.message` is present and its `value` is v

  /** `oResponse.response`: the inner HTTP response. */
  datatype InnerResponse = InnerResponse(statusCode: Value, body: Body)

  /** One entry of `__batchResponses`. */
  datatype BatchResponse = BatchResponse(statusCode: Value, response: Option<InnerResponse>)

  /** The `oData` handed to the success callback: without `__batchResponses`, or with them. */
  datatype BatchData = MissingData | Responses(batchResponses: seq<BatchResponse>)

  const UnexpectedFormatMessage: string := "Unexpected error type/format in batch response."
  const MissingDataMessage: string := "Unexpected problem / missing data in batch response."

  /**
   * A response failed when its own status is set and is not the string
   * "200", or, lacking a status of its own, when it carries an inner
   * response whose status is not the string "200".
   */
  predicate Failed(r: BatchResponse)
  {
    || (Truthy(r.statusCode) && r.statusCode != Str("200"))
    || (!Truthy(r.statusCode) && r.response.Some? && r.response.value.statusCode != Str("200"))
  }

  /** The error message after handling one more response. */
  function Step(message: Value, r: BatchResponse): Value
  {
    if !Failed(r) then message
    else if r.response.None? then Str(UnexpectedFormatMessage)  // reading `body` of `undefined` throws
    else match r.response.value.body
      case Unparsable => Str(UnexpectedFormatMessage)
      case Parsed(None) => message
      case Parsed(Some(v)) => v
  }

  /** The error message after the responses, in order, starting from "". */
  function MessageAfter(rs: seq<BatchResponse>): Value
  {
    if rs == [] then Str("") else Step(MessageAfter(rs[..|rs| - 1]), rs[|rs| - 1])
  }

  function ErrorMessage(data: BatchData): Value
  {
    match data
    case MissingData => Str(MissingDataMessage)
    case Responses(rs) => MessageAfter(rs)
  }

  /**
   * `_handleBatchResponseAndReturnErrorFlag`: returns whether an error was
   * found, and the message shown in the error box when one was.
   */
  method HandleBatchResponseAndReturnErrorFlag(data: BatchData) returns (hasError: bool, shown: Option<Value>)
    ensures hasError <==> Truthy(ErrorMessage(data))
    ensures shown == if hasError then Some(ErrorMessage(data)) else None
  {
    var errorMessage := Str("");
    if data.Responses? {
      var responses := data.batchResponses;
      var x := 0;
      while x < |responses|
        invariant 0 <= x <= |responses|
        invariant errorMessage == MessageAfter(responses[..x])
      {
        var response := responses[x];
        if || (Truthy(response.statusCode) && response.statusCode != Str("200"))
           || (!Truthy(response.statusCode) && response.response.Some? && response.response.value.statusCode != Str("200"))
        {
          if response.response.None? {
            errorMessage := Str(UnexpectedFormatMessage);
          } else {
            match response.response.value.body {
              case Unparsable =>
                errorMessage := Str(UnexpectedFormatMessage);
              case Parsed(message) =>
                if message.Some? {
                  errorMessage := message.value;
                }
            }
          }
        }
        assert responses[..x + 1][..x] == responses[..x];
        x := x + 1;
      }
      assert responses[..x] == responses;
    } else {
      errorMessage := Str(MissingDataMessage);
    }
    if Truthy(errorMessage) {
      hasError := true;
      shown := Some(errorMessage);
    } else {
      hasError := false;
      shown := None;
    }
  }

  /** The response sets the message: it failed and its body is unreadable or names a message. */
  predicate Writes(r: BatchResponse)
  {
    Failed(r) && !(r.response.Some? && r.response.value.body == Parsed(None))
  }

  /** The message a writing response leaves. */
  function Written(r: BatchResponse): Value
    requires Writes(r)
  {
    if r.response.None? || r.response.value.body.Unparsable? then Str(UnexpectedFormatMessage)
    else r.response.value.body.errorMessage.value
  }

  /** The last writing response decides the message: later failures without a message leave it alone. */
  lemma {:induction false} LastWriterWins(rs: seq<BatchResponse>, k: nat)
    requires k < |rs| && Writes(rs[k])
    requires forall j :: k < j < |rs| ==> !Writes(rs[j])
    ensures MessageAfter(rs) == Written(rs[k])
  {
    var init := rs[..|rs| - 1];
    if k < |rs| - 1 {
      LastWriterWins(init, k);
    }
  }

  /** Without a writing response the message stays "": no error is reported. */
  lemma {:induction false} NoWriterNoMessage(rs: seq<BatchResponse>)
    requires forall j :: 0 <= j < |rs| ==> !Writes(rs[j])
    ensures MessageAfter(rs) == Str("")
  {
    if rs != [] {
      NoWriterNoMessage(rs[..|rs| - 1]);
    }
  }

  /**
   * A batch whose responses all report the status "200" reports no error,
   * and an empty response list neither; a result without responses always
   * reports the missing-data message.
   */
  lemma SuccessfulBatch(rs: seq<BatchResponse>)
    requires forall j :: 0 <= j < |rs| ==> rs[j].statusCode == Str("200")
    ensures !Truthy(ErrorMessage(Responses(rs)))
    ensures ErrorMessage(MissingData) == Str(MissingDataMessage) && Truthy(ErrorMessage(MissingData))
  {
    NoWriterNoMessage(rs);
  }

  /**
   * A failure whose message value is empty clears the message of an
   * earlier failure, so that the batch is reported as free of errors.
   */
  lemma EmptyMessageClearsEarlierError()
    ensures var failedWith := (m: string) =>
              BatchResponse(Str("400"), Some(InnerResponse(Str("400"), Parsed(Some(Str(m))))));
      && MessageAfter([failedWith("locked")]) == Str("locked")
      && MessageAfter([failedWith("locked"), failedWith("")]) == Str("")
  {
    var failedWith := (m: string) =>
      BatchResponse(Str("400"), Some(InnerResponse(Str("400"), Parsed(Some(Str(m))))));
    assert [failedWith("locked"), failedWith("")][..1] == [failedWith("locked")];
  }
}
