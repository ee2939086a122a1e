/** The result envelope of src/data.py. A `Serializable` is a Python object whose
    attributes become the JSON object; the model gives each kind of object the
    record of attributes the core sets on it. */
module Data {
  import opened Values
  import opened Enums
  import Util

  /** The `stamp` attribute of a message object: a push made by a send sets it
      only when the stamp exists; a fetched message always has it, possibly null. */
  datatype StampAttr = Omitted | Present(url: Option<string>)

  /** A message object as sent to clients. */
  datatype MessageView = MessageView(
    sendType: int,
    messageId: int,
    compeNo: int,
    memberId: string,
    time: int,
    message: Option<string>,
    stamp: StampAttr)

  /** A stamp object as sent to clients. */
  datatype StampView = StampView(stampId: int, stampUrl: string)

  /** `ServerResult`: `status` and `method` always (the latter is `methodCode`
      here, `method` being a keyword), `messages` or `stamps` when a service sets them. */
  datatype ServerResult = ServerResult(
    methodCode: int,
    status: int,
    messages: Option<seq<MessageView>>,
    stamps: Option<seq<StampView>>)

  /** `ServerResult.fromAll`. */
  function FromAll(methodType: MethodType, status: ResultStatus): ServerResult
  {
    ServerResult(methodType.Value(), status.Value(), None, None)
  }

  /** `ServerResult.fromStatus`: the method is 0, which no request kind uses. */
  function FromStatus(status: ResultStatus): ServerResult
  {
    ServerResult(0, status.Value(), None, None)
  }

  /** A result built by `fromStatus` is told apart from one built by `fromAll` by its
      method, and either one's status names the status it was built from. */
  lemma EnvelopeFields(m: MethodType, s: ResultStatus, t: ResultStatus)
    ensures FromStatus(s).methodCode == 0 && FromStatus(s).status == s.Value()
    ensures FromAll(m, s).methodCode == m.Value() && FromAll(m, s).status == s.Value()
    ensures FromStatus(s) != FromAll(m, t)
    ensures FromStatus(s) == FromStatus(t) ==> s == t
    ensures FromAll(m, s) == FromAll(m, t) ==> s == t
    ensures FromStatus(s).messages.None? && FromStatus(s).stamps.None?
  {
    StatusCodesDistinct(s, t);
  }

  /** `add_record_as_data`: every attribute of the record is copied onto the object,
      replacing an attribute of the same name. */
  function AddRecordAsData(attributes: map<string, Value>, record: map<string, Value>): (r: map<string, Value>)
    ensures r.Keys == attributes.Keys + record.Keys
    ensures forall k :: k in record ==> r[k] == record[k]
    ensures forall k :: k in attributes && k !in record ==> r[k] == attributes[k]
  {
    attributes + record
  }

  /** What `json.dumps` makes of a result: its text, or an exception. JSON encoding
      itself is not modelled. */
  datatype Dumped = Encoded(text: string) | Unencodable

  /** Python's `+` with a str on the left: another str concatenates, an int raises. */
  function ConcatStr(left: string, right: Value): Outcome<string>
  {
    if right.VStr? then Ok(left + right.s) else Raised(TypeError)
  }

  /** `toJson` as written: the fallback adds the int `ResultStatus.ResultError.value`
      to a str, so it raises TypeError instead of returning the literal. */
  function ToJsonAsWritten(dumped: Dumped): Outcome<string>
  {
    match dumped
    case Encoded(text) => Ok(text)
    case Unencodable =>
      match ConcatStr("{ \"status\":", VInt(ResultError.Value()))
      case Ok(head) => ConcatStr(head, VStr(" }"))
      case Raised(f) => Raised(f)
  }

  /** The discrepancy: when encoding fails the fallback itself raises. */
  lemma ToJsonFallbackRaises()
    ensures ToJsonAsWritten(Unencodable) == Raised(TypeError)
    ensures forall text :: ToJsonAsWritten(Encoded(text)) == Ok(text)
  {
  }

  /** `toJson` as evidently intended: the status code is rendered with `str(...)`. */
  function ToJson(dumped: Dumped): string
  {
    match dumped
    case Encoded(text) => text
    case Unencodable => "{ \"status\":" + Util.IntText(ResultError.Value()) + " }"
  }

  /** The corrected fallback never raises and is the fixed ResultError envelope. */
  lemma ToJsonFallbackLiteral()
    ensures ToJson(Unencodable) == "{ \"status\":90002 }"
    ensures forall text :: ToJson(Encoded(text)) == text
  {
    assert Util.DecimalText(9) == "9";
    assert Util.DecimalText(90) == "90";
    assert Util.DecimalText(900) == "900";
    assert Util.DecimalText(9000) == "9000";
    assert Util.DecimalText(90002) == "90002";
  }
}
