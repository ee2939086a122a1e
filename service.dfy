/** The request services of src/service.py: for each request kind a validator that
    accumulates errors in a `ValidationInfo`, a `createParam` that reads the
    validated form, and an `execute` that registers the session, queries the
    repository or stores a message and pushes it to the other sessions. */
module Service {
  import opened Values
  import opened Enums
  import opened Util
  import opened Data
  import opened Manager
  import opened Repository

  // ---------------------------------------------------------------- ValidationInfo

  /** `ValidationInfo`: the name of the validating service, the flag and the errors. */
  class ValidationInfo {
    const name: string
    var isValid: bool
    var errorMessages: seq<string>

    constructor (name: string)
      ensures this.name == name && !isValid && errorMessages == []
    {
      this.name := name;
      isValid := false;
      errorMessages := [];
    }

    /** `hasErrorMessages`. */
    predicate HasErrorMessages()
      reads this
    {
      |errorMessages| > 0
    }

    /** `addError`. */
    method AddError(message: string)
      modifies this
      ensures errorMessages == old(errorMessages) + [message]
      ensures isValid == old(isValid)
    {
      errorMessages := errorMessages + [message];
    }

    /** `valid`: the flag is raised only while no error has been recorded. */
    method MarkValid()
      modifies this
      ensures errorMessages == old(errorMessages)
      ensures isValid == (old(isValid) || old(errorMessages) == [])
    {
      if !HasErrorMessages() {
        isValid := true;
      }
    }
  }

  // ---------------------------------------------------------------- what the validators read

  /** A field `getStr` renders as text: an int or a str. */
  predicate Textual(v: Value)
  {
    v.VInt? || v.VStr?
  }

  /** A field `isEmpty(getStr(...))` finds non-empty: an int, or a str with a
      non-space character. */
  predicate HasContent(v: Value)
  {
    v.VInt? || (v.VStr? && !IsBlank(v.s))
  }

  /** A field on which `getInt` raises ValueError: a str that is not an int numeral. */
  predicate Unparsable(v: Value)
  {
    v.VStr? && ParseDecimal(v.s).None?
  }

  /** `getInt` reads the field as the int `n`. */
  predicate ReadsAs(v: Value, n: int)
  {
    (v.VInt? && v.i == n) || (v.VStr? && ParseDecimal(v.s) == Some(n))
  }

  /** The value `isEmpty` receives from `getStr`. */
  function TextValue(text: Option<string>): Value
  {
    match text
    case None => VNone
    case Some(s) => VStr(s)
  }

  /** `getInt` on a dict raises exactly on an unparsable str, and otherwise reads
      the int the field spells, or None. */
  lemma GetIntReads(form: Value, key: string)
    requires form.VDict?
    ensures GetInt(form, key).Raised? <==> Unparsable(Field(form, key))
    ensures GetInt(form, key).Raised? ==> GetInt(form, key).fault == ValueError
    ensures forall n :: GetInt(form, key) == Ok(Some(n)) <==> ReadsAs(Field(form, key), n)
  {
    var v := Field(form, key);
    assert GetInt(form, key) == ToInt(v);
    forall n ensures ToInt(v) == Ok(Some(n)) <==> ReadsAs(v, n) {
    }
  }

  /** `getStr` yields a value exactly for an int or str field. */
  lemma GetStrReads(form: Value, key: string)
    requires form.VDict?
    ensures GetStr(form, key).Ok?
    ensures GetStr(form, key).value.Some? <==> Textual(Field(form, key))
  {
  }

  /** The text of a field has a non-space character exactly when the field has
      content. */
  lemma FilledReads(v: Value)
    ensures Filled(ToStr(v)) <==> HasContent(v)
  {
    if v.VInt? {
      var t := IntText(v.i);
      var d := DecimalText(if v.i < 0 then -v.i else v.i);
      assert t[0] == (if v.i < 0 then '-' else d[0]);
      assert !IsSpace(t[0]);
    }
  }

  /** `not isEmpty(getStr(form, key))` holds exactly for an int field or a str
      field that is not blank. */
  lemma ContentReads(form: Value, key: string)
    requires form.VDict?
    ensures !IsEmpty(TextValue(GetStr(form, key).value)) <==> HasContent(Field(form, key))
  {
    var v := Field(form, key);
    if v.VInt? {
      var t := IntText(v.i);
      var d := DecimalText(if v.i < 0 then -v.i else v.i);
      assert t[0] == (if v.i < 0 then '-' else d[0]);
      assert !IsSpace(t[0]);
    }
  }

  /** The request block a service reads, under its key. */
  function Block(clientForm: Value, key: string): Value
  {
    Field(clientForm, key)
  }

  // ---------------------------------------------------------------- init

  /** `InitService.validate` raises: on a form that is not a dict, on an `init`
      block that is present but not a dict, and on a `recept_level` str that is not
      an int numeral. */
  predicate InitRaises(clientForm: Value)
  {
    var form := Block(clientForm, "init");
    !clientForm.VDict? ||
    (form != VNone && (!form.VDict? || Unparsable(Field(form, "recept_level"))))
  }

  /** `InitService.validate` accepts: an `init` block with a numeric `compe_no`, an
      int or str `member_id` (the empty str included) and a `recept_level` of 1 or 2. */
  predicate InitAccepts(clientForm: Value)
  {
    var form := Block(clientForm, "init");
    && clientForm.VDict?
    && form.VDict?
    && NumeralField(Field(form, "compe_no"))
    && Textual(Field(form, "member_id"))
    && (ReadsAs(Field(form, "recept_level"), 1) || ReadsAs(Field(form, "recept_level"), 2))
  }

  /** `InitService.validate`. */
  method ValidateInit(clientForm: Value) returns (r: Outcome<ValidationInfo>)
    ensures r.Raised? <==> InitRaises(clientForm)
    ensures r.Raised? ==> r.fault != RepositoryException
    ensures r.Ok? ==> fresh(r.value)
    ensures r.Ok? ==> (r.value.isValid <==> InitAccepts(clientForm))
    ensures r.Ok? ==> (r.value.isValid <==> r.value.errorMessages == [])
  {
    var info := new ValidationInfo("InitService");
    var form := GetAny(clientForm, "init");
    if form.Raised? {
      return Raised(form.fault);
    }
    if form.value == VNone {
      info.AddError("init is required.");
      return Ok(info);
    }
    var compeNo := GetStr(form.value, "compe_no");
    if compeNo.Raised? {
      return Raised(compeNo.fault);
    }
    NumeralFieldChecks(form.value, "compe_no");
    if compeNo.value.None? {
      info.AddError("compe_no is required.");
    } else if !IsNumeric(VStr(compeNo.value.value)) {
      info.AddError("compe_no must be numeric.");
    }
    ghost var clean := NumeralField(Field(form.value, "compe_no"));
    assert info.errorMessages == [] <==> clean;
    var memberId := GetStr(form.value, "member_id");
    GetStrReads(form.value, "member_id");
    if memberId.value.None? {
      info.AddError("member_id is required.");
    }
    clean := clean && Textual(Field(form.value, "member_id"));
    assert info.errorMessages == [] <==> clean;
    var level := GetInt(form.value, "recept_level");
    GetIntReads(form.value, "recept_level");
    if level.Raised? {
      return Raised(level.fault);
    }
    var receptLevel := ParseReceptLevel(level.value);
    if level.value.Some? {
      ReceptLevelTable(level.value.value);
    }
    if receptLevel.None? {
      info.AddError("recept_level is required.");
    }
    clean := clean && (ReadsAs(Field(form.value, "recept_level"), 1) || ReadsAs(Field(form.value, "recept_level"), 2));
    assert info.errorMessages == [] <==> clean;
    info.MarkValid();
    return Ok(info);
  }

  /** `InitParam`. */
  datatype InitParam = InitParam(compeNo: int, memberId: string, receptLevel: ReceptLevel)

  /** The number a numeral field spells. */
  function NumeralValue(v: Value): nat
    requires NumeralField(v)
  {
    if v.VInt? then v.i else DigitsValue(v.s)
  }

  /** `InitService.createParam`: the event number and reception level the fields
      spell, and the member id as text. */
  function CreateInitParam(clientForm: Value): (p: InitParam)
    requires InitAccepts(clientForm)
    ensures var form := Block(clientForm, "init");
            && p.compeNo == NumeralValue(Field(form, "compe_no"))
            && Some(p.memberId) == ToStr(Field(form, "member_id"))
            && ReadsAs(Field(form, "recept_level"), p.receptLevel.Value())
  {
    var form := Block(clientForm, "init");
    InitParam(NumeralValue(Field(form, "compe_no")), ToStr(Field(form, "member_id")).value,
              if ReadsAs(Field(form, "recept_level"), 1) then ReceptLevel.Gallery else ReceptLevel.All)
  }

  /** The parameters are what `getInt`, `str` and `ReceptLevel.parse` of `toInt`
      read from the accepted block; both indexed fields are present. */
  lemma InitParamReads(clientForm: Value)
    requires InitAccepts(clientForm)
    ensures var form, p := Block(clientForm, "init"), CreateInitParam(clientForm);
            && GetInt(form, "compe_no") == Ok(Some(p.compeNo))
            && "member_id" in form.entries && ToStr(form.entries["member_id"]) == Some(p.memberId)
            && "recept_level" in form.entries
            && ParseReceptLevel(ToInt(form.entries["recept_level"]).value) == Some(p.receptLevel)
  {
    var form, p := Block(clientForm, "init"), CreateInitParam(clientForm);
    NumeralReads(form, "compe_no");
    GetIntReads(form, "recept_level");
    ReceptLevelTable(p.receptLevel.Value());
  }

  /** `InitService.execute`: the session info takes the event, member and level of
      the request and is registered; the result is a plain Success. */
  method ExecuteInit(manager: SessionManager, session: ConnId, p: InitParam) returns (r: ServerResult)
    requires manager.Valid()
    modifies manager
    ensures manager.Valid()
    ensures manager.State() == old(manager.State()).Added(SessionInfo(session, p.compeNo, p.memberId, p.receptLevel))
    ensures r == FromStatus(Success)
  {
    var sessionInfo := SessionInfo(session, p.compeNo, p.memberId, p.receptLevel);
    manager.AddSession(sessionInfo);
    return FromStatus(Success);
  }

  // ---------------------------------------------------------------- get_new_messages and get_messages

  /** Validating `get_new_messages` or `get_messages` raises on a form that is not a
      dict and on a block that is present but not a dict. */
  predicate BlockRaises(clientForm: Value, key: string)
  {
    var form := Block(clientForm, key);
    !clientForm.VDict? || (form != VNone && !form.VDict?)
  }

  /** `GetNewMessagesService.validate` accepts a block with a numeric `count`. */
  predicate GetNewMessagesAccepts(clientForm: Value)
  {
    var form := Block(clientForm, "get_new_messages");
    clientForm.VDict? && form.VDict? && NumeralField(Field(form, "count"))
  }

  /** `GetMessagesService.validate` accepts a block with a numeric `before_time` and
      a numeric `count`. */
  predicate GetMessagesAccepts(clientForm: Value)
  {
    var form := Block(clientForm, "get_messages");
    && clientForm.VDict? && form.VDict?
    && NumeralField(Field(form, "before_time"))
    && NumeralField(Field(form, "count"))
  }

  /** `GetNewMessagesService.validate`. */
  method ValidateGetNewMessages(clientForm: Value) returns (r: Outcome<ValidationInfo>)
    ensures r.Raised? <==> BlockRaises(clientForm, "get_new_messages")
    ensures r.Raised? ==> r.fault != RepositoryException
    ensures r.Ok? ==> fresh(r.value)
    ensures r.Ok? ==> (r.value.isValid <==> GetNewMessagesAccepts(clientForm))
    ensures r.Ok? ==> (r.value.isValid <==> r.value.errorMessages == [])
  {
    var info := new ValidationInfo("GetNewMessagesService");
    var form := GetAny(clientForm, "get_new_messages");
    if form.Raised? {
      return Raised(form.fault);
    }
    if form.value == VNone {
      info.AddError("get_new_messages is required.");
      return Ok(info);
    }
    var count := GetStr(form.value, "count");
    if count.Raised? {
      return Raised(count.fault);
    }
    NumeralFieldChecks(form.value, "count");
    if count.value.None? {
      info.AddError("count is required.");
    } else if !IsNumeric(VStr(count.value.value)) {
      info.AddError("count must be numeric.");
    }
    info.MarkValid();
    return Ok(info);
  }

  /** `GetMessagesService.validate`. */
  method ValidateGetMessages(clientForm: Value) returns (r: Outcome<ValidationInfo>)
    ensures r.Raised? <==> BlockRaises(clientForm, "get_messages")
    ensures r.Raised? ==> r.fault != RepositoryException
    ensures r.Ok? ==> fresh(r.value)
    ensures r.Ok? ==> (r.value.isValid <==> GetMessagesAccepts(clientForm))
    ensures r.Ok? ==> (r.value.isValid <==> r.value.errorMessages == [])
  {
    var info := new ValidationInfo("GetMessagesService");
    var form := GetAny(clientForm, "get_messages");
    if form.Raised? {
      return Raised(form.fault);
    }
    if form.value == VNone {
      info.AddError("get_messages is required.");
      return Ok(info);
    }
    var beforeTime := GetStr(form.value, "before_time");
    if beforeTime.Raised? {
      return Raised(beforeTime.fault);
    }
    NumeralFieldChecks(form.value, "before_time");
    if beforeTime.value.None? {
      info.AddError("before_time is required.");
    } else if !IsNumeric(VStr(beforeTime.value.value)) {
      info.AddError("before_time must be numeric.");
    }
    var count := GetStr(form.value, "count");
    NumeralFieldChecks(form.value, "count");
    if count.value.None? {
      info.AddError("count is required.");
    } else if !IsNumeric(VStr(count.value.value)) {
      info.AddError("count must be numeric.");
    }
    info.MarkValid();
    return Ok(info);
  }

  /** `GetNewMessagesParam`. */
  datatype GetNewMessagesParam = GetNewMessagesParam(count: int)

  /** `GetMessagesParam`. */
  datatype GetMessagesParam = GetMessagesParam(beforeTime: int, count: int)

  /** `GetNewMessagesService.createParam`: the count the field spells. */
  function CreateGetNewMessagesParam(clientForm: Value): (p: GetNewMessagesParam)
    requires GetNewMessagesAccepts(clientForm)
    ensures p.count == NumeralValue(Field(Block(clientForm, "get_new_messages"), "count"))
  {
    GetNewMessagesParam(NumeralValue(Field(Block(clientForm, "get_new_messages"), "count")))
  }

  /** `GetMessagesService.createParam`: the cursor time and count the fields spell. */
  function CreateGetMessagesParam(clientForm: Value): (p: GetMessagesParam)
    requires GetMessagesAccepts(clientForm)
    ensures var form := Block(clientForm, "get_messages");
            p.beforeTime == NumeralValue(Field(form, "before_time")) && p.count == NumeralValue(Field(form, "count"))
  {
    var form := Block(clientForm, "get_messages");
    GetMessagesParam(NumeralValue(Field(form, "before_time")), NumeralValue(Field(form, "count")))
  }

  /** The count is what `getInt` reads from the accepted block. */
  lemma GetNewMessagesParamReads(clientForm: Value)
    requires GetNewMessagesAccepts(clientForm)
    ensures GetInt(Block(clientForm, "get_new_messages"), "count") == Ok(Some(CreateGetNewMessagesParam(clientForm).count))
  {
    NumeralReads(Block(clientForm, "get_new_messages"), "count");
  }

  /** The cursor time and count are what `getInt` reads from the accepted block. */
  lemma GetMessagesParamReads(clientForm: Value)
    requires GetMessagesAccepts(clientForm)
    ensures var form, p := Block(clientForm, "get_messages"), CreateGetMessagesParam(clientForm);
            GetInt(form, "before_time") == Ok(Some(p.beforeTime)) && GetInt(form, "count") == Ok(Some(p.count))
  {
    NumeralReads(Block(clientForm, "get_messages"), "before_time");
    NumeralReads(Block(clientForm, "get_messages"), "count");
  }

  /** `getInt` of a field the validator found numeric reads the number it spells. */
  lemma NumeralReads(form: Value, key: string)
    requires form.VDict? && NumeralField(Field(form, key))
    ensures GetInt(form, key) == Ok(Some(NumeralValue(Field(form, key))))
  {
    GetIntReads(form, key);
    if Field(form, key).VStr? {
      ParseNumericText(Field(form, key).s);
    }
  }

  /** The query of `get_new_messages`: no time cursor, and the reader's own messages
      left out. */
  function NewMessagesQuery(sessionInfo: SessionInfo, p: GetNewMessagesParam): MessageQuery
  {
    MessageQuery(sessionInfo.receptLevel, 0, p.count, sessionInfo.compeNo, sessionInfo.memberId, true)
  }

  /** The query of `get_messages`: the time cursor of the request, and the reader's
      own messages kept. */
  function MessagesQuery(sessionInfo: SessionInfo, p: GetMessagesParam): MessageQuery
  {
    MessageQuery(sessionInfo.receptLevel, p.beforeTime, p.count, sessionInfo.compeNo, sessionInfo.memberId, false)
  }

  /** `get_new_messages` returns messages of the reader's event that others sent,
      and `get_messages` ones of the event older than a positive cursor. */
  lemma QueriesSelect(rows: seq<MessageRow>, sessionInfo: SessionInfo, newer: GetNewMessagesParam, older: GetMessagesParam)
    ensures forall x :: x in SelectRows(rows, NewMessagesQuery(sessionInfo, newer)) ==>
              x.compeNo == sessionInfo.compeNo && x.memberId != sessionInfo.memberId
    ensures forall x :: x in SelectRows(rows, MessagesQuery(sessionInfo, older)) ==>
              x.compeNo == sessionInfo.compeNo && (older.beforeTime > 0 ==> x.time < older.beforeTime)
  {
    SelectedRowsMatch(rows, NewMessagesQuery(sessionInfo, newer));
    SelectedRowsMatch(rows, MessagesQuery(sessionInfo, older));
  }

  /** A fetched message as sent to the client: its `stamp` is always present, null
      when the message names no live stamp. */
  function FetchedView(d: GetMessagesData): MessageView
  {
    MessageView(d.sendType, d.messageId, d.compeNo, d.memberId, d.time, d.message, Present(d.stamp))
  }

  /** The result of a message fetch: Success listing the selected rows in order. */
  predicate ListsMessages(result: ServerResult, rows: seq<MessageRow>, stamps: seq<StampRow>)
  {
    && result.methodCode == 0 && result.status == Success.Value() && result.stamps.None?
    && result.messages.Some? && |result.messages.value| == |rows|
    && forall i :: 0 <= i < |rows| ==> result.messages.value[i] == FetchedView(ToData(rows[i], stamps))
  }

  /** The one reply that lists `rows`. */
  function MessagesReply(rows: seq<MessageRow>, stamps: seq<StampRow>): ServerResult
  {
    FromStatus(Success).(messages := Some(FetchedViews(rows, stamps)))
  }

  /** The message objects of `rows`, in order. */
  function FetchedViews(rows: seq<MessageRow>, stamps: seq<StampRow>): seq<MessageView>
  {
    if rows == [] then [] else [FetchedView(ToData(rows[0], stamps))] + FetchedViews(rows[1..], stamps)
  }

  lemma {:induction false} FetchedViewsAt(rows: seq<MessageRow>, stamps: seq<StampRow>)
    ensures |FetchedViews(rows, stamps)| == |rows|
    ensures forall i :: 0 <= i < |rows| ==> FetchedViews(rows, stamps)[i] == FetchedView(ToData(rows[i], stamps))
  {
    if rows != [] {
      FetchedViewsAt(rows[1..], stamps);
    }
  }

  /** A fetch result lists the rows exactly when it is `MessagesReply` of them: the
      listing leaves nothing of the reply open. */
  lemma ListsMessagesExactly(result: ServerResult, rows: seq<MessageRow>, stamps: seq<StampRow>)
    ensures ListsMessages(result, rows, stamps) <==> result == MessagesReply(rows, stamps)
  {
    var reply := MessagesReply(rows, stamps);
    FetchedViewsAt(rows, stamps);
    if ListsMessages(result, rows, stamps) {
      assert result.messages.value == reply.messages.value;
    }
  }

  /** The loop that copies repository rows into message objects. */
  method ViewsOf(datas: seq<GetMessagesData>) returns (messages: seq<MessageView>)
    ensures |messages| == |datas|
    ensures forall i :: 0 <= i < |datas| ==> messages[i] == FetchedView(datas[i])
  {
    messages := [];
    for i := 0 to |datas|
      invariant |messages| == i
      invariant forall k :: 0 <= k < i ==> messages[k] == FetchedView(datas[k])
    {
      var data := datas[i];
      messages := messages + [MessageView(data.sendType, data.messageId, data.compeNo, data.memberId,
                                          data.time, data.message, Present(data.stamp))];
    }
  }

  /** `GetNewMessagesService.execute`. */
  method ExecuteGetNewMessages(db: Database, sessionInfo: SessionInfo, p: GetNewMessagesParam)
    returns (r: Outcome<ServerResult>)
    ensures r.Raised? <==> !db.Working()
    ensures r.Raised? ==> r.fault == RepositoryException
    ensures r.Ok? ==> ListsMessages(r.value, SelectRows(db.messages, NewMessagesQuery(sessionInfo, p)), db.stamps)
  {
    var datas := FindMessages(db, NewMessagesQuery(sessionInfo, p));
    if datas.Raised? {
      return Raised(datas.fault);
    }
    var messages := ViewsOf(datas.value);
    return Ok(FromStatus(Success).(messages := Some(messages)));
  }

  /** `GetMessagesService.execute`. */
  method ExecuteGetMessages(db: Database, sessionInfo: SessionInfo, p: GetMessagesParam)
    returns (r: Outcome<ServerResult>)
    ensures r.Raised? <==> !db.Working()
    ensures r.Raised? ==> r.fault == RepositoryException
    ensures r.Ok? ==> ListsMessages(r.value, SelectRows(db.messages, MessagesQuery(sessionInfo, p)), db.stamps)
  {
    var datas := FindMessages(db, MessagesQuery(sessionInfo, p));
    if datas.Raised? {
      return Raised(datas.fault);
    }
    var messages := ViewsOf(datas.value);
    return Ok(FromStatus(Success).(messages := Some(messages)));
  }

  // ---------------------------------------------------------------- get_stamps

  /** `GetStampsService.validate`: always valid. */
  method ValidateGetStamps(clientForm: Value) returns (info: ValidationInfo)
    ensures fresh(info) && info.isValid && info.errorMessages == []
  {
    info := new ValidationInfo("GetStampsService");
    info.MarkValid();
  }

  /** The loop that copies catalog rows into stamp objects. */
  method StampViewsOf(datas: seq<StampData>) returns (stamps: seq<StampView>)
    ensures |stamps| == |datas|
    ensures forall i :: 0 <= i < |datas| ==> stamps[i] == StampView(datas[i].stampId, datas[i].stampUrl)
  {
    stamps := [];
    for i := 0 to |datas|
      invariant |stamps| == i
      invariant forall k :: 0 <= k < i ==> stamps[k] == StampView(datas[k].stampId, datas[k].stampUrl)
    {
      stamps := stamps + [StampView(datas[i].stampId, datas[i].stampUrl)];
    }
  }

  /** The result of a stamp fetch: Success listing the live stamps by id. */
  predicate ListsStamps(result: ServerResult, stamps: seq<StampRow>)
  {
    var rows := SortBy(LiveStamps(stamps), StampKey, Ascending);
    && result.methodCode == 0 && result.status == Success.Value() && result.messages.None?
    && result.stamps.Some? && |result.stamps.value| == |rows|
    && forall i :: 0 <= i < |rows| ==> result.stamps.value[i] == StampView(rows[i].stampId, rows[i].stampUrl)
  }

  /** The one reply that lists the live stamps by id. */
  function StampsReply(stamps: seq<StampRow>): ServerResult
  {
    FromStatus(Success).(stamps := Some(StampViews(SortBy(LiveStamps(stamps), StampKey, Ascending))))
  }

  /** The stamp objects of `rows`, in order. */
  function StampViews(rows: seq<StampRow>): seq<StampView>
  {
    if rows == [] then [] else [StampView(rows[0].stampId, rows[0].stampUrl)] + StampViews(rows[1..])
  }

  lemma {:induction false} StampViewsAt(rows: seq<StampRow>)
    ensures |StampViews(rows)| == |rows|
    ensures forall i :: 0 <= i < |rows| ==> StampViews(rows)[i] == StampView(rows[i].stampId, rows[i].stampUrl)
  {
    if rows != [] {
      StampViewsAt(rows[1..]);
    }
  }

  /** A stamp fetch result lists the live stamps exactly when it is `StampsReply`. */
  lemma ListsStampsExactly(result: ServerResult, stamps: seq<StampRow>)
    ensures ListsStamps(result, stamps) <==> result == StampsReply(stamps)
  {
    var reply := StampsReply(stamps);
    StampViewsAt(SortBy(LiveStamps(stamps), StampKey, Ascending));
    if ListsStamps(result, stamps) {
      assert result.stamps.value == reply.stamps.value;
    }
  }

  /** `GetStampsService.execute`: Success listing the live stamps by id. */
  method ExecuteGetStamps(db: Database) returns (r: Outcome<ServerResult>)
    ensures r.Raised? <==> !db.Working()
    ensures r.Raised? ==> r.fault == RepositoryException
    ensures r.Ok? ==> ListsStamps(r.value, db.stamps)
  {
    var datas := FindStamps(db);
    if datas.Raised? {
      return Raised(datas.fault);
    }
    var stamps := StampViewsOf(datas.value);
    return Ok(FromStatus(Success).(stamps := Some(stamps)));
  }

  // ---------------------------------------------------------------- send_message

  /** `SendMessageService.validate` raises: on a form that is not a dict, on a block
      that is present but not a dict, and on a `send_type` str that is not an int
      numeral. */
  predicate SendRaises(clientForm: Value)
  {
    var form := Block(clientForm, "send_message");
    !clientForm.VDict? ||
    (form != VNone && (!form.VDict? || Unparsable(Field(form, "send_type"))))
  }

  /** The destination part of `SendMessageService.validate`: a `send_type` of 1 or 2
      without a `dest_member_id`, or of 3 with one. */
  predicate SendTargetOk(form: Value)
  {
    var sendType := Field(form, "send_type");
    || ((ReadsAs(sendType, 1) || ReadsAs(sendType, 2)) && !Textual(Field(form, "dest_member_id")))
    || (ReadsAs(sendType, 3) && Textual(Field(form, "dest_member_id")))
  }

  /** `SendMessageService.validate` accepts: a `message` or a `stamp_id` with
      content, and a send type that agrees with the destination. */
  predicate SendAccepts(clientForm: Value)
  {
    var form := Block(clientForm, "send_message");
    && clientForm.VDict? && form.VDict?
    && (HasContent(Field(form, "message")) || HasContent(Field(form, "stamp_id")))
    && SendTargetOk(form)
  }

  /** `SendMessageService.validate`: a missing content is recorded and checking goes
      on; the send type and destination checks stop at their first error. */
  method ValidateSend(clientForm: Value) returns (r: Outcome<ValidationInfo>)
    ensures r.Raised? <==> SendRaises(clientForm)
    ensures r.Raised? ==> r.fault != RepositoryException
    ensures r.Ok? ==> fresh(r.value)
    ensures r.Ok? ==> (r.value.isValid <==> SendAccepts(clientForm))
    ensures r.Ok? ==> (r.value.isValid <==> r.value.errorMessages == [])
  {
    var info := new ValidationInfo("SendMessageService");
    var form := GetAny(clientForm, "send_message");
    if form.Raised? {
      return Raised(form.fault);
    }
    if form.value == VNone {
      info.AddError("send_message is required.");
      return Ok(info);
    }
    var message := GetStr(form.value, "message");
    if message.Raised? {
      return Raised(message.fault);
    }
    ContentReads(form.value, "message");
    ContentReads(form.value, "stamp_id");
    if IsEmpty(TextValue(message.value)) && IsEmpty(TextValue(GetStr(form.value, "stamp_id").value)) {
      info.AddError("send_message needs a message or a stamp_id.");
    }
    GetIntReads(form.value, "send_type");
    if GetInt(form.value, "send_type").Raised? {
      return Raised(GetInt(form.value, "send_type").fault);
    }
    CheckSendTarget(info, form.value);
    return Ok(info);
  }

  /** The `send_type` and `dest_member_id` checks of `SendMessageService.validate`,
      run on a block whose `send_type` reads as an int or is absent; the first error
      found is recorded, and the info is marked valid when no error was recorded. */
  method CheckSendTarget(info: ValidationInfo, form: Value)
    requires form.VDict? && !Unparsable(Field(form, "send_type"))
    requires !info.isValid
    modifies info
    ensures info.isValid <==> old(info.errorMessages) == [] && SendTargetOk(form)
    ensures info.isValid <==> info.errorMessages == []
  {
    GetIntReads(form, "send_type");
    var code := GetInt(form, "send_type").value;
    var sendType := ParseSendType(code);
    if code.Some? {
      SendTypeTable(code.value);
    }
    if sendType.None? {
      info.AddError("send_message.send_type is not valid.");
      return;
    }
    var destMemberId := GetStr(form, "dest_member_id");
    GetStrReads(form, "dest_member_id");
    match sendType.value {
      case All =>
        if destMemberId.value.Some? {
          info.AddError("dest_member_id must be null when sending to everyone.");
          return;
        }
      case Compe =>
        if destMemberId.value.Some? {
          info.AddError("dest_member_id must be null when sending to the event.");
          return;
        }
      case User =>
        if destMemberId.value.None? {
          info.AddError("dest_member_id is required when sending to a member.");
          return;
        }
    }
    info.MarkValid();
  }

  /** `SendMessageParam`. */
  datatype SendParam = SendParam(
    sendType: SendType,
    destMemberId: Option<string>,
    message: Option<string>,
    stampId: Option<string>)

  /** Text with a non-space character. */
  predicate Filled(text: Option<string>)
  {
    text.Some? && !IsBlank(text.value)
  }

  /** `SendMessageService.createParam`: the send type the field spells, a destination
      exactly for a direct message, and a message or stamp id with content. */
  function CreateSendParam(clientForm: Value): (p: SendParam)
    requires SendAccepts(clientForm)
    ensures ReadsAs(Field(Block(clientForm, "send_message"), "send_type"), p.sendType.Value())
    ensures p.destMemberId.Some? <==> p.sendType == User
    ensures var form := Block(clientForm, "send_message");
            && p.destMemberId == ToStr(Field(form, "dest_member_id"))
            && p.message == ToStr(Field(form, "message"))
            && p.stampId == ToStr(Field(form, "stamp_id"))
    ensures Filled(p.message) || Filled(p.stampId)
  {
    var form := Block(clientForm, "send_message");
    var sendType := Field(form, "send_type");
    FilledReads(Field(form, "message"));
    FilledReads(Field(form, "stamp_id"));
    SendParam(if ReadsAs(sendType, 1) then SendType.All else if ReadsAs(sendType, 2) then Compe else User,
              ToStr(Field(form, "dest_member_id")), ToStr(Field(form, "message")), ToStr(Field(form, "stamp_id")))
  }

  /** The parameters are what `getInt`, `getStr` and `SendType.parse` read from the
      accepted block. */
  lemma SendParamReads(clientForm: Value)
    requires SendAccepts(clientForm)
    ensures var form, p := Block(clientForm, "send_message"), CreateSendParam(clientForm);
            && GetInt(form, "send_type") == Ok(Some(p.sendType.Value()))
            && ParseSendType(Some(p.sendType.Value())) == Some(p.sendType)
            && GetStr(form, "dest_member_id") == Ok(p.destMemberId)
            && GetStr(form, "message") == Ok(p.message)
            && GetStr(form, "stamp_id") == Ok(p.stampId)
  {
    var form, p := Block(clientForm, "send_message"), CreateSendParam(clientForm);
    GetIntReads(form, "send_type");
    SendTypeTable(p.sendType.Value());
  }

  /** The row `save` inserts, with the id the database gives it. */
  function SavedRow(sender: SessionInfo, p: SendParam, now: int, id: int): MessageRow
  {
    MessageRow(id, p.sendType.Value(), sender.compeNo, p.destMemberId, sender.memberId, now,
               p.message, p.stampId, false)
  }

  /** The pushed message: its `stamp` attribute is set only when the stamp exists. */
  function PushedView(row: MessageRow, stamps: seq<StampRow>): MessageView
  {
    var stamp := match FindStampRow(stamps, row.stampId)
                 case Some(s) => Present(Some(s.stampUrl))
                 case None => Omitted;
    MessageView(row.sendType, row.messageId, row.compeNo, row.memberId, row.time, row.message, stamp)
  }

  /** The result pushed to the other sessions. */
  function Push(row: MessageRow, stamps: seq<StampRow>): ServerResult
  {
    FromStatus(Success).(messages := Some([PushedView(row, stamps)]), methodCode := GetMessagesFromSend.Value())
  }

  /** Every push is a Success of method 99 carrying the one saved message, which
      names its stamp's URL when a live stamp has the id and omits it otherwise. */
  lemma PushCarries(row: MessageRow, stamps: seq<StampRow>)
    ensures Push(row, stamps).methodCode == 99 && Push(row, stamps).status == 0
    ensures Push(row, stamps).messages.Some? && |Push(row, stamps).messages.value| == 1
    ensures var v := Push(row, stamps).messages.value[0];
            && v.messageId == row.messageId && v.memberId == row.memberId && v.message == row.message
            && (v.stamp == Omitted <==> forall s :: s in stamps ==> s.isDelete || !Denotes(row.stampId, s.stampId))
            && (v.stamp.Present? ==> exists s :: s in stamps && !s.isDelete && Denotes(row.stampId, s.stampId)
                                                && v.stamp.url == Some(s.stampUrl))
  {
  }

  /** An entry of `sendList`: a lookup already made (`getSessionInfo`), or an id the
      lazy map of `getSessionInfos` looks up when the loop reaches it. */
  datatype Candidate = Resolved(info: Option<SessionInfo>) | Deferred(id: ConnId)

  function DeferAll(ids: seq<ConnId>): (r: seq<Candidate>)
    ensures |r| == |ids|
  {
    if ids == [] then [] else [Deferred(ids[0])] + DeferAll(ids[1..])
  }

  /** `sendList`: for a direct message the sender's and the destination's first
      sessions in the event, both looked up before the loop; otherwise the event's
      ids, looked up one at a time by the loop. A destination of None matches no
      member, and its lookup resolves the ids the sender's lookup already did. */
  function Targets(reg: Registry, sender: SessionInfo, p: SendParam): Outcome<seq<Candidate>>
  {
    if p.sendType == User then
      match reg.GetSessionInfo(sender.compeNo, sender.memberId)
      case Raised(f) => Raised(f)
      case Ok(own) =>
        match p.destMemberId
        case None => Ok([Resolved(own), Resolved(None)])
        case Some(dest) =>
          match reg.GetSessionInfo(sender.compeNo, dest)
          case Raised(f) => Raised(f)
          case Ok(other) => Ok([Resolved(own), Resolved(other)])
    else if sender.compeNo !in reg.compeIdsMap then Ok([])
    else Ok(DeferAll(reg.compeIdsMap[sender.compeNo]))
  }

  /** The lookups that build `sendList` raise nothing but KeyError. */
  lemma TargetsRaiseKeyError(reg: Registry, sender: SessionInfo, p: SendParam)
    ensures Targets(reg, sender, p).Raised? ==> Targets(reg, sender, p).fault == KeyError
  {
    if p.sendType == User {
      var own := reg.GetSessionInfo(sender.compeNo, sender.memberId);
      if own.Ok? && p.destMemberId.Some? {
        var other := reg.GetSessionInfo(sender.compeNo, p.destMemberId.value);
      }
    }
  }

  /** Who the loop writes to, and whether it stopped on an unregistered id. */
  datatype FanOut = FanOut(recipients: seq<ConnId>, stale: bool)

  /** The fan-out loop: None entries are skipped, an event-wide send skips sessions
      that do not receive everything, and a lookup that raises ends the loop after
      the writes already made. */
  function Deliveries(reg: Registry, candidates: seq<Candidate>, onlyAll: bool): FanOut
  {
    if candidates == [] then FanOut([], false)
    else
      var rest := Deliveries(reg, candidates[1..], onlyAll);
      match candidates[0]
      case Resolved(None) => rest
      case Resolved(Some(info)) => FanOut([info.session] + rest.recipients, rest.stale)
      case Deferred(id) =>
        if id !in reg.idSessionMap then FanOut([], true)
        else if onlyAll && reg.idSessionMap[id].receptLevel != ReceptLevel.All then rest
        else FanOut([reg.idSessionMap[id].session] + rest.recipients, rest.stale)
  }

  /** Over ids all registered under their own id, the loop never stops early; it
      writes to every id in list order, or, event-wide, to exactly those whose
      session receives everything. */
  lemma {:induction false} DeliveriesOfRegistered(reg: Registry, ids: seq<ConnId>, onlyAll: bool)
    requires forall id :: id in ids ==> id in reg.idSessionMap && reg.idSessionMap[id].session == id
    ensures !Deliveries(reg, DeferAll(ids), onlyAll).stale
    ensures !onlyAll ==> Deliveries(reg, DeferAll(ids), onlyAll).recipients == ids
    ensures forall id :: id in Deliveries(reg, DeferAll(ids), onlyAll).recipients <==>
              id in ids && (onlyAll ==> reg.idSessionMap[id].receptLevel == ReceptLevel.All)
  {
    if ids != [] {
      DeliveriesOfRegistered(reg, ids[1..], onlyAll);
      assert DeferAll(ids)[1..] == DeferAll(ids[1..]);
      assert forall id :: id in ids <==> id == ids[0] || id in ids[1..];
    }
  }

  /** To everyone: with consistent dictionaries the message reaches every session of
      the event, the sender's included, in list order. */
  lemma BroadcastReachesEvent(reg: Registry, sender: SessionInfo, p: SendParam)
    requires reg.Consistent()
    requires p.sendType == SendType.All
    ensures Targets(reg, sender, p).Ok?
    ensures var f := Deliveries(reg, Targets(reg, sender, p).value, false);
            !f.stale && f.recipients == reg.EventIds(sender.compeNo)
  {
    var ids := reg.EventIds(sender.compeNo);
    ListedRegistered(reg, sender.compeNo);
    assert Targets(reg, sender, p) == Ok(DeferAll(ids));
    DeliveriesOfRegistered(reg, ids, false);
  }

  /** To the event's participants: with consistent dictionaries the message reaches
      exactly the event's sessions whose reception level is All. */
  lemma CompeReachesParticipants(reg: Registry, sender: SessionInfo, p: SendParam)
    requires reg.Consistent()
    requires p.sendType == Compe
    ensures Targets(reg, sender, p).Ok?
    ensures var f := Deliveries(reg, Targets(reg, sender, p).value, true);
            && !f.stale
            && forall id :: id in f.recipients <==>
                 id in reg.EventIds(sender.compeNo) && reg.idSessionMap[id].receptLevel == ReceptLevel.All
  {
    var ids := reg.EventIds(sender.compeNo);
    ListedRegistered(reg, sender.compeNo);
    assert Targets(reg, sender, p) == Ok(DeferAll(ids));
    DeliveriesOfRegistered(reg, ids, true);
  }

  /** The session a lookup found, if any. */
  function SessionOf(info: Option<SessionInfo>): seq<ConnId>
  {
    match info
    case None => []
    case Some(i) => [i.session]
  }

  /** To one member: the message reaches the sender's first session in the event and
      the destination's first session there. */
  lemma DirectReachesPair(reg: Registry, sender: SessionInfo, p: SendParam)
    requires reg.Consistent()
    requires p.sendType == User && p.destMemberId.Some?
    ensures Targets(reg, sender, p).Ok?
    ensures var f := Deliveries(reg, Targets(reg, sender, p).value, false);
            && !f.stale
            && f.recipients == SessionOf(reg.GetSessionInfo(sender.compeNo, sender.memberId).value)
                               + SessionOf(reg.GetSessionInfo(sender.compeNo, p.destMemberId.value).value)
  {
    ConsistentFinds(reg, sender.compeNo, sender.memberId);
    ConsistentFinds(reg, sender.compeNo, p.destMemberId.value);
    var own := reg.GetSessionInfo(sender.compeNo, sender.memberId).value;
    var other := reg.GetSessionInfo(sender.compeNo, p.destMemberId.value).value;
    assert Targets(reg, sender, p) == Ok([Resolved(own), Resolved(other)]);
    DeliveriesOfPair(reg, own, other);
  }

  lemma ConsistentFinds(reg: Registry, compeNo: int, memberId: string)
    requires reg.Consistent()
    ensures reg.GetSessionInfo(compeNo, memberId).Ok?
  {
    ConsistentLookups(reg, compeNo, memberId);
  }

  /** Two looked-up sessions are written to in order, each when it was found. */
  lemma DeliveriesOfPair(reg: Registry, own: Option<SessionInfo>, other: Option<SessionInfo>)
    ensures Deliveries(reg, [Resolved(own), Resolved(other)], false) == FanOut(SessionOf(own) + SessionOf(other), false)
  {
    var cands := [Resolved(own), Resolved(other)];
    assert cands[1..] == [Resolved(other)] && cands[1..][1..] == [];
    assert Deliveries(reg, cands[1..], false) == FanOut(SessionOf(other), false);
  }

  /** The whole fan-out of a send: a lookup that raises while `sendList` is built
      writes nothing and counts as stale, like a stale id met by the loop. */
  function SendFanOut(reg: Registry, sender: SessionInfo, p: SendParam): FanOut
  {
    match Targets(reg, sender, p)
    case Raised(_) => FanOut([], true)
    case Ok(candidates) => Deliveries(reg, candidates, p.sendType == Compe)
  }

  /** With consistent dictionaries a send never meets a stale id, whatever its send
      type, so it ends in Success. */
  lemma SendNeverStale(reg: Registry, sender: SessionInfo, p: SendParam)
    requires reg.Consistent()
    ensures !SendFanOut(reg, sender, p).stale
  {
    match p.sendType {
      case All => BroadcastReachesEvent(reg, sender, p);
      case Compe => CompeReachesParticipants(reg, sender, p);
      case User =>
        if p.destMemberId.Some? {
          DirectReachesPair(reg, sender, p);
        } else {
          ConsistentFinds(reg, sender.compeNo, sender.memberId);
          var own := reg.GetSessionInfo(sender.compeNo, sender.memberId).value;
          assert Targets(reg, sender, p) == Ok([Resolved(own), Resolved(None)]);
          DeliveriesOfPair(reg, own, None);
        }
    }
  }

  /** A registered sender who addresses a message to themself receives it twice. */
  lemma SelfAddressedTwice(reg: Registry, sender: SessionInfo, p: SendParam)
    requires reg.Consistent()
    requires reg.GetSessionInfoFromId(sender.session) == Some(sender)
    requires p.sendType == User && p.destMemberId == Some(sender.memberId)
    ensures Targets(reg, sender, p).Ok?
    ensures var f := Deliveries(reg, Targets(reg, sender, p).value, false);
            !f.stale && |f.recipients| == 2 && f.recipients[0] == f.recipients[1]
  {
    DirectReachesPair(reg, sender, p);
    ConsistentLookups(reg, sender.compeNo, sender.memberId);
    var ids := reg.EventIds(sender.compeNo);
    assert sender.session in ids;
    var k :| 0 <= k < |ids| && ids[k] == sender.session;
    var infos := reg.GetSessionInfos(sender.compeNo).value;
    assert infos[k] == sender;
    var own := reg.GetSessionInfo(sender.compeNo, sender.memberId).value;
    assert own.Some?;
    assert SessionOf(own) == [own.value.session];
  }

  /** The loop has no per-target error handling: an unregistered id met after a
      registered one ends the loop with the earlier write already made. */
  lemma EarlierWritesStand(info: SessionInfo, stale: ConnId)
    requires stale != info.session
    ensures var reg := Registry(map[info.session := info], map[info.compeNo := [info.session, stale]]);
            Deliveries(reg, DeferAll([info.session, stale]), false) == FanOut([info.session], true)
  {
    var reg := Registry(map[info.session := info], map[info.compeNo := [info.session, stale]]);
    var cands := DeferAll([info.session, stale]);
    assert [info.session, stale][1..] == [stale] && [stale][1..] == [];
    assert DeferAll([stale]) == [Deferred(stale)];
    assert cands == [Deferred(info.session), Deferred(stale)];
    assert cands[1..] == [Deferred(stale)];
    assert cands[1..][1..] == [];
    assert Deliveries(reg, cands[1..], false) == FanOut([], true);
  }

  /** A written frame: the connection and the result it receives. */
  datatype Frame = Frame(to: ConnId, result: ServerResult)

  function FramesTo(ids: seq<ConnId>, result: ServerResult): seq<Frame>
  {
    if ids == [] then [] else [Frame(ids[0], result)] + FramesTo(ids[1..], result)
  }

  lemma {:induction false} FramesToSnoc(ids: seq<ConnId>, id: ConnId, result: ServerResult)
    ensures FramesTo(ids + [id], result) == FramesTo(ids, result) + [Frame(id, result)]
  {
    if ids != [] {
      assert (ids + [id])[1..] == ids[1..] + [id];
      FramesToSnoc(ids[1..], id, result);
    }
  }

  /** A recipient written to moves from the ones still ahead to the ones done. */
  lemma WrittenBefore(done: seq<ConnId>, id: ConnId, ahead: seq<ConnId>)
    ensures (done + [id]) + ahead == done + ([id] + ahead)
  {
  }

  /** The connections' outgoing side: every `write_message`, in order. */
  class Wire {
    var sent: seq<Frame>

    constructor ()
      ensures sent == []
    {
      sent := [];
    }

    /** `write_message`. */
    method Write(to: ConnId, result: ServerResult)
      modifies this
      ensures sent == old(sent) + [Frame(to, result)]
    {
      sent := sent + [Frame(to, result)];
    }
  }

  /** The loop over `sendList`: each entry is looked up as the loop reaches it, and
      the push is written to each session found. */
  method WriteAll(manager: SessionManager, wire: Wire, sendList: seq<Candidate>, onlyAll: bool, push: ServerResult)
    returns (stale: bool)
    modifies wire
    ensures var f := Deliveries(manager.State(), sendList, onlyAll);
            wire.sent == old(wire.sent) + FramesTo(f.recipients, push) && stale == f.stale
  {
    ghost var reg := manager.State();
    ghost var whole := Deliveries(reg, sendList, onlyAll);
    ghost var done: seq<ConnId> := [];
    var todo := sendList;
    while todo != []
      invariant wire.sent == old(wire.sent) + FramesTo(done, push)
      invariant whole == FanOut(done + Deliveries(reg, todo, onlyAll).recipients, Deliveries(reg, todo, onlyAll).stale)
      decreases |todo|
    {
      ghost var rest := Deliveries(reg, todo[1..], onlyAll);
      var info: Option<SessionInfo>;
      match todo[0] {
        case Resolved(found) =>
          info := found;
        case Deferred(id) =>
          if id !in manager.idSessionMap {
            assert Deliveries(reg, todo, onlyAll) == FanOut([], true);
            assert done + [] == done;
            return true;
          }
          info := Some(manager.idSessionMap[id]);
          if onlyAll && info.value.receptLevel != ReceptLevel.All {
            info := None;
          }
      }
      assert Deliveries(reg, todo, onlyAll) ==
             if info.Some? then FanOut([info.value.session] + rest.recipients, rest.stale) else rest;
      if info.Some? {
        wire.Write(info.value.session, push);
        FramesToSnoc(done, info.value.session, push);
        WrittenBefore(done, info.value.session, rest.recipients);
        done := done + [info.value.session];
      }
      todo := todo[1..];
    }
    assert done + [] == done;
    return false;
  }

  /** `SendMessageService.execute`: the message is saved, its stamp looked up, and
      the push written to each target, after which the result is a plain Success. */
  method ExecuteSend(manager: SessionManager, db: Database, wire: Wire, sender: SessionInfo, p: SendParam, now: int)
    returns (r: Outcome<ServerResult>)
    modifies db, wire
    ensures db.stamps == old(db.stamps) && db.reachable == old(db.reachable) && db.accepting == old(db.accepting)
    ensures !old(db.Working()) ==>
              r == Raised(RepositoryException) && wire.sent == old(wire.sent) && db.messages == old(db.messages)
    ensures old(db.Working()) ==>
              var row := SavedRow(sender, p, now, old(db.nextId));
              && db.messages == old(db.messages) + [row]
              && match Targets(manager.State(), sender, p)
                 case Raised(f) => r == Raised(f) && wire.sent == old(wire.sent)
                 case Ok(candidates) =>
                   var f := Deliveries(manager.State(), candidates, p.sendType == Compe);
                   && wire.sent == old(wire.sent) + FramesTo(f.recipients, Push(row, db.stamps))
                   && r == if f.stale then Raised(KeyError) else Ok(FromStatus(Success))
    ensures r.Raised? ==> (r.fault == RepositoryException <==> !old(db.Working()))
    ensures r.Ok? ==> r.value == FromStatus(Success)
    ensures db.nextId == if old(db.Working()) then old(db.nextId) + 1 else old(db.nextId)
  {
    var data := SavedRow(sender, p, now, 0);
    var saved := Save(db, data);
    if saved.Raised? {
      return Raised(saved.fault);
    }
    var row := data.(messageId := saved.value);
    var stamp := FindStamp(db, p.stampId);
    if stamp.Raised? {
      return Raised(RepositoryException);
    }
    var view := MessageView(row.sendType, row.messageId, row.compeNo, row.memberId, row.time, row.message, Omitted);
    if stamp.value.Some? {
      view := view.(stamp := Present(Some(stamp.value.value.stampUrl)));
    }
    var push := FromStatus(Success).(messages := Some([view]), methodCode := GetMessagesFromSend.Value());
    assert push == Push(row, db.stamps);
    var targets := Targets(manager.State(), sender, p);
    TargetsRaiseKeyError(manager.State(), sender, p);
    if targets.Raised? {
      return Raised(targets.fault);
    }
    var stale := WriteAll(manager, wire, targets.value, p.sendType == Compe, push);
    if stale {
      return Raised(KeyError);
    }
    return Ok(FromStatus(Success));
  }
}
