/** `CompeChatHandler` of src/handler.py: the WebSocket handler that decodes each
    request, picks the service for its method, checks the login, validates, runs
    the service and writes the result back with the request's method, mapping
    every failure point to a status code. */
module Handler {
  import opened Values
  import opened Enums
  import opened Util
  import opened Data
  import opened Manager
  import opened Repository
  import opened Service

  /** The five services the handler holds. */
  datatype ServiceKind = InitService | GetMessagesService | SendMessageService | GetStampsService | GetNewMessagesService

  /** `getService`: one service per request kind; none for method 99. */
  function GetService(m: MethodType): Option<ServiceKind>
  {
    if m == Init then Some(InitService)
    else if m == SendMessage then Some(SendMessageService)
    else if m == GetMessages then Some(GetMessagesService)
    else if m == GetStamps then Some(GetStampsService)
    else if m == GetNewMessages then Some(GetNewMessagesService)
    else None
  }

  /** The method code each service answers to. */
  function ServedCode(kind: ServiceKind): int
  {
    match kind
    case InitService => 1
    case GetMessagesService => 2
    case SendMessageService => 3
    case GetStampsService => 4
    case GetNewMessagesService => 5
  }

  /** `getService` gives every request kind the service of its code and gives the
      push kind 99 none. */
  lemma GetServiceTable(m: MethodType)
    ensures GetService(m).None? <==> m == GetMessagesFromSend
    ensures GetService(m).Some? ==> ServedCode(GetService(m).value) == m.Value()
  {
  }

  /** A request as `json.loads` leaves it: text it rejects, or the decoded value. */
  datatype Request = Malformed | Decoded(form: Value)

  /** Validation of the service raises (inside the `try`). */
  predicate ValidationRaises(kind: ServiceKind, form: Value)
  {
    match kind
    case InitService => InitRaises(form)
    case GetMessagesService => BlockRaises(form, "get_messages")
    case SendMessageService => SendRaises(form)
    case GetStampsService => false
    case GetNewMessagesService => BlockRaises(form, "get_new_messages")
  }

  /** Validation of the service accepts the form. */
  predicate ValidationAccepts(kind: ServiceKind, form: Value)
  {
    match kind
    case InitService => InitAccepts(form)
    case GetMessagesService => GetMessagesAccepts(form)
    case SendMessageService => SendAccepts(form)
    case GetStampsService => true
    case GetNewMessagesService => GetNewMessagesAccepts(form)
  }

  /** The status `executeService` returns for an exception it catches. */
  function Caught(f: Fault): ResultStatus
  {
    if f == RepositoryException then RepositoryError else ServerError
  }

  /** The answer `executeService` gives before `execute` runs, or None when it
      goes on to `createParam` and `execute`: every service but Init needs a
      registered connection, and validation must neither raise nor reject. */
  function Admit(conn: ConnId, form: Value, kind: ServiceKind, reg: Registry): Option<ServerResult>
  {
    if kind != InitService && reg.GetSessionInfoFromId(conn).None? then Some(FromStatus(LoginError))
    else if ValidationRaises(kind, form) then Some(FromStatus(ServerError))
    else if !ValidationAccepts(kind, form) then Some(FromStatus(ValidationError))
    else None
  }

  /** `result.method = method.value`. */
  function Echo(m: MethodType, result: ServerResult): ServerResult
  {
    result.(methodCode := m.Value())
  }

  /** How `on_message` resolves a request before `executeService` checks it: an
      answer with method 0, an exception that escapes the handler, or the method
      and its service. */
  datatype Resolution = Reply(result: ServerResult) | Thrown(fault: Fault) | Found(mtype: MethodType, kind: ServiceKind)

  /** Decoding, reading `method`, `MethodType.fromValue` and `getService`. */
  function Resolve(request: Request): Resolution
  {
    match request
    case Malformed => Reply(FromStatus(ParamError))
    case Decoded(form) =>
      match GetInt(form, "method")
      case Raised(f) => Thrown(f)
      case Ok(code) =>
        match ParseMethodType(code)
        case None => Reply(FromStatus(MethodError))
        case Some(m) =>
          match GetService(m)
          case None => Thrown(AttributeError)
          case Some(kind) => Found(m, kind)
  }

  /** What `on_message` does with a request: answer without running a service, let
      an exception escape the handler, or run the service of a method. */
  datatype Dispatch = Answer(result: ServerResult) | Escape(fault: Fault) | Perform(mtype: MethodType, kind: ServiceKind)

  /** The dispatch of `on_message` and `executeService` up to `execute`. */
  function Route(conn: ConnId, request: Request, reg: Registry): Dispatch
  {
    match Resolve(request)
    case Reply(result) => Answer(result)
    case Thrown(f) => Escape(f)
    case Found(m, kind) =>
      match Admit(conn, request.form, kind, reg)
      case Some(result) => Answer(Echo(m, result))
      case None => Perform(m, kind)
  }

  /** Resolution throws exactly when the `method` field cannot be read (the request
      is not a dict, or the field is a str that is not an int numeral) or reads as
      99, whose service is None; in the last case the fault is AttributeError. */
  lemma ResolveThrows(request: Request)
    ensures Resolve(request).Thrown? <==>
              request.Decoded? &&
              (|| !request.form.VDict?
               || Unparsable(Field(request.form, "method"))
               || ReadsAs(Field(request.form, "method"), 99))
    ensures request.Decoded? && request.form.VDict? && ReadsAs(Field(request.form, "method"), 99) ==>
              Resolve(request) == Thrown(AttributeError)
  {
    match request {
      case Malformed =>
      case Decoded(form) =>
        if form.VDict? {
          GetIntReads(form, "method");
          var code := GetInt(form, "method");
          if code.Ok? {
            match code.value {
              case None =>
                assert !ReadsAs(Field(form, "method"), 99) by {
                  assert GetInt(form, "method") != Ok(Some(99));
                }
              case Some(n) =>
                MethodTypeTable(n);
                assert ReadsAs(Field(form, "method"), 99) <==> n == 99 by {
                  assert GetInt(form, "method") == Ok(Some(99)) <==> ReadsAs(Field(form, "method"), 99);
                }
                var parsed := ParseMethodType(Some(n));
                if parsed.Some? {
                  GetServiceTable(parsed.value);
                  assert GetService(parsed.value).None? <==> n == 99;
                }
            }
          }
        }
    }
  }

  /** An exception escapes `on_message` exactly when resolution throws: the
      checks of `executeService` only ever answer. */
  lemma RouteEscapes(conn: ConnId, request: Request, reg: Registry)
    ensures Route(conn, request, reg).Escape? <==>
              request.Decoded? &&
              (|| !request.form.VDict?
               || Unparsable(Field(request.form, "method"))
               || ReadsAs(Field(request.form, "method"), 99))
    ensures request.Decoded? && request.form.VDict? && ReadsAs(Field(request.form, "method"), 99) ==>
              Route(conn, request, reg) == Escape(AttributeError)
  {
    ResolveThrows(request);
  }

  /** A request that cannot be decoded gets ParamError, and one whose method is
      missing or unknown gets MethodError; both carry method 0 and run no service. */
  lemma RouteRejects(conn: ConnId, form: Value, reg: Registry, n: int)
    requires form.VDict?
    ensures Route(conn, Malformed, reg) == Answer(FromStatus(ParamError))
    ensures Route(conn, Malformed, reg).result.methodCode == 0
    ensures Field(form, "method") == VNone ==> Route(conn, Decoded(form), reg) == Answer(FromStatus(MethodError))
    ensures ReadsAs(Field(form, "method"), n) && !(1 <= n <= 5 || n == 99) ==>
              Route(conn, Decoded(form), reg) == Answer(FromStatus(MethodError))
  {
    GetIntReads(form, "method");
    MethodTypeTable(n);
  }

  /** Every service but Init answers an unregistered connection with LoginError,
      before validation, carrying the request's method. */
  lemma RouteLogin(conn: ConnId, form: Value, reg: Registry, n: int)
    requires form.VDict? && ReadsAs(Field(form, "method"), n) && 2 <= n <= 5
    requires conn !in reg.idSessionMap
    ensures Route(conn, Decoded(form), reg).Answer?
    ensures Route(conn, Decoded(form), reg).result.status == LoginError.Value()
    ensures Route(conn, Decoded(form), reg).result.methodCode == n
  {
    GetIntReads(form, "method");
    assert GetInt(form, "method") == Ok(Some(n));
    MethodTypeTable(n);
    var m := ParseMethodType(Some(n)).value;
    assert m.Value() == n;
    assert m != Init && m != GetMessagesFromSend;
    GetServiceTable(m);
    var kind := GetService(m).value;
    assert kind != InitService;
    assert Resolve(Decoded(form)) == Found(m, kind);
    assert Admit(conn, form, kind, reg) == Some(FromStatus(LoginError));
  }

  /** Every answer that names no method is a ParamError or a MethodError; every other
      answer carries the request's method. A service runs exactly when resolution
      finds one and `executeService` admits the request, so only for a registered
      connection (or Init) and a form its validator accepts. */
  lemma RouteGates(conn: ConnId, request: Request, reg: Registry)
    ensures var d := Route(conn, request, reg);
            d.Perform? <==> Resolve(request).Found? && Admit(conn, request.form, Resolve(request).kind, reg) == None
    ensures var d := Route(conn, request, reg);
            d.Perform? ==> d == Perform(Resolve(request).mtype, Resolve(request).kind)
    ensures var d := Route(conn, request, reg);
            d.Answer? && d.result.methodCode == 0 ==>
              d.result.status == ParamError.Value() || d.result.status == MethodError.Value()
    ensures var d := Route(conn, request, reg);
            d.Perform? ==>
              && request.Decoded?
              && GetService(d.mtype) == Some(d.kind)
              && (d.kind != InitService ==> conn in reg.idSessionMap)
              && !ValidationRaises(d.kind, request.form)
              && ValidationAccepts(d.kind, request.form)
  {
  }

  /** What an admitted service leaves behind: the registry and the store, the frames
      it wrote ahead of the reply, and the reply, whose method is still 0. */
  datatype Effect = Effect(registry: Registry, store: Store, pushes: seq<Frame>, reply: ServerResult)

  /** `createParam` and `execute` of an admitted service. Init files the session;
      the fetches list rows or answer RepositoryError; a send saves the message under
      the next id, pushes it to every session the fan-out finds, and answers
      ServerError when the fan-out met a stale id. */
  function Serve(kind: ServiceKind, conn: ConnId, form: Value, now: int, reg: Registry, db: Store): Effect
    requires ValidationAccepts(kind, form)
    requires kind != InitService ==> conn in reg.idSessionMap
  {
    match kind
    case InitService =>
      var p := CreateInitParam(form);
      Effect(reg.Added(SessionInfo(conn, p.compeNo, p.memberId, p.receptLevel)), db, [], FromStatus(Success))
    case GetMessagesService =>
      var rows := SelectRows(db.messages, MessagesQuery(reg.idSessionMap[conn], CreateGetMessagesParam(form)));
      Effect(reg, db, [], if db.Working() then MessagesReply(rows, db.stamps) else FromStatus(RepositoryError))
    case GetNewMessagesService =>
      var rows := SelectRows(db.messages, NewMessagesQuery(reg.idSessionMap[conn], CreateGetNewMessagesParam(form)));
      Effect(reg, db, [], if db.Working() then MessagesReply(rows, db.stamps) else FromStatus(RepositoryError))
    case GetStampsService =>
      Effect(reg, db, [], if db.Working() then StampsReply(db.stamps) else FromStatus(RepositoryError))
    case SendMessageService =>
      if !db.Working() then Effect(reg, db, [], FromStatus(RepositoryError))
      else
        var sender := reg.idSessionMap[conn];
        var p := CreateSendParam(form);
        var row := SavedRow(sender, p, now, db.nextId);
        var f := SendFanOut(reg, sender, p);
        Effect(reg, db.(messages := db.messages + [row], nextId := db.nextId + 1),
               FramesTo(f.recipients, Push(row, db.stamps)), FromStatus(if f.stale then ServerError else Success))
  }

  /** The reply of an admitted service carries method 0 and one of Success,
      RepositoryError and ServerError; RepositoryError means exactly that the
      database failed, and only Init changes the registry and only a send the store
      and the wire. A fetch from a working database lists its rows, and a send to
      consistent dictionaries never answers ServerError. */
  lemma ServeReplies(kind: ServiceKind, conn: ConnId, form: Value, now: int, reg: Registry, db: Store)
    requires ValidationAccepts(kind, form)
    requires kind != InitService ==> conn in reg.idSessionMap
    ensures var e := Serve(kind, conn, form, now, reg, db);
            && e.reply.methodCode == 0
            && (e.reply.status == Success.Value() || e.reply.status == RepositoryError.Value()
                || e.reply.status == ServerError.Value())
            && (kind != InitService ==> e.registry == reg && (e.reply.status == RepositoryError.Value() <==> !db.Working()))
            && (kind != SendMessageService ==> e.store == db && e.pushes == [])
            && (reg.Consistent() ==> e.reply.status != ServerError.Value())
    ensures db.Working() && kind == GetMessagesService ==>
              ListsMessages(Serve(kind, conn, form, now, reg, db).reply,
                            SelectRows(db.messages, MessagesQuery(reg.idSessionMap[conn], CreateGetMessagesParam(form))), db.stamps)
    ensures db.Working() && kind == GetNewMessagesService ==>
              ListsMessages(Serve(kind, conn, form, now, reg, db).reply,
                            SelectRows(db.messages, NewMessagesQuery(reg.idSessionMap[conn], CreateGetNewMessagesParam(form))), db.stamps)
    ensures db.Working() && kind == GetStampsService ==> ListsStamps(Serve(kind, conn, form, now, reg, db).reply, db.stamps)
  {
    StatusCodesDistinct(Success, RepositoryError);
    StatusCodesDistinct(ServerError, RepositoryError);
    StatusCodesDistinct(Success, ServerError);
    var e := Serve(kind, conn, form, now, reg, db);
    match kind {
      case GetMessagesService =>
        var rows := SelectRows(db.messages, MessagesQuery(reg.idSessionMap[conn], CreateGetMessagesParam(form)));
        ListsMessagesExactly(e.reply, rows, db.stamps);
      case GetNewMessagesService =>
        var rows := SelectRows(db.messages, NewMessagesQuery(reg.idSessionMap[conn], CreateGetNewMessagesParam(form)));
        ListsMessagesExactly(e.reply, rows, db.stamps);
      case GetStampsService =>
        ListsStampsExactly(e.reply, db.stamps);
      case SendMessageService =>
        if reg.Consistent() {
          SendNeverStale(reg, reg.idSessionMap[conn], CreateSendParam(form));
        }
      case InitService =>
    }
  }

  /** `service.validate` for the service at hand, reduced to what `executeService`
      looks at: whether it raised and, if not, `isValid`. */
  method Validate(kind: ServiceKind, form: Value) returns (r: Outcome<bool>)
    ensures r.Raised? <==> ValidationRaises(kind, form)
    ensures r.Raised? ==> r.fault != RepositoryException
    ensures r.Ok? ==> (r.value <==> ValidationAccepts(kind, form))
  {
    var checked: Outcome<ValidationInfo>;
    match kind {
      case InitService =>
        checked := ValidateInit(form);
      case GetMessagesService =>
        checked := ValidateGetMessages(form);
      case SendMessageService =>
        checked := ValidateSend(form);
      case GetStampsService =>
        var info := ValidateGetStamps(form);
        checked := Ok(info);
      case GetNewMessagesService =>
        checked := ValidateGetNewMessages(form);
    }
    if checked.Raised? {
      return Raised(checked.fault);
    }
    return Ok(checked.value.isValid);
  }

  /** The reply of `get_messages` once admitted; the only exception it raises is
      RepositoryException. */
  method RunGetMessages(db: Database, sessionInfo: SessionInfo, form: Value) returns (r: ServerResult)
    requires GetMessagesAccepts(form)
    ensures r.status == RepositoryError.Value() <==> !db.Working()
    ensures r.status == Success.Value() || r.status == RepositoryError.Value()
    ensures !db.Working() ==> r == FromStatus(RepositoryError)
    ensures db.Working() ==>
              ListsMessages(r, SelectRows(db.messages, MessagesQuery(sessionInfo, CreateGetMessagesParam(form))), db.stamps)
    ensures db.Working() ==>
              r == MessagesReply(SelectRows(db.messages, MessagesQuery(sessionInfo, CreateGetMessagesParam(form))), db.stamps)
  {
    var result := ExecuteGetMessages(db, sessionInfo, CreateGetMessagesParam(form));
    if result.Raised? {
      r := FromStatus(RepositoryError);
    } else {
      r := result.value;
      StatusCodesDistinct(Success, RepositoryError);
      ListsMessagesExactly(r, SelectRows(db.messages, MessagesQuery(sessionInfo, CreateGetMessagesParam(form))), db.stamps);
    }
  }

  /** The reply of `get_new_messages` once admitted; the only exception it raises is
      RepositoryException. */
  method RunGetNewMessages(db: Database, sessionInfo: SessionInfo, form: Value) returns (r: ServerResult)
    requires GetNewMessagesAccepts(form)
    ensures r.status == RepositoryError.Value() <==> !db.Working()
    ensures r.status == Success.Value() || r.status == RepositoryError.Value()
    ensures !db.Working() ==> r == FromStatus(RepositoryError)
    ensures db.Working() ==>
              ListsMessages(r, SelectRows(db.messages, NewMessagesQuery(sessionInfo, CreateGetNewMessagesParam(form))), db.stamps)
    ensures db.Working() ==>
              r == MessagesReply(SelectRows(db.messages, NewMessagesQuery(sessionInfo, CreateGetNewMessagesParam(form))), db.stamps)
  {
    var result := ExecuteGetNewMessages(db, sessionInfo, CreateGetNewMessagesParam(form));
    if result.Raised? {
      r := FromStatus(RepositoryError);
    } else {
      r := result.value;
      StatusCodesDistinct(Success, RepositoryError);
      ListsMessagesExactly(r, SelectRows(db.messages, NewMessagesQuery(sessionInfo, CreateGetNewMessagesParam(form))), db.stamps);
    }
  }

  /** The reply of `get_stamps`, whose validation always passes. */
  method RunGetStamps(db: Database) returns (r: ServerResult)
    ensures r.status == RepositoryError.Value() <==> !db.Working()
    ensures r.status == Success.Value() || r.status == RepositoryError.Value()
    ensures db.Working() ==> ListsStamps(r, db.stamps) && r == StampsReply(db.stamps)
    ensures !db.Working() ==> r == FromStatus(RepositoryError)
  {
    var result := ExecuteGetStamps(db);
    if result.Raised? {
      r := FromStatus(RepositoryError);
    } else {
      r := result.value;
      StatusCodesDistinct(Success, RepositoryError);
      ListsStampsExactly(r, db.stamps);
    }
  }

  /** The reply of `send_message` once admitted. */
  method RunSend(manager: SessionManager, db: Database, wire: Wire, sessionInfo: SessionInfo, form: Value, now: int)
    returns (r: ServerResult)
    requires SendAccepts(form)
    modifies db, wire
    ensures db.stamps == old(db.stamps) && db.reachable == old(db.reachable) && db.accepting == old(db.accepting)
    ensures old(wire.sent) <= wire.sent
    ensures r.status == RepositoryError.Value() <==> !old(db.Working())
    ensures r.status == Success.Value() || r.status == RepositoryError.Value() || r.status == ServerError.Value()
    ensures old(db.Working()) ==>
              db.messages == old(db.messages) + [SavedRow(sessionInfo, CreateSendParam(form), now, old(db.nextId))]
    ensures !old(db.Working()) ==>
              db.messages == old(db.messages) && wire.sent == old(wire.sent) && r == FromStatus(RepositoryError)
    ensures db.nextId == if old(db.Working()) then old(db.nextId) + 1 else old(db.nextId)
    ensures old(db.Working()) ==>
              var p := CreateSendParam(form);
              var f := SendFanOut(manager.State(), sessionInfo, p);
              && wire.sent == old(wire.sent) + FramesTo(f.recipients, Push(SavedRow(sessionInfo, p, now, old(db.nextId)), db.stamps))
              && r == FromStatus(if f.stale then ServerError else Success)
  {
    var result := ExecuteSend(manager, db, wire, sessionInfo, CreateSendParam(form), now);
    TargetsRaiseKeyError(manager.State(), sessionInfo, CreateSendParam(form));
    if result.Raised? {
      r := FromStatus(Caught(result.fault));
      StatusCodesDistinct(Caught(result.fault), RepositoryError);
    } else {
      r := result.value;
      StatusCodesDistinct(Success, RepositoryError);
    }
  }

  /** `service.createParam` and `service.execute` once the request is admitted; a
      caught exception becomes RepositoryError or ServerError. */
  method Run(manager: SessionManager, db: Database, wire: Wire, conn: ConnId, form: Value,
             kind: ServiceKind, now: int)
    returns (r: ServerResult)
    requires manager.Valid()
    requires kind != InitService ==> conn in manager.idSessionMap
    requires ValidationAccepts(kind, form)
    modifies manager, db, wire
    ensures manager.Valid()
    ensures var e := Serve(kind, conn, form, now, old(manager.State()), old(db.State()));
            && manager.State() == e.registry && db.State() == e.store
            && wire.sent == old(wire.sent) + e.pushes && r == e.reply
  {
    if kind == InitService {
      r := ExecuteInit(manager, conn, CreateInitParam(form));
    } else if kind == SendMessageService {
      r := RunSend(manager, db, wire, manager.idSessionMap[conn], form, now);
    } else if kind == GetMessagesService {
      r := RunGetMessages(db, manager.idSessionMap[conn], form);
    } else if kind == GetNewMessagesService {
      r := RunGetNewMessages(db, manager.idSessionMap[conn], form);
    } else {
      r := RunGetStamps(db);
    }
  }

  /** `executeService` once a service exists: the login check, validation, then
      `createParam` and `execute`, with caught exceptions mapped to statuses. */
  method ExecuteService(manager: SessionManager, db: Database, wire: Wire, conn: ConnId, form: Value,
                        kind: ServiceKind, now: int)
    returns (r: ServerResult)
    requires manager.Valid()
    modifies manager, db, wire
    ensures manager.Valid()
    ensures var reg := old(manager.State());
            Admit(conn, form, kind, reg).Some? ==>
              && r == Admit(conn, form, kind, reg).value
              && manager.State() == reg && db.State() == old(db.State()) && wire.sent == old(wire.sent)
    ensures Admit(conn, form, kind, old(manager.State())) == None ==>
              var e := Serve(kind, conn, form, now, old(manager.State()), old(db.State()));
              && manager.State() == e.registry && db.State() == e.store
              && wire.sent == old(wire.sent) + e.pushes && r == e.reply
  {
    if kind != InitService && manager.State().GetSessionInfoFromId(conn).None? {
      return FromStatus(LoginError);
    }
    var checked := Validate(kind, form);
    if checked.Raised? {
      return FromStatus(Caught(checked.fault));
    }
    if !checked.value {
      return FromStatus(ValidationError);
    }
    r := Run(manager, db, wire, conn, form, kind, now);
  }

  /** The end of `on_message` once the method has a service: `executeService`, then
      its result written to the connection carrying the request's method, after any
      pushes the service wrote. */
  method Respond(manager: SessionManager, db: Database, wire: Wire, conn: ConnId, form: Value,
                 m: MethodType, kind: ServiceKind, now: int)
    requires manager.Valid()
    modifies manager, db, wire
    ensures manager.Valid()
    ensures var a := Admit(conn, form, kind, old(manager.State()));
            a.Some? ==>
              && wire.sent == old(wire.sent) + [Frame(conn, Echo(m, a.value))]
              && manager.State() == old(manager.State()) && db.State() == old(db.State())
    ensures Admit(conn, form, kind, old(manager.State())) == None ==>
              var e := Serve(kind, conn, form, now, old(manager.State()), old(db.State()));
              && manager.State() == e.registry && db.State() == e.store
              && wire.sent == old(wire.sent) + e.pushes + [Frame(conn, e.reply.(methodCode := m.Value()))]
  {
    var result := ExecuteService(manager, db, wire, conn, form, kind, now);
    ghost var reg', store' := manager.State(), db.State();
    result := result.(methodCode := m.Value());
    wire.Write(conn, result);
    assert manager.State() == reg' && db.State() == store';
  }

  /** `on_message`: decoding, the `method` field and `getService` (as `Resolve`
      states them) either answer with method 0, let an exception escape, which
      writes nothing, or hand over to `Respond`. The last clause is the `Perform`
      case of `Route`, as `RouteGates` states. */
  method OnMessage(manager: SessionManager, db: Database, wire: Wire, conn: ConnId, request: Request, now: int)
    returns (escaped: Option<Fault>)
    requires manager.Valid()
    modifies manager, db, wire
    ensures manager.Valid()
    ensures var d := Route(conn, request, old(manager.State()));
            d.Answer? ==>
              && escaped.None? && wire.sent == old(wire.sent) + [Frame(conn, d.result)]
              && manager.State() == old(manager.State()) && db.State() == old(db.State())
    ensures var d := Route(conn, request, old(manager.State()));
            d.Escape? ==>
              && escaped == Some(d.fault) && wire.sent == old(wire.sent)
              && manager.State() == old(manager.State()) && db.State() == old(db.State())
    ensures Resolve(request).Found? && Admit(conn, request.form, Resolve(request).kind, old(manager.State())) == None ==>
              var e := Serve(Resolve(request).kind, conn, request.form, now, old(manager.State()), old(db.State()));
              && escaped.None? && manager.State() == e.registry && db.State() == e.store
              && wire.sent == old(wire.sent) + e.pushes + [Frame(conn, e.reply.(methodCode := Resolve(request).mtype.Value()))]
  {
    match Resolve(request) {
      case Reply(result) =>
        wire.Write(conn, result);
        return None;
      case Thrown(f) =>
        return Some(f);
      case Found(m, kind) =>
        Respond(manager, db, wire, conn, request.form, m, kind, now);
        return None;
    }
  }

  /** `on_close`: the connection's session leaves the registry. */
  method OnClose(manager: SessionManager, conn: ConnId)
    requires manager.Valid()
    modifies manager
    ensures manager.Valid()
    ensures manager.State() == old(manager.State()).Removed(conn)
    ensures manager.State().GetSessionInfoFromId(conn) == None
  {
    RemovedForgets(manager.State(), conn);
    manager.RemoveSession(conn);
  }
}
