/** The session registry of src/manager.py. `SessionManager` keeps two class-level
    dictionaries, mutated in place: connection id to `SessionInfo`, and event
    number to the list of connection ids joined to it. The `Registry` value is
    the pair of them; its functions are the lookups and the specifications of
    `addSession` and `removeSession`, which the `SessionManager` class implements. */
module Manager {
  import opened Values
  import opened Enums

  /** The id the handler gives each WebSocket connection when it opens. */
  type ConnId = string

  /** `SessionInfo`, once `InitService.execute` has filled it in; the connection
      is represented by its id. */
  datatype SessionInfo = SessionInfo(session: ConnId, compeNo: int, memberId: string, receptLevel: ReceptLevel)

  /** `list.index`: where `x` first occurs. */
  function IndexOf<T(==)>(s: seq<T>, x: T): (k: nat)
    requires x in s
    ensures k < |s| && s[k] == x && x !in s[..k]
  {
    if s[0] == x then 0
    else
      var k := IndexOf(s[1..], x);
      assert s[..k + 1] == [s[0]] + s[1..][..k];
      k + 1
  }

  /** `list.remove`: the first occurrence of `x` is deleted, and the elements
      before and after it keep their order. */
  function RemoveFirst<T(==)>(s: seq<T>, x: T): (r: seq<T>)
    requires x in s
    ensures exists k :: 0 <= k < |s| && s[k] == x && x !in s[..k] && r == s[..k] + s[k + 1..]
    ensures multiset(r) == multiset(s) - multiset{x}
  {
    var k := IndexOf(s, x);
    assert s == s[..k] + [x] + s[k + 1..];
    s[..k] + s[k + 1..]
  }

  /** An event list with no connection twice. */
  ghost predicate NoDuplicates(ids: seq<ConnId>)
  {
    forall id :: multiset(ids)[id] <= 1
  }

  /** The first info of the member, in list order. */
  function FirstOfMember(infos: seq<SessionInfo>, memberId: string): (r: Option<SessionInfo>)
    ensures r.Some? ==> exists k :: 0 <= k < |infos| && infos[k] == r.value && r.value.memberId == memberId
                          && forall j :: 0 <= j < k ==> infos[j].memberId != memberId
    ensures r.None? <==> forall j :: 0 <= j < |infos| ==> infos[j].memberId != memberId
  {
    if infos == [] then None
    else if infos[0].memberId == memberId then Some(infos[0])
    else
      var r := FirstOfMember(infos[1..], memberId);
      assert r.Some? ==> exists k :: 1 <= k < |infos| && infos[k] == r.value && r.value.memberId == memberId
                          && forall j :: 0 <= j < k ==> infos[j].memberId != memberId by {
        if r.Some? {
          var k :| 0 <= k < |infos[1..]| && infos[1..][k] == r.value
                   && forall j :: 0 <= j < k ==> infos[1..][j].memberId != memberId;
          assert infos[k + 1] == r.value;
        }
      }
      r
  }

  /** The two dictionaries of `SessionManager`. */
  datatype Registry = Registry(idSessionMap: map<ConnId, SessionInfo>, compeIdsMap: map<int, seq<ConnId>>)
  {
    /** The ids listed under an event; no list at all reads as the empty one. */
    function EventIds(compeNo: int): seq<ConnId>
    {
      if compeNo in compeIdsMap then compeIdsMap[compeNo] else []
    }

    /** What `addSession` and `removeSession` keep: each registered info is filed
        under its own id and that id is listed under its event. */
    predicate Valid()
    {
      forall id :: id in idSessionMap ==>
        idSessionMap[id].session == id && id in EventIds(idSessionMap[id].compeNo)
    }

    /** The two dictionaries index the same sessions: besides `Valid`, every listed
        id is registered with that event, and no list repeats an id. */
    ghost predicate Consistent()
    {
      Valid() && Listed() && Unrepeated()
    }

    /** Every listed id is registered with the event it is listed under. */
    predicate Listed()
    {
      forall c, id :: c in compeIdsMap && id in compeIdsMap[c] ==>
        id in idSessionMap && idSessionMap[id].compeNo == c
    }

    /** No event list repeats an id. */
    ghost predicate Unrepeated()
    {
      forall c :: c in compeIdsMap ==> NoDuplicates(compeIdsMap[c])
    }

    /** `addSession`: the info replaces any earlier one under its id, and the id is
        appended to its event's list, which is created if the event is new. */
    function Added(info: SessionInfo): Registry
    {
      var ids := EventIds(info.compeNo) + [info.session];
      Registry(idSessionMap[info.session := info], compeIdsMap[info.compeNo := ids])
    }

    /** `removeSession`: a registered id is dropped from the id map and its first
        occurrence from the list of the event its info names. */
    function Removed(id: ConnId): Registry
      requires Valid()
    {
      if id !in idSessionMap then this
      else
        var info := idSessionMap[id];
        var rest := idSessionMap - {id};
        if info.compeNo in compeIdsMap then
          Registry(rest, compeIdsMap[info.compeNo := RemoveFirst(compeIdsMap[info.compeNo], id)])
        else Registry(rest, compeIdsMap)
    }

    /** `getSessionInfoFromId`. */
    function GetSessionInfoFromId(id: ConnId): (r: Option<SessionInfo>)
      ensures r.Some? <==> id in idSessionMap
      ensures r.Some? ==> r.value == idSessionMap[id]
    {
      if id in idSessionMap then Some(idSessionMap[id]) else None
    }

    /** Looking each id up in `idSessionMap`, in list order, as iterating the map
        object of `getSessionInfos` does; an unregistered id raises KeyError. */
    function ResolveAll(ids: seq<ConnId>): (r: Outcome<seq<SessionInfo>>)
      ensures r.Ok? <==> forall j :: 0 <= j < |ids| ==> ids[j] in idSessionMap
      ensures r.Raised? ==> r.fault == KeyError
      ensures r.Ok? ==> |r.value| == |ids| && forall j :: 0 <= j < |ids| ==> r.value[j] == idSessionMap[ids[j]]
    {
      if ids == [] then Ok([])
      else if ids[0] !in idSessionMap then Raised(KeyError)
      else
        match ResolveAll(ids[1..])
        case Raised(f) => Raised(f)
        case Ok(infos) => Ok([idSessionMap[ids[0]]] + infos)
    }

    /** `getSessionInfos(compeNo)`, iterated to the end: nothing for an unknown event,
        else the infos of the event's ids in list order. */
    function GetSessionInfos(compeNo: int): Outcome<seq<SessionInfo>>
    {
      if compeNo !in compeIdsMap then Ok([])
      else ResolveAll(compeIdsMap[compeNo])
    }

    /** `getSessionInfo`: the first info of the member among the event's infos. The
        `list(...)` forces every lookup, so a stale id raises even after a match. */
    function GetSessionInfo(compeNo: int, memberId: string): Outcome<Option<SessionInfo>>
    {
      if compeNo !in compeIdsMap then Ok(None)
      else
        match ResolveAll(compeIdsMap[compeNo])
        case Raised(f) => Raised(f)
        case Ok(infos) => Ok(FirstOfMember(infos, memberId))
    }
  }

  const Empty := Registry(map[], map[])

  // ---------------------------------------------------------------- addSession

  /** After `addSession(info)` the id maps to `info`, replacing any earlier entry,
      and the id is appended to the event's list; nothing else changes. */
  lemma AddedLookup(reg: Registry, info: SessionInfo)
    ensures reg.Added(info).GetSessionInfoFromId(info.session) == Some(info)
    ensures reg.Added(info).EventIds(info.compeNo) == reg.EventIds(info.compeNo) + [info.session]
    ensures forall id :: id != info.session ==> reg.Added(info).GetSessionInfoFromId(id) == reg.GetSessionInfoFromId(id)
    ensures forall c :: c != info.compeNo ==> reg.Added(info).EventIds(c) == reg.EventIds(c)
  {
  }

  /** A second add of the same id lists it twice. */
  lemma AddedTwice(reg: Registry, info: SessionInfo)
    ensures multiset(reg.Added(info).Added(info).EventIds(info.compeNo))[info.session]
            == multiset(reg.EventIds(info.compeNo))[info.session] + 2
  {
    var once := reg.Added(info);
    assert once.EventIds(info.compeNo) == reg.EventIds(info.compeNo) + [info.session];
    assert once.Added(info).EventIds(info.compeNo) == once.EventIds(info.compeNo) + [info.session];
  }

  lemma AddedValid(reg: Registry, info: SessionInfo)
    requires reg.Valid()
    ensures reg.Added(info).Valid()
  {
    var r := reg.Added(info);
    forall id | id in r.idSessionMap
      ensures r.idSessionMap[id].session == id && id in r.EventIds(r.idSessionMap[id].compeNo)
    {
      if id != info.session {
        var c := reg.idSessionMap[id].compeNo;
        assert id in reg.EventIds(c);
        assert reg.EventIds(c) <= r.EventIds(c);
      }
    }
  }

  /** A fresh id keeps the two dictionaries consistent. */
  lemma AddedConsistent(reg: Registry, info: SessionInfo)
    requires reg.Consistent()
    requires info.session !in reg.idSessionMap
    ensures reg.Added(info).Consistent()
  {
    AddedValid(reg, info);
    var r := reg.Added(info);
    var c := info.compeNo;
    assert info.session !in reg.EventIds(c);
    assert multiset(r.compeIdsMap[c]) == multiset(reg.EventIds(c)) + multiset{info.session};
  }

  // ---------------------------------------------------------------- removeSession

  lemma RemovedValid(reg: Registry, id: ConnId)
    requires reg.Valid()
    ensures reg.Removed(id).Valid()
  {
    if id in reg.idSessionMap {
      var r := reg.Removed(id);
      var c := reg.idSessionMap[id].compeNo;
      forall other | other in r.idSessionMap
        ensures r.idSessionMap[other].session == other && other in r.EventIds(r.idSessionMap[other].compeNo)
      {
        var d := reg.idSessionMap[other].compeNo;
        assert other in reg.EventIds(d);
        if d == c {
          assert other in multiset(reg.EventIds(c));
          assert other in multiset(r.EventIds(c));
        }
      }
    }
  }

  /** After `removeSession` the id is unregistered and exactly one occurrence of it
      has left the list of the event recorded in its info; other lists are as
      they were. */
  lemma RemovedForgets(reg: Registry, id: ConnId)
    requires reg.Valid()
    ensures reg.Removed(id).GetSessionInfoFromId(id) == None
    ensures id in reg.idSessionMap ==>
              var c := reg.idSessionMap[id].compeNo;
              && multiset(reg.Removed(id).EventIds(c)) == multiset(reg.EventIds(c)) - multiset{id}
              && (var ids := reg.EventIds(c);
                  exists k :: 0 <= k < |ids| && ids[k] == id && id !in ids[..k] &&
                    reg.Removed(id).EventIds(c) == ids[..k] + ids[k + 1..])
              && forall d :: d != c ==> reg.Removed(id).EventIds(d) == reg.EventIds(d)
    ensures forall other :: other != id ==> reg.Removed(id).GetSessionInfoFromId(other) == reg.GetSessionInfoFromId(other)
  {
  }

  /** Removing an id that is not registered changes neither dictionary. */
  lemma RemovedAbsent(reg: Registry, id: ConnId)
    requires reg.Valid()
    requires id !in reg.idSessionMap
    ensures reg.Removed(id) == reg
  {
  }

  lemma RemovedConsistent(reg: Registry, id: ConnId)
    requires reg.Consistent()
    ensures reg.Removed(id).Consistent()
  {
    RemovedValid(reg, id);
    if id in reg.idSessionMap {
      RemovedListed(reg, id);
      RemovedNoDuplicates(reg, id);
    }
  }

  /** Removing the only occurrence of `x` leaves exactly the other elements. */
  lemma RemoveFirstMembers<T>(s: seq<T>, x: T, y: T)
    requires x in s && multiset(s)[x] <= 1
    ensures y in RemoveFirst(s, x) <==> y in s && y != x
  {
    assert y in RemoveFirst(s, x) <==> y in multiset(RemoveFirst(s, x));
    assert y in s <==> y in multiset(s);
  }

  lemma RemovedListed(reg: Registry, id: ConnId)
    requires reg.Consistent() && id in reg.idSessionMap
    ensures reg.Removed(id).Listed()
  {
    forall d, other | d in reg.Removed(id).compeIdsMap && other in reg.Removed(id).compeIdsMap[d]
      ensures other in reg.Removed(id).idSessionMap && reg.Removed(id).idSessionMap[other].compeNo == d
    {
      RemovedListedAt(reg, id, d, other);
    }
  }

  /** One listed id of the registry after a removal. */
  lemma RemovedListedAt(reg: Registry, id: ConnId, d: int, other: ConnId)
    requires reg.Consistent() && id in reg.idSessionMap
    requires d in reg.Removed(id).compeIdsMap && other in reg.Removed(id).compeIdsMap[d]
    ensures other in reg.Removed(id).idSessionMap && reg.Removed(id).idSessionMap[other].compeNo == d
  {
    var c := reg.idSessionMap[id].compeNo;
    var before := reg.compeIdsMap[c];
    var rest := reg.idSessionMap - {id};
    assert reg.Removed(id) == Registry(rest, reg.compeIdsMap[c := RemoveFirst(before, id)]);
    if d == c {
      assert NoDuplicates(before);
      assert multiset(before)[id] <= 1;
      RemoveFirstMembers(before, id, other);
    } else {
      assert other in reg.compeIdsMap[d];
    }
    assert other in reg.idSessionMap && reg.idSessionMap[other].compeNo == d;
  }

  lemma RemovedNoDuplicates(reg: Registry, id: ConnId)
    requires reg.Consistent() && id in reg.idSessionMap
    ensures reg.Removed(id).Unrepeated()
  {
    var r := reg.Removed(id);
    var c := reg.idSessionMap[id].compeNo;
    forall d | d in r.compeIdsMap ensures NoDuplicates(r.compeIdsMap[d]) {
      if d == c {
        assert NoDuplicates(reg.compeIdsMap[c]);
        assert multiset(r.compeIdsMap[c]) == multiset(reg.compeIdsMap[c]) - multiset{id};
      } else {
        assert NoDuplicates(reg.compeIdsMap[d]);
      }
    }
  }

  // ---------------------------------------------------------------- lookups

  /** With consistent dictionaries every id listed under an event is registered
      under itself. */
  lemma ListedRegistered(reg: Registry, compeNo: int)
    requires reg.Consistent()
    ensures forall id :: id in reg.EventIds(compeNo) ==>
              id in reg.idSessionMap && reg.idSessionMap[id].session == id
  {
    forall id | id in reg.EventIds(compeNo)
      ensures id in reg.idSessionMap && reg.idSessionMap[id].session == id
    {
      assert compeNo in reg.compeIdsMap && id in reg.compeIdsMap[compeNo];
    }
  }

  /** With consistent dictionaries no lookup raises: `getSessionInfos` yields the
      infos of the event, each filed under that event, and `getSessionInfo` finds
      the member's first connection in the event, or None when the member has none. */
  lemma ConsistentLookups(reg: Registry, compeNo: int, memberId: string)
    requires reg.Consistent()
    ensures reg.GetSessionInfos(compeNo).Ok?
    ensures forall info :: info in reg.GetSessionInfos(compeNo).value ==>
              info.compeNo == compeNo && reg.idSessionMap[info.session] == info
    ensures reg.GetSessionInfo(compeNo, memberId).Ok?
    ensures reg.GetSessionInfo(compeNo, memberId).value == FirstOfMember(reg.GetSessionInfos(compeNo).value, memberId)
    ensures reg.GetSessionInfo(compeNo, memberId).value.None? <==>
              forall info :: info in reg.GetSessionInfos(compeNo).value ==> info.memberId != memberId
    ensures reg.GetSessionInfo(compeNo, memberId).value.Some? ==>
              var info := reg.GetSessionInfo(compeNo, memberId).value.value;
              info.compeNo == compeNo && info.memberId == memberId && reg.idSessionMap[info.session] == info
  {
    var infos := reg.GetSessionInfos(compeNo).value;
    forall info | info in infos
      ensures info.compeNo == compeNo && reg.idSessionMap[info.session] == info
    {
      var j :| 0 <= j < |infos| && infos[j] == info;
      assert reg.compeIdsMap[compeNo][j] in reg.compeIdsMap[compeNo];
    }
  }

  /** `getSessionInfos` of an event nobody joined is empty. */
  lemma UnknownEvent(reg: Registry, compeNo: int, memberId: string)
    requires compeNo !in reg.compeIdsMap
    ensures reg.GetSessionInfos(compeNo) == Ok([])
    ensures reg.GetSessionInfo(compeNo, memberId) == Ok(None)
  {
  }

  /** A connection that re-joins another event without closing stays listed under
      the first one; once it closes, that stale id makes every lookup of the first
      event raise KeyError. */
  lemma StaleAfterRejoin(first: int, second: int)
    requires first != second
    ensures var a := SessionInfo("a", first, "m", ReceptLevel.All);
            var b := a.(compeNo := second);
            && Empty.Added(a).Added(b).Valid()
            && !Empty.Added(a).Added(b).Consistent()
            && Empty.Added(a).Added(b).GetSessionInfos(first) == Ok([b])
            && Empty.Added(a).Added(b).Removed("a").GetSessionInfos(first) == Raised(KeyError)
  {
    var a := SessionInfo("a", first, "m", ReceptLevel.All);
    var b := a.(compeNo := second);
    AddedValid(Empty, a);
    AddedValid(Empty.Added(a), b);
    var reg := Empty.Added(a).Added(b);
    assert reg.compeIdsMap[first] == ["a"];
    assert reg.idSessionMap["a"].compeNo != first;
    var found := reg.ResolveAll(["a"]);
    assert "a" in reg.idSessionMap && reg.idSessionMap["a"] == b;
    assert found.Ok? && found.value[0] == b;
    assert found.value == [b];
    var gone := reg.Removed("a");
    assert gone.compeIdsMap[first] == ["a"];
    assert gone.ResolveAll(["a"]) == Raised(KeyError);
  }

  // ---------------------------------------------------------------- sequences of events

  /** What happens to the registry: a connection initialises or closes. */
  datatype Event = Join(info: SessionInfo) | Close(id: ConnId)

  function Step(reg: Registry, e: Event): (r: Registry)
    requires reg.Valid()
    ensures r.Valid()
  {
    match e
    case Join(info) => AddedValid(reg, info); reg.Added(info)
    case Close(id) => RemovedValid(reg, id); reg.Removed(id)
  }

  function Replay(reg: Registry, events: seq<Event>): Registry
    requires reg.Valid()
    decreases |events|
  {
    if events == [] then reg else Replay(Step(reg, events[0]), events[1..])
  }

  /** Every join uses an id not registered at that point. */
  ghost predicate JoinsFresh(reg: Registry, events: seq<Event>)
    requires reg.Valid()
    decreases |events|
  {
    events == [] ||
    ((events[0].Join? ==> events[0].info.session !in reg.idSessionMap)
     && JoinsFresh(Step(reg, events[0]), events[1..]))
  }

  /** If every join is fresh, the dictionaries stay consistent through any sequence
      of joins and closes. */
  lemma {:induction false} ReplayConsistent(reg: Registry, events: seq<Event>)
    requires reg.Consistent()
    requires JoinsFresh(reg, events)
    ensures Replay(reg, events).Consistent()
    decreases |events|
  {
    if events != [] {
      match events[0] {
        case Join(info) => AddedConsistent(reg, info);
        case Close(id) => RemovedConsistent(reg, id);
      }
      ReplayConsistent(Step(reg, events[0]), events[1..]);
    }
  }

  // ---------------------------------------------------------------- the manager

  /** `SessionManager`: its two dictionaries, updated in place. */
  class SessionManager {
    var idSessionMap: map<ConnId, SessionInfo>
    var compeIdsMap: map<int, seq<ConnId>>

    function State(): Registry
      reads this
    {
      Registry(idSessionMap, compeIdsMap)
    }

    predicate Valid()
      reads this
    {
      State().Valid()
    }

    constructor ()
      ensures State() == Empty && Valid()
    {
      idSessionMap := map[];
      compeIdsMap := map[];
    }

    /** `addSession`. */
    method AddSession(sessionInfo: SessionInfo)
      requires Valid()
      modifies this
      ensures Valid()
      ensures State() == old(State()).Added(sessionInfo)
    {
      AddedValid(State(), sessionInfo);
      var sessionId := sessionInfo.session;
      idSessionMap := idSessionMap[sessionId := sessionInfo];
      var compeNo := sessionInfo.compeNo;
      var ids: seq<ConnId>;
      if compeNo in compeIdsMap {
        ids := compeIdsMap[compeNo];
      } else {
        ids := [];
      }
      compeIdsMap := compeIdsMap[compeNo := ids + [sessionId]];
    }

    /** `removeSession`. */
    method RemoveSession(sessionId: ConnId)
      requires Valid()
      modifies this
      ensures Valid()
      ensures State() == old(State()).Removed(sessionId)
    {
      RemovedValid(State(), sessionId);
      if sessionId in idSessionMap {
        var info := idSessionMap[sessionId];
        idSessionMap := idSessionMap - {sessionId};
        var compeNo := info.compeNo;
        if compeNo in compeIdsMap {
          compeIdsMap := compeIdsMap[compeNo := RemoveFirst(compeIdsMap[compeNo], sessionId)];
        }
      }
    }
  }
}
