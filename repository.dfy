/** The persistence layer of src/repository.py. The MySQL tables become sequences
    of rows held by a `Database` object; the SQL of `findMessages`, `findStamps` and
    `findStamp` becomes the filter, sort, limit and join it describes; and
    `RepositoryBase` keeps the transaction flags that decide commit or rollback. */
module Repository {
  import opened Values
  import opened Enums
  import Util

  /** A row of `t_message`. */
  datatype MessageRow = MessageRow(
    messageId: int,
    sendType: int,
    compeNo: int,
    destMemberId: Option<string>,
    memberId: string,
    time: int,
    message: Option<string>,
    stampId: Option<string>,
    isDelete: bool)

  /** A row of `m_stamp`. */
  datatype StampRow = StampRow(stampId: int, stampUrl: string, isDelete: bool)

  /** `GetMessagesData`: a selected message with the URL of its stamp, if any. */
  datatype GetMessagesData = GetMessagesData(
    messageId: int,
    sendType: int,
    compeNo: int,
    memberId: string,
    time: int,
    message: Option<string>,
    stamp: Option<string>)

  /** `StampData`. */
  datatype StampData = StampData(stampId: int, stampUrl: string)

  // ---------------------------------------------------------------- ORDER BY

  datatype Direction = Ascending | Descending

  /** Lexicographic order on a two-column sort key. */
  predicate KeyLe(a: (int, int), b: (int, int))
  {
    a.0 < b.0 || (a.0 == b.0 && a.1 <= b.1)
  }

  predicate InOrder<T>(key: T -> (int, int), dir: Direction, a: T, b: T)
  {
    if dir == Ascending then KeyLe(key(a), key(b)) else KeyLe(key(b), key(a))
  }

  predicate SortedBy<T>(s: seq<T>, key: T -> (int, int), dir: Direction)
  {
    forall i, j :: 0 <= i < j < |s| ==> InOrder(key, dir, s[i], s[j])
  }

  lemma InOrderTotal<T>(key: T -> (int, int), dir: Direction, a: T, b: T)
    ensures InOrder(key, dir, a, b) || InOrder(key, dir, b, a)
  {
  }

  lemma InOrderTransitive<T>(key: T -> (int, int), dir: Direction, a: T, b: T, c: T)
    requires InOrder(key, dir, a, b) && InOrder(key, dir, b, c)
    ensures InOrder(key, dir, a, c)
  {
  }

  function Insert<T>(x: T, s: seq<T>, key: T -> (int, int), dir: Direction): seq<T>
  {
    if s == [] then [x]
    else if InOrder(key, dir, x, s[0]) then [x] + s
    else [s[0]] + Insert(x, s[1..], key, dir)
  }

  lemma {:induction false} InsertPermutes<T>(x: T, s: seq<T>, key: T -> (int, int), dir: Direction)
    ensures multiset(Insert(x, s, key, dir)) == multiset(s) + multiset{x}
  {
    if s != [] && !InOrder(key, dir, x, s[0]) {
      InsertPermutes(x, s[1..], key, dir);
      assert s == [s[0]] + s[1..];
    }
  }

  /** The elements of an insertion are the inserted one and the old ones. */
  lemma {:induction false} InsertElement<T>(x: T, s: seq<T>, key: T -> (int, int), dir: Direction, y: T)
    ensures y in Insert(x, s, key, dir) <==> y == x || y in s
  {
    if s != [] && !InOrder(key, dir, x, s[0]) {
      InsertElement(x, s[1..], key, dir, y);
      assert s == [s[0]] + s[1..];
    }
  }

  /** A head that comes before every element of a sorted tail keeps it sorted. */
  lemma ConsSorted<T>(h: T, t: seq<T>, key: T -> (int, int), dir: Direction)
    requires SortedBy(t, key, dir)
    requires forall y :: y in t ==> InOrder(key, dir, h, y)
    ensures SortedBy([h] + t, key, dir)
  {
    var r := [h] + t;
    forall i, j | 0 <= i < j < |r| ensures InOrder(key, dir, r[i], r[j]) {
      assert r[j] == t[j - 1];
      if i > 0 {
        assert r[i] == t[i - 1];
      }
    }
  }

  /** What comes before the head of a sorted sequence comes before all of it. */
  lemma HeadBound<T>(x: T, s: seq<T>, key: T -> (int, int), dir: Direction)
    requires SortedBy(s, key, dir) && s != [] && InOrder(key, dir, x, s[0])
    ensures forall y :: y in s ==> InOrder(key, dir, x, y)
  {
    forall y | y in s ensures InOrder(key, dir, x, y) {
      var k :| 0 <= k < |s| && s[k] == y;
      if k > 0 {
        InOrderTransitive(key, dir, x, s[0], y);
      }
    }
  }

  lemma {:induction false} InsertSorted<T>(x: T, s: seq<T>, key: T -> (int, int), dir: Direction)
    requires SortedBy(s, key, dir)
    ensures SortedBy(Insert(x, s, key, dir), key, dir)
  {
    if s == [] {
    } else if InOrder(key, dir, x, s[0]) {
      HeadBound(x, s, key, dir);
      ConsSorted(x, s, key, dir);
    } else {
      InOrderTotal(key, dir, x, s[0]);
      var tail := s[1..];
      assert SortedBy(tail, key, dir) by {
        forall i, j | 0 <= i < j < |tail| ensures InOrder(key, dir, tail[i], tail[j]) {
          assert tail[i] == s[i + 1] && tail[j] == s[j + 1];
        }
      }
      InsertSorted(x, tail, key, dir);
      forall y | y in Insert(x, tail, key, dir) ensures InOrder(key, dir, s[0], y) {
        InsertElement(x, tail, key, dir, y);
        if y != x {
          assert y in tail;
          var k :| 0 <= k < |tail| && tail[k] == y;
          assert s[k + 1] == y;
        }
      }
      ConsSorted(s[0], Insert(x, tail, key, dir), key, dir);
    }
  }

  /** `ORDER BY` on a key, by insertion sort. */
  function SortBy<T>(s: seq<T>, key: T -> (int, int), dir: Direction): seq<T>
  {
    if s == [] then [] else Insert(s[0], SortBy(s[1..], key, dir), key, dir)
  }

  /** The ORDER BY result is a sorted permutation of its input. */
  lemma {:induction false} SortBySpec<T>(s: seq<T>, key: T -> (int, int), dir: Direction)
    ensures SortedBy(SortBy(s, key, dir), key, dir)
    ensures multiset(SortBy(s, key, dir)) == multiset(s)
  {
    if s != [] {
      SortBySpec(s[1..], key, dir);
      InsertSorted(s[0], SortBy(s[1..], key, dir), key, dir);
      InsertPermutes(s[0], SortBy(s[1..], key, dir), key, dir);
      assert s == [s[0]] + s[1..];
    }
  }

  /** `LIMIT n`. */
  function Take<T>(s: seq<T>, n: nat): seq<T>
  {
    if n < |s| then s[..n] else s
  }

  // ---------------------------------------------------------------- findMessages

  /** The arguments of `findMessages`. */
  datatype MessageQuery = MessageQuery(
    receptLevel: ReceptLevel,
    beforeTime: int,
    count: int,
    compeNo: int,
    memberId: string,
    excludeMyself: bool)

  /** The visibility clause: to everyone; to participants when the reader receives
      everything; or a direct message the reader received or sent. */
  predicate Visible(row: MessageRow, receptLevel: ReceptLevel, memberId: string)
  {
    || row.sendType == 1
    || (receptLevel == ReceptLevel.All && row.sendType == 2)
    || (row.sendType == 3 && (row.destMemberId == Some(memberId) || row.memberId == memberId))
  }

  /** The WHERE clause of the inner query. */
  predicate Matches(row: MessageRow, q: MessageQuery)
  {
    && row.compeNo == q.compeNo
    && !row.isDelete
    && (q.beforeTime > 0 ==> row.time < q.beforeTime)
    && Visible(row, q.receptLevel, q.memberId)
    && (q.excludeMyself ==> row.memberId != q.memberId)
  }

  /** The rows the WHERE clause keeps, in table order. */
  function Filter(rows: seq<MessageRow>, q: MessageQuery): (r: seq<MessageRow>)
    ensures forall x :: multiset(r)[x] == if Matches(x, q) then multiset(rows)[x] else 0
  {
    if rows == [] then []
    else
      assert rows == [rows[0]] + rows[1..];
      var rest := Filter(rows[1..], q);
      if Matches(rows[0], q) then [rows[0]] + rest else rest
  }

  function RowKey(row: MessageRow): (int, int)
  {
    (row.time, row.messageId)
  }

  /** The inner query: matches newest first, the first `count` of them when
      `count > 0`. */
  function Newest(rows: seq<MessageRow>, q: MessageQuery): seq<MessageRow>
  {
    var newestFirst := SortBy(Filter(rows, q), RowKey, Descending);
    if q.count > 0 then Take(newestFirst, q.count) else newestFirst
  }

  /** The inner query and the outer ORDER BY, oldest first. */
  function SelectRows(rows: seq<MessageRow>, q: MessageQuery): seq<MessageRow>
  {
    SortBy(Newest(rows, q), RowKey, Ascending)
  }

  /** `LIMIT n` (when `n > 0`) keeps a prefix and drops the rest. */
  lemma TakeSplit<T>(s: seq<T>, n: int) returns (dropped: seq<T>)
    ensures (if n > 0 then Take(s, n) else s) + dropped == s
    ensures n <= 0 ==> dropped == []
    ensures n > 0 ==> |Take(s, n)| == if n < |s| then n else |s|
  {
    if n > 0 && n < |s| {
      dropped := s[n..];
    } else {
      dropped := [];
    }
  }

  /** The inner query splits the matches, sorted newest first, into the rows it
      keeps and the rows it drops. */
  lemma NewestSplits(rows: seq<MessageRow>, q: MessageQuery) returns (dropped: seq<MessageRow>)
    ensures SortedBy(Newest(rows, q) + dropped, RowKey, Descending)
    ensures multiset(Newest(rows, q) + dropped) == multiset(Filter(rows, q))
    ensures multiset(SelectRows(rows, q)) == multiset(Newest(rows, q))
    ensures SortedBy(SelectRows(rows, q), RowKey, Ascending)
    ensures q.count <= 0 ==> dropped == []
    ensures q.count > 0 ==> |Newest(rows, q)| == if q.count < |Filter(rows, q)| then q.count else |Filter(rows, q)|
  {
    var matches := Filter(rows, q);
    var newestFirst := SortBy(matches, RowKey, Descending);
    SortBySpec(matches, RowKey, Descending);
    var kept := Newest(rows, q);
    SortBySpec(kept, RowKey, Ascending);
    dropped := TakeSplit(newestFirst, q.count);
    assert kept + dropped == newestFirst;
    assert |newestFirst| == |matches| by {
      assert |multiset(newestFirst)| == |multiset(matches)|;
    }
  }

  /** Every selected message is a row of the table that the WHERE clause keeps:
      of the event, not deleted, before the cursor, visible to the reader, and not
      the reader's own when `excludeMyself` holds. */
  lemma SelectedRowsMatch(rows: seq<MessageRow>, q: MessageQuery)
    ensures multiset(SelectRows(rows, q)) <= multiset(Filter(rows, q))
    ensures forall x :: x in SelectRows(rows, q) ==> x in rows && Matches(x, q)
  {
    var dropped := NewestSplits(rows, q);
    var r := SelectRows(rows, q);
    assert multiset(Newest(rows, q) + dropped) == multiset(Newest(rows, q)) + multiset(dropped);
    forall x | x in r ensures x in rows && Matches(x, q) {
      assert x in multiset(r);
      assert x in multiset(Filter(rows, q));
    }
  }

  /** Selected messages come oldest first, ties broken by message id. */
  lemma SelectedRowsSorted(rows: seq<MessageRow>, q: MessageQuery)
    ensures SortedBy(SelectRows(rows, q), RowKey, Ascending)
  {
    var _ := NewestSplits(rows, q);
  }

  /** Without a limit every match is returned; with one, `count` of them or all
      when there are fewer. */
  lemma SelectedRowsCount(rows: seq<MessageRow>, q: MessageQuery)
    ensures q.count <= 0 ==> multiset(SelectRows(rows, q)) == multiset(Filter(rows, q))
    ensures q.count > 0 ==>
      |SelectRows(rows, q)| == if q.count < |Filter(rows, q)| then q.count else |Filter(rows, q)|
  {
    var dropped := NewestSplits(rows, q);
    var r := SelectRows(rows, q);
    assert |r| == |multiset(r)| == |Newest(rows, q)|;
    if q.count <= 0 {
      assert Newest(rows, q) + dropped == Newest(rows, q);
    }
  }

  /** With a limit, the selected messages are the newest: every match left out is
      no later, by (time, message id), than every message returned. */
  lemma SelectedRowsNewest(rows: seq<MessageRow>, q: MessageQuery)
    ensures forall x, y :: x in SelectRows(rows, q) && y in multiset(Filter(rows, q)) - multiset(SelectRows(rows, q))
              ==> KeyLe(RowKey(y), RowKey(x))
  {
    var dropped := NewestSplits(rows, q);
    var kept := Newest(rows, q);
    var r := SelectRows(rows, q);
    assert multiset(kept + dropped) == multiset(kept) + multiset(dropped);
    forall x, y | x in r && y in multiset(Filter(rows, q)) - multiset(r)
      ensures KeyLe(RowKey(y), RowKey(x))
    {
      assert x in multiset(r);
      assert y in multiset(dropped);
      PrefixBeforeSuffix(kept, dropped, RowKey, x, y);
    }
  }

  /** In a sequence sorted newest first, an element of a prefix is no older than an
      element of the rest. */
  lemma PrefixBeforeSuffix<T>(kept: seq<T>, dropped: seq<T>, key: T -> (int, int), x: T, y: T)
    requires SortedBy(kept + dropped, key, Descending)
    requires x in kept && y in dropped
    ensures KeyLe(key(y), key(x))
  {
    var all := kept + dropped;
    var i :| 0 <= i < |kept| && kept[i] == x;
    var j :| 0 <= j < |dropped| && dropped[j] == y;
    assert all[i] == x && all[|kept| + j] == y;
  }

  /** The message's `stamp_id` text names the catalog id, as MySQL's comparison of
      the text with the integer column does for a decimal numeral. */
  predicate Denotes(stampId: Option<string>, id: int)
  {
    stampId.Some? && Util.ParseDecimal(stampId.value) == Some(id)
  }

  /** The live stamp a message's `stamp_id` names: the LEFT JOIN of `findMessages`
      and the query of `findStamp`. */
  function FindStampRow(stamps: seq<StampRow>, stampId: Option<string>): (r: Option<StampRow>)
    ensures r.Some? ==> r.value in stamps && !r.value.isDelete && Denotes(stampId, r.value.stampId)
    ensures r.None? <==> forall s :: s in stamps ==> s.isDelete || !Denotes(stampId, s.stampId)
  {
    if stamps == [] then None
    else if !stamps[0].isDelete && Denotes(stampId, stamps[0].stampId) then Some(stamps[0])
    else
      assert forall s :: s in stamps ==> s == stamps[0] || s in stamps[1..];
      FindStampRow(stamps[1..], stampId)
  }

  /** The `stamp` column of the outer SELECT: null unless a live stamp has the id. */
  function StampUrl(stamps: seq<StampRow>, stampId: Option<string>): (r: Option<string>)
    ensures r.None? <==> forall s :: s in stamps ==> s.isDelete || !Denotes(stampId, s.stampId)
    ensures r.Some? ==> exists s :: s in stamps && !s.isDelete && Denotes(stampId, s.stampId) && s.stampUrl == r.value
  {
    match FindStampRow(stamps, stampId)
    case Some(s) => Some(s.stampUrl)
    case None => None
  }

  /** A selected row as the outer SELECT returns it. */
  function ToData(row: MessageRow, stamps: seq<StampRow>): GetMessagesData
  {
    GetMessagesData(row.messageId, row.sendType, row.compeNo, row.memberId, row.time, row.message,
                    StampUrl(stamps, row.stampId))
  }

  // ---------------------------------------------------------------- transactions

  /** What `close` does with the connection before closing it. */
  datatype CloseAction = Commit | Rollback | CloseOnly

  /** `RepositoryBase`'s transaction flags. */
  class RepositoryBase {
    var useTransaction: bool
    var isComplete: bool

    constructor ()
      ensures !useTransaction && !isComplete
    {
      useTransaction := false;
      isComplete := false;
    }

    /** `complete`. */
    method Complete()
      modifies this
      ensures isComplete && useTransaction == old(useTransaction)
    {
      isComplete := true;
    }

    /** `execute`: the statement joins a transaction; whether it succeeded decides
      whether that transaction is complete, and a failure raises. */
    method Execute(statementSucceeds: bool) returns (r: Outcome<()>)
      modifies this
      ensures useTransaction
      ensures isComplete == statementSucceeds
      ensures r == if statementSucceeds then Ok(()) else Raised(RepositoryException)
    {
      useTransaction := true;
      if statementSucceeds {
        isComplete := true;
        r := Ok(());
      } else {
        isComplete := false;
        r := Raised(RepositoryException);
      }
    }

    /** `close`: commit exactly when a transaction was used and completed, roll back
        when one was used and not completed. */
    method Close() returns (action: CloseAction)
      ensures action == Commit <==> useTransaction && isComplete
      ensures action == Rollback <==> useTransaction && !isComplete
    {
      if useTransaction {
        if isComplete {
          action := Commit;
        } else {
          action := Rollback;
        }
      } else {
        action := CloseOnly;
      }
    }
  }

  /** The contents and flags of the database, as a value. */
  datatype Store = Store(messages: seq<MessageRow>, stamps: seq<StampRow>, nextId: int, reachable: bool, accepting: bool)
  {
    /** A connection opens and statements succeed. */
    predicate Working()
    {
      reachable && accepting
    }
  }

  /** The database the repositories connect to. Whether a connection can be opened
      and whether statements succeed are part of its state. */
  class Database {
    var messages: seq<MessageRow>
    var stamps: seq<StampRow>
    /** The auto-increment counter of `t_message.message_id`. */
    var nextId: int
    var reachable: bool
    var accepting: bool

    function State(): Store
      reads this
    {
      Store(messages, stamps, nextId, reachable, accepting)
    }

    predicate Working()
      reads this
    {
      State().Working()
    }
  }

  /** `MessageDatRepository.save` inside its `with` block: the INSERT runs in a
      transaction that `close` commits, and the row gets the next id. */
  method Save(db: Database, data: MessageRow) returns (r: Outcome<int>)
    modifies db
    ensures r.Ok? <==> old(db.Working())
    ensures r.Raised? ==> r.fault == RepositoryException
    ensures r.Ok? ==> r.value == old(db.nextId)
                      && db.messages == old(db.messages) + [data.(messageId := r.value)]
                      && db.nextId == old(db.nextId) + 1
    ensures r.Raised? ==> db.messages == old(db.messages) && db.nextId == old(db.nextId)
    ensures db.stamps == old(db.stamps) && db.reachable == old(db.reachable)
    ensures db.accepting == old(db.accepting)
  {
    if !db.reachable {
      return Raised(RepositoryException);
    }
    var repository := new RepositoryBase();
    var executed := repository.Execute(db.accepting);
    var action := repository.Close();
    var id := db.nextId;
    if action == Commit {
      db.messages := db.messages + [data.(messageId := id)];
      db.nextId := db.nextId + 1;
    }
    if executed.Raised? {
      return Raised(executed.fault);
    }
    return Ok(id);
  }

  /** `MessageDatRepository.findMessages`: runs the query and copies each cursor
      row into a `GetMessagesData`. */
  method FindMessages(db: Database, q: MessageQuery) returns (r: Outcome<seq<GetMessagesData>>)
    ensures r.Raised? <==> !db.Working()
    ensures r.Raised? ==> r.fault == RepositoryException
    ensures r.Ok? ==> var rows := SelectRows(db.messages, q);
                      |r.value| == |rows|
                      && forall i :: 0 <= i < |rows| ==> r.value[i] == ToData(rows[i], db.stamps)
  {
    if !db.Working() {
      return Raised(RepositoryException);
    }
    var cursor := SelectRows(db.messages, q);
    var messages: seq<GetMessagesData> := [];
    var i := 0;
    while i < |cursor|
      invariant 0 <= i <= |cursor|
      invariant |messages| == i
      invariant forall k :: 0 <= k < i ==> messages[k] == ToData(cursor[k], db.stamps)
    {
      var row := cursor[i];
      messages := messages + [GetMessagesData(row.messageId, row.sendType, row.compeNo, row.memberId,
                                              row.time, row.message, StampUrl(db.stamps, row.stampId))];
      i := i + 1;
    }
    return Ok(messages);
  }

  function StampKey(s: StampRow): (int, int)
  {
    (s.stampId, 0)
  }

  /** The live stamps, the WHERE clause of `findStamps`. */
  function LiveStamps(stamps: seq<StampRow>): (r: seq<StampRow>)
    ensures forall s :: multiset(r)[s] == if s.isDelete then 0 else multiset(stamps)[s]
  {
    if stamps == [] then []
    else
      assert stamps == [stamps[0]] + stamps[1..];
      var rest := LiveStamps(stamps[1..]);
      if stamps[0].isDelete then rest else [stamps[0]] + rest
  }

  /** The loop that copies each cursor row into a `StampData`. */
  method CopyStamps(cursor: seq<StampRow>) returns (stamps: seq<StampData>)
    ensures |stamps| == |cursor|
    ensures forall k :: 0 <= k < |cursor| ==> stamps[k] == StampData(cursor[k].stampId, cursor[k].stampUrl)
  {
    stamps := [];
    var i := 0;
    while i < |cursor|
      invariant 0 <= i <= |cursor|
      invariant |stamps| == i
      invariant forall k :: 0 <= k < i ==> stamps[k] == StampData(cursor[k].stampId, cursor[k].stampUrl)
    {
      stamps := stamps + [StampData(cursor[i].stampId, cursor[i].stampUrl)];
      i := i + 1;
    }
  }

  /** `StampMstRepository.findStamps`: the live stamps in ascending id order. */
  method FindStamps(db: Database) returns (r: Outcome<seq<StampData>>)
    ensures r.Raised? <==> !db.Working()
    ensures r.Raised? ==> r.fault == RepositoryException
    ensures r.Ok? ==> var rows := SortBy(LiveStamps(db.stamps), StampKey, Ascending);
                      |r.value| == |rows|
                      && forall i :: 0 <= i < |rows| ==> r.value[i] == StampData(rows[i].stampId, rows[i].stampUrl)
  {
    if !db.Working() {
      return Raised(RepositoryException);
    }
    var stamps := CopyStamps(SortBy(LiveStamps(db.stamps), StampKey, Ascending));
    return Ok(stamps);
  }

  /** `findStamps` returns exactly the live stamps, in ascending id order. */
  lemma FoundStamps(stamps: seq<StampRow>)
    ensures var rows := SortBy(LiveStamps(stamps), StampKey, Ascending);
            && (forall i, j :: 0 <= i < j < |rows| ==> rows[i].stampId <= rows[j].stampId)
            && (forall s :: s in rows <==> s in stamps && !s.isDelete)
  {
    var rows := SortBy(LiveStamps(stamps), StampKey, Ascending);
    SortBySpec(LiveStamps(stamps), StampKey, Ascending);
    forall s ensures s in rows <==> s in stamps && !s.isDelete {
      assert s in rows <==> s in multiset(rows);
      assert s in stamps <==> s in multiset(stamps);
    }
  }

  /** `StampMstRepository.findStamp`: the first live stamp with that id. */
  method FindStamp(db: Database, stampId: Option<string>) returns (r: Outcome<Option<StampData>>)
    ensures r.Raised? <==> !db.Working()
    ensures r.Raised? ==> r.fault == RepositoryException
    ensures r.Ok? ==> (r.value.None? <==> forall s :: s in db.stamps ==> s.isDelete || !Denotes(stampId, s.stampId))
    ensures r.Ok? && r.value.Some? ==>
              var s := FindStampRow(db.stamps, stampId).value;
              s in db.stamps && !s.isDelete && Denotes(stampId, s.stampId) && r.value.value == StampData(s.stampId, s.stampUrl)
  {
    if !db.Working() {
      return Raised(RepositoryException);
    }
    match FindStampRow(db.stamps, stampId)
    case Some(s) => return Ok(Some(StampData(s.stampId, s.stampUrl)));
    case None => return Ok(None);
  }
}
