/** The enumerations of src/enums.py with their wire values, and `ParsableEnum.parse`,
    a first-match search over an enumeration's members in declaration order. */
module Enums {
  import opened Values

  /** `ResultStatus`: the status code of every response. */
  datatype ResultStatus =
    | Success | LoginError | ParamError | ResultError
    | MethodError | RepositoryError | ValidationError | ServerError
  {
    function Value(): int
    {
      match this
      case Success => 0
      case LoginError => 90000
      case ParamError => 90001
      case ResultError => 90002
      case MethodError => 90003
      case RepositoryError => 90004
      case ValidationError => 90100
      case ServerError => 99999
    }
  }

  /** `ReceptLevel`: whether event-wide messages reach a participant. */
  datatype ReceptLevel = Gallery | All
  {
    function Value(): int
    {
      match this
      case Gallery => 1
      case All => 2
    }
  }

  /** `MethodType`: the request kinds, and 99 for messages pushed by a send. */
  datatype MethodType =
    | Init | GetMessages | SendMessage | GetStamps | GetNewMessages | GetMessagesFromSend
  {
    function Value(): int
    {
      match this
      case Init => 1
      case GetMessages => 2
      case SendMessage => 3
      case GetStamps => 4
      case GetNewMessages => 5
      case GetMessagesFromSend => 99
    }
  }

  /** `SendType`: to everyone, to the event's participants, or to one member. */
  datatype SendType = All | Compe | User
  {
    function Value(): int
    {
      match this
      case All => 1
      case Compe => 2
      case User => 3
    }
  }

  /** The members of each parsable enumeration, in declaration order. */
  const ReceptLevels: seq<ReceptLevel> := [Gallery, ReceptLevel.All]
  const MethodTypes: seq<MethodType> :=
    [Init, GetMessages, SendMessage, GetStamps, GetNewMessages, GetMessagesFromSend]
  const SendTypes: seq<SendType> := [SendType.All, Compe, User]

  /** The loop of `ParsableEnum.parse`: the first member whose value is `v`. */
  function FirstWithValue<E>(members: seq<E>, valueOf: E -> int, v: int): (r: Option<E>)
    ensures r.Some? ==> exists k :: 0 <= k < |members| && members[k] == r.value
                          && valueOf(r.value) == v
                          && forall j :: 0 <= j < k ==> valueOf(members[j]) != v
    ensures r.None? <==> forall j :: 0 <= j < |members| ==> valueOf(members[j]) != v
  {
    if members == [] then None
    else if valueOf(members[0]) == v then Some(members[0])
    else
      var r := FirstWithValue(members[1..], valueOf, v);
      assert r.Some? ==> exists k :: 1 <= k < |members| && members[k] == r.value
                          && valueOf(r.value) == v
                          && forall j :: 0 <= j < k ==> valueOf(members[j]) != v by {
        if r.Some? {
          var k :| 0 <= k < |members[1..]| && members[1..][k] == r.value
                   && forall j :: 0 <= j < k ==> valueOf(members[1..][j]) != v;
          assert members[k + 1] == r.value;
        }
      }
      r
  }

  /** `ParsableEnum.parse`. */
  function Parse<E>(members: seq<E>, valueOf: E -> int, value: Option<int>): Option<E>
  {
    match value
    case None => None
    case Some(v) => FirstWithValue(members, valueOf, v)
  }

  /** No two members share a value. */
  predicate DistinctValues<E>(members: seq<E>, valueOf: E -> int)
  {
    forall i, j :: 0 <= i < j < |members| ==> valueOf(members[i]) != valueOf(members[j])
  }

  /** With distinct values, parsing a member's value gives the member back, and a
      value no member has parses to None. */
  lemma ParseMember<E>(members: seq<E>, valueOf: E -> int, m: E)
    requires DistinctValues(members, valueOf)
    requires m in members
    ensures Parse(members, valueOf, Some(valueOf(m))) == Some(m)
  {
    var j :| 0 <= j < |members| && members[j] == m;
    var r := Parse(members, valueOf, Some(valueOf(m)));
    assert r.Some?;
    var k :| 0 <= k < |members| && members[k] == r.value && valueOf(r.value) == valueOf(m)
             && forall i :: 0 <= i < k ==> valueOf(members[i]) != valueOf(m);
    assert !(k < j);
    assert !(j < k);
  }

  function ParseReceptLevel(value: Option<int>): Option<ReceptLevel>
  {
    Parse(ReceptLevels, (l: ReceptLevel) => l.Value(), value)
  }

  function ParseMethodType(value: Option<int>): Option<MethodType>
  {
    Parse(MethodTypes, (m: MethodType) => m.Value(), value)
  }

  function ParseSendType(value: Option<int>): Option<SendType>
  {
    Parse(SendTypes, (t: SendType) => t.Value(), value)
  }

  /** `ReceptLevel.parse` accepts exactly 1 and 2, and inverts `value`. */
  lemma ReceptLevelTable(n: int)
    ensures ParseReceptLevel(None) == None
    ensures ParseReceptLevel(Some(n)).Some? <==> n == 1 || n == 2
    ensures ParseReceptLevel(Some(n)).Some? ==> ParseReceptLevel(Some(n)).value.Value() == n
    ensures forall l: ReceptLevel :: ParseReceptLevel(Some(l.Value())) == Some(l)
  {
    var f := (l: ReceptLevel) => l.Value();
    assert DistinctValues(ReceptLevels, f);
    forall l: ReceptLevel ensures ParseReceptLevel(Some(l.Value())) == Some(l) {
      assert l == ReceptLevels[if l == Gallery then 0 else 1];
      ParseMember(ReceptLevels, f, l);
    }
    if n == 1 || n == 2 {
      assert f(ReceptLevels[n - 1]) == n;
    }
  }

  /** `MethodType.parse` accepts exactly 1 to 5 and 99, and inverts `value`. */
  lemma MethodTypeTable(n: int)
    ensures ParseMethodType(None) == None
    ensures ParseMethodType(Some(n)).Some? <==> 1 <= n <= 5 || n == 99
    ensures ParseMethodType(Some(n)).Some? ==> ParseMethodType(Some(n)).value.Value() == n
    ensures forall m: MethodType :: ParseMethodType(Some(m.Value())) == Some(m)
  {
    var f := (m: MethodType) => m.Value();
    forall m: MethodType ensures ParseMethodType(Some(m.Value())) == Some(m) {
      MethodTypesDistinct();
      assert m == MethodTypes[if m == GetMessagesFromSend then 5 else m.Value() - 1];
      ParseMember(MethodTypes, f, m);
    }
    var r := ParseMethodType(Some(n));
    if r.Some? {
      assert f(r.value) == n;
    }
    if 1 <= n <= 5 {
      assert f(MethodTypes[n - 1]) == n;
    } else if n == 99 {
      assert f(MethodTypes[5]) == n;
    }
  }

  lemma MethodTypesDistinct()
    ensures DistinctValues(MethodTypes, (m: MethodType) => m.Value())
  {
    var f := (m: MethodType) => m.Value();
    forall i, j | 0 <= i < j < |MethodTypes| ensures f(MethodTypes[i]) != f(MethodTypes[j]) {
      assert f(MethodTypes[i]) == if i == 5 then 99 else i + 1;
      assert f(MethodTypes[j]) == if j == 5 then 99 else j + 1;
    }
  }

  /** `SendType.parse` accepts exactly 1, 2 and 3, and inverts `value`. */
  lemma SendTypeTable(n: int)
    ensures ParseSendType(None) == None
    ensures ParseSendType(Some(n)).Some? <==> 1 <= n <= 3
    ensures ParseSendType(Some(n)).Some? ==> ParseSendType(Some(n)).value.Value() == n
    ensures forall t: SendType :: ParseSendType(Some(t.Value())) == Some(t)
  {
    var f := (t: SendType) => t.Value();
    assert DistinctValues(SendTypes, f);
    forall t: SendType ensures ParseSendType(Some(t.Value())) == Some(t) {
      assert t == SendTypes[t.Value() - 1];
      ParseMember(SendTypes, f, t);
    }
    if 1 <= n <= 3 {
      assert f(SendTypes[n - 1]) == n;
    }
  }

  /** The status codes are pairwise distinct, so a response's status names one status. */
  lemma StatusCodesDistinct(s: ResultStatus, t: ResultStatus)
    ensures s.Value() == t.Value() <==> s == t
  {
  }
}
