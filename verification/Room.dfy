/** hub/chatroom.go: who is in the room, and how many are counted as connected (verbose mode). */
module Room {
  import opened SafeVals
  import Sums

  // ----- every interleaving of joining and leaving -----

  datatype Stage = HasId | InMap | InCount

  /** One call of l_addClient. Joins are numbered in the order of line 40. */
  datatype Join = Join(id: uint32, stage: Stage, closes: nat)

  datatype State = State(
    numclients: uint32,
    connected: uint32,
    clients: map<uint32, nat>,  // the client of join j is written j
    joins: seq<Join>)

  /** One action per atomic operation or critical section. Remove(j) is l_delClient for the
      client of join j, whoever calls it: the read loop, the sender or a closing room. */
  datatype Action = Enter | Insert(j: nat) | Count(j: nat) | Remove(j: nat)

  const EMPTY := State(0, 0, map[], [])

  predicate Enabled(s: State, a: Action) {
    match a
    case Enter => true
    case Insert(j) => j < |s.joins| && s.joins[j].stage.HasId?
    case Count(j) => j < |s.joins| && s.joins[j].stage.InMap?
    case Remove(j) => j < |s.joins| && !s.joins[j].stage.HasId?
  }

  function Apply(s: State, a: Action): State
    requires Enabled(s, a)
  {
    match a
    case Enter =>
      var id := AddU32(s.numclients, 1);
      s.(numclients := id, joins := s.joins + [Join(id, HasId, 0)])
    case Insert(j) =>
      s.(clients := s.clients[s.joins[j].id := j], joins := s.joins[j := s.joins[j].(stage := InMap)])
    case Count(j) =>
      s.(connected := AddU32(s.connected, 1), joins := s.joins[j := s.joins[j].(stage := InCount)])
    case Remove(j) =>
      var id := s.joins[j].id;
      if id !in s.clients then s
      else
        s.(clients := s.clients - {id}, connected := SubU32(s.connected, 1),
           joins := s.joins[j := s.joins[j].(closes := s.joins[j].closes + 1)])
  }

  predicate Legal(s: State, acts: seq<Action>)
    decreases acts
  {
    acts == [] || (Enabled(s, acts[0]) && Legal(Apply(s, acts[0]), acts[1..]))
  }

  function Run(s: State, acts: seq<Action>): State
    requires Legal(s, acts)
    decreases acts
  {
    if acts == [] then s else Run(Apply(s, acts[0]), acts[1..])
  }

  /** 1 for a join that has inserted its client and not counted it yet. */
  function Uncounted(j: Join): int {
    if j.stage.InMap? then 1 else 0
  }

  predicate JoinOk(s: State, j: nat) {
    && j < |s.joins|
    && s.joins[j].id as int == j + 1
    && s.joins[j].closes <= 1
    && (s.joins[j].stage.HasId? ==> s.joins[j].closes == 0)
    && (s.joins[j].id in s.clients <==> !s.joins[j].stage.HasId? && s.joins[j].closes == 0)
    && (s.joins[j].id in s.clients ==> s.clients[s.joins[j].id] == j)
  }

  predicate Inv(s: State) {
    && |s.joins| < WORD32
    && s.numclients as int == |s.joins|
    && (forall j: nat :: j < |s.joins| ==> JoinOk(s, j))
    && (forall id <- s.clients :: 1 <= id as int <= |s.joins|)
    && s.connected == Wrap32(Balance(s))
  }

  lemma {:induction false} SumSnoc<T>(s: seq<T>, x: T, f: T -> int)
    ensures Sums.Sum(s + [x], f) == Sums.Sum(s, f) + f(x)
  {
    if s != [] {
      assert (s + [x])[1..] == s[1..] + [x];
      SumSnoc(s[1..], x, f);
    }
  }

  lemma Inserted<K, V>(m: map<K, V>, k: K, v: V)
    requires k !in m
    ensures |m[k := v]| == |m| + 1
  {
    assert m[k := v].Keys == m.Keys + {k};
  }

  lemma Deleted<K, V>(m: map<K, V>, k: K)
    requires k in m
    ensures |m - {k}| == |m| - 1
  {
    assert (m - {k}).Keys == m.Keys - {k};
  }

  lemma JoinsStayOk(s: State, a: Action, j: nat)
    requires Inv(s) && Enabled(s, a) && (a.Enter? ==> |s.joins| + 1 < WORD32)
    requires j < |Apply(s, a).joins|
    ensures JoinOk(Apply(s, a), j)
  {
    if j < |s.joins| { assert JoinOk(s, j); }
    if !a.Enter? { assert JoinOk(s, a.j); }
  }

  function Balance(s: State): int {
    |s.clients| - Sums.Sum(s.joins, Uncounted)
  }

  lemma BalanceAfter(s: State, a: Action)
    requires Inv(s) && Enabled(s, a)
    ensures Balance(Apply(s, a)) == Balance(s)
              + (if a.Count? then 1 else if a.Remove? && s.joins[a.j].id in s.clients then -1 else 0)
  {
    if a.Enter? {
      SumSnoc(s.joins, Join(AddU32(s.numclients, 1), HasId, 0), Uncounted);
    } else {
      var j := a.j;
      assert JoinOk(s, j);
      Sums.SumUpdate(s.joins, Uncounted, j, Apply(s, a).joins[j]);
      if a.Insert? { Inserted(s.clients, s.joins[j].id, j); }
      if a.Remove? && s.joins[j].id in s.clients {
        Deleted(s.clients, s.joins[j].id);
      } else if a.Remove? {
        assert Apply(s, a) == s;
      }
    }
  }

  lemma ConnectedAfter(s: State, a: Action)
    requires Inv(s) && Enabled(s, a)
    ensures Apply(s, a).connected == Wrap32(Balance(Apply(s, a)))
  {
    BalanceAfter(s, a);
    if a.Count? {
      AddU32IsModular(s.connected, 1);
      Wrap32Absorbs(Balance(s), 1);
    } else if a.Remove? && s.joins[a.j].id in s.clients {
      SubU32IsModular(s.connected, 1);
      Wrap32Absorbs(Balance(s), -1);
    }
  }

  lemma ApplyKeepsInv(s: State, a: Action)
    requires Inv(s) && Enabled(s, a) && (a.Enter? ==> |s.joins| + 1 < WORD32)
    ensures Inv(Apply(s, a))
  {
    var s' := Apply(s, a);
    forall j: nat | j < |s'.joins| ensures JoinOk(s', j) {
      JoinsStayOk(s, a, j);
    }
    ConnectedAfter(s, a);
    if !a.Enter? { assert JoinOk(s, a.j); }
  }

  lemma {:induction false} JoinsGrow(s: State, acts: seq<Action>)
    requires Legal(s, acts)
    ensures |s.joins| <= |Run(s, acts).joins|
    decreases acts
  {
    if acts != [] {
      JoinsGrow(Apply(s, acts[0]), acts[1..]);
    }
  }

  lemma {:induction false} RunKeepsInv(s: State, acts: seq<Action>)
    requires Inv(s) && Legal(s, acts) && |Run(s, acts).joins| < WORD32
    ensures Inv(Run(s, acts))
    decreases acts
  {
    if acts != [] {
      JoinsGrow(Apply(s, acts[0]), acts[1..]);
      ApplyKeepsInv(s, acts[0]);
      RunKeepsInv(Apply(s, acts[0]), acts[1..]);
    }
  }

  /** With fewer than 2^32 joins: the connected counter is the size of the map minus the joins
      that have not counted themselves yet, modulo 2^32, even when a removal overtakes its own
      join; and every connection is closed at most once, exactly when it has left the map. */
  lemma CountsMembers(acts: seq<Action>)
    requires Legal(EMPTY, acts) && |Run(EMPTY, acts).joins| < WORD32
    ensures var s := Run(EMPTY, acts);
            && s.connected == Wrap32(|s.clients| - Sums.Sum(s.joins, Uncounted))
            && forall j: nat :: j < |s.joins| ==>
                 && s.joins[j].closes <= 1
                 && (s.joins[j].id in s.clients <==> !s.joins[j].stage.HasId? && s.joins[j].closes == 0)
  {
    RunKeepsInv(EMPTY, acts);
    var s := Run(EMPTY, acts);
    forall j: nat | j < |s.joins|
      ensures s.joins[j].closes <= 1
      ensures s.joins[j].id in s.clients <==> !s.joins[j].stage.HasId? && s.joins[j].closes == 0
    {
      assert JoinOk(s, j);
    }
  }

  lemma {:induction false} AtMost(s: set<uint32>, n: nat)
    requires forall id <- s :: 1 <= id as int <= n
    ensures |s| <= n
    decreases n
  {
    if n == 0 {
      assert forall id :: id !in s;
    } else if n < WORD32 && (n as uint32) in s {
      AtMost(s - {n as uint32}, n - 1);
    } else {
      forall id <- s ensures 1 <= id as int <= n - 1 { }
      AtMost(s, n - 1);
    }
  }

  /** When no join is under way, the counter is the number of members, with no wrap-around. */
  lemma ExactAtRest(acts: seq<Action>)
    requires Legal(EMPTY, acts) && |Run(EMPTY, acts).joins| < WORD32
    requires forall j <- Run(EMPTY, acts).joins :: !j.stage.InMap?
    ensures Run(EMPTY, acts).connected as int == |Run(EMPTY, acts).clients|
  {
    var s := Run(EMPTY, acts);
    RunKeepsInv(EMPTY, acts);
    Sums.SumZero(s.joins, Uncounted);
    AtMost(s.clients.Keys, |s.joins|);
  }

  // ----- which runs there are -----

  /** How many joins have begun. */
  function Entered(acts: seq<Action>): nat {
    if acts == [] then 0 else Entered(acts[..|acts| - 1]) + if acts[|acts| - 1].Enter? then 1 else 0
  }

  /** What the code of l_addClient and of the callers of l_delClient orders before action a: an
      insertion comes after its join has begun, a count and a removal come after the insertion, and
      the first two happen once. Nothing else is ordered. */
  predicate Follows(past: seq<Action>, a: Action) {
    match a
    case Enter => true
    case Insert(j) => j < Entered(past) && a !in past
    case Count(j) => Insert(j) in past && a !in past
    case Remove(j) => Insert(j) in past
  }

  predicate InOrder(acts: seq<Action>) {
    forall p: nat :: p < |acts| ==> Follows(acts[..p], acts[p])
  }

  ghost predicate StagesAfter(acts: seq<Action>, s: State) {
    && |s.joins| == Entered(acts)
    && (forall j: nat :: Insert(j) in acts ==> j < |s.joins|)
    && (forall j: nat :: j < |s.joins| ==>
          s.joins[j].stage == if Count(j) in acts then InCount else if Insert(j) in acts then InMap else HasId)
    && (forall j: nat :: Count(j) in acts ==> Insert(j) in acts)
  }

  lemma {:induction false} LegalSnoc(s: State, acts: seq<Action>, a: Action)
    ensures Legal(s, acts + [a]) <==> Legal(s, acts) && Enabled(Run(s, acts), a)
    ensures Legal(s, acts + [a]) ==> Run(s, acts + [a]) == Apply(Run(s, acts), a)
    decreases acts
  {
    var all := acts + [a];
    if acts == [] {
      assert all[0] == a && all[1..] == [];
    } else {
      assert all[0] == acts[0] && all[1..] == acts[1..] + [a];
      if Enabled(s, acts[0]) { LegalSnoc(Apply(s, acts[0]), acts[1..], a); }
    }
  }

  lemma InOrderSnoc(acts: seq<Action>, a: Action)
    ensures InOrder(acts + [a]) <==> InOrder(acts) && Follows(acts, a)
  {
    var all := acts + [a];
    assert all[..|acts|] == acts && all[|acts|] == a;
    assert forall p: nat :: p < |acts| ==> all[..p] == acts[..p] && all[p] == acts[p];
  }

  lemma StagesStep(acts: seq<Action>, s: State, a: Action)
    requires StagesAfter(acts, s)
    ensures Enabled(s, a) <==> Follows(acts, a)
    ensures Enabled(s, a) ==> StagesAfter(acts + [a], Apply(s, a))
  {
    var all := acts + [a];
    assert all[..|all| - 1] == acts;
    if Enabled(s, a) {
      var s' := Apply(s, a);
      forall j: nat | j < |s'.joins|
        ensures s'.joins[j].stage == if Count(j) in all then InCount else if Insert(j) in all then InMap else HasId
      {
      }
    }
  }

  /** The possible runs are exactly the orders that the code leaves open. */
  lemma {:induction false} LegalIffInOrder(acts: seq<Action>)
    ensures Legal(EMPTY, acts) <==> InOrder(acts)
    ensures Legal(EMPTY, acts) ==> StagesAfter(acts, Run(EMPTY, acts))
    decreases |acts|
  {
    if acts != [] {
      var first, a := acts[..|acts| - 1], acts[|acts| - 1];
      assert acts == first + [a];
      LegalIffInOrder(first);
      LegalSnoc(EMPTY, first, a);
      InOrderSnoc(first, a);
      if Legal(EMPTY, first) { StagesStep(first, Run(EMPTY, first), a); }
    }
  }

  /** The member with this id has been closed once and left the map, and is no longer counted. */
  predicate MemberGone(s: State, id: uint32, s': State) {
    && id in s.clients && s.clients[id] < |s.joins|
    && (var j := s.clients[id];
        s' == s.(clients := s.clients - {id}, connected := s'.connected,
                 joins := s.joins[j := s.joins[j].(closes := 1)]))
    && s'.connected == Wrap32(s.connected as int - 1)
  }

  lemma OneLess(c: uint32)
    ensures SubU32(c, 1) == Wrap32(c as int - 1)
  {
    SubU32IsModular(c, 1);
  }

  lemma RemovesMember(s: State, j: nat)
    requires j < |s.joins| && JoinOk(s, j) && s.joins[j].id in s.clients
    ensures Enabled(s, Remove(j)) && MemberGone(s, s.joins[j].id, Apply(s, Remove(j)))
  {
    OneLess(s.connected);
  }

  /** After every run any member can be removed next, counted or not. */
  lemma AnyMemberCanLeave(acts: seq<Action>, id: uint32)
    requires Legal(EMPTY, acts) && |Run(EMPTY, acts).joins| < WORD32 && id in Run(EMPTY, acts).clients
    ensures var remove := Remove(Run(EMPTY, acts).clients[id]);
            Legal(EMPTY, acts + [remove]) && MemberGone(Run(EMPTY, acts), id, Run(EMPTY, acts + [remove]))
  {
    var s := Run(EMPTY, acts);
    var remove := Remove(s.clients[id]);
    RunKeepsInv(EMPTY, acts);
    assert JoinOk(s, id as nat - 1);
    RemovesMember(s, id as nat - 1);
    LegalSnoc(EMPTY, acts, remove);
  }

  /** n joins that have inserted their clients, k of which have been removed again, all before any
      of them has been counted. */
  function Overtaken(n: nat, k: nat): seq<Action> {
    if k > 0 then Overtaken(n, k - 1) + [Remove(k - 1)]
    else if n > 0 then Overtaken(n - 1, 0) + [Enter] + [Insert(n - 1)]
    else []
  }

  predicate HasOvertaken(s: State, n: nat, k: nat) {
    && Inv(s) && |s.joins| == n && |s.clients| == n - k && s.connected == Wrap32(0 - k as int)
    && (forall j: nat :: j < n ==> s.joins[j].stage.InMap? && s.joins[j].closes == if j < k then 1 else 0)
  }

  lemma InsertsOne(s: State, n: nat)
    requires HasOvertaken(s, n, 0) && n + 1 < WORD32
    ensures Enabled(s, Enter) && Enabled(Apply(s, Enter), Insert(n))
    ensures HasOvertaken(Apply(Apply(s, Enter), Insert(n)), n + 1, 0)
  {
    var s1 := Apply(s, Enter);
    ApplyKeepsInv(s, Enter);
    ApplyKeepsInv(s1, Insert(n));
    assert JoinOk(s1, n);
    Inserted(s1.clients, s1.joins[n].id, n);
  }

  lemma RemovesOne(s: State, n: nat, k: nat)
    requires HasOvertaken(s, n, k) && k < n < WORD32
    ensures Enabled(s, Remove(k)) && HasOvertaken(Apply(s, Remove(k)), n, k + 1)
  {
    var r := Apply(s, Remove(k));
    assert JoinOk(s, k);
    ApplyKeepsInv(s, Remove(k));
    RemovesMember(s, k);
    Deleted(s.clients, s.joins[k].id);
    OneMoreGone(s, r, n, k);
  }

  lemma OneMoreGone(s: State, r: State, n: nat, k: nat)
    requires HasOvertaken(s, n, k) && k < n && Inv(r)
    requires r.joins == s.joins[k := s.joins[k].(closes := 1)] && |r.clients| == |s.clients| - 1
    requires r.connected == Wrap32(s.connected as int - 1)
    ensures HasOvertaken(r, n, k + 1)
  {
    Wrap32Absorbs(0 - k as int, -1);
  }

  lemma InsertsOneMore(acts: seq<Action>, n: nat)
    requires Legal(EMPTY, acts) && HasOvertaken(Run(EMPTY, acts), n, 0) && n + 1 < WORD32
    ensures Legal(EMPTY, acts + [Enter] + [Insert(n)])
    ensures HasOvertaken(Run(EMPTY, acts + [Enter] + [Insert(n)]), n + 1, 0)
  {
    var entered := acts + [Enter];
    InsertsOne(Run(EMPTY, acts), n);
    LegalSnoc(EMPTY, acts, Enter);
    LegalSnoc(EMPTY, entered, Insert(n));
  }

  lemma RemovesOneMore(acts: seq<Action>, n: nat, k: nat)
    requires Legal(EMPTY, acts) && HasOvertaken(Run(EMPTY, acts), n, k) && k < n < WORD32
    ensures Legal(EMPTY, acts + [Remove(k)]) && HasOvertaken(Run(EMPTY, acts + [Remove(k)]), n, k + 1)
  {
    RemovesOne(Run(EMPTY, acts), n, k);
    LegalSnoc(EMPTY, acts, Remove(k));
  }

  lemma {:induction false} OvertakenRun(n: nat, k: nat)
    requires k <= n < WORD32
    ensures Legal(EMPTY, Overtaken(n, k)) && HasOvertaken(Run(EMPTY, Overtaken(n, k)), n, k)
    decreases n, k
  {
    if k > 0 {
      OvertakenRun(n, k - 1);
      RemovesOneMore(Overtaken(n, k - 1), n, k - 1);
    } else if n > 0 {
      OvertakenRun(n - 1, 0);
      InsertsOneMore(Overtaken(n - 1, 0), n - 1);
    }
  }

  /** A removal can overtake the count of its own join, any number of times: the counter wraps
      around below zero until the joins catch up. */
  lemma RemovalsOvertakeCounts(n: nat, k: nat)
    requires k <= n < WORD32
    ensures Legal(EMPTY, Overtaken(n, k))
    ensures var s := Run(EMPTY, Overtaken(n, k));
            && |s.joins| == n && |s.clients| == n - k && s.connected == Wrap32(0 - k as int)
            && forall j: nat :: j < n ==> s.joins[j].stage.InMap?
  {
    OvertakenRun(n, k);
  }

  // ----- the room itself, one call at a time -----

  class Connection {
    var closes: nat

    constructor ()
      ensures closes == 0
    {
      closes := 0;
    }

    method Close()
      modifies this`closes
      ensures closes == old(closes) + 1
    {
      closes := closes + 1;
    }
  }

  /** The ids under which a connection is in the room. */
  ghost function Ids(clients: map<uint32, Connection>, c: Connection): set<uint32> {
    set id | id in clients && clients[id] == c
  }

  lemma IdsAfterDeletion(clients: map<uint32, Connection>, id: uint32, members: set<Connection>)
    requires id in clients
    ensures forall c <- members ::
              |Ids(clients - {id}, c)| == |Ids(clients, c)| - if clients[id] == c then 1 else 0
  {
    forall c <- members
      ensures |Ids(clients - {id}, c)| == |Ids(clients, c)| - if clients[id] == c then 1 else 0
    {
      if clients[id] == c {
        assert Ids(clients, c) == Ids(clients - {id}, c) + {id};
      } else {
        assert Ids(clients, c) == Ids(clients - {id}, c);
      }
    }
  }

  class Chatroom {
    const numclients: SafeUint32
    const connectedclients: SafeUint32
    var clients: map<uint32, Connection>

    ghost predicate Valid()
      reads this, numclients, connectedclients
    {
      && numclients != connectedclients
      && connectedclients.v as int == |clients|
      && (forall id <- clients :: 1 <= id <= numclients.v)
    }

    constructor ()
      ensures Valid() && clients == map[] && numclients.v == 0
      ensures fresh(numclients) && fresh(connectedclients)
    {
      numclients := new SafeUint32();
      connectedclients := new SafeUint32();
      clients := map[];
    }

    /** Ids are handed out from 1 on and never twice. */
    method AddClient(c: Connection) returns (id: uint32)
      requires Valid() && numclients.v as int + 1 < WORD32
      modifies this, numclients, connectedclients
      ensures Valid()
      ensures id as int == old(numclients.v) as int + 1 && numclients.v == id
      ensures id !in old(clients) && clients == old(clients)[id := c]
    {
      AtMost(clients.Keys, numclients.v as int);
      id := numclients.Inc();
      Inserted(clients, id, c);
      clients := clients[id := c];
      var _ := connectedclients.Inc();
    }

    /** A member leaves: closed, forgotten and uncounted. For anybody else nothing happens. */
    method DelClient(id: uint32, c: Connection)
      requires Valid()
      modifies this, connectedclients, c`closes
      ensures Valid()
      ensures clients == old(clients) - {id}
      ensures c.closes == old(c.closes) + if id in old(clients) then 1 else 0
    {
      if id !in clients {
        assert clients - {id} == clients;
        return;
      }
      c.Close();
      Deleted(clients, id);
      clients := clients - {id};
      var _ := connectedclients.Dec();
    }

    /** Everybody leaves, closed once for every id. The goroutines that Close starts run one by
        one. */
    method Close()
      requires Valid()
      modifies this, connectedclients, clients.Values
      ensures Valid() && clients == map[] && connectedclients.v == 0
      ensures forall c <- old(clients.Values) :: c.closes == old(c.closes) + |Ids(old(clients), c)|
    {
      ghost var members := clients.Values;
      while clients.Keys != {}
        invariant Valid() && clients.Values <= members
        invariant forall c <- members ::
          c.closes + |Ids(clients, c)| == old(c.closes) + |Ids(old(clients), c)|
        decreases |clients|
      {
        var id :| id in clients;
        IdsAfterDeletion(clients, id, members);
        Deleted(clients, id);
        DelClient(id, clients[id]);
      }
      assert forall c <- members :: Ids(clients, c) == {};
    }
  }
}
