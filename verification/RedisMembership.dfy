/** The membership table kept in Redis under one key, with its "lock token". Every client runs
    read-modify-write loops of separate Redis commands; each command is one atomic step, and the
    steps of any number of clients interleave freely. */
module RedisMembership {
  import opened Wrappers

  /** `details` stands for the fields no operation looks at. */
  datatype Entry = Entry(deploymentId: string, address: string, lastIndex: nat, iAmAliveTime: int, details: int)

  predicate SameRow(a: Entry, b: Entry) {
    a.deploymentId == b.deploymentId && a.address == b.address
  }

  type Table = seq<Entry>

  predicate HasEntry(list: Table, e: Entry) {
    exists x :: x in list && SameRow(x, e)
  }

  function AddEntry(list: Table, e: Entry): Table {
    if HasEntry(list, e) then list else list + [e]
  }

  function FirstRow(list: Table, e: Entry): (i: nat)
    requires HasEntry(list, e)
    ensures i < |list| && SameRow(list[i], e) && forall j :: 0 <= j < i ==> !SameRow(list[j], e)
  {
    if SameRow(list[0], e) then 0
    else
      assert HasEntry(list[1..], e) by {
        var x :| x in list && SameRow(x, e);
        assert x in list[1..];
      }
      1 + FirstRow(list[1..], e)
  }

  function RemoveRow(list: Table, e: Entry): Table
    requires HasEntry(list, e)
  {
    var i := FirstRow(list, e); list[..i] + list[i + 1..]
  }

  /** `UpdateRow` on the deserialised collection: the new row takes over the index the old one
      had before it was incremented, and moves to the end. */
  function ReplaceEntry(list: Table, e: Entry): Table
    requires HasEntry(list, e)
  {
    AddEntry(RemoveRow(list, e), e.(lastIndex := list[FirstRow(list, e)].lastIndex))
  }

  function TouchEntry(list: Table, e: Entry): Table
    requires HasEntry(list, e)
  {
    var i := FirstRow(list, e); list[i := list[i].(iAmAliveTime := e.iAmAliveTime)]
  }

  /** No two rows for one deployment and address. */
  predicate UniqueRows(list: Table) {
    forall i, j :: 0 <= i < j < |list| ==>
      !(list[i].deploymentId == list[j].deploymentId && list[i].address == list[j].address)
  }

  /** The silo's row is replaced, at the end, by the new one under the old index; the other rows
      keep their order. */
  predicate Replaced(before: Table, after: Table, e: Entry) {
    exists i :: 0 <= i < |before| && before[i].deploymentId == e.deploymentId && before[i].address == e.address
      && after == before[..i] + before[i + 1..]
                  + [Entry(e.deploymentId, e.address, before[i].lastIndex, e.iAmAliveTime, e.details)]
  }

  /** One row of the silo has a new time, and nothing else is new. */
  predicate Touched(before: Table, after: Table, e: Entry) {
    exists i :: 0 <= i < |before| && before[i].deploymentId == e.deploymentId && before[i].address == e.address
      && after == before[..i]
                  + [Entry(e.deploymentId, e.address, before[i].lastIndex, e.iAmAliveTime, before[i].details)]
                  + before[i + 1..]
  }

  lemma TouchTouches(list: Table, e: Entry)
    requires HasEntry(list, e)
    ensures Touched(list, TouchEntry(list, e), e)
    ensures UniqueRows(list) ==> UniqueRows(TouchEntry(list, e))
  {
    var i := FirstRow(list, e);
    assert TouchEntry(list, e)
        == list[..i] + [Entry(e.deploymentId, e.address, list[i].lastIndex, e.iAmAliveTime, list[i].details)]
           + list[i + 1..];
  }

  lemma ReplaceKeepsOthers(list: Table, e: Entry)
    requires HasEntry(list, e)
    ensures UniqueRows(list) ==> Replaced(list, ReplaceEntry(list, e), e) && UniqueRows(ReplaceEntry(list, e))
  {
    var i, rest := FirstRow(list, e), RemoveRow(list, e);
    if UniqueRows(list) {
      assert UniqueRows(rest);
      forall j | 0 <= j < |rest| ensures !SameRow(rest[j], e) {
        assert rest[j] == list[if j < i then j else j + 1];
      }
      assert ReplaceEntry(list, e)
          == list[..i] + list[i + 1..]
             + [Entry(e.deploymentId, e.address, list[i].lastIndex, e.iAmAliveTime, e.details)];
    }
  }

  /** The collection that is serialised into the key. */
  class RedisMembershipCollection {
    var list: Table

    constructor (list: Table)
      ensures this.list == list
    {
      this.list := list;
    }

    method Add(item: Entry)
      modifies this
      ensures list == AddEntry(old(list), item)
      ensures list == if exists x :: x in old(list) && x.deploymentId == item.deploymentId && x.address == item.address
                      then old(list) else old(list) + [item]
      ensures UniqueRows(old(list)) ==> UniqueRows(list)
    {
      if !HasEntry(list, item) {
        list := list + [item];
      }
    }

    /** Removes the first row equal to `item`. */
    method Remove(item: Entry)
      requires HasEntry(list, item) && list[FirstRow(list, item)] == item
      modifies this
      ensures list == RemoveRow(old(list), item)
      ensures UniqueRows(old(list)) ==> !HasEntry(list, item)
    {
      var i := FirstRow(list, item);
      list := list[..i] + list[i + 1..];
    }

    /** The middle of `UpdateRow`'s loop: take the old row out, put the new one in. */
    method Replace(rentry: Entry)
      requires HasEntry(list, rentry)
      modifies this
      ensures list == ReplaceEntry(old(list), rentry)
      ensures UniqueRows(old(list)) ==> UniqueRows(list) && Replaced(old(list), list, rentry)
    {
      ReplaceKeepsOthers(list, rentry);
      TakeOutAndPutIn(rentry);
    }

    method TakeOutAndPutIn(rentry: Entry)
      requires HasEntry(list, rentry)
      modifies this
      ensures list == ReplaceEntry(old(list), rentry)
    {
      var i := FirstRow(list, rentry);
      var oldEntry := list[i];
      assert oldEntry in list;
      SameFirstRow(list, oldEntry, rentry);
      var replaced := rentry.(lastIndex := oldEntry.lastIndex);
      Remove(oldEntry);
      Add(replaced);
    }

    method UpdateIAmAlive(e: Entry) returns (found: bool)
      requires HasEntry(list, e)
      modifies this
      ensures found && list == TouchEntry(old(list), e)
      ensures Touched(old(list), list, e)
      ensures UniqueRows(old(list)) ==> UniqueRows(list)
    {
      TouchTouches(list, e);
      var i := FirstRow(list, e);
      list := list[i := list[i].(iAmAliveTime := e.iAmAliveTime)];
      found := true;
    }
  }

  lemma {:induction false} SameFirstRow(list: Table, a: Entry, b: Entry)
    requires HasEntry(list, a) && HasEntry(list, b) && SameRow(a, b)
    ensures FirstRow(list, a) == FirstRow(list, b)
  {
    var i, j := FirstRow(list, a), FirstRow(list, b);
    assert SameRow(list[j], a) && SameRow(list[i], b);
  }

  // ---- The protocol ----

  datatype Operation = InsertRow(entry: Entry) | UpdateRow(entry: Entry) | ReadAll | UpdateIAmAlive(entry: Entry)

  /** Where a client is between two Redis commands. `Loaded` and `Checked` hold the collection
      it has built (for a read: the value it has seen). */
  datatype Phase = Starting | TokenSet | Loaded(table: Option<Table>) | Checked(table: Option<Table>) | Done

  datatype Client = Client(operation: Operation, token: nat, phase: Phase)

  /** `seen` is the table a read returned. */
  datatype Commit = Commit(operation: Operation, seen: Option<Table>)

  datatype State = State(store: Option<Table>, lockToken: Option<nat>, clients: seq<Client>,
                         issued: set<nat>, commits: seq<Commit>)

  datatype Action = SetToken(c: nat, token: nat) | Load(c: nat) | Check(c: nat) | Write(c: nat) | TokenExpires

  function Rows(store: Option<Table>): Table {
    if store.Some? then store.value else []
  }

  /** Whether the operation's loop gets past reading the table: an update spins while its row
      is missing, a heartbeat throws or does nothing. */
  predicate Applies(op: Operation, store: Option<Table>) {
    (op.UpdateRow? || op.UpdateIAmAlive?) ==> HasEntry(Rows(store), op.entry)
  }

  /** The table the operation builds from the one it has read. */
  function Effect(op: Operation, store: Option<Table>): Option<Table>
    requires Applies(op, store)
  {
    match op
    case InsertRow(e) => Some(AddEntry(Rows(store), e.(lastIndex := 0)))
    case UpdateRow(e) => Some(ReplaceEntry(Rows(store), e))
    case ReadAll => store
    case UpdateIAmAlive(e) => Some(TouchEntry(Rows(store), e))
  }

  predicate Enabled(s: State, a: Action) {
    a.TokenExpires? ||
    (a.c < |s.clients| &&
     var client := s.clients[a.c];
     match a
     case SetToken(_, _) => client.phase == Starting && !client.operation.UpdateIAmAlive?
     case Load(_) => client.phase == if client.operation.UpdateIAmAlive? then Starting else TokenSet
     case Check(_) => client.phase.Loaded?
     case Write(_) => client.phase.Checked?
     case TokenExpires => true)
  }

  function SetPhase(s: State, c: nat, phase: Phase): State
    requires c < |s.clients|
  {
    s.(clients := s.clients[c := s.clients[c].(phase := phase)])
  }

  /** One Redis command, or the expiry of the token. A heartbeat has no token: it goes from
      reading straight to writing. */
  function Step(s: State, a: Action): State
    requires Enabled(s, a)
  {
    match a
    case TokenExpires => s.(lockToken := None)
    case SetToken(c, t) =>
      s.(lockToken := Some(t), issued := s.issued + {t},
         clients := s.clients[c := Client(s.clients[c].operation, t, TokenSet)])
    case Load(c) =>
      var op := s.clients[c].operation;
      if !Applies(op, s.store) then SetPhase(s, c, if op.UpdateIAmAlive? then Done else Starting)
      else if op.UpdateIAmAlive? then SetPhase(s, c, Checked(Effect(op, s.store)))
      else SetPhase(s, c, Loaded(Effect(op, s.store)))
    case Check(c) =>
      var client := s.clients[c];
      if s.lockToken != Some(client.token) then SetPhase(s, c, Starting)
      else if client.operation.ReadAll? then
        SetPhase(s, c, Done).(commits := s.commits + [Commit(ReadAll, client.phase.table)])
      else SetPhase(s, c, Checked(client.phase.table))
    case Write(c) =>
      var client := s.clients[c];
      SetPhase(s, c, Done).(store := client.phase.table,
                            commits := s.commits + [Commit(client.operation, client.phase.table)])
  }

  predicate Start(s: State) {
    && s.store == None && s.lockToken == None && s.issued == {} && s.commits == []
    && forall c <- s.clients :: c.phase == Starting
  }

  predicate Feasible(s: State, run: seq<Action>)
    decreases |run|
  {
    |run| != 0 ==> Enabled(s, run[0]) && Feasible(Step(s, run[0]), run[1..])
  }

  function After(s: State, run: seq<Action>): State
    requires Feasible(s, run)
    decreases |run|
  {
    if |run| == 0 then s else After(Step(s, run[0]), run[1..])
  }

  // ---- No two rows for one silo, in every run ----

  /** What is wanted of every table: rows unique and their index still zero. */
  predicate GoodTable(list: Table) {
    UniqueRows(list) && forall e <- list :: e.lastIndex == 0
  }

  predicate GoodTables(s: State) {
    && GoodTable(Rows(s.store))
    && forall c <- s.clients :: (c.phase.Loaded? || c.phase.Checked?) ==> GoodTable(Rows(c.phase.table))
  }

  lemma RemovalIsGood(list: Table, e: Entry)
    requires GoodTable(list) && HasEntry(list, e)
    ensures GoodTable(RemoveRow(list, e)) && !HasEntry(RemoveRow(list, e), e)
    ensures list[FirstRow(list, e)].lastIndex == 0
  {
    var i, rest := FirstRow(list, e), RemoveRow(list, e);
    assert list[i] in list;
    forall j | 0 <= j < |rest| ensures rest[j] in list && !SameRow(rest[j], e) {
      var k := if j < i then j else j + 1;
      assert rest[j] == list[k];
      assert SameRow(list[k], list[i]) ==> k == i;
    }
  }

  lemma AdditionIsGood(list: Table, e: Entry)
    requires GoodTable(list) && e.lastIndex == 0
    ensures GoodTable(AddEntry(list, e))
  {
    if !HasEntry(list, e) {
      forall i | 0 <= i < |list| ensures !SameRow(list[i], e) { assert list[i] in list; }
    }
  }

  lemma EffectIsGood(op: Operation, store: Option<Table>)
    requires Applies(op, store) && GoodTable(Rows(store))
    ensures GoodTable(Rows(Effect(op, store)))
  {
    var list := Rows(store);
    match op
    case InsertRow(e) => AdditionIsGood(list, e.(lastIndex := 0));
    case UpdateRow(e) =>
      RemovalIsGood(list, e);
      AdditionIsGood(RemoveRow(list, e), e.(lastIndex := 0));
    case ReadAll =>
    case UpdateIAmAlive(e) => assert list[FirstRow(list, e)] in list;
  }

  lemma StepKeepsGoodTables(s: State, a: Action)
    requires Enabled(s, a) && GoodTables(s)
    ensures GoodTables(Step(s, a))
  {
    if a.Load? && Applies(s.clients[a.c].operation, s.store) {
      EffectIsGood(s.clients[a.c].operation, s.store);
    }
    if !a.TokenExpires? {
      assert s.clients[a.c] in s.clients;
    }
  }

  /** In every run of any clients, heartbeats included: no table ever holds two rows for one
      silo, and no row's index, the etag clients are given, ever moves from zero. */
  lemma {:induction false} RowsStayUnique(s: State, run: seq<Action>)
    requires Feasible(s, run) && GoodTables(s)
    ensures GoodTables(After(s, run))
    decreases |run|
  {
    if |run| != 0 {
      StepKeepsGoodTables(s, run[0]);
      RowsStayUnique(Step(s, run[0]), run[1..]);
    }
  }

  // ---- No lost update, in every calm run ----

  /** A client that has checked its token and not yet written. */
  predicate Writing(c: Client) {
    c.phase.Checked? && !c.operation.UpdateIAmAlive?
  }

  predicate NobodyElseWriting(s: State, c: nat) {
    forall d :: 0 <= d < |s.clients| && d != c ==> !Writing(s.clients[d])
  }

  /** A heartbeat that has read the table and not yet written it. */
  predicate Beating(c: Client) {
    c.phase.Checked? && c.operation.UpdateIAmAlive?
  }

  /** A client that has read the table and whose token is still the one in the store. */
  predicate MayPass(s: State, c: Client) {
    c.phase.Loaded? && s.lockToken == Some(c.token)
  }

  /** What a write would overwrite, or leave out of date: a heartbeat under way and, when the
      write is a heartbeat's own, a client that has passed its check or may still pass it. */
  predicate Overlaps(s: State, c: nat)
    requires c < |s.clients|
  {
    exists d :: 0 <= d < |s.clients| && d != c &&
      (Beating(s.clients[d]) || (Beating(s.clients[c]) && (Writing(s.clients[d]) || MayPass(s, s.clients[d]))))
  }

  /** The assumption on the scheduling: tokens differ, no client sets a token between another
      client's successful check and its write, and no write overlaps a heartbeat. */
  predicate Calm(s: State, a: Action) {
    match a
    case SetToken(c, t) => t !in s.issued && NobodyElseWriting(s, c)
    case Write(c) => c < |s.clients| ==> !Overlaps(s, c)
    case _ => true
  }

  predicate CalmRun(s: State, run: seq<Action>)
    requires Feasible(s, run)
    decreases |run|
  {
    |run| != 0 ==> Calm(s, run[0]) && CalmRun(Step(s, run[0]), run[1..])
  }

  /** The table after applying the commits one after another. */
  function Replay(commits: seq<Commit>): Option<Table> {
    if |commits| == 0 then None
    else
      var before, op := Replay(commits[..|commits| - 1]), commits[|commits| - 1].operation;
      if Applies(op, before) then Effect(op, before) else before
  }

  /** Every commit found its row, and what it stored or saw is what replaying gives. */
  predicate Serial(commits: seq<Commit>) {
    forall i :: 0 <= i < |commits| ==>
      && Applies(commits[i].operation, Replay(commits[..i]))
      && commits[i].seen == Effect(commits[i].operation, Replay(commits[..i]))
  }

  predicate Active(c: Client) {
    c.phase.TokenSet? || c.phase.Loaded? || Writing(c)
  }

  /** The table the client holds is what its operation makes of the stored one. */
  predicate UpToDate(s: State, c: Client) {
    && (c.phase.Loaded? || c.phase.Checked?)
    && Applies(c.operation, s.store)
    && c.phase.table == Effect(c.operation, s.store)
  }

  predicate TokensDiffer(s: State) {
    && (s.lockToken.Some? ==> s.lockToken.value in s.issued)
    && (forall c :: 0 <= c < |s.clients| && Active(s.clients[c]) ==> s.clients[c].token in s.issued)
    && (forall c, d :: 0 <= c < d < |s.clients| && Active(s.clients[c]) && Active(s.clients[d]) ==>
          s.clients[c].token != s.clients[d].token)
  }

  /** A client that could still pass its check, or has passed it, is up to date. */
  predicate Coordinated(s: State, c: Client) {
    && (c.phase.Loaded? ==> !c.operation.UpdateIAmAlive?)
    && (MayPass(s, c) || Beating(c) ==> UpToDate(s, c))
    && (Writing(c) ==> (s.lockToken == None || s.lockToken == Some(c.token)) && UpToDate(s, c))
  }

  predicate AllCoordinated(s: State) {
    && (forall c :: 0 <= c < |s.clients| ==> Coordinated(s, s.clients[c]))
    && (forall c :: 0 <= c < |s.clients| && Writing(s.clients[c]) ==> NobodyElseWriting(s, c))
  }

  predicate Invariant(s: State) {
    TokensDiffer(s) && AllCoordinated(s) && s.store == Replay(s.commits) && Serial(s.commits)
  }

  lemma ReplayCommit(commits: seq<Commit>, c: Commit)
    requires Serial(commits) && Applies(c.operation, Replay(commits))
    requires c.seen == Effect(c.operation, Replay(commits))
    ensures Serial(commits + [c]) && Replay(commits + [c]) == c.seen
  {
    var all := commits + [c];
    assert all[..|commits|] == commits;
    forall i | 0 <= i < |commits| ensures all[..i] == commits[..i] {}
  }

  lemma SetTokenKeepsInvariant(s: State, c: nat, token: nat)
    requires Enabled(s, SetToken(c, token)) && Calm(s, SetToken(c, token)) && Invariant(s)
    ensures Invariant(Step(s, SetToken(c, token)))
  {
    var s' := Step(s, SetToken(c, token));
    forall d | 0 <= d < |s'.clients| ensures Coordinated(s', s'.clients[d]) {
      assert Coordinated(s, s.clients[d]);
      assert d != c && Active(s.clients[d]) ==> s.clients[d].token in s.issued;
    }
  }

  lemma LoadKeepsTokens(s: State, c: nat)
    requires Enabled(s, Load(c)) && TokensDiffer(s)
    ensures TokensDiffer(Step(s, Load(c)))
  {
    var s' := Step(s, Load(c));
    assert forall d :: 0 <= d < |s.clients| ==>
      s'.clients[d].token == s.clients[d].token && (Active(s'.clients[d]) ==> Active(s.clients[d]));
  }

  lemma LoadKeepsInvariant(s: State, c: nat)
    requires Enabled(s, Load(c)) && Invariant(s)
    ensures Invariant(Step(s, Load(c)))
  {
    LoadKeepsTokens(s, c);
    var s' := Step(s, Load(c));
    forall d | 0 <= d < |s'.clients| ensures Coordinated(s', s'.clients[d]) {
      assert Coordinated(s, s.clients[d]);
    }
  }

  lemma CheckKeepsInvariant(s: State, c: nat)
    requires Enabled(s, Check(c)) && Invariant(s)
    ensures Invariant(Step(s, Check(c)))
  {
    CheckKeepsTokens(s, c);
    CheckKeepsCoordination(s, c);
    var client := s.clients[c];
    assert Coordinated(s, client);
    if s.lockToken == Some(client.token) && client.operation.ReadAll? {
      ReplayCommit(s.commits, Commit(ReadAll, client.phase.table));
    }
  }

  lemma CheckKeepsTokens(s: State, c: nat)
    requires Enabled(s, Check(c)) && Invariant(s)
    ensures TokensDiffer(Step(s, Check(c)))
  {
    var s' := Step(s, Check(c));
    assert Coordinated(s, s.clients[c]);
    assert forall d :: 0 <= d < |s.clients| ==>
      s'.clients[d].token == s.clients[d].token && (Active(s'.clients[d]) ==> Active(s.clients[d]));
  }

  lemma CheckKeepsCoordination(s: State, c: nat)
    requires Enabled(s, Check(c)) && Invariant(s)
    ensures AllCoordinated(Step(s, Check(c)))
  {
    var s' := Step(s, Check(c));
    var client := s.clients[c];
    assert Coordinated(s, client) && Active(client);
    forall d | 0 <= d < |s'.clients| ensures Coordinated(s', s'.clients[d]) {
      assert Coordinated(s, s.clients[d]);
    }
    if s.lockToken == Some(client.token) {
      forall d | 0 <= d < |s.clients| && d != c ensures !Writing(s.clients[d]) {
        if Writing(s.clients[d]) {
          assert Coordinated(s, s.clients[d]) && Active(s.clients[d]);
        }
      }
    }
  }

  lemma WriteKeepsTokens(s: State, c: nat)
    requires Enabled(s, Write(c)) && TokensDiffer(s)
    ensures TokensDiffer(Step(s, Write(c)))
  {
    var s' := Step(s, Write(c));
    assert forall d :: 0 <= d < |s.clients| ==>
      s'.clients[d].token == s.clients[d].token && (Active(s'.clients[d]) ==> Active(s.clients[d]));
  }

  lemma WriteKeepsCoordination(s: State, c: nat)
    requires Enabled(s, Write(c)) && Calm(s, Write(c)) && TokensDiffer(s) && AllCoordinated(s)
    ensures AllCoordinated(Step(s, Write(c)))
  {
    var s' := Step(s, Write(c));
    var client := s.clients[c];
    assert Coordinated(s, client) && (Writing(client) || Beating(client));
    forall d | 0 <= d < |s'.clients| ensures Coordinated(s', s'.clients[d]) {
      if d != c {
        assert Coordinated(s, s.clients[d]);
        assert Active(client) && Active(s.clients[d]) ==> s.clients[d].token != client.token;
        assert !Beating(s.clients[d]);
        assert Beating(client) ==> !Writing(s.clients[d]) && !MayPass(s, s.clients[d]);
      }
    }
  }

  lemma WriteKeepsInvariant(s: State, c: nat)
    requires Enabled(s, Write(c)) && Calm(s, Write(c)) && Invariant(s)
    ensures Invariant(Step(s, Write(c)))
  {
    var client := s.clients[c];
    assert Coordinated(s, client) && (Writing(client) || Beating(client));
    WriteKeepsTokens(s, c);
    WriteKeepsCoordination(s, c);
    ReplayCommit(s.commits, Commit(client.operation, client.phase.table));
  }

  lemma StepKeepsInvariant(s: State, a: Action)
    requires Enabled(s, a) && Calm(s, a) && Invariant(s)
    ensures Invariant(Step(s, a))
  {
    match a
    case TokenExpires =>
      forall d | 0 <= d < |s.clients| ensures Coordinated(Step(s, a), s.clients[d]) {
        assert Coordinated(s, s.clients[d]);
      }
    case SetToken(c, token) => SetTokenKeepsInvariant(s, c, token);
    case Load(c) => LoadKeepsInvariant(s, c);
    case Check(c) => CheckKeepsInvariant(s, c);
    case Write(c) => WriteKeepsInvariant(s, c);
  }

  /** In every calm run the stored table is the committed operations applied one after
      another, and every read returned the table of the commits before it. */
  lemma {:induction false} NoUpdateIsLost(s: State, run: seq<Action>)
    requires Feasible(s, run) && CalmRun(s, run)
    requires Invariant(s)
    ensures Invariant(After(s, run))
    decreases |run|
  {
    if |run| != 0 {
      StepKeepsInvariant(s, run[0]);
      NoUpdateIsLost(Step(s, run[0]), run[1..]);
    }
  }

  lemma CalmRunsAreSerial(s: State, run: seq<Action>)
    requires Start(s) && Feasible(s, run) && CalmRun(s, run)
    ensures var t := After(s, run); t.store == Replay(t.commits) && Serial(t.commits) && GoodTables(t)
  {
    forall c | 0 <= c < |s.clients| ensures s.clients[c].phase == Starting { assert s.clients[c] in s.clients; }
    NoUpdateIsLost(s, run);
    RowsStayUnique(s, run);
  }

  // ---- What the table tells, from the history of commits alone ----

  predicate Names(e: Entry, d: string, a: string) {
    e.deploymentId == d && e.address == a
  }

  predicate Inserts(op: Operation, d: string, a: string) {
    op.InsertRow? && Names(op.entry, d, a)
  }

  /** Commit i sets the silo's row: its first insert, an update, or, for the time, a heartbeat. */
  predicate Sets(commits: seq<Commit>, i: nat, d: string, a: string, beats: bool)
    requires i < |commits|
  {
    match commits[i].operation
    case InsertRow(e) => Names(e, d, a) && forall j :: 0 <= j < i ==> !Inserts(commits[j].operation, d, a)
    case UpdateRow(e) => Names(e, d, a)
    case UpdateIAmAlive(e) => beats && Names(e, d, a)
    case ReadAll => false
  }

  predicate LastSets(commits: seq<Commit>, i: nat, d: string, a: string, beats: bool) {
    i < |commits| && Sets(commits, i, d, a, beats) && forall j :: i < j < |commits| ==> !Sets(commits, j, d, a, beats)
  }

  /** The value of the last commit that sets the silo's details, or its time. */
  predicate Told(commits: seq<Commit>, value: int, d: string, a: string, beats: bool) {
    exists i :: 0 <= i < |commits| && LastSets(commits, i, d, a, beats) &&
      value == if beats then commits[i].operation.entry.iAmAliveTime else commits[i].operation.entry.details
  }

  /** The silo has a row exactly when one was inserted; the row's details are those of the last
      commit that sets it, its time that of the last commit that sets it or beats. */
  predicate Tells(commits: seq<Commit>, list: Table, d: string, a: string) {
    && ((exists x :: x in list && Names(x, d, a)) <==> (exists c :: c in commits && Inserts(c.operation, d, a)))
    && (forall x <- list :: Names(x, d, a) ==>
          Told(commits, x.details, d, a, false) && Told(commits, x.iAmAliveTime, d, a, true))
  }

  lemma LastSetsAfter(before: seq<Commit>, c: Commit, i: nat, d: string, a: string, beats: bool)
    requires i < |before|
    ensures LastSets(before + [c], i, d, a, beats)
       <==> LastSets(before, i, d, a, beats) && !Sets(before + [c], |before|, d, a, beats)
  {
    var all := before + [c];
    forall j | 0 <= j < |before| ensures Sets(all, j, d, a, beats) <==> Sets(before, j, d, a, beats) {
      assert forall k :: 0 <= k <= j ==> all[k] == before[k];
    }
  }

  lemma InsertedAfter(before: seq<Commit>, c: Commit, d: string, a: string)
    ensures (exists x :: x in before + [c] && Inserts(x.operation, d, a))
       <==> (exists x :: x in before && Inserts(x.operation, d, a)) || Inserts(c.operation, d, a)
    ensures Inserts(c.operation, d, a) ==> forall beats ::
              Sets(before + [c], |before|, d, a, beats) <==> !exists x :: x in before && Inserts(x.operation, d, a)
  {
    var all := before + [c];
    assert all[|before|] == c && forall j :: 0 <= j < |before| ==> all[j] == before[j];
    assert forall x :: x in all <==> x in before || x == c;
  }

  /** A commit that does not set a row leaves what its history tells of it. */
  lemma ToldStill(before: seq<Commit>, c: Commit, value: int, d: string, a: string, beats: bool)
    requires Told(before, value, d, a, beats) && !Sets(before + [c], |before|, d, a, beats)
    ensures Told(before + [c], value, d, a, beats)
  {
    var i :| 0 <= i < |before| && LastSets(before, i, d, a, beats) &&
      value == if beats then before[i].operation.entry.iAmAliveTime else before[i].operation.entry.details;
    LastSetsAfter(before, c, i, d, a, beats);
    assert (before + [c])[i] == before[i];
  }

  lemma ToldNow(before: seq<Commit>, c: Commit, d: string, a: string, beats: bool)
    requires Sets(before + [c], |before|, d, a, beats)
    ensures Told(before + [c], if beats then c.operation.entry.iAmAliveTime else c.operation.entry.details, d, a, beats)
  {
    assert (before + [c])[|before|] == c;
    assert LastSets(before + [c], |before|, d, a, beats);
  }

  /** A commit about other silos, or one that changes no table. */
  lemma TellsStill(before: seq<Commit>, c: Commit, list: Table, after: Table, d: string, a: string)
    requires Tells(before, list, d, a) && forall beats :: !Sets(before + [c], |before|, d, a, beats)
    requires forall x :: Names(x, d, a) ==> (x in after <==> x in list)
    requires Inserts(c.operation, d, a) ==> exists x :: x in before && Inserts(x.operation, d, a)
    ensures Tells(before + [c], after, d, a)
  {
    InsertedAfter(before, c, d, a);
    forall x | x in after && Names(x, d, a)
      ensures Told(before + [c], x.details, d, a, false) && Told(before + [c], x.iAmAliveTime, d, a, true) {
      ToldStill(before, c, x.details, d, a, false);
      ToldStill(before, c, x.iAmAliveTime, d, a, true);
    }
  }

  lemma TellsAfterInsert(before: seq<Commit>, c: Commit, list: Table, d: string, a: string)
    requires c.operation.InsertRow? && Tells(before, list, d, a)
    ensures Tells(before + [c], AddEntry(list, c.operation.entry.(lastIndex := 0)), d, a)
  {
    var e := c.operation.entry.(lastIndex := 0);
    var after := AddEntry(list, e);
    InsertedAfter(before, c, d, a);
    assert (before + [c])[|before|] == c;
    if Names(e, d, a) && !HasEntry(list, e) {
      assert e in after;
      forall x | x in list ensures !Names(x, d, a) {
        assert !SameRow(x, e);
      }
      ToldNow(before, c, d, a, false);
      ToldNow(before, c, d, a, true);
    } else {
      if x :| Names(e, d, a) && x in list && SameRow(x, e) {
        assert Names(x, d, a);
      }
      TellsStill(before, c, list, after, d, a);
    }
  }

  lemma TellsAfterUpdate(before: seq<Commit>, c: Commit, list: Table, d: string, a: string)
    requires c.operation.UpdateRow? && Tells(before, list, d, a)
    requires UniqueRows(list) && HasEntry(list, c.operation.entry)
    ensures Tells(before + [c], ReplaceEntry(list, c.operation.entry), d, a)
  {
    var e := c.operation.entry;
    ReplaceKeepsOthers(list, e);
    var after := ReplaceEntry(list, e);
    InsertedAfter(before, c, d, a);
    assert (before + [c])[|before|] == c;
    RowsAfterReplace(list, after, e);
    if Names(e, d, a) {
      ToldNow(before, c, d, a, false);
      ToldNow(before, c, d, a, true);
    } else {
      TellsStill(before, c, list, after, d, a);
    }
  }

  /** Which rows a replacement leaves: the silo's own is new, the others are the old ones. */
  lemma RowsAfterReplace(before: Table, after: Table, e: Entry)
    requires UniqueRows(before) && Replaced(before, after, e)
    ensures exists x :: x in after && SameRow(x, e)
    ensures exists x :: x in before && SameRow(x, e)
    ensures forall x <- after :: SameRow(x, e) ==> x.details == e.details && x.iAmAliveTime == e.iAmAliveTime
    ensures forall x :: !SameRow(x, e) ==> (x in after <==> x in before)
  {
    var i :| 0 <= i < |before| && before[i].deploymentId == e.deploymentId && before[i].address == e.address
      && after == before[..i] + before[i + 1..]
                  + [Entry(e.deploymentId, e.address, before[i].lastIndex, e.iAmAliveTime, e.details)];
    var rest, own := before[..i] + before[i + 1..], after[|after| - 1];
    OtherRows(before, i);
    assert after == rest + [own] && own in after && before[i] in before;
    forall x ensures x in after <==> x in rest || x == own {}
  }

  lemma OtherRows(list: Table, i: nat)
    requires UniqueRows(list) && i < |list|
    ensures forall x <- list[..i] + list[i + 1..] :: x in list && !SameRow(x, list[i])
    ensures forall x <- list :: !SameRow(x, list[i]) ==> x in list[..i] + list[i + 1..]
  {
    var rest := list[..i] + list[i + 1..];
    forall x | x in rest ensures x in list && !SameRow(x, list[i]) {
      var j :| 0 <= j < |rest| && rest[j] == x;
      assert x == list[if j < i then j else j + 1];
    }
    forall x | x in list && !SameRow(x, list[i]) ensures x in rest {
      var j :| 0 <= j < |list| && list[j] == x;
      assert x == rest[if j < i then j else j - 1];
    }
  }

  lemma TellsAfterHeartbeat(before: seq<Commit>, c: Commit, list: Table, d: string, a: string)
    requires c.operation.UpdateIAmAlive? && Tells(before, list, d, a)
    requires UniqueRows(list) && HasEntry(list, c.operation.entry)
    ensures Tells(before + [c], TouchEntry(list, c.operation.entry), d, a)
  {
    var e := c.operation.entry;
    var i, after := FirstRow(list, e), TouchEntry(list, e);
    InsertedAfter(before, c, d, a);
    assert (before + [c])[|before|] == c && list[i] in list && after[i] in after;
    forall x | x in after && x != after[i] ensures x in list && !SameRow(x, e) {
      var j :| 0 <= j < |after| && after[j] == x;
      assert x == list[j];
    }
    forall x | x in list && x != list[i] ensures x in after && !SameRow(x, e) {
      var j :| 0 <= j < |list| && list[j] == x;
      assert x == after[j];
    }
    if Names(e, d, a) {
      ToldNow(before, c, d, a, true);
      ToldStill(before, c, list[i].details, d, a, false);
    } else {
      TellsStill(before, c, list, after, d, a);
    }
  }

  lemma SerialBefore(commits: seq<Commit>)
    requires Serial(commits) && |commits| > 0
    ensures var before, c := commits[..|commits| - 1], commits[|commits| - 1];
            && before + [c] == commits && Serial(before) && Applies(c.operation, Replay(before))
            && Replay(commits) == Effect(c.operation, Replay(before))
  {
    var before := commits[..|commits| - 1];
    forall i | 0 <= i < |before| ensures before[..i] == commits[..i] && before[i] == commits[i] {}
  }

  lemma {:induction false} ReplayIsGood(commits: seq<Commit>)
    requires Serial(commits)
    ensures GoodTable(Rows(Replay(commits)))
    decreases |commits|
  {
    if |commits| > 0 {
      var before := commits[..|commits| - 1];
      SerialBefore(commits);
      ReplayIsGood(before);
      EffectIsGood(commits[|commits| - 1].operation, Replay(before));
    }
  }

  /** Replaying a serial history gives a table that tells exactly that history. */
  lemma {:induction false} ReplayTells(commits: seq<Commit>, d: string, a: string)
    requires Serial(commits)
    ensures Tells(commits, Rows(Replay(commits)), d, a)
    decreases |commits|
  {
    if |commits| > 0 {
      var before := commits[..|commits| - 1];
      SerialBefore(commits);
      ReplayTells(before, d, a);
      ReplayIsGood(before);
      TellsNext(before, commits[|commits| - 1], Replay(before), d, a);
    }
  }

  lemma TellsNext(before: seq<Commit>, c: Commit, store: Option<Table>, d: string, a: string)
    requires Tells(before, Rows(store), d, a) && UniqueRows(Rows(store)) && Applies(c.operation, store)
    ensures Tells(before + [c], Rows(Effect(c.operation, store)), d, a)
  {
    var list := Rows(store);
    match c.operation
    case InsertRow(_) => TellsAfterInsert(before, c, list, d, a);
    case UpdateRow(_) => TellsAfterUpdate(before, c, list, d, a);
    case ReadAll =>
      assert (before + [c])[|before|] == c;
      TellsStill(before, c, list, list, d, a);
    case UpdateIAmAlive(_) => TellsAfterHeartbeat(before, c, list, d, a);
  }

  /** After every calm run the stored table tells the history of commits, and every read has
      returned the table that told the history before it. */
  lemma CalmRunsTellTheirHistory(s: State, run: seq<Action>, d: string, a: string)
    requires Start(s) && Feasible(s, run) && CalmRun(s, run)
    ensures var t := After(s, run);
            && Tells(t.commits, Rows(t.store), d, a)
            && forall i :: 0 <= i < |t.commits| && t.commits[i].operation.ReadAll? ==>
                 Tells(t.commits[..i], Rows(t.commits[i].seen), d, a)
  {
    CalmRunsAreSerial(s, run);
    var t := After(s, run);
    ReplayTells(t.commits, d, a);
    forall i | 0 <= i < |t.commits| && t.commits[i].operation.ReadAll?
      ensures Tells(t.commits[..i], Rows(t.commits[i].seen), d, a) {
      SerialPrefix(t.commits, i);
      ReplayTells(t.commits[..i], d, a);
    }
  }

  lemma SerialPrefix(commits: seq<Commit>, n: nat)
    requires Serial(commits) && n <= |commits|
    ensures Serial(commits[..n])
  {
    forall i | 0 <= i < n ensures commits[..n][..i] == commits[..i] {}
  }

  /** A client that is done has its operation among the commits, unless it is a heartbeat that
      found no row; and there are no more commits than clients that are done. */
  predicate DoneAreCommitted(s: State) {
    && (forall c <- s.clients :: c.phase.Done? && !c.operation.UpdateIAmAlive? ==>
          exists m :: m in s.commits && m.operation == c.operation)
    && |s.commits| <= DoneCount(s.clients)
  }

  function DoneCount(clients: seq<Client>): nat {
    if |clients| == 0 then 0 else (if clients[0].phase.Done? then 1 else 0) + DoneCount(clients[1..])
  }

  lemma {:induction false} DoneCountUpdate(clients: seq<Client>, c: nat, client: Client)
    requires c < |clients| && !clients[c].phase.Done?
    ensures DoneCount(clients[c := client]) == DoneCount(clients) + if client.phase.Done? then 1 else 0
  {
    if c == 0 {
      assert clients[c := client][1..] == clients[1..];
    } else {
      assert clients[c := client][1..] == clients[1..][c - 1 := client];
      DoneCountUpdate(clients[1..], c - 1, client);
    }
  }

  lemma StepCommitsWhatIsDone(s: State, a: Action)
    requires Enabled(s, a) && DoneAreCommitted(s)
    ensures DoneAreCommitted(Step(s, a))
  {
    var s' := Step(s, a);
    if !a.TokenExpires? {
      DoneCountUpdate(s.clients, a.c, s'.clients[a.c]);
      assert s'.clients == s.clients[a.c := s'.clients[a.c]];
      forall d | d in s'.clients && d.phase.Done? && !d.operation.UpdateIAmAlive?
        ensures exists m :: m in s'.commits && m.operation == d.operation {
        if d in s.clients {
          var m :| m in s.commits && m.operation == d.operation;
          assert m in s'.commits;
        } else {
          assert s'.commits[|s.commits|] in s'.commits;
        }
      }
    }
  }

  lemma {:induction false} RunsCommitWhatIsDone(s: State, run: seq<Action>)
    requires Feasible(s, run) && DoneAreCommitted(s)
    ensures DoneAreCommitted(After(s, run))
    decreases |run|
  {
    if |run| != 0 {
      StepCommitsWhatIsDone(s, run[0]);
      RunsCommitWhatIsDone(Step(s, run[0]), run[1..]);
    }
  }

  /** In every run, calm or not: every operation reported as done is among the commits,
      and there are no more commits than clients that are done. */
  lemma EveryRunCommitsWhatIsDone(s: State, run: seq<Action>)
    requires Start(s) && Feasible(s, run)
    ensures var t := After(s, run);
            && (forall c <- t.clients :: c.phase.Done? && !c.operation.UpdateIAmAlive? ==>
                  exists m :: m in t.commits && m.operation == c.operation)
            && |t.commits| <= DoneCount(t.clients)
  {
    RunsCommitWhatIsDone(s, run);
  }

  // ---- Runs that are not calm ----

  lemma {:induction false} RunConcat(s: State, first: seq<Action>, second: seq<Action>)
    requires Feasible(s, first) && Feasible(After(s, first), second)
    ensures Feasible(s, first + second) && After(s, first + second) == After(After(s, first), second)
    ensures CalmRun(s, first + second) <==> CalmRun(s, first) && CalmRun(After(s, first), second)
    decreases |first|
  {
    if |first| == 0 {
      assert first + second == second;
    } else {
      assert (first + second)[1..] == first[1..] + second;
      RunConcat(Step(s, first[0]), first[1..], second);
    }
  }

  /** The first client sets its token, reads the missing table and passes its check. */
  lemma FirstClientChecks(s: State, a: Entry, others: seq<Client>)
    requires a.lastIndex == 0 && s.store == None
    requires s.clients == [Client(InsertRow(a), 0, Starting)] + others
    ensures var run := [SetToken(0, 1), Load(0), Check(0)];
            && Feasible(s, run)
            && After(s, run) == s.(lockToken := Some(1), issued := s.issued + {1},
                                   clients := [Client(InsertRow(a), 1, Checked(Some([a])))] + others)
  {
    var run := [SetToken(0, 1), Load(0), Check(0)];
    AddToRows([], a);
    var s1 := Step(s, run[0]);
    var s2 := Step(s1, run[1]);
    var s3 := Step(s2, run[2]);
    assert s3.clients == [Client(InsertRow(a), 1, Checked(Some([a])))] + others;
    Unfold(s, run);
    Unfold(s1, run[1..]);
    Unfold(s2, run[2..]);
  }

  lemma FirstClientInserts(s: State, a: Entry, others: seq<Client>)
    requires a.lastIndex == 0 && s.store == None && s.commits == []
    requires s.clients == [Client(InsertRow(a), 0, Starting)] + others
    ensures var run := [SetToken(0, 1), Load(0), Check(0)] + [Write(0)];
            && Feasible(s, run) && |After(s, run).clients| == |s.clients|
            && After(s, run).store == Some([a]) && After(s, run).clients[1..] == others
            && After(s, run).commits == [Commit(InsertRow(a), Some([a]))]
  {
    var checks, write := [SetToken(0, 1), Load(0), Check(0)], [Write(0)];
    FirstClientChecks(s, a, others);
    var s1 := After(s, checks);
    assert write[1..] == [] && Feasible(Step(s1, Write(0)), []);
    Unfold(s1, write);
    assert After(s1, write) == Step(s1, Write(0));
    RunConcat(s, checks, write);
  }

  /** The second client reads before the first one writes, and writes after it. */
  lemma SecondClientOverwrites(s: State, a: Entry, b: Entry)
    requires b.lastIndex == 0 && s.store == None && s.commits == []
    requires s.clients == [Client(InsertRow(a), 1, Checked(Some([a]))), Client(InsertRow(b), 0, Starting)]
    ensures var run := [SetToken(1, 2), Load(1), Write(0), Check(1), Write(1)];
            && Feasible(s, run) && !CalmRun(s, run)
            && After(s, run).store == Some([b])
            && After(s, run).commits == [Commit(InsertRow(a), Some([a])), Commit(InsertRow(b), Some([b]))]
  {
    var run := [SetToken(1, 2), Load(1), Write(0), Check(1), Write(1)];
    assert Writing(s.clients[0]) && !Calm(s, run[0]);
    AddToRows([], b);
    var s1 := Step(s, run[0]);
    var s2 := Step(s1, run[1]);
    assert s2.clients[1].phase == Loaded(Some([b]));
    var s3 := Step(s2, run[2]);
    var s4 := Step(s3, run[3]);
    var s5 := Step(s4, run[4]);
    Unfold(s, run);
    Unfold(s1, run[1..]);
    Unfold(s2, run[2..]);
    Unfold(s3, run[3..]);
    Unfold(s4, run[4..]);
  }

  /** The check and the write are two commands: a client that sets its token, reads and checks
      around another client's write overwrites what that write stored. Both inserts are
      reported as done, and the first row is gone. */
  lemma InsertBetweenCheckAndWriteIsLost(s: State, a: Entry, b: Entry) returns (run: seq<Action>)
    requires a.lastIndex == b.lastIndex == 0 && Start(s)
    requires s.clients == [Client(InsertRow(a), 0, Starting), Client(InsertRow(b), 0, Starting)]
    ensures Feasible(s, run) && !CalmRun(s, run)
    ensures After(s, run).store == Some([b])
    ensures After(s, run).commits == [Commit(InsertRow(a), Some([a])), Commit(InsertRow(b), Some([b]))]
  {
    var first := [SetToken(0, 1), Load(0), Check(0)];
    var second := [SetToken(1, 2), Load(1), Write(0), Check(1), Write(1)];
    FirstClientChecks(s, a, [s.clients[1]]);
    SecondClientOverwrites(After(s, first), a, b);
    RunConcat(s, first, second);
    run := first + second;
  }

  lemma Unfold(s: State, run: seq<Action>)
    requires |run| != 0 && Enabled(s, run[0])
    ensures Feasible(s, run) <==> Feasible(Step(s, run[0]), run[1..])
    ensures Feasible(s, run) ==> After(s, run) == After(Step(s, run[0]), run[1..])
    ensures Feasible(s, run) ==> (CalmRun(s, run) <==> Calm(s, run[0]) && CalmRun(Step(s, run[0]), run[1..]))
  {
  }

  lemma AddToRows(list: Table, e: Entry)
    requires e.lastIndex == 0 && forall x <- list :: !SameRow(x, e)
    ensures Effect(InsertRow(e), Some(list)) == Some(list + [e])
    ensures list == [] ==> Effect(InsertRow(e), None) == Some([e])
  {
    assert e.(lastIndex := 0) == e;
    assert [] + [e] == [e];
  }

  /** The heartbeat of a stored row reads, another client inserts, the heartbeat writes. */
  lemma HeartbeatOverwrites(s: State, a: Entry, b: Entry, first: Client)
    requires !SameRow(a, b) && b.lastIndex == 0 && s.store == Some([a])
    requires s.clients == [first, Client(UpdateIAmAlive(a), 0, Starting), Client(InsertRow(b), 0, Starting)]
    ensures var run := [Load(1), SetToken(2, 2), Load(2), Check(2), Write(2), Write(1)];
            && Feasible(s, run) && !CalmRun(s, run)
            && After(s, run).store == Some([a])
            && After(s, run).commits
               == s.commits + [Commit(InsertRow(b), Some([a, b]))] + [Commit(UpdateIAmAlive(a), Some([a]))]
  {
    var run := [Load(1), SetToken(2, 2), Load(2), Check(2), Write(2), Write(1)];
    assert a in Rows(s.store);
    assert TouchEntry([a], a) == [a] by { assert FirstRow([a], a) == 0; }
    AddToRows([a], b);
    assert [a] + [b] == [a, b];
    var s1 := Step(s, run[0]);
    assert s1.clients[1].phase == Checked(Some([a]));
    var s2 := Step(s1, run[1]);
    var s3 := Step(s2, run[2]);
    assert s3.clients[2].phase == Loaded(Some([a, b]));
    var s4 := Step(s3, run[3]);
    assert Beating(s4.clients[1]) && Overlaps(s4, 2) && !Calm(s4, run[4]);
    var s5 := Step(s4, run[4]);
    Unfold(s, run);
    Unfold(s1, run[1..]);
    Unfold(s2, run[2..]);
    Unfold(s3, run[3..]);
    Unfold(s4, run[4..]);
    Unfold(s5, run[5..]);
  }

  /** A heartbeat takes no token: an insert committed between its read and its write is lost,
      though no token was ever contended. */
  lemma InsertDuringHeartbeatIsLost(s: State, a: Entry, b: Entry) returns (run: seq<Action>)
    requires !SameRow(a, b) && a.lastIndex == b.lastIndex == 0 && Start(s)
    requires s.clients == [Client(InsertRow(a), 0, Starting), Client(UpdateIAmAlive(a), 0, Starting),
                           Client(InsertRow(b), 0, Starting)]
    ensures Feasible(s, run) && !CalmRun(s, run)
    ensures After(s, run).store == Some([a])
    ensures After(s, run).commits == [Commit(InsertRow(a), Some([a])), Commit(InsertRow(b), Some([a, b])),
                                      Commit(UpdateIAmAlive(a), Some([a]))]
  {
    var first := [SetToken(0, 1), Load(0), Check(0)] + [Write(0)];
    var second := [Load(1), SetToken(2, 2), Load(2), Check(2), Write(2), Write(1)];
    FirstClientInserts(s, a, s.clients[1..]);
    var s1 := After(s, first);
    assert s1.clients == [s1.clients[0], s.clients[1], s.clients[2]];
    HeartbeatOverwrites(s1, a, b, s1.clients[0]);
    RunConcat(s, first, second);
    run := first + second;
  }
}
