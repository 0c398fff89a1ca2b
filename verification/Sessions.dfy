/**
 Session variables on pooled connections.

 Requests set variables, run, and give their connection back, interleaved in any way, with any statement refused
 or lost on the way back and any transaction ended at any point. What a connection in the pool carries is nothing.
 */
module Sessions {
  import opened SessionNames

  datatype Variable = Variable(name: string, value: string)

  type Session = seq<Variable>

  datatype SessionDialect = Unsupported | SetConfig | UserVariable

  /** `sessionDialectFor`. */
  function SessionDialectFor(driver: string): SessionDialect {
    if driver == "postgres" || driver == "cockroach" then SetConfig
    else if driver == "mysql" then UserVariable
    else Unsupported
  }

  /** What a connection carries: its own variables, and settings that end with the transaction. */
  datatype Carried = Carried(vars: map<string, string>, local: map<string, string>)

  const BLANK := Carried(map[], map[])

  /** What becomes of a statement: done, refused, or done although an error came back. */
  datatype Fate = Fine | Refused | Unsure

  function WithVariable(dialect: SessionDialect, conn: Carried, v: Variable): Carried {
    match dialect
    case Unsupported => conn
    case SetConfig => conn.(local := conn.local[v.name := v.value])
    case UserVariable => conn.(vars := conn.vars[MysqlVariableName(v.name) := v.value])
  }

  /** One turn of `applySession`. */
  function SetOne(dialect: SessionDialect, conn: Carried, v: Variable, fate: Fate): (Carried, bool) {
    if !IsVariableName(v.name) || dialect.Unsupported? then (conn, false)
    else (if fate.Refused? then conn else WithVariable(dialect, conn, v), fate.Fine?)
  }

  /** One turn of `clearSession`. */
  function ClearOne(conn: Carried, v: Variable, fate: Fate): (Carried, bool) {
    if !IsVariableName(v.name) then (conn, false)
    else (if fate.Refused? then conn else conn.(vars := conn.vars - {MysqlVariableName(v.name)}), fate.Fine?)
  }

  /** What a request's own variables amount to. */
  function Own(dialect: SessionDialect, session: Session): Carried {
    if session == [] then BLANK
    else WithVariable(dialect, Own(dialect, session[..|session| - 1]), session[|session| - 1])
  }

  // What a session amounts to, by driver.

  function SettingNames(session: Session): (names: seq<string>)
    ensures |names| == |session| && forall i :: 0 <= i < |names| ==> names[i] == session[i].name
  {
    seq(|session|, i requires 0 <= i < |session| => session[i].name)
  }

  function MysqlNames(session: Session): (names: seq<string>)
    ensures |names| == |session| && forall i :: 0 <= i < |names| ==> names[i] == MysqlVariableName(session[i].name)
  {
    seq(|session|, i requires 0 <= i < |session| => MysqlVariableName(session[i].name))
  }

  /** Exactly these names are held, each with the value of its last occurrence. */
  ghost predicate HoldsLast(held: map<string, string>, names: seq<string>, session: Session)
    requires |names| == |session|
  {
    && (forall n :: n in held <==> n in names)
    && (forall k :: 0 <= k < |names| && (forall j :: k < j < |names| ==> names[j] != names[k]) ==>
          names[k] in held && held[names[k]] == session[k].value)
  }

  /** What a connection of the driver carries for a session: settings of the transaction, or variables of its own. */
  ghost predicate Carries(driver: string, conn: Carried, session: Session) {
    if driver == "postgres" || driver == "cockroach" then
      conn.vars == map[] && HoldsLast(conn.local, SettingNames(session), session)
    else if driver == "mysql" then conn.local == map[] && HoldsLast(conn.vars, MysqlNames(session), session)
    else conn == BLANK && session == []
  }

  lemma HoldsOneMore(held: map<string, string>, names: seq<string>, session: Session, more: seq<string>, n: string,
                     v: Variable)
    requires |names| == |session| && HoldsLast(held, names, session) && more == names + [n]
    ensures HoldsLast(held[n := v.value], more, session + [v])
  {
    var all := session + [v];
    forall k | 0 <= k < |more| && (forall j :: k < j < |more| ==> more[j] != more[k])
      ensures more[k] in held[n := v.value] && held[n := v.value][more[k]] == all[k].value
    {
      if k < |names| {
        assert more[|names|] != more[k];
        assert forall j :: k < j < |names| ==> more[j] == names[j];
      }
    }
  }

  /** The variables one after the other leave exactly the session. */
  lemma {:induction false} OwnCarries(driver: string, session: Session)
    requires session == [] || driver in ["postgres", "cockroach", "mysql"]
    ensures Carries(driver, Own(SessionDialectFor(driver), session), session)
  {
    if session != [] {
      var k := |session| - 1;
      var front, v := session[..k], session[k];
      var dialect := SessionDialectFor(driver);
      OwnCarries(driver, front);
      assert session == front + [v];
      var conn := Own(dialect, front);
      if driver == "mysql" {
        assert MysqlNames(session) == MysqlNames(front) + [MysqlVariableName(v.name)];
        HoldsOneMore(conn.vars, MysqlNames(front), front, MysqlNames(session), MysqlVariableName(v.name), v);
      } else {
        assert SettingNames(session) == SettingNames(front) + [v.name];
        HoldsOneMore(conn.local, SettingNames(front), front, SettingNames(session), v.name, v);
      }
    }
  }

  function VariableNames(session: Session): set<string> {
    set i | 0 <= i < |session| :: MysqlVariableName(session[i].name)
  }

  /**
   A connection that carries at most the variables of `session`, and nothing that outlives a transaction elsewhere.
   */
  ghost predicate AtMost(dialect: SessionDialect, conn: Carried, session: Session) {
    conn.vars.Keys <= (if dialect.UserVariable? then VariableNames(session) else {})
  }

  lemma {:induction false} OwnAtMost(dialect: SessionDialect, session: Session)
    ensures AtMost(dialect, Own(dialect, session), session)
  {
    if session != [] {
      OwnAtMost(dialect, session[..|session| - 1]);
      assert VariableNames(session[..|session| - 1]) <= VariableNames(session);
    }
  }

  // Requests.

  datatype Phase = Setting(done: nat) | Failed | Clearing(done: nat)

  datatype Request = Request(conn: nat, session: Session, phase: Phase)

  datatype Pool = Pool(driver: string, conns: map<nat, Carried>, idle: set<nat>, requests: map<nat, Request>) {
    function Dialect(): SessionDialect { SessionDialectFor(driver) }
  }

  /** `beginTx` holds the connection itself when there are user variables to clear. */
  predicate Held(p: Pool, request: Request) {
    p.Dialect().UserVariable? && request.session != []
  }

  datatype Event =
    | Dial(conn: nat)
    | Drop(conn: nat)
    | Begin(id: nat, session: Session, conn: nat)
    | Set(id: nat, fate: Fate)
    | Finish(id: nat, alive: bool)
    | Clear(id: nat, fate: Fate)
    | Release(id: nat)

  predicate Enabled(p: Pool, event: Event) {
    match event
    case Dial(c) => c !in p.conns
    case Drop(c) => c in p.idle && c in p.conns
    case Begin(id, _, c) => id !in p.requests && c in p.idle && c in p.conns
    case Set(id, _) => InFlight(p, id) && p.requests[id].phase.Setting?
      && p.requests[id].phase.done < |p.requests[id].session|
    case Finish(id, _) => InFlight(p, id) && !p.requests[id].phase.Clearing?
    case Clear(id, _) =>
      InFlight(p, id) && p.requests[id].phase.Clearing? && p.requests[id].phase.done < |p.requests[id].session|
    case Release(id) => InFlight(p, id) && p.requests[id].phase == Clearing(|p.requests[id].session|)
  }

  predicate InFlight(p: Pool, id: nat) {
    id in p.requests && p.requests[id].conn in p.conns
  }

  /** The connection goes back to the pool, or is closed. */
  function GiveBack(p: Pool, id: nat, conn: Carried, usable: bool): Pool
    requires InFlight(p, id)
  {
    var c := p.requests[id].conn;
    if usable then p.(conns := p.conns[c := conn], idle := p.idle + {c}, requests := p.requests - {id})
    else p.(conns := p.conns - {c}, requests := p.requests - {id})
  }

  function Moved(p: Pool, id: nat, conn: Carried, phase: Phase): Pool
    requires InFlight(p, id)
  {
    var request := p.requests[id];
    p.(conns := p.conns[request.conn := conn], requests := p.requests[id := request.(phase := phase)])
  }

  function After(p: Pool, event: Event): Pool
    requires Enabled(p, event)
  {
    match event
    case Dial(c) => p.(conns := p.conns[c := BLANK], idle := p.idle + {c})
    case Drop(c) => p.(conns := p.conns - {c}, idle := p.idle - {c})
    case Begin(id, session, c) => p.(idle := p.idle - {c},
        requests := p.requests[id := Request(c, session, Setting(0))])
    case Set(id, fate) =>
      var request := p.requests[id];
      var k := request.phase.done;
      var (conn, ok) := SetOne(p.Dialect(), p.conns[request.conn], request.session[k], fate);
      Moved(p, id, conn, if ok then Setting(k + 1) else Failed)
    case Finish(id, alive) =>
      var ended := p.conns[p.requests[id].conn].(local := map[]);
      if Held(p, p.requests[id]) then Moved(p, id, ended, Clearing(0)) else GiveBack(p, id, ended, alive)
    case Clear(id, fate) =>
      var request := p.requests[id];
      var k := request.phase.done;
      var (conn, ok) := ClearOne(p.conns[request.conn], request.session[k], fate);
      if ok then Moved(p, id, conn, Clearing(k + 1)) else GiveBack(p, id, conn, false)
    case Release(id) => GiveBack(p, id, p.conns[p.requests[id].conn], true)
  }

  // What every step keeps.

  /** What a connection carries while a request has it. */
  ghost predicate Fits(p: Pool, conn: Carried, request: Request) {
    && AtMost(p.Dialect(), conn, request.session)
    && match request.phase
       case Setting(k) =>
         && k <= |request.session| && conn == Own(p.Dialect(), request.session[..k])
         && (k > 0 ==> !p.Dialect().Unsupported?)
       case Failed => true
       case Clearing(k) =>
         && Held(p, request) && k <= |request.session| && conn.local == map[]
         && conn.vars.Keys !! VariableNames(request.session[..k])
  }

  /** Connections in the pool are blank, and the others belong to one request each. */
  ghost predicate Inv(p: Pool) {
    && (forall c :: c in p.idle ==> c in p.conns && p.conns[c] == BLANK)
    && (forall id :: id in p.requests ==>
          && p.requests[id].conn in p.conns && p.requests[id].conn !in p.idle
          && Fits(p, p.conns[p.requests[id].conn], p.requests[id]))
    && (forall i, j :: i in p.requests && j in p.requests && i != j ==> p.requests[i].conn != p.requests[j].conn)
  }

  lemma MovedKeeps(p: Pool, id: nat, conn: Carried, phase: Phase)
    requires Inv(p) && InFlight(p, id) && Fits(p, conn, p.requests[id].(phase := phase))
    ensures Inv(Moved(p, id, conn, phase))
  {
    hide AtMost, Own, VariableNames;
  }

  lemma GiveBackKeeps(p: Pool, id: nat, conn: Carried, usable: bool)
    requires Inv(p) && InFlight(p, id) && (usable ==> conn == BLANK)
    ensures Inv(GiveBack(p, id, conn, usable))
  {
    hide AtMost, Own, VariableNames;
  }

  lemma SetFits(p: Pool, id: nat, fate: Fate)
    requires Inv(p) && Enabled(p, Set(id, fate))
    ensures var request := p.requests[id];
      var k := request.phase.done;
      var (conn, ok) := SetOne(p.Dialect(), p.conns[request.conn], request.session[k], fate);
      Fits(p, conn, request.(phase := if ok then Setting(k + 1) else Failed))
  {
    var request := p.requests[id];
    var k, session := request.phase.done, request.session;
    assert Fits(p, p.conns[request.conn], request);
    assert session[..k + 1][..k] == session[..k];
    assert MysqlVariableName(session[k].name) in VariableNames(session);
  }

  lemma ClearFits(p: Pool, id: nat, fate: Fate)
    requires Inv(p) && Enabled(p, Clear(id, fate))
    ensures var request := p.requests[id];
      var k := request.phase.done;
      var (conn, ok) := ClearOne(p.conns[request.conn], request.session[k], fate);
      ok ==> Fits(p, conn, request.(phase := Clearing(k + 1)))
  {
    var request := p.requests[id];
    var k, session := request.phase.done, request.session;
    assert Fits(p, p.conns[request.conn], request);
    assert VariableNames(session[..k + 1]) == VariableNames(session[..k]) + {MysqlVariableName(session[k].name)} by {
      assert forall i :: 0 <= i < k ==> session[..k + 1][i] == session[..k][i];
    }
  }

  /** Nothing is left of the variables when the last of them is cleared, or when there never were any. */
  lemma FinishLeaves(p: Pool, id: nat)
    requires Inv(p) && InFlight(p, id)
    ensures var request := p.requests[id];
      var ended := p.conns[request.conn].(local := map[]);
      && (!Held(p, request) ==> ended == BLANK)
      && (Held(p, request) ==> Fits(p, ended, request.(phase := Clearing(0))))
      && (request.phase == Clearing(|request.session|) ==> p.conns[request.conn] == BLANK)
  {
  }

  lemma StepKeeps(p: Pool, event: Event)
    requires Inv(p) && Enabled(p, event)
    ensures Inv(After(p, event))
  {
    hide AtMost, VariableNames, Fits, IsVariableName;
    match event
    case Dial(c) => DialKeeps(p, c);
    case Drop(c) => DropKeeps(p, c);
    case Begin(id, session, c) => BeginKeeps(p, id, session, c);
    case Set(id, fate) =>
      SetFits(p, id, fate);
      var request := p.requests[id];
      var k := request.phase.done;
      var (conn, ok) := SetOne(p.Dialect(), p.conns[request.conn], request.session[k], fate);
      MovedKeeps(p, id, conn, if ok then Setting(k + 1) else Failed);
    case Finish(id, alive) =>
      FinishLeaves(p, id);
      var ended := p.conns[p.requests[id].conn].(local := map[]);
      if Held(p, p.requests[id]) { MovedKeeps(p, id, ended, Clearing(0)); } else { GiveBackKeeps(p, id, ended, alive); }
    case Clear(id, fate) =>
      ClearFits(p, id, fate);
      var request := p.requests[id];
      var k := request.phase.done;
      var (conn, ok) := ClearOne(p.conns[request.conn], request.session[k], fate);
      if ok { MovedKeeps(p, id, conn, Clearing(k + 1)); } else { GiveBackKeeps(p, id, conn, false); }
    case Release(id) =>
      FinishLeaves(p, id);
      GiveBackKeeps(p, id, p.conns[p.requests[id].conn], true);
  }

  lemma DialKeeps(p: Pool, c: nat)
    requires Inv(p) && c !in p.conns
    ensures Inv(After(p, Dial(c)))
  {
  }

  lemma DropKeeps(p: Pool, c: nat)
    requires Inv(p) && Enabled(p, Drop(c))
    ensures Inv(After(p, Drop(c)))
  {
    hide AtMost, Own, VariableNames;
  }

  lemma BeginKeeps(p: Pool, id: nat, session: Session, c: nat)
    requires Inv(p) && Enabled(p, Begin(id, session, c))
    ensures Inv(After(p, Begin(id, session, c)))
  {
  }

  // Runs.

  ghost predicate IsRun(pools: seq<Pool>, events: seq<Event>) {
    && |pools| == |events| + 1
    && pools[0].conns == map[] && pools[0].idle == {} && pools[0].requests == map[]
    && forall i :: 0 <= i < |events| ==> Enabled(pools[i], events[i]) && pools[i + 1] == After(pools[i], events[i])
  }

  lemma {:induction false} RunKeepsInv(pools: seq<Pool>, events: seq<Event>, i: nat)
    requires IsRun(pools, events) && i < |pools|
    ensures Inv(pools[i])
  {
    if i > 0 {
      RunKeepsInv(pools, events, i - 1);
      StepKeeps(pools[i - 1], events[i - 1]);
    }
  }

  /**
   Session isolation: at every point of every run, a connection in the pool carries nothing, and a request that
   has its variables set reads those and no others, whatever ran on its connection before.
   */
  lemma SessionIsolation(pools: seq<Pool>, events: seq<Event>, i: nat)
    requires IsRun(pools, events) && i < |pools|
    ensures var p := pools[i];
      && (forall c :: c in p.idle ==> c in p.conns && p.conns[c] == BLANK)
      && (forall id :: id in p.requests && p.requests[id].phase == Setting(|p.requests[id].session|) ==>
            InFlight(p, id) && Carries(p.driver, p.conns[p.requests[id].conn], p.requests[id].session))
  {
    RunKeepsInv(pools, events, i);
    var p := pools[i];
    forall id | id in p.requests && p.requests[id].phase == Setting(|p.requests[id].session|)
      ensures InFlight(p, id) && Carries(p.driver, p.conns[p.requests[id].conn], p.requests[id].session)
    {
      hide Carries;
      var request := p.requests[id];
      assert request.session[..|request.session|] == request.session;
      assert Fits(p, p.conns[request.conn], request);
      OwnCarries(p.driver, request.session);
    }
  }

  /** What a variable reads is the last value the request gave it, or one to a name that shares the variable. */
  lemma {:induction false} LastValueWins(session: Session, k: nat)
    requires k < |session|
    requires forall j :: k < j < |session| ==> MysqlVariableName(session[j].name) != MysqlVariableName(session[k].name)
    ensures var own := Own(UserVariable, session).vars;
      MysqlVariableName(session[k].name) in own && own[MysqlVariableName(session[k].name)] == session[k].value
  {
    var n := |session| - 1;
    if k < n {
      assert forall j :: 0 <= j < n ==> session[..n][j] == session[j];
      LastValueWins(session[..n], k);
    }
  }

  // The loops.

  /** A connection, as the loops of one request see it. */
  class Connection {
    const driver: string
    var carried: Carried
    var pooled: bool

    constructor (driver: string)
      ensures this.driver == driver && carried == BLANK && !pooled
    {
      this.driver, carried, pooled := driver, BLANK, false;
    }

    /**
     `applySession`: stops at the first variable that cannot be set. When none is refused a blank connection carries
     exactly the session, and without a driver that has variables only an empty session is not refused.
     */
    method ApplySession(session: Session, fates: seq<Fate>) returns (ok: bool)
      requires |fates| == |session|
      modifies this`carried
      ensures (carried, ok) == Applied(SessionDialectFor(driver), old(carried), session, fates)
      ensures ok <==> Settable(driver, session, fates)
      ensures ok && old(carried) == BLANK ==> Carries(driver, carried, session)
    {
      hide Carries, Settable;
      ghost var before := carried;
      AppliedIsOwn(driver, before, session, fates);
      var dialect := SessionDialectFor(driver);
      for i := 0 to |session|
        invariant Applied(dialect, before, session, fates) == Applied(dialect, carried, session[i..], fates[i..])
      {
        assert session[i..][1..] == session[i + 1..] && fates[i..][1..] == fates[i + 1..];
        var valid := ValidateSessionVariableName(session[i].name);
        if !valid { return false; }
        match dialect {
          case Unsupported => return false;
          case _ =>
        }
        if !fates[i].Refused? { carried := WithVariable(dialect, carried, session[i]); }
        if !fates[i].Fine? { return false; }
      }
      return true;
    }

    /** `clearSession`: stops at the first variable that cannot be cleared. */
    method ClearSession(session: Session, fates: seq<Fate>) returns (ok: bool)
      requires |fates| == |session|
      modifies this`carried
      ensures driver != "mysql" ==> ok && carried == old(carried)
      ensures driver == "mysql" ==> (carried, ok) == Cleared(old(carried), session, fates)
    {
      if !SessionDialectFor(driver).UserVariable? { return true; }
      for i := 0 to |session|
        invariant Cleared(old(carried), session, fates) == Cleared(carried, session[i..], fates[i..])
      {
        assert session[i..][1..] == session[i + 1..] && fates[i..][1..] == fates[i + 1..];
        var valid := ValidateSessionVariableName(session[i].name);
        if !valid { return false; }
        if !fates[i].Refused? {
          carried := carried.(vars := carried.vars - {MysqlVariableName(session[i].name)});
        }
        if !fates[i].Fine? { return false; }
      }
      return true;
    }

    /** `releaseSession`: a connection that goes back carries nothing, whatever became of the clearing. */
    method ReleaseSession(session: Session, fates: seq<Fate>)
      requires |fates| == |session| && AtMost(SessionDialectFor(driver), carried, session)
      requires carried.local == map[]
      modifies this`carried, this`pooled
      ensures pooled ==> carried == BLANK
      ensures driver == "mysql" ==> (pooled <==> Cleared(old(carried), session, fates).1)
    {
      ghost var before := carried;
      var ok := ClearSession(session, fates);
      pooled := ok;
      if driver == "mysql" {
        ClearedIsBlank(before, session, fates);
      } else {
        assert carried.vars.Keys == {};
      }
    }
  }

  function Applied(dialect: SessionDialect, conn: Carried, session: Session, fates: seq<Fate>): (Carried, bool)
    requires |fates| == |session|
    decreases |session|
  {
    if session == [] then (conn, true)
    else
      var (next, ok) := SetOne(dialect, conn, session[0], fates[0]);
      if !ok then (next, false) else Applied(dialect, next, session[1..], fates[1..])
  }

  /** A session that is set without a failure: the driver has variables, the names are valid and nothing is refused. */
  ghost predicate Settable(driver: string, session: Session, fates: seq<Fate>)
    requires |fates| == |session|
  {
    && (session == [] || driver in ["postgres", "cockroach", "mysql"])
    && forall i :: 0 <= i < |session| ==> IsVariableName(session[i].name) && fates[i] == Fine
  }

  /** The turns of `applySession` on top of what has been set already. */
  lemma {:induction false} AppliedOnTop(dialect: SessionDialect, done: Session, session: Session, fates: seq<Fate>)
    requires |fates| == |session|
    ensures Applied(dialect, Own(dialect, done), session, fates).1 ==>
              Applied(dialect, Own(dialect, done), session, fates).0 == Own(dialect, done + session)
    decreases |session|
  {
    hide IsVariableName, WithVariable;
    if session == [] {
      assert done + session == done;
    } else {
      var more := done + [session[0]];
      assert more[..|more| - 1] == done;
      AppliedOnTop(dialect, more, session[1..], fates[1..]);
      assert done + session == more + session[1..];
    }
  }

  lemma {:induction false} AppliedWhen(driver: string, conn: Carried, session: Session, fates: seq<Fate>)
    requires |fates| == |session|
    ensures Applied(SessionDialectFor(driver), conn, session, fates).1 <==> Settable(driver, session, fates)
    decreases |session|
  {
    hide IsVariableName, WithVariable;
    if session != [] {
      var (next, ok) := SetOne(SessionDialectFor(driver), conn, session[0], fates[0]);
      AppliedWhen(driver, next, session[1..], fates[1..]);
      assert forall i :: 1 <= i < |session| ==> session[i] == session[1..][i - 1] && fates[i] == fates[1..][i - 1];
    }
  }

  lemma AppliedIsOwn(driver: string, conn: Carried, session: Session, fates: seq<Fate>)
    requires |fates| == |session|
    ensures var (after, ok) := Applied(SessionDialectFor(driver), conn, session, fates);
      && (ok <==> Settable(driver, session, fates)) && (ok && conn == BLANK ==> Carries(driver, after, session))
  {
    hide Carries, Applied, WithVariable;
    AppliedWhen(driver, conn, session, fates);
    AppliedOnTop(SessionDialectFor(driver), [], session, fates);
    assert [] + session == session;
    if Settable(driver, session, fates) { OwnCarries(driver, session); }
  }

  function Cleared(conn: Carried, session: Session, fates: seq<Fate>): (Carried, bool)
    requires |fates| == |session|
    decreases |session|
  {
    if session == [] then (conn, true)
    else
      var (next, ok) := ClearOne(conn, session[0], fates[0]);
      if !ok then (next, false) else Cleared(next, session[1..], fates[1..])
  }

  /** Clearing that reports no failure has removed every variable of the session. */
  lemma {:induction false} ClearedIsBlank(conn: Carried, session: Session, fates: seq<Fate>)
    requires |fates| == |session| && conn.vars.Keys <= VariableNames(session) && conn.local == map[]
    ensures Cleared(conn, session, fates).1 ==> Cleared(conn, session, fates).0 == BLANK
    decreases |session|
  {
    if session == [] {
      assert conn.vars.Keys == {};
      assert conn.vars == map[];
    } else {
      var (next, ok) := ClearOne(conn, session[0], fates[0]);
      if ok {
        forall n | n in next.vars.Keys ensures n in VariableNames(session[1..]) {
          var i :| 0 <= i < |session| && MysqlVariableName(session[i].name) == n;
          assert session[1..][i - 1] == session[i];
        }
        ClearedIsBlank(next, session[1..], fates[1..]);
      }
    }
  }
}
