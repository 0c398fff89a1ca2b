/** The reads of one projection: how its compiled statements and configured settings keep their keys apart. */
module ProjectionReads {
  import FlightKeys
  import opened QueryKeys
  import opened SessionNames
  import SqlLexer
  import SqlRewrite
  import StatementKeys

  datatype Source = Value | Namespace | Name | User | UserUID | UserGroups | UserExtra

  /** A session variable as the projection configures it. */
  datatype Setting = Setting(name: string, source: Source, value: string)

  /** What a request has to offer; the caller's parts are empty where there is no text. */
  datatype Asked = Asked(namespace: string, name: string, user: string, uid: string, groups: string, extra: string)

  function Resolved(setting: Setting, asked: Asked): string {
    match setting.source
    case Value => setting.value
    case Namespace => asked.namespace
    case Name => asked.name
    case User => asked.user
    case UserUID => asked.uid
    case UserGroups => asked.groups
    case UserExtra => asked.extra
  }

  /** The session has a variable for each setting, whatever the request. */
  ghost predicate Follows(session: seq<Variable>, settings: seq<Setting>) {
    |session| == |settings| && forall i :: 0 <= i < |settings| ==> session[i].name == settings[i].name
  }

  /** `session`. */
  method Session(settings: seq<Setting>, asked: Asked) returns (session: seq<Variable>)
    ensures Follows(session, settings)
    ensures forall i :: 0 <= i < |settings| ==> session[i].value == Resolved(settings[i], asked)
  {
    session := [];
    for i := 0 to |settings|
      invariant Follows(session, settings[..i])
      invariant forall j :: 0 <= j < i ==> session[j].value == Resolved(settings[j], asked)
    {
      var value := "";
      match settings[i].source {
        case Value => value := settings[i].value;
        case Namespace => value := asked.namespace;
        case Name => value := asked.name;
        case User => value := asked.user;
        case UserUID => value := asked.uid;
        case UserGroups => value := asked.groups;
        case UserExtra => value := asked.extra;
      }
      session := session + [Variable(settings[i].name, value)];
    }
  }

  /** Validation has accepted the names. */
  ghost predicate Named(settings: seq<Setting>) {
    forall i :: 0 <= i < |settings| ==> IsVariableName(settings[i].name)
  }

  lemma PlainSession(session: seq<Variable>, settings: seq<Setting>)
    requires Follows(session, settings) && Named(settings)
    ensures PlainVariables(session)
  {
    hide IsVariableName;
    forall i | 0 <= i < |session| ensures '=' !in session[i].name {
      var name := settings[i].name;
      VariableIsIdentifier(name);
      assert forall j :: 0 <= j < |name| ==> MysqlVariableName(name)[j] != '=';
    }
  }

  /** A statement as it is compiled. */
  function Compiled(stmt: string, d: SqlLexer.Dialect, style: SqlRewrite.Style): Statement {
    Statement(SqlRewrite.Rewritten(stmt, d, style), SqlRewrite.DriverNames(SqlRewrite.StatementTokens(stmt, d), style))
  }

  /** The text before the first NUL of a read's key is its statement. */
  lemma ReadStart(read: Read, s: Statement)
    requires read.stmts == [s]
    ensures s.sql <= KeyOf(read) && |KeyOf(read)| > |s.sql| && KeyOf(read)[|s.sql|] == FlightKeys.NUL
  {
    hide StatementsKey, FlightKeys.Key;
    OneStatement(s, read.args);
    FlightKeys.KeyStart(s.sql, s.params, read.args);
  }

  lemma SameText(a: Read, b: Read, s: Statement, t: Statement)
    requires a.stmts == [s] && b.stmts == [t] && FlightKeys.NUL !in s.sql && FlightKeys.NUL !in t.sql
    requires KeyOf(a) == KeyOf(b)
    ensures s.sql == t.sql
  {
    hide KeyOf;
    ReadStart(a, s);
    ReadStart(b, t);
    var key := KeyOf(a);
    assert key[..|s.sql|] == s.sql && key[..|t.sql|] == t.sql;
  }

  /**
   Two reads of one statement each, of one projection, whoever asks: when one of them binds no NUL, equal keys mean
   the same statement, values, session and pool.
   */
  lemma ProjectionReadsSeparate(a: Read, b: Read, stmt1: string, stmt2: string, d: SqlLexer.Dialect,
                                style: SqlRewrite.Style, settings: seq<Setting>)
    requires a.stmts == [Compiled(stmt1, d, style)] && b.stmts == [Compiled(stmt2, d, style)] && KeyOf(a) == KeyOf(b)
    requires !StatementKeys.OwnPlaceholders(stmt1, d, style) && !StatementKeys.OwnPlaceholders(stmt2, d, style)
    requires Follows(a.session, settings) && Follows(b.session, settings) && Named(settings)
    requires Plain(a) && FlightKeys.NUL !in Compiled(stmt2, d, style).sql
    ensures a.stmts == b.stmts && a.session == b.session && a.pool == b.pool
    ensures forall n :: n in Compiled(stmt1, d, style).params ==>
              FlightKeys.ValueOf(a.args, n) == FlightKeys.ValueOf(b.args, n)
  {
    var s, t := Compiled(stmt1, d, style), Compiled(stmt2, d, style);
    StatementKeys.DriverNamesPlain(stmt1, d, style);
    StatementKeys.DriverNamesPlain(stmt2, d, style);
    PlainSession(a.session, settings);
    PlainSession(b.session, settings);
    OnePiece(s, a.args);
    assert ReadPieces(a)[0] == s.sql;
    hide SqlRewrite.Rewritten, SqlRewrite.DriverNames, StatementKeys.OwnPlaceholders, KeyOf, Plain, Pieces,
         PlainVariables, FlightKeys.PlainNames;
    SameText(a, b, s, t);
    StatementKeys.SameTextSameCount(stmt1, stmt2, d, style);
    SingleReadsSeparate(a, b, s, t);
  }
}
