/** The Debug logger: its settings, its log buffer, the log() entry point and
    output(), which buffers every line and echoes it unless the logger is
    in array mode. */
module Logger {
  import opened Strings
  import opened Render
  import opened Slots
  import opened Bindings
  import opened Assemble

  /** The second argument of log(): a bindings array, or a value of any
      other type. */
  datatype Second = BindingsArray(bindings: seq<(Key, Value)>) | NotAnArray

  /** The arguments of one call to log(): none, the query alone, or the
      query and a second argument. */
  datatype LogCall = NoArguments | SqlOnly(sql: string) | SqlAndSecond(sql: string, second: Second)

  /** What output() echoes for one line: the surface it writes for (command
      line or HTML), whether the line is highlighted, and the line. */
  datatype Emission = Emission(cliSurface: bool, highlight: bool, line: string)

  /** The heuristic for schema changes: the line starts, case-sensitively,
      with CREATE, ALTER or DROP. */
  predicate IsSchemaChange(str: string) {
    "CREATE" <= str || "ALTER" <= str || "DROP" <= str
  }

  /** The line log() builds from a query and a bindings array. */
  function Formatted(sql: string, bindings: seq<(Key, Value)>, settings: Settings, cliSurface: bool): string {
    Assembled(SlotsFrom(sql, Markers(cliSurface), 0), Normalized(bindings), settings)
  }

  /** The entry one call to log() appends to the buffer, if any. */
  function EntryOf(call: LogCall, settings: Settings, cliSurface: bool): Option<string> {
    match call
    case NoArguments => None
    case SqlOnly(sql) => Some(Formatted(sql, [], settings, cliSurface))
    case SqlAndSecond(sql, second) =>
      match second
      case NotAnArray => Some(sql)
      case BindingsArray(bs) => Some(Formatted(sql, bs, settings, cliSurface))
  }

  /** With the query alone, bindings default to an empty array: the query is
      not passed through verbatim but has its `?`s turned into slots, and
      nothing else changes. */
  lemma OneArgumentIsNormalized(sql: string, settings: Settings, cliSurface: bool)
    ensures EntryOf(SqlOnly(sql), settings, cliSurface) == Some(SlotsFrom(sql, Markers(cliSurface), 0))
    ensures '?' !in EntryOf(SqlOnly(sql), settings, cliSurface).value
    ensures '?' !in sql ==> EntryOf(SqlOnly(sql), settings, cliSurface) == Some(sql)
  {
    MarkersQuestionFree(cliSurface);
    SlotsFromNoQuestionMark(sql, Markers(cliSurface), 0);
    if '?' !in sql {
      SlotsFromIdentity(sql, Markers(cliSurface), 0);
    }
  }

  /** Only a second argument that is not an array passes the query through
      verbatim; an array, even an empty one, does not. */
  lemma VerbatimOnlyForNonArray(sql: string, settings: Settings, cliSurface: bool)
    requires '?' in sql
    ensures EntryOf(SqlAndSecond(sql, NotAnArray), settings, cliSurface) == Some(sql)
    ensures EntryOf(SqlAndSecond(sql, BindingsArray([])), settings, cliSurface) != Some(sql)
  {
    MarkersQuestionFree(cliSurface);
    SlotsFromNoQuestionMark(sql, Markers(cliSurface), 0);
  }

  class Debug {
    /** Maximum length of a rendered value; never negative. */
    var strLen: int
    /** Render every value as a string. */
    var flagUseStringOnlyBinding: bool
    /** Write HTML even on the command line. In the source this is a static
        shared by all Debug loggers; here each logger holds its own. */
    var noCLI: bool
    /** Array mode of the parent logger: when set, lines are only buffered. */
    var mode: bool
    /** The log buffer. */
    var logs: seq<string>
    /** What has been echoed, one emission per line. */
    var echoed: seq<Emission>

    ghost predicate Valid()
      reads this
    {
      strLen >= 0
    }

    constructor (mode: bool)
      ensures Valid()
      ensures strLen == 40 && !flagUseStringOnlyBinding && !noCLI
      ensures this.mode == mode && logs == [] && echoed == []
    {
      strLen := 40;
      flagUseStringOnlyBinding := false;
      noCLI := false;
      this.mode := mode;
      logs := [];
      echoed := [];
    }

    /** The renderer settings the logger currently holds. */
    function CurrentSettings(canBeTreatedAsInt: string -> bool): Settings
      reads this
      requires Valid()
    {
      Settings(strLen, flagUseStringOnlyBinding, canBeTreatedAsInt)
    }

    /** The command-line surface is used when PHP runs from the command line
        and the override is off. */
    predicate CliSurface(sapiIsCli: bool)
      reads this
    {
      sapiIsCli && !noCLI
    }

    /** What output() echoes for a line: nothing in array mode. */
    ghost function Echo(line: string, sapiIsCli: bool): seq<Emission>
      reads this
    {
      if mode then [] else [Emission(CliSurface(sapiIsCli), IsSchemaChange(line), line)]
    }

    /** setOverrideCLIOutput */
    method SetOverrideCLIOutput(yesNo: bool)
      modifies this`noCLI
      ensures noCLI == yesNo
    {
      noCLI := yesNo;
    }

    /** setParamStringLength: a negative length is clamped to 0. */
    method SetParamStringLength(len: int)
      modifies this`strLen
      ensures Valid()
      ensures strLen == if len < 0 then 0 else len
    {
      strLen := if 0 > len then 0 else len;
    }

    /** setUseStringOnlyBinding */
    method SetUseStringOnlyBinding(yesNo: bool)
      modifies this`flagUseStringOnlyBinding
      ensures flagUseStringOnlyBinding == yesNo
    {
      flagUseStringOnlyBinding := yesNo;
    }

    /** output: the line is always appended to the buffer, whatever the
        mode; it is echoed, highlighted when it starts a schema change,
        only when the logger is not in array mode. */
    method Output(str: string, sapiIsCli: bool)
      modifies this`logs, this`echoed
      ensures logs == old(logs) + [str]
      ensures echoed == old(echoed) + Echo(str, sapiIsCli)
    {
      logs := logs + [str];
      if !mode {
        var highlight := false;
        if "CREATE" <= str || "ALTER" <= str || "DROP" <= str {
          highlight := true;
        }
        echoed := echoed + [Emission(sapiIsCli && !noCLI, highlight, str)];
      }
    }

    /** log: without arguments nothing happens; with a second argument that
        is not an array the query is output verbatim; otherwise the query is
        normalized, its bindings filled in, and the result output. */
    method Log(call: LogCall, sapiIsCli: bool, canBeTreatedAsInt: string -> bool)
      requires Valid()
      modifies this`logs, this`echoed
      ensures Valid()
      ensures var entry := EntryOf(call, CurrentSettings(canBeTreatedAsInt), CliSurface(sapiIsCli));
              && (entry.None? ==> logs == old(logs) && echoed == old(echoed))
              && (entry.Some? ==> logs == old(logs) + [entry.value]
                                  && echoed == old(echoed) + Echo(entry.value, sapiIsCli))
    {
      if call.NoArguments? {
        return;
      }
      var sql := call.sql;
      var second := if call.SqlOnly? then BindingsArray([]) else call.second;
      if second.NotAnArray? {
        Output(sql, sapiIsCli);
        return;
      }
      var newSql := NormalizeSlots(sql, sapiIsCli && !noCLI);
      var newBindings := NormalizeBindings(second.bindings);
      var newStr := WriteQuery(newSql, newBindings, Settings(strLen, flagUseStringOnlyBinding, canBeTreatedAsInt));
      Output(newStr, sapiIsCli);
    }
  }

  /** Muting does not stop logging: a logger in array mode still buffers
      the line, and only its echo is left out. */
  method MutedLoggerBuffers(str: string, sapiIsCli: bool) returns (logs: seq<string>, echoed: seq<Emission>)
    ensures logs == [str] && echoed == []
  {
    var logger := new Debug(true);
    logger.Output(str, sapiIsCli);
    logs, echoed := logger.logs, logger.echoed;
  }

  /** The schema-change test is case-sensitive and looks only at the start
      of the line. */
  lemma SchemaChangeHeuristic()
    ensures IsSchemaChange("CREATE TABLE book")
    ensures !IsSchemaChange("create table book")
    ensures !IsSchemaChange("SELECT 1; DROP TABLE book")
  {
    assert "SELECT 1; DROP TABLE book"[0] == 'S';
    assert "create table book"[0] == 'c';
  }
}
