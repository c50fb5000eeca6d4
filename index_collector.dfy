/**
 * The collection part of `main`: the statements of a slow-query log, each
 * explained by the database and walked for scan conditions, become a set of
 * `CREATE INDEX` statements and a set of tables to `ANALYZE`, printed sorted.
 */
module IndexCollector {
  import opened Wrappers
  import opened PyStrings
  import opened PlanWalker
  import Sorting

  /**
   * What the collection loop takes from outside: the command-line settings,
   * the names of the `pg_catalog` tables, the database's answer to an
   * `EXPLAIN` (`None` when executing it raises), and Python's `hash` of a
   * filter string.
   */
  datatype Config = Config(
    col: string,
    analyze: bool,
    ifNotExists: bool,
    catalog: set<string>,
    explain: string -> Option<PlanNode>,
    hash: string -> int)

  /** The program state the loop updates: `tables_to_analyze`, `queries`, and the statements whose handling raised, in order. */
  datatype State = State(tables: set<string>, queries: set<string>, reported: seq<string>)

  const Start := State({}, {}, [])

  /** The program as it is written, with `if_nt_exists` unbound at the `format` call, or with the name it evidently means. */
  datatype Variant = AsWritten | Corrected

  // ---------------------------------------------------------------------
  // From the split log to (header, statement) pairs.
  // ---------------------------------------------------------------------

  /**
   * `splits[1:]` grouped two by two; `None` is the `IndexError` that
   * `splits[i+1]` raises when the count left over is odd.
   */
  function Pairs(splits: seq<string>): (r: Option<seq<(string, string)>>)
    ensures r.Some? <==> |splits| <= 1 || |splits| % 2 == 1
    ensures r.Some? ==> |r.value| == |splits| / 2
    ensures r.Some? ==> forall k :: 0 <= k < |r.value| ==> r.value[k] == (splits[2 * k + 1], splits[2 * k + 2])
  {
    if |splits| <= 1 then Some([])
    else
      var r := Group(splits[1..]);
      assert r.Some? ==> forall k :: 0 <= k < |r.value| ==> splits[1..][2 * k] == splits[2 * k + 1] && splits[1..][2 * k + 1] == splits[2 * k + 2];
      r
  }

  function Group(rest: seq<string>): (r: Option<seq<(string, string)>>)
    ensures r.Some? <==> |rest| % 2 == 0
    ensures r.Some? ==> 2 * |r.value| == |rest|
    ensures r.Some? ==> forall k :: 0 <= k < |r.value| ==> r.value[k] == (rest[2 * k], rest[2 * k + 1])
    decreases |rest|
  {
    if rest == [] then Some([])
    else if |rest| == 1 then None
    else
      match Group(rest[2..])
      case None => None
      case Some(t) =>
        assert forall k :: 0 <= k < |t| ==> rest[2..][2 * k] == rest[2 * k + 2] && rest[2..][2 * k + 1] == rest[2 * k + 3];
        Some([(rest[0], rest[1])] + t)
  }

  // ---------------------------------------------------------------------
  // One statement.
  // ---------------------------------------------------------------------

  /** The header of a timed statement: it mentions `duration` and `LOG: `. */
  predicate IsTimed(header: string) {
    Contains(header, "duration") && Contains(header, "LOG: ")
  }

  const IgnoredPrefixes: seq<string> := ["BEGIN", "ALTER ", "SET ", "ERROR "]

  /** Statements skipped without being explained: those that, stripped and upper-cased, start with an ignored prefix. */
  predicate IsIgnored(sql: string) {
    exists k :: 0 <= k < |IgnoredPrefixes| && StartsWith(Upper(Strip(sql, ByteWhitespace)), IgnoredPrefixes[k])
  }

  function ExplainStatement(sql: string): string {
    "EXPLAIN (FORMAT JSON) " + sql + ";"
  }

  /** Text that Python 2 can turn into a byte string with the ASCII codec. */
  predicate IsAscii(s: string) {
    forall i :: 0 <= i < |s| ==> (s[i] as int) < 128
  }

  /** `str(abs(h))[:8]`. */
  function IndexSuffix(h: int): (r: string)
    ensures 1 <= |r| <= 8
    ensures forall i :: 0 <= i < |r| ==> '0' <= r[i] <= '9'
  {
    var d := Decimal(if h < 0 then -h else h);
    if |d| <= 8 then d else d[..8]
  }

  function IndexHead(cfg: Config, table: string): string {
    "CREATE INDEX" + (if cfg.ifNotExists then " IF NOT EXISTS" else "") + " " + table + "_idx"
  }

  function IndexTail(cfg: Config, table: string, filter: string): string {
    " ON " + table + " USING GIST (" + cfg.col + ") WHERE " + filter + ";"
  }

  /** The `CREATE INDEX` statement for a filter on a table. */
  function IndexStatement(cfg: Config, table: string, filter: string): string {
    IndexHead(cfg, table) + IndexSuffix(cfg.hash(filter)) + IndexTail(cfg, table, filter)
  }

  /**
   * One `(filter, table_name)` pair of the plan: catalog tables are
   * skipped; otherwise the table is added for `ANALYZE`, and then the
   * statement is built. The second component says that the step raised,
   * which ends the statement's loop: as written, always (`NameError`);
   * corrected, when the filter or table cannot be encoded as ASCII
   * (`UnicodeEncodeError` from `str.format`).
   */
  function FindingStep(cfg: Config, v: Variant, st: State, f: Finding): (State, bool) {
    if f.table in cfg.catalog then (st, false)
    else
      var st1 := st.(tables := st.tables + {f.table});
      if v == AsWritten || !IsAscii(f.filter) || !IsAscii(f.table) then (st1, true)
      else (st1.(queries := st1.queries + {IndexStatement(cfg, f.table, f.filter)}), false)
  }

  /** The loop over a plan's pairs, up to the first that raises. */
  function FindingsStep(cfg: Config, v: Variant, st: State, fs: seq<Finding>): (State, bool)
    decreases fs
  {
    if fs == [] then (st, false)
    else
      var (st1, raised) := FindingStep(cfg, v, st, fs[0]);
      if raised then (st1, true) else FindingsStep(cfg, v, st1, fs[1..])
  }

  /**
   * One `(header, sql)` pair. Untimed and ignored statements change
   * nothing; any exception inside the `try` reports the statement and
   * keeps what the statement's pairs had added before it.
   */
  function StatementStep(cfg: Config, v: Variant, st: State, p: (string, string)): State {
    var (header, sql) := p;
    if !IsTimed(header) || IsIgnored(sql) then st
    else
      match cfg.explain(ExplainStatement(sql))
      case None => st.(reported := st.reported + [sql])
      case Some(plan) =>
        match GetFiltersFromPlan(plan, cfg.col)
        case Failure(_) => st.(reported := st.reported + [sql])
        case Success(fs) =>
          var (st1, raised) := FindingsStep(cfg, v, st, fs);
          if raised then st1.(reported := st1.reported + [sql]) else st1
  }

  /** The loop over all pairs of the log, from `st`. */
  function Collect(cfg: Config, v: Variant, st: State, ps: seq<(string, string)>): State
    decreases ps
  {
    if ps == [] then st else Collect(cfg, v, StatementStep(cfg, v, st, ps[0]), ps[1..])
  }

  // ---------------------------------------------------------------------
  // Printing.
  // ---------------------------------------------------------------------

  function AnalyzeLine(table: string): string {
    "ANALYZE " + table + ";"
  }

  /** The `ANALYZE` lines of `ts` that are printed before one raises. */
  function PrintableAnalyzeLines(ts: seq<string>): seq<string> {
    seq(AsciiPrefix(ts), n requires 0 <= n < AsciiPrefix(ts) => AnalyzeLine(ts[n]))
  }

  /** How many tables, from the front, can be printed before one that is not ASCII. */
  function AsciiPrefix(ts: seq<string>): (p: nat)
    ensures p <= |ts|
    ensures forall i :: 0 <= i < p ==> IsAscii(ts[i])
    ensures p < |ts| ==> !IsAscii(ts[p])
  {
    if ts == [] || !IsAscii(ts[0]) then 0 else 1 + AsciiPrefix(ts[1..])
  }

  /**
   * What is printed after the loop: the sorted statements, then, with
   * `--analyze`, one `ANALYZE` line per sorted table, up to the first table
   * whose line raises `UnicodeEncodeError`; the flag says the program ended
   * on that exception.
   */
  ghost function Output(cfg: Config, st: State): (seq<string>, bool) {
    var q := Sorting.SortedOf(st.queries);
    if !cfg.analyze then (q, false)
    else
      var ts := Sorting.SortedOf(st.tables);
      (q + PrintableAnalyzeLines(ts), AsciiPrefix(ts) < |ts|)
  }

  /** The loop over one plan's pairs (lines 121-128, corrected). */
  method AddFindings(cfg: Config, st: State, fs: seq<Finding>) returns (r: State, raised: bool)
    ensures (r, raised) == FindingsStep(cfg, Corrected, st, fs)
  {
    var tables, queries := st.tables, st.queries;
    var j := 0;
    raised := false;
    while j < |fs| && !raised
      invariant j <= |fs|
      invariant !raised ==> FindingsStep(cfg, Corrected, st.(tables := tables, queries := queries), fs[j..]) == FindingsStep(cfg, Corrected, st, fs)
      invariant raised ==> (st.(tables := tables, queries := queries), true) == FindingsStep(cfg, Corrected, st, fs)
    {
      var f := fs[j];
      assert fs[j..][0] == f && fs[j..][1..] == fs[j + 1..];
      if f.table !in cfg.catalog {
        tables := tables + {f.table};
        if IsAscii(f.filter) && IsAscii(f.table) {
          queries := queries + {IndexStatement(cfg, f.table, f.filter)};
        } else {
          raised := true;
        }
      }
      j := j + 1;
    }
    r := st.(tables := tables, queries := queries);
  }

  /** The body of the loop over the log's pairs (lines 107-132, corrected). */
  method HandleStatement(cfg: Config, st: State, header: string, sql: string) returns (r: State)
    ensures r == StatementStep(cfg, Corrected, st, (header, sql))
  {
    r := st;
    if !IsTimed(header) || IsIgnored(sql) {
      return;
    }
    var res := cfg.explain(ExplainStatement(sql));
    if res.None? {
      r := st.(reported := st.reported + [sql]);
      return;
    }
    var walk := GetFiltersFromPlan(res.value, cfg.col);
    if walk.Failure? {
      r := st.(reported := st.reported + [sql]);
      return;
    }
    var raised;
    r, raised := AddFindings(cfg, st, walk.value);
    if raised {
      r := r.(reported := r.reported + [sql]);
    }
  }

  /** Lines 138-140: the `ANALYZE` lines of the sorted tables, up to the first that raises. */
  method AnalyzeLines(ts: seq<string>) returns (lines: seq<string>, crashed: bool)
    ensures crashed <==> AsciiPrefix(ts) < |ts|
    ensures lines == PrintableAnalyzeLines(ts)
  {
    lines := [];
    crashed := false;
    var i := 0;
    while i < |ts|
      invariant i <= AsciiPrefix(ts)
      invariant lines == seq(i, n requires 0 <= n < i => AnalyzeLine(ts[n]))
      invariant !crashed
    {
      if !IsAscii(ts[i]) {
        crashed := true;
        break;
      }
      lines := lines + [AnalyzeLine(ts[i])];
      i := i + 1;
    }
    assert i == AsciiPrefix(ts);
    assert lines == PrintableAnalyzeLines(ts);
  }

  /** Lines 134-140: the sorted statements, then the `ANALYZE` lines. */
  method PrintResults(cfg: Config, st: State) returns (lines: seq<string>, crashed: bool)
    ensures (lines, crashed) == Output(cfg, st)
  {
    lines := Sorting.Sorted(st.queries);
    crashed := false;
    if cfg.analyze {
      var ts := Sorting.Sorted(st.tables);
      var extra;
      extra, crashed := AnalyzeLines(ts);
      lines := lines + extra;
    }
  }

  /** The loop over `ps[k..]` handles `ps[k]` first. */
  lemma CollectFirst(cfg: Config, v: Variant, st: State, ps: seq<(string, string)>, k: nat)
    requires k < |ps|
    ensures Collect(cfg, v, st, ps[k..]) == Collect(cfg, v, StatementStep(cfg, v, st, ps[k]), ps[k + 1..])
  {
    assert ps[k..][0] == ps[k] && ps[k..][1..] == ps[k + 1..];
  }

  /**
   * Lines 104-140 of `main`, corrected: the statements reported in the
   * `except` branch, the lines printed at the end, and whether the program
   * ended on an exception (`IndexError` while pairing, or an `ANALYZE` line
   * that cannot be encoded).
   */
  method Run(cfg: Config, splits: seq<string>) returns (reported: seq<string>, lines: seq<string>, crashed: bool)
    ensures Pairs(splits).None? ==> reported == [] && lines == [] && crashed
    ensures Pairs(splits).Some? ==>
      var st := Collect(cfg, Corrected, Start, Pairs(splits).value);
      reported == st.reported && (lines, crashed) == Output(cfg, st)
  {
    var pairs := Pairs(splits);
    if pairs.None? {
      return [], [], true;
    }
    var ps := pairs.value;
    var st := Start;
    var k := 0;
    while k < |ps|
      invariant k <= |ps|
      invariant Collect(cfg, Corrected, st, ps[k..]) == Collect(cfg, Corrected, Start, ps)
    {
      CollectFirst(cfg, Corrected, st, ps, k);
      st := HandleStatement(cfg, st, ps[k].0, ps[k].1);
      k := k + 1;
    }
    assert ps[k..] == [];
    reported := st.reported;
    lines, crashed := PrintResults(cfg, st);
  }
}
