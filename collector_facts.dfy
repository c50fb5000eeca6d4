/**
 * What the collection loop of `main` guarantees about the statements and
 * tables it prints.
 */
module CollectorFacts {
  import opened Wrappers
  import opened PyStrings
  import opened PlanWalker
  import opened IndexCollector
  import Sorting
  import GeomFilter
  import FilterShapes

  // ---------------------------------------------------------------------
  // Which statements are explained.
  // ---------------------------------------------------------------------

  /** Skipping ignores case: a statement is skipped exactly when its upper-cased text is. */
  lemma IgnoredAnyCase(sql: string)
    ensures IsIgnored(Upper(sql)) <==> IsIgnored(sql)
  {
    UpperStrip(sql);
    UpperIdempotent(Strip(sql, ByteWhitespace));
    assert Upper(Strip(Upper(sql), ByteWhitespace)) == Upper(Strip(sql, ByteWhitespace));
  }

  /** Skipping ignores surrounding whitespace: a statement is skipped exactly when its stripped text is. */
  lemma IgnoredAnyPadding(sql: string)
    ensures IsIgnored(Strip(sql, ByteWhitespace)) <==> IsIgnored(sql)
  {
    StripIdempotent(sql, ByteWhitespace);
  }

  // ---------------------------------------------------------------------
  // The pairs of one plan.
  // ---------------------------------------------------------------------

  /** One pair adds the same tables and statements whatever the state. */
  lemma FindingEffect(cfg: Config, v: Variant, st: State, f: Finding)
    ensures var (z, raised) := FindingStep(cfg, v, Start, f);
      FindingStep(cfg, v, st, f) == (st.(tables := st.tables + z.tables, queries := st.queries + z.queries), raised)
  {
    if f.table in cfg.catalog {
      assert st.(tables := st.tables + {}, queries := st.queries + {}) == st;
    } else {
      assert Start.tables + {f.table} == {f.table};
      if v == Corrected && IsAscii(f.filter) && IsAscii(f.table) {
        assert Start.queries + {IndexStatement(cfg, f.table, f.filter)} == {IndexStatement(cfg, f.table, f.filter)};
      } else {
        assert st.queries + Start.queries == st.queries;
      }
    }
  }

  /** A plan's pairs add the same tables and statements whatever the state, and stop at the same point. */
  lemma {:induction false} FindingsEffect(cfg: Config, v: Variant, st: State, fs: seq<Finding>)
    ensures var (z, raised) := FindingsStep(cfg, v, Start, fs);
      FindingsStep(cfg, v, st, fs) == (st.(tables := st.tables + z.tables, queries := st.queries + z.queries), raised)
    decreases fs
  {
    if fs != [] {
      FindingEffect(cfg, v, st, fs[0]);
      var (z1, r1) := FindingStep(cfg, v, Start, fs[0]);
      var st1 := FindingStep(cfg, v, st, fs[0]).0;
      assert st1 == st.(tables := st.tables + z1.tables, queries := st.queries + z1.queries);
      if r1 {
        assert FindingsStep(cfg, v, Start, fs) == (z1, true);
        assert FindingsStep(cfg, v, st, fs) == (st1, true);
      } else {
        FindingsEffect(cfg, v, st1, fs[1..]);
        FindingsEffect(cfg, v, z1, fs[1..]);
        var (z2, r2) := FindingsStep(cfg, v, Start, fs[1..]);
        assert FindingsStep(cfg, v, Start, fs) == FindingsStep(cfg, v, z1, fs[1..]);
        assert FindingsStep(cfg, v, st, fs) == FindingsStep(cfg, v, st1, fs[1..]);
        assert st1.tables + z2.tables == st.tables + (z1.tables + z2.tables);
        assert st1.queries + z2.queries == st.queries + (z1.queries + z2.queries);
      }
    } else {
      assert st.(tables := st.tables + {}, queries := st.queries + {}) == st;
    }
  }

  /** A plan whose pairs all encode as ASCII adds every pair's statement and raises nothing. */
  lemma {:induction false} FindingsAllAdded(cfg: Config, st: State, fs: seq<Finding>)
    requires forall f :: f in fs && f.table !in cfg.catalog ==> IsAscii(f.table) && IsAscii(f.filter)
    ensures !FindingsStep(cfg, Corrected, st, fs).1
    ensures forall f :: f in fs && f.table !in cfg.catalog ==>
      f.table in FindingsStep(cfg, Corrected, st, fs).0.tables
      && IndexStatement(cfg, f.table, f.filter) in FindingsStep(cfg, Corrected, st, fs).0.queries
    decreases fs
  {
    if fs != [] {
      var st1 := FindingStep(cfg, Corrected, st, fs[0]).0;
      FindingsAllAdded(cfg, st1, fs[1..]);
      FindingsEffect(cfg, Corrected, st1, fs[1..]);
    }
  }

  /** Every statement a plan's pairs add is built from one of its pairs on a table outside the catalog, whose table is added too. */
  lemma {:induction false} FindingsSound(cfg: Config, v: Variant, st: State, fs: seq<Finding>)
    ensures FindingsStep(cfg, v, st, fs).0.tables <= st.tables + set f | f in fs && f.table !in cfg.catalog :: f.table
    ensures forall q :: q in FindingsStep(cfg, v, st, fs).0.queries ==>
      q in st.queries
      || (exists f :: f in fs && f.table !in cfg.catalog && IsAscii(f.table) && IsAscii(f.filter)
            && f.table in FindingsStep(cfg, v, st, fs).0.tables && q == IndexStatement(cfg, f.table, f.filter))
    decreases fs
  {
    if fs != [] {
      var st1 := FindingStep(cfg, v, st, fs[0]).0;
      FindingsSound(cfg, v, st1, fs[1..]);
      FindingsEffect(cfg, v, st1, fs[1..]);
      assert forall f :: f in fs[1..] ==> f in fs;
    }
  }

  // ---------------------------------------------------------------------
  // One statement of the log.
  // ---------------------------------------------------------------------

  /** The pairs the walk finds in a statement that is timed, not ignored, explained and walked without an exception. */
  function StatementFindings(cfg: Config, p: (string, string)): Option<seq<Finding>> {
    if !IsTimed(p.0) || IsIgnored(p.1) then None
    else
      match cfg.explain(ExplainStatement(p.1))
      case None => None
      case Some(plan) =>
        match GetFiltersFromPlan(plan, cfg.col)
        case Failure(_) => None
        case Success(fs) => Some(fs)
  }

  /** `f` is a pair the statement `p` yields on a table outside the catalog. */
  predicate Yields(cfg: Config, p: (string, string), f: Finding) {
    StatementFindings(cfg, p).Some? && f in StatementFindings(cfg, p).value && f.table !in cfg.catalog
  }

  /** Every pair the statement yields can be printed: the table and the filter are ASCII. */
  predicate Clean(cfg: Config, p: (string, string)) {
    StatementFindings(cfg, p).Some?
    && forall f :: f in StatementFindings(cfg, p).value && f.table !in cfg.catalog ==> IsAscii(f.table) && IsAscii(f.filter)
  }

  /** A statement that is explained and walked adds what its pairs add; any other statement adds nothing. */
  lemma StatementEffect(cfg: Config, v: Variant, st: State, p: (string, string))
    ensures var r := StatementStep(cfg, v, st, p);
      if StatementFindings(cfg, p).None? then r.tables == st.tables && r.queries == st.queries
      else
        var z := FindingsStep(cfg, v, Start, StatementFindings(cfg, p).value).0;
        r.tables == st.tables + z.tables && r.queries == st.queries + z.queries
  {
    if StatementFindings(cfg, p).Some? {
      FindingsEffect(cfg, v, st, StatementFindings(cfg, p).value);
    } else if IsTimed(p.0) && !IsIgnored(p.1) && cfg.explain(ExplainStatement(p.1)).Some? {
      var plan := cfg.explain(ExplainStatement(p.1)).value;
      assert GetFiltersFromPlan(plan, cfg.col).Failure?;
    }
  }

  /** Handling the same statement twice adds no table and no statement the first time did not. */
  lemma RepeatedStatement(cfg: Config, v: Variant, st: State, p: (string, string))
    ensures var once := Collect(cfg, v, st, [p]);
      var twice := Collect(cfg, v, st, [p, p]);
      twice.tables == once.tables && twice.queries == once.queries
  {
    var s1 := StatementStep(cfg, v, st, p);
    StatementEffect(cfg, v, st, p);
    StatementEffect(cfg, v, s1, p);
    assert [p, p][1..] == [p] && [p][1..] == [];
    assert Collect(cfg, v, st, [p]) == s1;
    assert Collect(cfg, v, st, [p, p]) == Collect(cfg, v, s1, [p]) == StatementStep(cfg, v, s1, p);
  }

  // ---------------------------------------------------------------------
  // The whole log.
  // ---------------------------------------------------------------------

  /** Splitting the log between two runs of the loop. */
  lemma {:induction false} CollectAppend(cfg: Config, v: Variant, st: State, ps: seq<(string, string)>, qs: seq<(string, string)>)
    ensures Collect(cfg, v, st, ps + qs) == Collect(cfg, v, Collect(cfg, v, st, ps), qs)
    decreases ps
  {
    if ps == [] {
      assert ps + qs == qs;
    } else {
      assert (ps + qs)[0] == ps[0] && (ps + qs)[1..] == ps[1..] + qs;
      CollectAppend(cfg, v, StatementStep(cfg, v, st, ps[0]), ps[1..], qs);
    }
  }

  /** Tables and statements are only ever added. */
  lemma {:induction false} CollectGrows(cfg: Config, v: Variant, st: State, ps: seq<(string, string)>)
    ensures st.tables <= Collect(cfg, v, st, ps).tables && st.queries <= Collect(cfg, v, st, ps).queries
    decreases ps
  {
    if ps != [] {
      StatementEffect(cfg, v, st, ps[0]);
      CollectGrows(cfg, v, StatementStep(cfg, v, st, ps[0]), ps[1..]);
    }
  }

  /**
   * What the sets hold between statements: no catalog table is to be
   * analyzed, and every statement indexes a table that is, for an ASCII
   * filter.
   */
  ghost predicate Consistent(cfg: Config, st: State) {
    (forall t :: t in st.tables ==> t !in cfg.catalog)
    && forall q :: q in st.queries ==>
      exists f: Finding :: f.table in st.tables && IsAscii(f.table) && IsAscii(f.filter) && q == IndexStatement(cfg, f.table, f.filter)
  }

  lemma StatementConsistent(cfg: Config, v: Variant, st: State, p: (string, string))
    requires Consistent(cfg, st)
    ensures Consistent(cfg, StatementStep(cfg, v, st, p))
  {
    var r := StatementStep(cfg, v, st, p);
    StatementEffect(cfg, v, st, p);
    if StatementFindings(cfg, p).Some? {
      var fs := StatementFindings(cfg, p).value;
      FindingsSound(cfg, v, st, fs);
      FindingsEffect(cfg, v, st, fs);
      assert r.tables == FindingsStep(cfg, v, st, fs).0.tables && r.queries == FindingsStep(cfg, v, st, fs).0.queries;
      forall q | q in r.queries
        ensures exists f: Finding :: f.table in r.tables && IsAscii(f.table) && IsAscii(f.filter) && q == IndexStatement(cfg, f.table, f.filter)
      {
        if q in st.queries {
          var f: Finding :| f.table in st.tables && IsAscii(f.table) && IsAscii(f.filter) && q == IndexStatement(cfg, f.table, f.filter);
        }
      }
    }
  }

  /** The loop keeps the sets consistent. */
  lemma {:induction false} CollectConsistent(cfg: Config, v: Variant, st: State, ps: seq<(string, string)>)
    requires Consistent(cfg, st)
    ensures Consistent(cfg, Collect(cfg, v, st, ps))
    decreases ps
  {
    if ps != [] {
      StatementConsistent(cfg, v, st, ps[0]);
      CollectConsistent(cfg, v, StatementStep(cfg, v, st, ps[0]), ps[1..]);
    }
  }

  /** No `pg_catalog` table is analyzed or indexed, and every indexed table is analyzed. */
  lemma CatalogExcluded(cfg: Config, v: Variant, ps: seq<(string, string)>)
    ensures var st := Collect(cfg, v, Start, ps);
      (forall t :: t in st.tables ==> t !in cfg.catalog)
      && forall q :: q in st.queries ==>
        exists f: Finding :: f.table in st.tables && f.table !in cfg.catalog && q == IndexStatement(cfg, f.table, f.filter)
  {
    CollectConsistent(cfg, v, Start, ps);
  }

  /** Every statement printed comes from a pair that some logged statement yields. */
  lemma {:induction false} CollectSound(cfg: Config, v: Variant, st: State, ps: seq<(string, string)>, q: string)
    requires q in Collect(cfg, v, st, ps).queries
    ensures q in st.queries || exists k, f :: 0 <= k < |ps| && Yields(cfg, ps[k], f) && q == IndexStatement(cfg, f.table, f.filter)
    decreases ps
  {
    if ps != [] {
      var s1 := StatementStep(cfg, v, st, ps[0]);
      CollectSound(cfg, v, s1, ps[1..], q);
      if q in s1.queries && q !in st.queries {
        StatementEffect(cfg, v, st, ps[0]);
        var fs := StatementFindings(cfg, ps[0]).value;
        FindingsSound(cfg, v, st, fs);
        FindingsEffect(cfg, v, st, fs);
        var f :| f in fs && f.table !in cfg.catalog && IsAscii(f.table) && IsAscii(f.filter)
          && f.table in FindingsStep(cfg, v, st, fs).0.tables && q == IndexStatement(cfg, f.table, f.filter);
        assert Yields(cfg, ps[0], f);
      } else if q !in st.queries {
        var k, f :| 0 <= k < |ps[1..]| && Yields(cfg, ps[1..][k], f) && q == IndexStatement(cfg, f.table, f.filter);
        assert Yields(cfg, ps[k + 1], f);
      }
    }
  }

  /** A statement all of whose pairs encode adds each of its pairs. */
  lemma StatementAddsClean(cfg: Config, st: State, p: (string, string), f: Finding)
    requires Yields(cfg, p, f) && Clean(cfg, p)
    ensures f.table in StatementStep(cfg, Corrected, st, p).tables
    ensures IndexStatement(cfg, f.table, f.filter) in StatementStep(cfg, Corrected, st, p).queries
  {
    var fs := StatementFindings(cfg, p).value;
    FindingsAllAdded(cfg, st, fs);
    assert StatementStep(cfg, Corrected, st, p) == FindingsStep(cfg, Corrected, st, fs).0;
  }

  /**
   * Every pair of a logged statement is indexed and analyzed, provided the
   * statement's pairs all encode.
   */
  lemma CollectComplete(cfg: Config, st: State, ps: seq<(string, string)>, k: nat, p: (string, string), f: Finding)
    requires k < |ps| && ps[k] == p && Yields(cfg, p, f) && Clean(cfg, p)
    ensures f.table in Collect(cfg, Corrected, st, ps).tables
    ensures IndexStatement(cfg, f.table, f.filter) in Collect(cfg, Corrected, st, ps).queries
  {
    var before := Collect(cfg, Corrected, st, ps[..k]);
    CollectAt(cfg, Corrected, st, ps, k);
    StatementAddsClean(cfg, before, p, f);
    CollectGrows(cfg, Corrected, StatementStep(cfg, Corrected, before, p), ps[k + 1..]);
  }

  /** The loop reaches statement `k` after the first `k`, handles it, and goes on with the rest. */
  lemma CollectAt(cfg: Config, v: Variant, st: State, ps: seq<(string, string)>, k: nat)
    requires k < |ps|
    ensures Collect(cfg, v, st, ps) == Collect(cfg, v, StatementStep(cfg, v, Collect(cfg, v, st, ps[..k]), ps[k]), ps[k + 1..])
  {
    assert ps == ps[..k] + ps[k..];
    CollectAppend(cfg, v, st, ps[..k], ps[k..]);
    CollectFirst(cfg, v, Collect(cfg, v, st, ps[..k]), ps, k);
  }

  // ---------------------------------------------------------------------
  // The statements themselves.
  // ---------------------------------------------------------------------

  /** A run of digits followed by a non-digit splits a string in one way only. */
  lemma DigitsThenOther(s1: string, r1: string, s2: string, r2: string)
    requires forall i :: 0 <= i < |s1| ==> '0' <= s1[i] <= '9'
    requires forall i :: 0 <= i < |s2| ==> '0' <= s2[i] <= '9'
    requires r1 != [] && r2 != [] && !('0' <= r1[0] <= '9') && !('0' <= r2[0] <= '9')
    requires s1 + r1 == s2 + r2
    ensures s1 == s2 && r1 == r2
  {
    var y := s1 + r1;
    DigitsEnd(s1, r1);
    DigitsEnd(s2, r2);
    assert |s1| == |s2|;
    assert s1 == y[..|s1|] && r1 == y[|s1|..];
  }

  /** In `s + r`, the digits of `s` end where `r` starts. */
  lemma DigitsEnd(s: string, r: string)
    requires forall i :: 0 <= i < |s| ==> '0' <= s[i] <= '9'
    requires r != [] && !('0' <= r[0] <= '9')
    ensures forall i :: 0 <= i < |s| ==> '0' <= (s + r)[i] <= '9'
    ensures !('0' <= (s + r)[|s|] <= '9')
  {
  }

  /** Two filters on one table give the same statement only when they are the same filter. */
  lemma IndexStatementInjective(cfg: Config, table: string, f1: string, f2: string)
    requires IndexStatement(cfg, table, f1) == IndexStatement(cfg, table, f2)
    ensures f1 == f2
  {
    var h := IndexHead(cfg, table);
    var s1, s2 := IndexSuffix(cfg.hash(f1)), IndexSuffix(cfg.hash(f2));
    var c := " ON " + table + " USING GIST (" + cfg.col + ") WHERE ";
    var r1, r2 := c + f1 + ";", c + f2 + ";";
    assert IndexTail(cfg, table, f1) == r1 && IndexTail(cfg, table, f2) == r2;
    assert (h + s1 + r1)[|h|..] == s1 + r1;
    assert (h + s2 + r2)[|h|..] == s2 + r2;
    assert r1[0] == ' ' && r2[0] == ' ';
    DigitsThenOther(s1, r1, s2, r2);
    assert f1 == r1[|c|..|r1| - 1];
    assert f2 == r2[|c|..|r2| - 1];
  }

  // ---------------------------------------------------------------------
  // The program as written.
  // ---------------------------------------------------------------------

  /** As written, the `NameError` at the `format` call means no statement is ever collected. */
  lemma {:induction false} AsWrittenCollectsNoIndex(cfg: Config, st: State, ps: seq<(string, string)>)
    ensures Collect(cfg, AsWritten, st, ps).queries == st.queries
    decreases ps
  {
    if ps != [] {
      StatementEffect(cfg, AsWritten, st, ps[0]);
      if StatementFindings(cfg, ps[0]).Some? {
        AsWrittenFindingsNoIndex(cfg, StatementFindings(cfg, ps[0]).value);
      }
      AsWrittenCollectsNoIndex(cfg, StatementStep(cfg, AsWritten, st, ps[0]), ps[1..]);
    }
  }

  lemma AsWrittenFindingsNoIndex(cfg: Config, fs: seq<Finding>)
    ensures FindingsStep(cfg, AsWritten, Start, fs).0.queries == {}
  {
    if fs != [] && fs[0].table in cfg.catalog {
      AsWrittenFindingsNoIndex(cfg, fs[1..]);
    }
  }

  /** So, as written, only `ANALYZE` lines are ever printed. */
  lemma AsWrittenPrintsOnlyAnalyze(cfg: Config, ps: seq<(string, string)>)
    ensures var st := Collect(cfg, AsWritten, Start, ps);
      Output(cfg, st).0 == if cfg.analyze then PrintableAnalyzeLines(Sorting.SortedOf(st.tables)) else []
  {
    var st := Collect(cfg, AsWritten, Start, ps);
    AsWrittenCollectsNoIndex(cfg, Start, ps);
    assert st.queries == {};
    assert Sorting.SortedOf({}) == [];
  }

  /**
   * One logged statement whose plan has a scan condition that keeps
   * something on an ordinary table: the corrected loop indexes it, the
   * loop as written does not.
   */
  lemma AsWrittenLosesIndex(cfg: Config, p: (string, string), f: Finding)
    requires Yields(cfg, p, f) && Clean(cfg, p)
    ensures IndexStatement(cfg, f.table, f.filter) in Collect(cfg, Corrected, Start, [p]).queries
    ensures Collect(cfg, AsWritten, Start, [p]).queries == {}
  {
    CollectComplete(cfg, Start, [p], 0, p, f);
    AsWrittenCollectsNoIndex(cfg, Start, [p]);
  }

  /** A database whose `EXPLAIN` of any statement is a sequential scan of `table` filtered by `filter`. */
  function ScanConfig(col: string, filter: string, table: string): Config {
    Config(col, false, true, {}, s => Some(PlanNode(Some(SeqScan), Some(filter), None, Some(table), false, [])), s => 12345)
  }

  /** The filter of the finding: PostgreSQL's rendering of `highway = 'primary'`. */
  const WitnessFilter := "(highway = 'primary'::text)"

  /** A timed statement of the log: its header, as the log regular expression captures it, and its text. */
  const WitnessStatement := ("2024-01-01 00:00:00.000 UTC [123] postgres@gis " + "LOG:  " + "duration: 1.000 ms  statement:", " SELECT 1")

  /**
   * The statement of the finding, a timed statement whose plan is a
   * sequential scan of `planet_osm_line` filtered on `highway`, meets
   * `AsWrittenLosesIndex`'s condition, so that lemma speaks of a real log.
   * The input is named by parameters, which keeps the verifier from
   * evaluating the normaliser on the literal text.
   */
  lemma AsWrittenLosesIndexWitness(col: string, filter: string, table: string)
    requires col == "way" && filter == WitnessFilter && table == "planet_osm_line"
    ensures var cfg := ScanConfig(col, filter, table);
      Yields(cfg, WitnessStatement, Finding(filter, table)) && Clean(cfg, WitnessStatement)
      && IndexStatement(cfg, table, filter) in Collect(cfg, Corrected, Start, [WitnessStatement]).queries
      && Collect(cfg, AsWritten, Start, [WitnessStatement]).queries == {}
  {
    WitnessExplained();
    WitnessGeomFree(col, filter);
    WitnessUnpadded(filter, table);
    ScanLosesIndex(col, filter, table, WitnessStatement);
  }

  /**
   * A timed statement, explained as a sequential scan whose filter names no
   * geometry column and is not padded, on a printable ordinary table: the
   * corrected loop indexes it, the loop as written does not.
   */
  lemma ScanLosesIndex(col: string, filter: string, table: string, p: (string, string))
    requires IsTimed(p.0) && !IsIgnored(p.1)
    requires GeomFilter.GeomFree(col, filter)
    requires filter != [] && filter[0] !in UnicodeWhitespace && filter[|filter| - 1] !in UnicodeWhitespace
    requires IsAscii(filter) && IsAscii(table)
    ensures var cfg := ScanConfig(col, filter, table);
      Yields(cfg, p, Finding(filter, table)) && Clean(cfg, p)
      && IndexStatement(cfg, table, filter) in Collect(cfg, Corrected, Start, [p]).queries
      && Collect(cfg, AsWritten, Start, [p]).queries == {}
  {
    var cfg := ScanConfig(col, filter, table);
    var plan := PlanNode(Some(SeqScan), Some(filter), None, Some(table), false, []);
    FilterShapes.RewritesKeep(col, filter);
    KeptWhole(col, filter);
    assert cfg.explain(ExplainStatement(p.1)) == Some(plan);
    SeqScanKeeps(plan, col, filter, table);
    OneFinding(cfg, p, plan, Finding(filter, table));
    AsWrittenLosesIndex(cfg, p, Finding(filter, table));
  }

  /** A sequential scan whose whole filter survives normalising yields that filter and its table. */
  lemma SeqScanKeeps(plan: PlanNode, col: string, filter: string, table: string)
    requires plan.nodeType == Some(SeqScan) && plan.filter == Some(filter) && plan.relationName == Some(table)
    requires GeomFilter.RmGeomCondition(col, filter) == filter != ""
    ensures GetFiltersFromPlan(plan, col) == Success([Finding(filter, table)])
  {
  }

  /** A statement that is explained, and whose plan yields one printable pair on an ordinary table, yields it cleanly. */
  lemma OneFinding(cfg: Config, p: (string, string), plan: PlanNode, f: Finding)
    requires IsTimed(p.0) && !IsIgnored(p.1)
    requires cfg.explain(ExplainStatement(p.1)) == Some(plan)
    requires GetFiltersFromPlan(plan, cfg.col) == Success([f])
    requires f.table !in cfg.catalog && IsAscii(f.table) && IsAscii(f.filter)
    ensures Yields(cfg, p, f) && Clean(cfg, p)
  {
    assert StatementFindings(cfg, p) == Some([f]);
  }

  /** The statement is timed and not skipped. */
  lemma WitnessExplained()
    ensures IsTimed(WitnessStatement.0) && !IsIgnored(WitnessStatement.1)
  {
    WitnessTimed(WitnessStatement.0);
    WitnessSqlStripped();
    WitnessNotIgnored(Upper(Strip(WitnessStatement.1, ByteWhitespace)));
  }

  /** `SELECT 1` starts with none of the ignored prefixes. */
  lemma WitnessNotIgnored(u: string)
    requires u == Upper("SELECT 1")
    ensures forall k :: 0 <= k < |IgnoredPrefixes| ==> !StartsWith(u, IgnoredPrefixes[k])
  {
    assert u[0] == 'S' && u[2] == 'L';
    assert !StartsWith(u, IgnoredPrefixes[0]) by { assert "BEGIN"[0] == 'B'; }
    assert !StartsWith(u, IgnoredPrefixes[1]) by { assert "ALTER "[0] == 'A'; }
    assert !StartsWith(u, IgnoredPrefixes[2]) by { assert "SET "[2] == 'T'; }
    assert !StartsWith(u, IgnoredPrefixes[3]) by { assert "ERROR "[0] == 'E'; }
  }

  lemma WitnessTimed(header: string)
    requires header == WitnessStatement.0
    ensures IsTimed(header)
  {
    var a, b, c := "2024-01-01 00:00:00.000 UTC [123] postgres@gis ", "LOG:  ", "duration: 1.000 ms  statement:";
    assert header[|a|..] == b + c;
    assert header[|a| + |b|..] == c;
  }

  lemma WitnessSqlStripped()
    ensures Strip(WitnessStatement.1, ByteWhitespace) == "SELECT 1"
  {
    var sql := WitnessStatement.1;
    assert LeadingCount(sql, ByteWhitespace) == 1 by {
      assert LeadingCount(sql[1..], ByteWhitespace) == 0;
    }
    assert TrailingCount(sql[1..], ByteWhitespace) == 0;
  }

  /** The filter of the finding names no geometry column: its one `(` opens `highway`. */
  lemma WitnessGeomFree(col: string, filter: string)
    requires col == "way" && filter == WitnessFilter
    ensures GeomFilter.GeomFree(col, filter)
  {
    WitnessOneParen(filter);
    forall j | 0 <= j < |filter|
      ensures !GeomFilter.LiveAt(col, filter, j)
    {
      if j == 0 {
        assert filter[1..][0] == 'h';
        assert GeomFilter.ProbeText(col, GeomFilter.BboxProbe)[0] == 'w';
        assert GeomFilter.ProbeText(col, GeomFilter.BoundaryProbe)[0] == 's';
        assert GeomFilter.ProbeText(col, GeomFilter.DistanceProbe)[0] == '_';
      }
    }
  }

  lemma WitnessOneParen(filter: string)
    requires filter == WitnessFilter
    ensures forall j :: 0 < j < |filter| ==> filter[j] != '('
  {
    assert '(' !in filter[1..];
    forall j | 0 < j < |filter| ensures filter[j] != '(' {
      assert filter[j] == filter[1..][j - 1];
    }
  }

  /** The filter has no whitespace at its ends, and it and the table are ASCII. */
  lemma WitnessUnpadded(filter: string, table: string)
    requires filter == WitnessFilter && table == "planet_osm_line"
    ensures filter != [] && filter[0] !in UnicodeWhitespace && filter[|filter| - 1] !in UnicodeWhitespace
    ensures IsAscii(filter) && IsAscii(table)
  {
    WitnessAscii(filter, table);
    assert filter[0] == '(' && filter[|filter| - 1] == ')';
  }

  lemma WitnessAscii(filter: string, table: string)
    requires filter == WitnessFilter && table == "planet_osm_line"
    ensures IsAscii(filter) && IsAscii(table)
  {
  }

  /** A filter in which no rewrite matches and that has no whitespace at its ends comes out of the normaliser whole. */
  lemma KeptWhole(col: string, filter: string)
    requires GeomFilter.NoRuleMatches(col, filter)
    requires filter != [] && filter[0] !in UnicodeWhitespace && filter[|filter| - 1] !in UnicodeWhitespace
    ensures GeomFilter.RmGeomCondition(col, filter) == filter
  {
    FilterShapes.RmGeomConditionKeeps(col, filter);
    StripUnpadded(filter, UnicodeWhitespace);
  }
}
