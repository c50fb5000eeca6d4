# pgautogeomindex, modelled in Dafny

`pgautogeomindex.py` reads a PostgreSQL slow-query log and suggests partial
GiST indexes for it. It asks the database to `EXPLAIN (FORMAT JSON)` each
timed statement. It then walks the plan for scan nodes and removes the PostGIS
predicates on the geometry column from each scan's condition. What remains of
the condition becomes the `WHERE` clause of a
`CREATE INDEX ... USING GIST (geom) WHERE ...` statement on the scanned table.
Finally it prints the statements sorted, then, with `--analyze`, sorted
`ANALYZE` lines for the tables. `--analyze` is off unless given: its
`store_true` action (line 67) is declared before the `store_false` of
`--no-analyze` on the same destination (line 68), and argparse takes the
first declared default, whatever the help text says.

The model covers three pieces of the program:

- the filter normaliser `rm_geom_condition` (modules `Regex`, `GeomFilter`,
  `Anchors`, `FilterShapes`);
- the plan walker `get_filters_from_plan` (module `PlanWalker`);
- the collection and printing part of `main` (modules `IndexCollector`,
  `CollectorFacts`, `Sorting`).

`PyStrings` holds Python's `strip`, `upper`, `startswith`, `in`, string
ordering and `str(int)`.

How the model is built:

- **`re.sub`.** Each substitution is modelled as a scan that matches a pattern
  piece by piece, greedily and without backtracking. `Regex.MatchPrefixComplete`
  shows that, for the six patterns used, this scan finds exactly the prefix
  Python's backtracking matcher finds: the only prefix in the pattern's
  language. The six patterns are:
  - three bounding-box rules with different `AND` placements;
  - a lone bounding box;
  - a boundary box;
  - a distance comparison.
- **Filter shapes.** The splicing lemmas are stated for any conjuncts `a` and
  `b` that are column-free (`GeomFilter.GeomFree`): no `(` in them is
  followed by `col && '`, by `st_boundary(` or by `_st_distance((`. This is
  a sufficient condition for no rewrite to fire, and stronger than needed:
  `(st_boundary(other) && ...)` on another column is not column-free,
  though no pattern matches it. The properties of filters without a
  predicate to delete are therefore stated with the exact condition,
  `GeomFilter.NoRuleMatches`: none of the six patterns matches at any
  position.
- **Idempotence.** Normalising twice gives what normalising once gives
  whenever the six rewrites leave a text in which no pattern matches, and
  each splicing lemma proves this for its shape. It does not hold for every
  text: in `((way && 'A'::geometry)way && 'B'::geometry)` the fourth
  rewrite deletes the inner test and leaves `(way && 'B'::geometry)`, which
  only a second pass deletes.
- **The walk.** Plans are a datatype with an `Option` for each string key the
  walk reads. `Plans` is a flag `hasPlans` beside a sequence `plans` of
  children. `KeyError` and `NotImplementedError` become a `Failure` value.
- **The collection loop.** `IndexCollector.Run` is a method with loops. It is
  proved equal to the fold `Collect` of a per-statement step, and the lemmas in
  `CollectorFacts` are about that fold. Python's exceptions are modelled where
  the program raises them:
  - `IndexError` while pairing the split log;
  - any exception inside the `try` (from the database, from the walk, from the
    statement's own pairs), which prints the statement and keeps going;
  - `UnicodeEncodeError` from `str.format` under Python 2 when a condition or
    table name from the JSON plan is not ASCII. It fires inside the `try` for
    the index statement, and after the loop for an `ANALYZE` line, where it
    ends the program.

The code and its intent differ in one place. Line 127 passes `if_nt_exists`,
a name that is not bound, so it raises `NameError`. The model therefore has two
variants of the loop: `AsWritten` and `Corrected` (see Findings). `Run` is the
corrected program.

## Model

| member | source | states |
|---|---|---|
| Regex.MatchPrefixSound | pgautogeomindex.py:17-24 | Whatever prefix the piecewise matcher consumes is a word of the pattern's language. |
| Regex.MatchPrefixComplete | pgautogeomindex.py:17-24 | For an unambiguous pattern, any prefix in the pattern's language is the one the matcher finds, so there is exactly one match at each position, as with Python's backtracking matcher. |
| Regex.Sub | pgautogeomindex.py:17-24 | `re.sub(p, repl, s)` for a pattern that cannot match the empty text: scan from the left; where `p` matches, emit `repl` and go on after the match, otherwise copy one character. A replacement no longer than the shortest match never lengthens the text. |
| Regex.SubOnce | pgautogeomindex.py:17-24 | When the only match starts at `i` and covers `n` characters, `re.sub` gives `s[..i] + repl + s[i+n..]`. |
| Regex.SubUnchanged | pgautogeomindex.py:17-24 | A text in which the pattern matches nowhere comes back unchanged. |
| Regex.SubFrom | pgautogeomindex.py:17-24 | When nothing matches before `i`, `re.sub` copies `s[..i]` and goes on from `i`. |
| GeomFilter.BboxBetween | pgautogeomindex.py:17 | The first pattern: ` AND (col && '`, one or more of `0-9A-F`, `'::geometry) AND `. |
| GeomFilter.BboxFirst | pgautogeomindex.py:18 | The second pattern: `(col && '`, one or more hex digits, `'::geometry) AND `. |
| GeomFilter.BboxLast | pgautogeomindex.py:19 | The third pattern: ` AND (col && '`, one or more hex digits, `'::geometry)`. |
| GeomFilter.BboxOnly | pgautogeomindex.py:21 | The fourth pattern: `(col && '`, one or more hex digits, `'::geometry)`. |
| GeomFilter.BoundaryBbox | pgautogeomindex.py:22 | The fifth pattern: `(st_boundary(col) && '`, one or more hex digits, `'::geometry)`. |
| GeomFilter.DistanceBelow | pgautogeomindex.py:24 | The sixth pattern: `AND (_st_distance((col)::geography, '`, hex digits, `'::`, `geometry` or `geography`, `, '`, decimal digits, `'::double precision, true) < '`, decimal digits, `'::double precision)`. |
| GeomFilter.Rewrite | pgautogeomindex.py:17-24 | The six `re.sub` calls in program order: the first replaces its match by ` AND `, the other five delete theirs. The result is no longer than the filter. |
| GeomFilter.RewritesAreRules | pgautogeomindex.py:17-24 | None of the six patterns matches the empty text, each one is unambiguous, and the first is never shorter than the ` AND ` that replaces it. |
| GeomFilter.RmGeomCondition | pgautogeomindex.py:7-26 | The result is no longer than the filter and has no Unicode whitespace at either end. |
| GeomFilter.RewritesAnchored | pgautogeomindex.py:17-24 | Each pattern starts with a `(` that opens a bounding-box, boundary or distance probe on the column, at a fixed offset. |
| Anchors.SubGeomFree | pgautogeomindex.py:17-24 | A pattern with a probe anchor matches nowhere in, and so changes nothing of, a text in which no `(` opens such a probe. |
| Regex.MatchPrefixExtends | pgautogeomindex.py:17-24 | A match of one of the patterns at the start of a text stays the same match whatever text follows. |
| Regex.NoMatchSlice | pgautogeomindex.py:17-24 | A pattern that matches nowhere in a text matches nowhere in any stretch of it. |
| FilterShapes.RewritesKeep | pgautogeomindex.py:17-24 | In a column-free text none of the six patterns matches anywhere, and none of the six substitutions changes it. |
| FilterShapes.RewriteUnmatched | pgautogeomindex.py:17-24 | A text in which none of the six patterns matches comes out of the six substitutions unchanged. |
| FilterShapes.RmGeomConditionKeeps | pgautogeomindex.py:17-25 | A filter in which none of the six patterns matches at any position is only stripped. |
| FilterShapes.StripUnmatched | pgautogeomindex.py:25 | Stripping such a text leaves one in which still none of the patterns matches. |
| FilterShapes.RmGeomConditionIdempotent | pgautogeomindex.py:7-26 | When the six substitutions leave a text in which no pattern matches, normalising the result again returns it unchanged. |
| FilterShapes.RemovesBboxBetween | pgautogeomindex.py:17 | `X AND (col && 'HEX'::geometry) AND Y` becomes `X AND Y`, stripped, and normalising that again changes nothing. |
| FilterShapes.RemovesBboxFirst | pgautogeomindex.py:18 | `(col && 'HEX'::geometry) AND Y` becomes `Y`, stripped, and normalising that again changes nothing. |
| FilterShapes.RemovesBboxLast | pgautogeomindex.py:19 | `X AND (col && 'HEX'::geometry)` becomes `X`, stripped, and normalising that again changes nothing. |
| FilterShapes.RemovesBboxOnly | pgautogeomindex.py:21 | A lone bounding-box test becomes the empty filter, and so does a second pass. |
| FilterShapes.RemovesBoundaryOnly | pgautogeomindex.py:22 | A lone `(st_boundary(col) && 'HEX'::geometry)` becomes the empty filter, and so does a second pass. |
| FilterShapes.BoundaryAfterAnd | pgautogeomindex.py:22-25 | `X AND` followed by a boundary test becomes `X AND`, stripped: the `AND` before the test stays. A second pass changes nothing. |
| FilterShapes.RemovesDistanceBelow | pgautogeomindex.py:24-25 | `X AND (_st_distance(...) < 'N'::double precision)` becomes `X`, stripped, for either cast and for any digits. A second pass changes nothing. |
| FilterShapes.DistanceFirstKept | pgautogeomindex.py:24 | A distance test at the front, with no `AND ` before it, is left in the filter, by a first pass and by a second. |
| PlanWalker.ScanResult | pgautogeomindex.py:33-46 | A scan adds at most one pair, and a pair's filter is non-empty with no whitespace at its ends. |
| PlanWalker.GetFiltersFromPlan | pgautogeomindex.py:29-59 | Every filter the walk returns is non-empty and stripped. |
| PlanWalker.GetFiltersFromPlans | pgautogeomindex.py:50-52 | The loop over `Plans`: each child's result is appended in order, and the first child that raises ends the walk with its error. Every filter it returns is non-empty and stripped. |
| PlanWalker.WalkIsRunAll | pgautogeomindex.py:29-59 | The recursive walk equals a loop over the nodes it visits, in visiting order, that stops at the first node that raises. |
| PlanWalker.WalkPlansAppend | pgautogeomindex.py:50-52 | The children's results are concatenated in order, so walking `Plans` split in two is walking each part in turn. |
| PlanWalker.NodeFindings | pgautogeomindex.py:32-49 | A node that does not raise yields at most one pair, and exactly the pair of its own condition and `Relation Name`. |
| PlanWalker.RunAllSucceeds | pgautogeomindex.py:50-52 | The loop over nodes succeeds if and only if every node succeeds. |
| PlanWalker.RunAllSound | pgautogeomindex.py:29-59 | Every pair of a successful loop is the pair of one of its nodes. |
| PlanWalker.RunAllComplete | pgautogeomindex.py:29-59 | Every pair of one of the nodes is in the result of a successful loop. |
| PlanWalker.WalkFindings | pgautogeomindex.py:29-59 | A successful walk has at most one pair per visited node. A pair is in the result if and only if some visited scan node has that pair: its condition (`Filter` or `''`, or `Recheck Cond`) less the geometry predicates, non-empty, and that node's `Relation Name`. |
| PlanWalker.WalkFailure | pgautogeomindex.py:32-55 | The walk raises if and only if some visited node raises, and then it raises that first node's error. |
| PlanWalker.VisitedAllPermuted | pgautogeomindex.py:50-52 | Walking a `Plans` list in another order visits the same nodes, each as many times. |
| PlanWalker.ReorderedChildren | pgautogeomindex.py:29-59 | Reordering a node's `Plans` can change the order of the pairs found, but not whether the walk raises, nor which pairs it finds. |
| PlanWalker.ScansIgnoreChildren | pgautogeomindex.py:32-49 | A scan or `Values Scan` node is not descended into: its `Plans`, present or not, change nothing. |
| PlanWalker.ValuesScanEmpty | pgautogeomindex.py:47-49 | A `Values Scan` yields no pairs. |
| PlanWalker.MissingNodeType | pgautogeomindex.py:32 | A node without `Node Type` raises `KeyError`. |
| PlanWalker.MissingRecheckCond | pgautogeomindex.py:42-43 | A bitmap scan without `Recheck Cond` raises `KeyError`. |
| PlanWalker.MissingRelationName | pgautogeomindex.py:33-46 | A scan whose condition keeps something but has no `Relation Name` raises `KeyError`. |
| PlanWalker.UnknownLeaf | pgautogeomindex.py:50-55 | An unrecognised node without `Plans` raises `NotImplementedError` carrying the node. |
| IndexCollector.Pairs | pgautogeomindex.py:104-106 | The pairing succeeds if and only if at most one part was split off or their count is odd. Then pair `k` is parts `2k+1` and `2k+2`, and there are `|splits|/2` pairs. |
| IndexCollector.Group | pgautogeomindex.py:106 | Parts are grouped two by two, consecutively, and an odd count left over raises. |
| IndexCollector.IsTimed | pgautogeomindex.py:108-111 | A header is handled only when it contains both `duration` and `LOG: `. |
| IndexCollector.IsIgnored | pgautogeomindex.py:113 | A statement is skipped when its byte-stripped, upper-cased text starts with `BEGIN`, `ALTER `, `SET ` or `ERROR `. |
| IndexCollector.ExplainStatement | pgautogeomindex.py:117 | The text sent to the database: `EXPLAIN (FORMAT JSON) `, the statement, `;`. |
| IndexCollector.IndexStatement | pgautogeomindex.py:125-127 | `CREATE INDEX`, ` IF NOT EXISTS` when that setting is on, a space, the table, `_idx`, the hash suffix, ` ON `, the table, ` USING GIST (`, the column, `) WHERE `, the filter, `;`. |
| IndexCollector.FindingStep | pgautogeomindex.py:121-128 | One pair: a catalog table is skipped. Otherwise the table is added for `ANALYZE`; then, as written, the step raises; corrected, it adds the `CREATE INDEX` statement, or raises when the filter or table is not ASCII. |
| IndexCollector.FindingsStep | pgautogeomindex.py:121-128 | The pairs of one plan taken in order, stopping at the first pair that raises and keeping what came before it. |
| IndexCollector.StatementStep | pgautogeomindex.py:107-132 | One log pair: an untimed or ignored statement changes nothing. A statement whose `EXPLAIN` or walk raises is reported. Otherwise its pairs are added, and the statement is reported if one of them raised. |
| IndexCollector.Collect | pgautogeomindex.py:107-132 | The loop over all log pairs, one `StatementStep` after another. |
| IndexCollector.Output | pgautogeomindex.py:134-140 | What is printed: the sorted statements, then, with `--analyze`, one `ANALYZE` line per sorted table up to the first non-ASCII table, and whether the program ends on that exception. |
| IndexCollector.IndexSuffix | pgautogeomindex.py:125 | `str(abs(hash(filter)))[:8]` has one to eight characters, all digits. |
| IndexCollector.AsciiPrefix | pgautogeomindex.py:139-140 | It counts the tables, from the front, whose `ANALYZE` line can be printed before the first non-ASCII one. |
| IndexCollector.AddFindings | pgautogeomindex.py:121-128 | The loop over a plan's pairs computes the corrected fold `FindingsStep`: catalog tables are skipped, the table is added, then the statement is added or the loop raises. |
| IndexCollector.HandleStatement | pgautogeomindex.py:107-132 | One log pair is handled as `StatementStep` says. An untimed or ignored statement changes nothing. A statement whose `EXPLAIN` or walk raises is reported. |
| IndexCollector.AnalyzeLines | pgautogeomindex.py:138-140 | It gives the `ANALYZE` lines up to the first non-ASCII table, and it crashes if and only if there is one. |
| IndexCollector.PrintResults | pgautogeomindex.py:134-140 | It prints the sorted statements, then, with `--analyze`, the `ANALYZE` lines of the sorted tables. |
| IndexCollector.Run | pgautogeomindex.py:104-140 | There are two outcomes. With an even number of parts, two or more, the pairing of `splits[1:]` raises `IndexError` and the program prints nothing; `re.split` with one capture group always returns an odd number of parts, so a real log never gets there. Otherwise the reported statements and printed lines are those of the fold `Collect` over all pairs, from empty sets. |
| Sorting.Insert | pgautogeomindex.py:134-139 | Inserting keeps a sequence strictly sorted, and its elements gain exactly the inserted string. |
| Sorting.SortedOf | pgautogeomindex.py:134-139 | `sorted(s)` is strictly sorted and holds exactly the elements of `s`. |
| Sorting.SortedUnique | pgautogeomindex.py:134-139 | Two strictly sorted sequences with the same elements are equal, so `sorted` of a set is determined. |
| Sorting.Sorted | pgautogeomindex.py:134-139 | The insertion loop computes `SortedOf(s)`. |
| PyStrings.Strip | pgautogeomindex.py:25 | `s.strip()` for a whitespace set: the result is `s` less its longest whitespace prefix and suffix, and has no whitespace at either end. The same function with the byte set models line 113. |
| PyStrings.Upper | pgautogeomindex.py:113 | `s.upper()`: each ASCII lower-case letter is upper-cased, and every other character is kept. |
| PyStrings.LexLess | pgautogeomindex.py:134-139 | The order `sorted` uses on strings: compare code points from the front, and a proper prefix comes first. |
| PyStrings.Decimal | pgautogeomindex.py:125 | `str(n)` of a natural number: one or more decimal digits, with no leading zero unless the number is zero. |
| PyStrings.StripIdempotent | pgautogeomindex.py:25 | `strip()` is idempotent. |
| PyStrings.UpperStrip | pgautogeomindex.py:113 | Upper-casing and stripping commute. |
| PyStrings.UpperIdempotent | pgautogeomindex.py:113 | `upper()` is idempotent. |
| PyStrings.LexLessTotal | pgautogeomindex.py:134-139 | String order is total. |
| PyStrings.LexLessTransitive | pgautogeomindex.py:134-139 | String order is transitive. |
| PyStrings.DecimalRoundTrip | pgautogeomindex.py:125 | `str(n)` read back as a number is `n`. |
| CollectorFacts.IgnoredAnyCase | pgautogeomindex.py:113 | Whether a statement is ignored does not depend on its case. |
| CollectorFacts.IgnoredAnyPadding | pgautogeomindex.py:113 | Whether it is ignored does not depend on surrounding whitespace. |
| CollectorFacts.FindingsEffect | pgautogeomindex.py:121-128 | A plan's pairs add the same tables and statements whatever the state, and they stop at the same point. |
| CollectorFacts.FindingsAllAdded | pgautogeomindex.py:121-128 | When every non-catalog pair is ASCII, nothing raises, and each such pair's table and statement are added. |
| CollectorFacts.FindingsSound | pgautogeomindex.py:121-128 | The loop adds only the tables of non-catalog pairs. Every new statement is the statement of such a pair, and that pair's table was added. |
| CollectorFacts.StatementEffect | pgautogeomindex.py:107-132 | A statement that is not timed, is ignored, or fails to explain or walk adds nothing. Any other statement adds exactly what its pairs add. |
| CollectorFacts.RepeatedStatement | pgautogeomindex.py:124-128 | A statement logged twice adds the same tables and statements as once: duplicates collapse. |
| CollectorFacts.CollectAppend | pgautogeomindex.py:107 | The loop over two parts of the log is the loop over the first, then the second. |
| CollectorFacts.CollectGrows | pgautogeomindex.py:124-128 | The sets only grow. |
| CollectorFacts.CollectConsistent | pgautogeomindex.py:121-128 | The loop keeps two facts. No catalog table is to be analyzed. Every statement indexes an analyzed table with an ASCII filter. |
| CollectorFacts.CatalogExcluded | pgautogeomindex.py:122-124 | After the whole log, no `pg_catalog` table is analyzed or indexed, and every indexed table is analyzed. |
| CollectorFacts.CollectSound | pgautogeomindex.py:107-132 | Every collected statement is the statement of a pair that some logged statement yields on a non-catalog table. |
| CollectorFacts.StatementAddsClean | pgautogeomindex.py:121-128 | A statement whose pairs are all printable adds every non-catalog pair's table and statement. |
| CollectorFacts.CollectComplete | pgautogeomindex.py:107-132 | Every non-catalog pair of such a statement anywhere in the log ends up in the table set and the statement set. |
| CollectorFacts.IndexStatementInjective | pgautogeomindex.py:125-128 | Two filters on one table that give the same `CREATE INDEX` text are the same filter. |
| CollectorFacts.AsWrittenCollectsNoIndex | pgautogeomindex.py:127 | As written, the loop never adds a statement. |
| CollectorFacts.AsWrittenPrintsOnlyAnalyze | pgautogeomindex.py:127-140 | As written, only `ANALYZE` lines are printed. |
| CollectorFacts.AsWrittenLosesIndex | pgautogeomindex.py:127 | Take a statement with a printable pair on an ordinary table. The corrected loop indexes it; the loop as written collects no statement. |
| CollectorFacts.KeptWhole | pgautogeomindex.py:17-26 | A filter with no rewrite match anywhere and no whitespace at its ends comes out of `rm_geom_condition` unchanged. |
| CollectorFacts.ScanLosesIndex | pgautogeomindex.py:107-132 | Take a timed, not ignored statement explained as a `Seq Scan` whose filter has no geometry predicate and no padding, on an ordinary printable table. It yields that one pair cleanly. The corrected loop indexes it; the loop as written collects no statement. |
| CollectorFacts.AsWrittenLosesIndexWitness | pgautogeomindex.py:107-132 | The Findings input meets that condition. The statement is a timed `SELECT 1` whose plan is a `Seq Scan` on `planet_osm_line` with `Filter` `(highway = 'primary'::text)` and column `way`. So the as-written loop loses a real index. |

## Left out

- Command-line parsing (lines 63-76) is left out. Its results are the fields of `IndexCollector.Config`: the column, `--analyze` and `--include-if-not-exists`.
- The database is not modelled: the connection, the `pg_catalog` query and the file read (lines 78-94). The catalog table names are a set in `Config`.
- `EXPLAIN` is the oracle `Config.explain`, from statement text to a plan or `None` when the call raises. The plan is assumed to be parsed from the JSON text. Database state between calls is not modelled: a failed statement does not abort the transaction as psycopg2 would.
- The log regular expression and `re.split` (lines 100-102) are not modelled. Their output, the list of parts, is the input of `IndexCollector.Run`.
- Python's `hash` of a filter is the parameter `Config.hash`.
- Prints are not modelled: the printed lines and the reported statements are returned as sequences. `repr(e)` is not modelled, only the statement whose handling raised.
- `setup.py` is not part of this model.
- Regex: `re.sub` is modelled only for the six patterns the program uses. Column names are taken to be made of `[A-Za-z0-9_]` (`GeomFilter.IsColumnName`). The program pastes the name into the patterns with `format` and no `re.escape` (lines 17-24); for a column holding `$`, `.`, `(` or other regular-expression syntax, which PostgreSQL allows in quoted identifiers and `$` also in unquoted ones, `Rewrite` matches the name literally while Python interprets it. That case is not modelled.
- `UpperChar` upper-cases ASCII letters only, as `str.upper()` does under Python 2 in the C locale.
- The boundary rule has no `AND` variants, so `X AND (st_boundary(...) ...)` leaves `X AND` (`FilterShapes.BoundaryAfterAnd`). A leading distance test is kept (`FilterShapes.DistanceFirstKept`). Both are proved as the program behaves; they are not reported as bugs.

## Findings

| source | as written | input that shows it | evidently intended | confidence | as-written member | corrected member |
|---|---|---|---|---|---|---|
| pgautogeomindex.py:127 | `format(..., if_not_exists=if_nt_exists)` names an unbound variable, so it raises `NameError` for every pair on a non-catalog table. The `except` prints the statement, and no `CREATE INDEX` statement is ever collected. | A timed statement whose plan is a `Seq Scan` on `planet_osm_line` with `Filter` `(highway = 'primary'::text)`. | `if_not_exists=if_not_exists` | not executed | CollectorFacts.AsWrittenLosesIndexWitness | CollectorFacts.CollectComplete |
