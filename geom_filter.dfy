/**
 * `rm_geom_condition`: the filter normaliser. Six fixed rewrites delete the
 * PostGIS predicates on the geometry column from a plan's filter text,
 * keeping the `AND` splicing of the remaining conjuncts right, and the result
 * is stripped of surrounding whitespace.
 */
module GeomFilter {
  import opened Wrappers
  import opened Regex
  import opened PyStrings

  /** A character of an SQL identifier. */
  predicate IsIdentChar(c: char) {
    'a' <= c <= 'z' || 'A' <= c <= 'Z' || '0' <= c <= '9' || c == '_'
  }

  /**
   * A column name made of identifier characters. The source splices the
   * column name into its patterns without escaping it, so only for such
   * names does the pattern text stand for itself.
   */
  predicate IsColumnName(col: string) {
    forall i :: 0 <= i < |col| ==> IsIdentChar(col[i])
  }

  /** A PostgreSQL hex literal of a geometry, as the `[0-9A-F]+` run accepts it. */
  predicate IsHex(h: string) {
    0 < |h| && forall i :: 0 <= i < |h| ==> InClass(HexDigit, h[i])
  }

  /** A run of decimal digits, as `[0-9]+` accepts it. */
  predicate IsDigits(d: string) {
    0 < |d| && forall i :: 0 <= i < |d| ==> InClass(DecimalDigit, d[i])
  }

  const And := " AND "
  const GeometryEnd := "'::geometry)"
  const DistanceMid := "'::double precision, true) < '"
  const DistanceEnd := "'::double precision)"

  /** `(col && '`: the start of a bounding-box test on the column. */
  function BboxHead(col: string): string {
    "(" + col + " && '"
  }

  /** `(st_boundary(col) && '`: the start of a bounding-box test on the column's boundary. */
  function BoundaryHead(col: string): string {
    "(st_boundary(" + col + ") && '"
  }

  /** `(_st_distance((col)::geography, '`: the start of a distance test on the column. */
  function DistanceHead(col: string): string {
    "(_st_distance((" + col + ")::geography, '"
  }

  /** The bounding-box predicate `(col && '<hex>'::geometry)`. */
  function BboxPredicate(col: string, hex: string): string {
    BboxHead(col) + hex + GeometryEnd
  }

  /** The boundary predicate `(st_boundary(col) && '<hex>'::geometry)`. */
  function BoundaryPredicate(col: string, hex: string): string {
    BoundaryHead(col) + hex + GeometryEnd
  }

  /**
   * The distance predicate
   * `(_st_distance((col)::geography, '<hex>'::<kind>, '<d1>'::double precision, true) < '<d2>'::double precision)`.
   */
  function DistancePredicate(col: string, hex: string, kind: string, d1: string, d2: string): string {
    DistanceHead(col) + DistanceTail(hex, kind, d1, d2)
  }

  /** What follows the head of the distance predicate. */
  function DistanceTail(hex: string, kind: string, d1: string, d2: string): string {
    hex + "'::" + kind + ", '" + d1 + DistanceMid + d2 + DistanceEnd
  }

  /** Rewrite 1: ` AND (col && '[0-9A-F]+'::geometry) AND `, replaced by ` AND `. */
  function BboxBetween(col: string): Pattern {
    [Lit(And + BboxHead(col)), Run(HexDigit), Lit(GeometryEnd + And)]
  }

  /** Rewrite 2: `(col && '[0-9A-F]+'::geometry) AND `, deleted. */
  function BboxFirst(col: string): Pattern {
    [Lit(BboxHead(col)), Run(HexDigit), Lit(GeometryEnd + And)]
  }

  /** Rewrite 3: ` AND (col && '[0-9A-F]+'::geometry)`, deleted. */
  function BboxLast(col: string): Pattern {
    [Lit(And + BboxHead(col)), Run(HexDigit), Lit(GeometryEnd)]
  }

  /** Rewrite 4: `(col && '[0-9A-F]+'::geometry)`, deleted. */
  function BboxOnly(col: string): Pattern {
    [Lit(BboxHead(col)), Run(HexDigit), Lit(GeometryEnd)]
  }

  /** Rewrite 5: `(st_boundary(col) && '[0-9A-F]+'::geometry)`, deleted. */
  function BoundaryBbox(col: string): Pattern {
    [Lit(BoundaryHead(col)), Run(HexDigit), Lit(GeometryEnd)]
  }

  /**
   * Rewrite 6: `AND (_st_distance((col)::geography, '[0-9A-F]+'::(geometry|geography),
   * '[0-9]+'::double precision, true) < '[0-9]+'::double precision)`, deleted.
   */
  function DistanceBelow(col: string): Pattern {
    [Lit("AND " + DistanceHead(col)), Run(HexDigit), Lit("'::"), Alt("geometry", "geography"), Lit(", '"),
     Run(DecimalDigit), Lit(DistanceMid), Run(DecimalDigit), Lit(DistanceEnd)]
  }

  /** A pattern `re.sub` can scan with: it matches no empty text, and backtracking never changes its match. */
  predicate IsRule(p: Pattern) {
    0 < MinLength(p) && Unambiguous(p)
  }

  lemma {:induction false} LitRunLitIsRule(l1: string, c: CharClass, l2: string)
    requires 0 < |l2| && !InClass(c, l2[0])
    ensures IsRule([Lit(l1), Run(c), Lit(l2)])
    ensures MinLength([Lit(l1), Run(c), Lit(l2)]) == |l1| + 1 + |l2|
  {
    var p := [Lit(l1), Run(c), Lit(l2)];
    assert p[1..] == [Run(c), Lit(l2)] && p[1..][1..] == [Lit(l2)] && p[1..][1..][1..] == [];
    assert MinLength(p[1..][1..]) == |l2|;
    assert MinLength(p[1..]) == 1 + |l2|;
  }

  /** All six rewrites are rules, and the first never lengthens the text it rewrites. */
  lemma {:induction false} RewritesAreRules(col: string)
    ensures IsRule(BboxBetween(col)) && |And| <= MinLength(BboxBetween(col))
    ensures IsRule(BboxFirst(col)) && IsRule(BboxLast(col)) && IsRule(BboxOnly(col))
    ensures IsRule(BoundaryBbox(col)) && IsRule(DistanceBelow(col))
  {
    LitRunLitIsRule(And + BboxHead(col), HexDigit, GeometryEnd + And);
    LitRunLitIsRule(BboxHead(col), HexDigit, GeometryEnd + And);
    LitRunLitIsRule(And + BboxHead(col), HexDigit, GeometryEnd);
    LitRunLitIsRule(BboxHead(col), HexDigit, GeometryEnd);
    LitRunLitIsRule(BoundaryHead(col), HexDigit, GeometryEnd);
    DistanceBelowIsRule(col);
  }

  lemma {:induction false} DistanceBelowIsRule(col: string)
    ensures IsRule(DistanceBelow(col))
  {
    var p := DistanceBelow(col);
    assert 0 < |p[0].text| <= MinLength(p);
    forall i | 0 <= i < |p| && p[i].Run?
      ensures i + 1 < |p| && p[i + 1].Lit? && 0 < |p[i + 1].text| && !InClass(p[i].cls, p[i + 1].text[0])
    {
      assert i == 1 || i == 5 || i == 7;
    }
    forall i | 0 <= i < |p| && p[i].Alt?
      ensures !(p[i].left <= p[i].right) && !(p[i].right <= p[i].left)
    {
      assert i == 3;
      assert "geometry"[3] != "geography"[3];
    }
  }

  /**
   * `rm_geom_condition(geom_column, filter)`: the six rewrites applied in
   * order, each once over the whole text, then `strip()`. The filter text
   * comes from the JSON plan, so it is a Python 2 `unicode` string and
   * `strip()` removes Unicode whitespace.
   */
  function RmGeomCondition(col: string, filter: string): (r: string)
    ensures |r| <= |filter|
    ensures r == [] || (r[0] !in UnicodeWhitespace && r[|r| - 1] !in UnicodeWhitespace)
  {
    Strip(Rewrite(col, filter), UnicodeWhitespace)
  }

  /** The six `re.sub` calls of `rm_geom_condition`, before the final `strip()`. */
  function Rewrite(col: string, filter: string): (r: string)
    ensures |r| <= |filter|
  {
    RewritesAreRules(col);
    var f1 := Sub(BboxBetween(col), And, filter);
    var f2 := Sub(BboxFirst(col), "", f1);
    var f3 := Sub(BboxLast(col), "", f2);
    var f4 := Sub(BboxOnly(col), "", f3);
    var f5 := Sub(BoundaryBbox(col), "", f4);
    Sub(DistanceBelow(col), "", f5)
  }

  /**
   * None of the six patterns matches anywhere in `s`: `re.search` would find
   * none of them, so every `re.sub` of `rm_geom_condition` returns `s`.
   */
  ghost predicate NoRuleMatches(col: string, s: string) {
    NoMatch(BboxBetween(col), s) && NoMatch(BboxFirst(col), s) && NoMatch(BboxLast(col), s) &&
    NoMatch(BboxOnly(col), s) && NoMatch(BoundaryBbox(col), s) && NoMatch(DistanceBelow(col), s)
  }

  // ---------------------------------------------------------------------
  // Where a rewrite can fire. Every rewrite's text contains a `(` followed
  // by one of three probes; a text whose every `(` is followed by none of
  // them is left alone by all six.
  // ---------------------------------------------------------------------

  /** The three kinds of predicate the rewrites delete. */
  datatype Probe = BboxProbe | BoundaryProbe | DistanceProbe

  /** What follows the opening `(` of each kind of predicate. */
  function ProbeText(col: string, k: Probe): string {
    match k
    case BboxProbe => col + " && '"
    case BoundaryProbe => "st_boundary("
    case DistanceProbe => "_st_distance(("
  }

  /** `t`, the text after a `(`, goes on like one of the deleted predicates. */
  predicate OpensPredicate(col: string, t: string) {
    ProbeText(col, BboxProbe) <= t || ProbeText(col, BoundaryProbe) <= t || ProbeText(col, DistanceProbe) <= t
  }

  /** Position `j` of `s` holds a `(` that opens a predicate on the column. */
  predicate LiveAt(col: string, s: string, j: int) {
    0 <= j < |s| && s[j] == '(' && OpensPredicate(col, s[j + 1..])
  }

  /** `s` holds no predicate on the column that a rewrite looks for. */
  predicate GeomFree(col: string, s: string) {
    forall j :: 0 <= j < |s| ==> !LiveAt(col, s, j)
  }

  /** `s` opens such a predicate at position `a` at most. */
  predicate OnlyLiveAt(col: string, s: string, a: int) {
    forall j :: 0 <= j < |s| && j != a ==> !LiveAt(col, s, j)
  }

  /**
   * Text that cannot carry a half-written probe on to completion: it is
   * empty, or it begins with a space that is followed by nothing or by `A`
   * (as ` AND ...` does).
   */
  predicate JoinsSafely(y: string) {
    y == [] || (y[0] == ' ' && (|y| == 1 || y[1] == 'A'))
  }

  /** The first literal of `p` holds a `(` at offset `o`, followed by the probe of kind `k`. */
  predicate Anchored(col: string, p: Pattern, o: nat, k: Probe) {
    0 < |p| && p[0].Lit? && o < |p[0].text| && p[0].text[o] == '(' && ProbeText(col, k) <= p[0].text[o + 1..]
  }

  /** Where each rewrite has its anchor. */
  lemma RewritesAnchored(col: string)
    ensures Anchored(col, BboxBetween(col), 5, BboxProbe)
    ensures Anchored(col, BboxFirst(col), 0, BboxProbe)
    ensures Anchored(col, BboxLast(col), 5, BboxProbe)
    ensures Anchored(col, BboxOnly(col), 0, BboxProbe)
    ensures Anchored(col, BoundaryBbox(col), 0, BoundaryProbe)
    ensures Anchored(col, DistanceBelow(col), 4, DistanceProbe)
  {
    assert (And + BboxHead(col))[6..] == col + " && '";
    assert BboxHead(col)[1..] == col + " && '";
    assert BoundaryHead(col)[1..] == "st_boundary(" + col + ") && '";
    assert ("AND " + DistanceHead(col))[5..] == "_st_distance((" + col + ")::geography, '";
  }

  /** A match of an anchored pattern needs a live `(` at the anchor, opening the pattern's own kind. */
  lemma MatchNeedsAnchor(col: string, p: Pattern, o: nat, k: Probe, s: string)
    requires Anchored(col, p, o, k) && MatchPrefix(p, s).Some?
    ensures LiveAt(col, s, o) && ProbeText(col, k) <= s[o + 1..]
  {
    var t := p[0].text;
    assert t <= s;
    assert s[o] == t[o];
    assert t[o + 1..] <= s[o + 1..];
  }

  /** Two different probes differ at some position both of them reach. */
  lemma ProbesDiffer(col: string, k1: Probe, k2: Probe) returns (i: nat)
    requires IsColumnName(col) && k1 != k2
    ensures i < |ProbeText(col, k1)| && i < |ProbeText(col, k2)|
    ensures ProbeText(col, k1)[i] != ProbeText(col, k2)[i]
  {
    var q1, q2, q3 := ProbeText(col, BboxProbe), ProbeText(col, BoundaryProbe), ProbeText(col, DistanceProbe);
    if k1 == BoundaryProbe || k2 == BoundaryProbe {
      if k1 == DistanceProbe || k2 == DistanceProbe {
        i := 0;
      } else if |col| < 12 {
        i := |col|;
        assert q1[i] == ' ' && q2[i] != ' ';
      } else {
        i := 11;
        assert q1[i] == col[11] && q2[i] == '(';
      }
    } else if |col| < 14 {
      i := |col|;
      assert q1[i] == ' ' && q3[i] != ' ';
    } else {
      i := 12;
      assert q1[i] == col[12] && q3[i] == '(';
    }
  }

  /** Two different probes never both begin one text. */
  lemma ProbesExclusive(col: string, t: string, k1: Probe, k2: Probe)
    requires IsColumnName(col)
    ensures ProbeText(col, k1) <= t && ProbeText(col, k2) <= t ==> k1 == k2
  {
    if k1 != k2 {
      var i := ProbesDiffer(col, k1, k2);
    }
  }

  /** The column name followed by `)`, as inside `st_boundary(col)`, opens nothing. */
  lemma NotOpenAfterColumn(col: string, t: string)
    requires IsColumnName(col) && col + ")" <= t
    ensures !OpensPredicate(col, t)
  {
    var q1, q2, q3 := ProbeText(col, BboxProbe), ProbeText(col, BoundaryProbe), ProbeText(col, DistanceProbe);
    assert t[|col|] == ')' && q1[|col|] == ' ';
    if |col| < 12 {
      assert q2[|col|] != ')';
    } else {
      assert t[11] == col[11] != '(' == q2[11];
    }
    if |col| < 14 {
      assert q3[|col|] != ')';
    } else {
      assert t[12] == col[12] != '(' == q3[12];
    }
  }

  /** A second `(`, as in `_st_distance((`, opens nothing. */
  lemma NotOpenAfterParen(col: string, t: string)
    requires IsColumnName(col) && "(" <= t
    ensures !OpensPredicate(col, t)
  {
    assert t[0] == '(';
    if |col| > 0 {
      assert ProbeText(col, BboxProbe)[0] == col[0];
    }
  }

  /** Appending a safely joining text never completes a probe. */
  lemma ProbeIgnoresJoin(col: string, k: Probe, u: string, y: string)
    requires IsColumnName(col) && JoinsSafely(y)
    ensures (ProbeText(col, k) <= u + y) == (ProbeText(col, k) <= u)
  {
    var q := ProbeText(col, k);
    if |q| <= |u| {
      assert (u + y)[..|q|] == u[..|q|];
    } else if |q| <= |u + y| {
      assert (u + y)[|u|] == y[0] == ' ';
      match k {
        case BboxProbe =>
          if |u| < |col| {
            assert q[|u|] == col[|u|] != ' ';
          } else if |u| == |col| || |u| == |col| + 3 {
            assert (u + y)[|u| + 1] == y[1] == 'A' != q[|u| + 1];
          } else {
            assert q[|u|] != ' ';
          }
        case BoundaryProbe =>
          assert q[|u|] != ' ';
        case DistanceProbe =>
          assert q[|u|] != ' ';
      }
    }
  }

  /** Appending a safely joining text never makes a `(` open a predicate. */
  lemma OpensIgnoresJoin(col: string, u: string, y: string)
    requires IsColumnName(col) && JoinsSafely(y)
    ensures OpensPredicate(col, u + y) == OpensPredicate(col, u)
  {
    ProbeIgnoresJoin(col, BboxProbe, u, y);
    ProbeIgnoresJoin(col, BoundaryProbe, u, y);
    ProbeIgnoresJoin(col, DistanceProbe, u, y);
  }

  /** A live position of `x + y` behind `x` is a live position of `y`, and back. */
  lemma LiveInSuffix(col: string, x: string, y: string, j: int)
    requires |x| <= j
    ensures LiveAt(col, x + y, j) == LiveAt(col, y, j - |x|)
  {
    if j < |x + y| {
      assert (x + y)[j + 1..] == y[j - |x| + 1..];
    }
  }

  /** A position inside a column-free `x` stays dead when `y` is glued behind it. */
  lemma NotLiveInPrefix(col: string, x: string, y: string, j: int)
    requires IsColumnName(col) && GeomFree(col, x)
    requires '(' !in x || JoinsSafely(y)
    requires 0 <= j < |x|
    ensures !LiveAt(col, x + y, j)
  {
    if JoinsSafely(y) {
      assert (x + y)[j + 1..] == x[j + 1..] + y;
      OpensIgnoresJoin(col, x[j + 1..], y);
      assert !LiveAt(col, x, j);
    } else {
      assert x[j] in x;
    }
  }

  /**
   * Gluing a column-free `x` in front of `y` adds no live position, provided
   * `x` holds no `(` at all or `y` joins safely.
   */
  lemma LiveAfterPrefix(col: string, x: string, y: string)
    requires IsColumnName(col) && GeomFree(col, x)
    requires '(' !in x || JoinsSafely(y)
    ensures forall j :: 0 <= j < |x + y| ==> LiveAt(col, x + y, j) == (|x| <= j && LiveAt(col, y, j - |x|))
  {
    forall j | 0 <= j < |x + y|
      ensures LiveAt(col, x + y, j) == (|x| <= j && LiveAt(col, y, j - |x|))
    {
      if j < |x| {
        NotLiveInPrefix(col, x, y, j);
      } else {
        LiveInSuffix(col, x, y, j);
      }
    }
  }

  /** The same, for the two views of the spliced text. */
  lemma GeomFreeConcat(col: string, x: string, y: string)
    requires IsColumnName(col) && GeomFree(col, x) && GeomFree(col, y)
    requires '(' !in x || JoinsSafely(y)
    ensures GeomFree(col, x + y)
  {
    LiveAfterPrefix(col, x, y);
  }

  /** Moving the one live position of `y` behind a column-free `x`. */
  lemma OnlyLiveAfterPrefix(col: string, x: string, y: string, a: int)
    requires IsColumnName(col) && GeomFree(col, x) && OnlyLiveAt(col, y, a)
    requires '(' !in x || JoinsSafely(y)
    ensures OnlyLiveAt(col, x + y, |x| + a)
  {
    LiveAfterPrefix(col, x, y);
  }

  /** Text without any `(` is column-free. */
  lemma ParenFreeIsGeomFree(col: string, s: string)
    requires '(' !in s
    ensures GeomFree(col, s)
  {
    forall j | 0 <= j < |s|
      ensures !LiveAt(col, s, j)
    {
      assert s[j] in s;
    }
  }

  /** A probe at the start of a text is still there when the text goes on. */
  lemma OpensExtends(col: string, t: string, u: string)
    requires t <= u
    ensures OpensPredicate(col, t) ==> OpensPredicate(col, u)
  {
    PrefixOfPrefix(ProbeText(col, BboxProbe), t, u);
    PrefixOfPrefix(ProbeText(col, BoundaryProbe), t, u);
    PrefixOfPrefix(ProbeText(col, DistanceProbe), t, u);
  }

  lemma PrefixOfPrefix(q: string, t: string, u: string)
    requires t <= u
    ensures q <= t ==> q <= u
  {
    if q <= t {
      assert u[..|q|] == t[..|q|];
    }
  }

  /** Any stretch of a column-free text is column-free. */
  lemma GeomFreeSlice(col: string, s: string, i: nat, j: nat)
    requires GeomFree(col, s) && i <= j <= |s|
    ensures GeomFree(col, s[i..j])
  {
    var w := s[i..j];
    forall m | 0 <= m < |w|
      ensures !LiveAt(col, w, m)
    {
      assert w[m] == s[i + m];
      assert w[m + 1..] <= s[i + m + 1..] by {
        assert s[i + m + 1..][..|w[m + 1..]|] == w[m + 1..];
      }
      OpensExtends(col, w[m + 1..], s[i + m + 1..]);
      assert !LiveAt(col, s, i + m);
    }
  }

  /**
   * `P + y` is live at 0 at most, when every other `(` of `P` is followed by
   * a second `(` or by the column and `)`, and `y` is column-free.
   */
  lemma OnlyLiveAtHead(col: string, P: string, y: string)
    requires IsColumnName(col) && 0 < |P| && GeomFree(col, y)
    requires forall j :: 0 < j < |P| ==> P[j] != '(' || col + ")" <= P[j + 1..] || "(" <= P[j + 1..]
    ensures OnlyLiveAt(col, P + y, 0)
  {
    forall j | 0 < j < |P + y|
      ensures !LiveAt(col, P + y, j)
    {
      if j < |P| {
        if P[j] == '(' {
          var t := P[j + 1..];
          assert (P + y)[j + 1..] == t + y;
          if col + ")" <= t {
            assert (t + y)[..|col| + 1] == t[..|col| + 1];
            NotOpenAfterColumn(col, t + y);
          } else {
            assert (t + y)[0] == t[0];
            NotOpenAfterParen(col, t + y);
          }
        }
      } else {
        LiveInSuffix(col, P, y, j);
      }
    }
  }

  /** The column name, digits and hex digits hold no `(`. */
  lemma NoParenIn(col: string, hex: string)
    requires IsColumnName(col) && IsHex(hex)
    ensures '(' !in col && '(' !in hex
  {
    assert forall i :: 0 <= i < |col| ==> col[i] != '(';
    assert forall i :: 0 <= i < |hex| ==> hex[i] != '(';
  }

  lemma NoParenInDigits(d: string)
    requires IsDigits(d)
    ensures '(' !in d
  {
    assert forall i :: 0 <= i < |d| ==> d[i] != '(';
  }

  /** Appending a column-free text to a bounding-box predicate leaves its own `(` the only live one. */
  lemma BboxPredicateLive(col: string, hex: string, y: string)
    requires IsColumnName(col) && IsHex(hex) && GeomFree(col, y)
    ensures OnlyLiveAt(col, BboxPredicate(col, hex) + y, 0)
    ensures ProbeText(col, BboxProbe) <= (BboxPredicate(col, hex) + y)[1..]
  {
    var P := BboxPredicate(col, hex);
    NoParenIn(col, hex);
    assert P[1..] == col + " && '" + hex + GeometryEnd;
    forall j | 0 < j < |P|
      ensures P[j] != '('
    {
      assert P[j] == P[1..][j - 1] && P[1..][j - 1] in P[1..];
    }
    OnlyLiveAtHead(col, P, y);
    assert (P + y)[1..] == P[1..] + y;
  }

  /** The same for the boundary predicate, whose inner `(` is followed by the column and `)`. */
  lemma BoundaryPredicateLive(col: string, hex: string, y: string)
    requires IsColumnName(col) && IsHex(hex) && GeomFree(col, y)
    ensures OnlyLiveAt(col, BoundaryPredicate(col, hex) + y, 0)
    ensures ProbeText(col, BoundaryProbe) <= (BoundaryPredicate(col, hex) + y)[1..]
  {
    var P := BoundaryPredicate(col, hex);
    var X := BoundarySplit(col, hex);
    BoundaryInnerParens(col, P, X);
    OnlyLiveAtHead(col, P, y);
    assert (P + y)[1..] == "st_boundary(" + X + y;
  }

  /** The boundary predicate is `(st_boundary(` followed by the column, `)` and text without `(`. */
  lemma BoundarySplit(col: string, hex: string) returns (X: string)
    requires IsColumnName(col) && IsHex(hex)
    ensures BoundaryPredicate(col, hex) == "(st_boundary(" + X
    ensures '(' !in X && col + ")" <= X
  {
    NoParenIn(col, hex);
    X := col + (") && '" + (hex + GeometryEnd));
    assert '(' !in ") && '" && '(' !in GeometryEnd;
    assert X[..|col| + 1] == col + ")";
  }

  /** Inside `(st_boundary(X`, the second `(` is followed by the column and `)`. */
  lemma BoundaryInnerParens(col: string, P: string, X: string)
    requires P == "(st_boundary(" + X && '(' !in X && col + ")" <= X
    ensures forall j :: 0 < j < |P| ==> P[j] != '(' || col + ")" <= P[j + 1..] || "(" <= P[j + 1..]
  {
    forall j | 0 < j < |P|
      ensures P[j] != '(' || col + ")" <= P[j + 1..] || "(" <= P[j + 1..]
    {
      if j < 12 {
        assert P[j] == "(st_boundary("[j];
      } else if j == 12 {
        assert P[j + 1..] == X;
      } else {
        assert P[j] == X[j - 13] && X[j - 13] in X;
      }
    }
  }

  /** The same for the distance predicate, whose inner `((` is followed by the column and `)`. */
  lemma DistancePredicateLive(col: string, hex: string, kind: string, d1: string, d2: string, y: string)
    requires IsColumnName(col) && IsHex(hex) && IsDigits(d1) && IsDigits(d2) && GeomFree(col, y)
    requires kind == "geometry" || kind == "geography"
    ensures OnlyLiveAt(col, DistancePredicate(col, hex, kind, d1, d2) + y, 0)
    ensures ProbeText(col, DistanceProbe) <= (DistancePredicate(col, hex, kind, d1, d2) + y)[1..]
  {
    var P := DistancePredicate(col, hex, kind, d1, d2);
    var X := DistanceSplit(col, hex, kind, d1, d2);
    DistanceInnerParens(col, P, X);
    OnlyLiveAtHead(col, P, y);
    assert P[1..] == "_st_distance((" + X;
    PrefixAfterHead(ProbeText(col, DistanceProbe), P, y);
  }

  lemma PrefixAfterHead(h: string, P: string, y: string)
    requires 0 < |P| && h <= P[1..]
    ensures h <= (P + y)[1..]
  {
    assert (P + y)[1..] == P[1..] + y;
  }

  /** Inside `(_st_distance((X`, every `(` but the first is followed by `(` or by the column and `)`. */
  lemma DistanceInnerParens(col: string, P: string, X: string)
    requires P == "(_st_distance((" + X && '(' !in X && col + ")" <= X
    ensures forall j :: 0 < j < |P| ==> P[j] != '(' || col + ")" <= P[j + 1..] || "(" <= P[j + 1..]
  {
    forall j | 0 < j < |P|
      ensures P[j] != '(' || col + ")" <= P[j + 1..] || "(" <= P[j + 1..]
    {
      if j < 13 {
        assert P[j] == "(_st_distance(("[j];
      } else if j == 13 {
        assert P[j + 1] == '(';
      } else if j == 14 {
        assert P[j + 1..] == X;
      } else {
        assert P[j] == X[j - 15] && X[j - 15] in X;
      }
    }
  }

  /** The distance predicate is `(_st_distance((` followed by the column, `)` and text without `(`. */
  lemma DistanceSplit(col: string, hex: string, kind: string, d1: string, d2: string) returns (X: string)
    requires IsColumnName(col) && IsHex(hex) && IsDigits(d1) && IsDigits(d2)
    requires kind == "geometry" || kind == "geography"
    ensures DistancePredicate(col, hex, kind, d1, d2) == "(_st_distance((" + X
    ensures '(' !in X && col + ")" <= X
  {
    var T := DistanceTail(hex, kind, d1, d2);
    DistanceTailNoParen(hex, kind, d1, d2);
    NoParenIn(col, hex);
    var M := ")::geography, '";
    X := col + (M + T);
    AppendAssoc("(_st_distance((" + col, M, T);
    AppendAssoc("(_st_distance((", col, M + T);
    ColumnThenClose(col, M, T);
  }

  /** `col + (m + t)` holds no `(` when none of its parts does, and starts with `col)` when `m` starts with `)`. */
  lemma ColumnThenClose(col: string, m: string, t: string)
    requires '(' !in col && '(' !in m && '(' !in t && 0 < |m| && m[0] == ')'
    ensures '(' !in col + (m + t) && col + ")" <= col + (m + t)
  {
    assert (col + (m + t))[..|col| + 1] == col + ")";
  }

  lemma DistanceTailNoParen(hex: string, kind: string, d1: string, d2: string)
    requires IsHex(hex) && IsDigits(d1) && IsDigits(d2)
    requires kind == "geometry" || kind == "geography"
    ensures '(' !in DistanceTail(hex, kind, d1, d2)
  {
    assert forall i :: 0 <= i < |hex| ==> hex[i] != '(';
    NoParenInDigits(d1);
    NoParenInDigits(d2);
    assert '(' !in "'::" && '(' !in ", '" && '(' !in kind;
    assert '(' !in DistanceMid && '(' !in DistanceEnd;
  }
}
