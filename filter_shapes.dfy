/**
 * What `rm_geom_condition` makes of the filters the planner prints: a
 * bounding-box, boundary or distance test on the geometry column, joined
 * by ` AND ` to other conditions that do not mention it.
 */
module FilterShapes {
  import opened Wrappers
  import opened Regex
  import opened PyStrings
  import opened GeomFilter
  import opened Anchors

  // ---------------------------------------------------------------------
  // The rewrites at work on the shapes of filter the planner prints.
  // ---------------------------------------------------------------------

  /** A one-literal rule matches exactly when the text starts with the literal. */
  lemma MatchOneLit(l2: string, rest: string)
    ensures MatchPrefix([Lit(l2)], rest) == if l2 <= rest then Some(|l2|) else None
  {
    assert [Lit(l2)][1..] == [];
    if l2 <= rest {
      assert MatchPrefix([], rest[|l2|..]) == Some(0);
    }
  }

  lemma MatchRunLit(c: CharClass, h: string, l2: string, rest: string)
    requires 0 < |h| && forall i :: 0 <= i < |h| ==> InClass(c, h[i])
    requires rest == [] || !InClass(c, rest[0])
    ensures MatchPrefix([Run(c), Lit(l2)], h + rest) == Shift(|h|, MatchPrefix([Lit(l2)], rest))
  {
    var q := [Run(c), Lit(l2)];
    assert q[1..] == [Lit(l2)];
    MatchRunStep(q, c, h, rest);
  }

  lemma MatchLitRunLitHead(l1: string, c: CharClass, l2: string, y: string)
    ensures MatchPrefix([Lit(l1), Run(c), Lit(l2)], l1 + y) == Shift(|l1|, MatchPrefix([Run(c), Lit(l2)], y))
  {
    var p := [Lit(l1), Run(c), Lit(l2)];
    assert p[1..] == [Run(c), Lit(l2)];
    MatchLitStep(p, l1, y);
  }

  /**
   * A three-piece rule `l1[class]+l2` on `l1 + h + rest`, where the run `h`
   * is complete: it matches exactly when `rest` starts with `l2`.
   */
  lemma MatchLitRunLit(l1: string, c: CharClass, h: string, l2: string, rest: string)
    requires 0 < |h| && forall i :: 0 <= i < |h| ==> InClass(c, h[i])
    requires rest == [] || !InClass(c, rest[0])
    ensures MatchPrefix([Lit(l1), Run(c), Lit(l2)], l1 + (h + rest)) ==
            if l2 <= rest then Some(|l1| + |h| + |l2|) else None
  {
    MatchOneLit(l2, rest);
    MatchRunLit(c, h, l2, rest);
    MatchLitRunLitHead(l1, c, l2, h + rest);
    if l2 <= rest {
      assert Shift(|l1|, Shift(|h|, Some(|l2|))) == Some(|l1| + |h| + |l2|);
    }
  }

  /** A rule anchored on one probe does not match where the anchor meets another. */
  lemma WrongProbe(col: string, p: Pattern, o: nat, k: Probe, s: string, i: nat, k2: Probe)
    requires IsColumnName(col) && Anchored(col, p, o, k) && k != k2
    requires i + o < |s| && ProbeText(col, k2) <= s[i + o + 1..]
    ensures MatchPrefix(p, s[i..]).None?
  {
    if MatchPrefix(p, s[i..]).Some? {
      MatchNeedsAnchor(col, p, o, k, s[i..]);
      assert s[i..][o + 1..] == s[i + o + 1..];
      ProbesExclusive(col, s[i + o + 1..], k, k2);
    }
  }

  /**
   * None of the six rewrites matches anywhere in, or changes, a text in which
   * no `(` is followed by `col && '`, `st_boundary(` or `_st_distance((`.
   */
  lemma RewritesKeep(col: string, m: string)
    requires GeomFree(col, m)
    ensures NoRuleMatches(col, m)
    ensures Sub(BboxBetween(col), And, m) == m
    ensures Sub(BboxFirst(col), "", m) == m
    ensures Sub(BboxLast(col), "", m) == m
    ensures Sub(BboxOnly(col), "", m) == m
    ensures Sub(BoundaryBbox(col), "", m) == m
    ensures Sub(DistanceBelow(col), "", m) == m
  {
    RewritesAreRules(col);
    RewritesAnchored(col);
    SubGeomFree(col, BboxBetween(col), 5, BboxProbe, And, m);
    SubGeomFree(col, BboxFirst(col), 0, BboxProbe, "", m);
    SubGeomFree(col, BboxLast(col), 5, BboxProbe, "", m);
    SubGeomFree(col, BboxOnly(col), 0, BboxProbe, "", m);
    SubGeomFree(col, BoundaryBbox(col), 0, BoundaryProbe, "", m);
    SubGeomFree(col, DistanceBelow(col), 4, DistanceProbe, "", m);
  }

  /** The six rewrites leave a text in which none of their patterns matches as it is. */
  lemma RewriteUnmatched(col: string, m: string)
    requires NoRuleMatches(col, m)
    ensures Rewrite(col, m) == m
  {
    RewritesAreRules(col);
    SubUnchanged(BboxBetween(col), And, m);
    SubUnchanged(BboxFirst(col), "", m);
    SubUnchanged(BboxLast(col), "", m);
    SubUnchanged(BboxOnly(col), "", m);
    SubUnchanged(BoundaryBbox(col), "", m);
    SubUnchanged(DistanceBelow(col), "", m);
  }

  /** A filter in which none of the six patterns matches anywhere is only stripped. */
  lemma RmGeomConditionKeeps(col: string, filter: string)
    requires NoRuleMatches(col, filter)
    ensures RmGeomCondition(col, filter) == Strip(filter, UnicodeWhitespace)
  {
    RewriteUnmatched(col, filter);
    RmGeomConditionOf(col, filter, filter);
  }

  /** Stripping a text in which no pattern matches leaves one in which none matches. */
  lemma StripUnmatched(col: string, s: string, ws: set<char>)
    requires NoRuleMatches(col, s)
    ensures NoRuleMatches(col, Strip(s, ws))
  {
    var i := LeadingCount(s, ws);
    var j := i + |Strip(s, ws)|;
    RewritesAreRules(col);
    NoMatchSlice(BboxBetween(col), s, i, j);
    NoMatchSlice(BboxFirst(col), s, i, j);
    NoMatchSlice(BboxLast(col), s, i, j);
    NoMatchSlice(BboxOnly(col), s, i, j);
    NoMatchSlice(BoundaryBbox(col), s, i, j);
    NoMatchSlice(DistanceBelow(col), s, i, j);
  }

  /**
   * Normalising twice gives what normalising once gives, whenever the six
   * rewrites leave a text in which none of their patterns matches: a filter
   * in which none matches to begin with, or any of the shapes below.
   */
  lemma RmGeomConditionIdempotent(col: string, filter: string)
    requires NoRuleMatches(col, Rewrite(col, filter))
    ensures RmGeomCondition(col, RmGeomCondition(col, filter)) == RmGeomCondition(col, filter)
  {
    var m := Rewrite(col, filter);
    var r := Strip(m, UnicodeWhitespace);
    RmGeomConditionOf(col, filter, m);
    StripUnmatched(col, m, UnicodeWhitespace);
    RmGeomConditionKeeps(col, r);
    StripIdempotent(m, UnicodeWhitespace);
  }

  /** Normalising settles after one pass on a shape whose rewrites leave a column-free text. */
  lemma SettlesOn(col: string, filter: string, m: string)
    requires Rewrite(col, filter) == m && GeomFree(col, m)
    ensures RmGeomCondition(col, RmGeomCondition(col, filter)) == RmGeomCondition(col, filter)
  {
    RewritesKeep(col, m);
    RmGeomConditionIdempotent(col, filter);
  }

  /** ` AND ` joined to a column-free text, as a column-free text with ` AND` in front of it. */
  lemma AndJoin(col: string, a: string, b: string)
    requires IsColumnName(col) && GeomFree(col, a) && GeomFree(col, b)
    ensures GeomFree(col, And + b) && GeomFree(col, a + (And + b))
  {
    ParenFreeIsGeomFree(col, And);
    GeomFreeConcat(col, And, b);
    GeomFreeConcat(col, a, And + b);
  }

  /** `a + " AND " + P + y`, for a predicate `P` whose `(` is the only live one in `P + y`, is live at `|a| + 5` only. */
  lemma LiveBehindAnd(col: string, a: string, t: string)
    requires IsColumnName(col) && GeomFree(col, a) && OnlyLiveAt(col, t, 0)
    ensures OnlyLiveAt(col, a + (And + t), |a| + 5)
  {
    ParenFreeIsGeomFree(col, And);
    OnlyLiveAfterPrefix(col, And, t, 0);
    OnlyLiveAfterPrefix(col, a, And + t, 5);
  }

  /** What `Rewrite` leaves determines what `RmGeomCondition` returns. */
  lemma RmGeomConditionOf(col: string, s: string, m: string)
    requires Rewrite(col, s) == m
    ensures RmGeomCondition(col, s) == Strip(m, UnicodeWhitespace)
  {
  }

  /** The anchors and minimum lengths of the six rewrites, as the anchor lemmas need them. */
  lemma RulesAnchored(col: string)
    ensures Anchored(col, BboxBetween(col), 5, BboxProbe) && 0 < MinLength(BboxBetween(col))
    ensures Anchored(col, BboxFirst(col), 0, BboxProbe) && 0 < MinLength(BboxFirst(col))
    ensures Anchored(col, BboxLast(col), 5, BboxProbe) && 0 < MinLength(BboxLast(col))
    ensures Anchored(col, BboxOnly(col), 0, BboxProbe) && 0 < MinLength(BboxOnly(col))
    ensures Anchored(col, BoundaryBbox(col), 0, BoundaryProbe) && 0 < MinLength(BoundaryBbox(col))
    ensures Anchored(col, DistanceBelow(col), 4, DistanceProbe) && 0 < MinLength(DistanceBelow(col))
  {
    RewritesAreRules(col);
    RewritesAnchored(col);
  }

  /**
   * Where `x` ends in `x + y`. Stated as a lemma of its own: asserted inline
   * next to the matcher's facts, it costs the solver several times as much.
   */
  lemma Split(x: string, y: string)
    ensures (x + y)[..|x|] == x && (x + y)[|x|..] == y
  {
  }

  /** `l1[class]+l2` matches `l1 + h + l2 + b` up to the end of `l2`. */
  lemma LitRunLitHit(l1: string, c: CharClass, h: string, l2: string, b: string)
    requires 0 < |h| && forall i :: 0 <= i < |h| ==> InClass(c, h[i])
    requires 0 < |l2| && !InClass(c, l2[0])
    ensures MatchPrefix([Lit(l1), Run(c), Lit(l2)], l1 + (h + (l2 + b))) == Some(|l1| + |h| + |l2|)
  {
    assert (l2 + b)[0] == l2[0];
    assert l2 <= l2 + b;
    MatchLitRunLit(l1, c, h, l2, l2 + b);
  }

  /** `l1[class]+l2` matches all of `l1 + h + l2`. */
  lemma LitRunLitExact(l1: string, c: CharClass, h: string, l2: string, x: string)
    requires 0 < |h| && forall i :: 0 <= i < |h| ==> InClass(c, h[i])
    requires 0 < |l2| && !InClass(c, l2[0]) && x == l1 + (h + l2)
    ensures MatchPrefix([Lit(l1), Run(c), Lit(l2)], x) == Some(|x|)
  {
    assert l2 + [] == l2;
    LitRunLitHit(l1, c, h, l2, []);
  }

  /** `l1[class]+l2` does not match `l1 + h + r` when `r` is shorter than `l2`. */
  lemma LitRunLitShort(l1: string, c: CharClass, h: string, l2: string, r: string, x: string)
    requires 0 < |h| && forall i :: 0 <= i < |h| ==> InClass(c, h[i])
    requires |r| < |l2| && (r == [] || !InClass(c, r[0])) && x == l1 + (h + r)
    ensures MatchPrefix([Lit(l1), Run(c), Lit(l2)], x) == None
  {
    MatchLitRunLit(l1, c, h, l2, r);
  }

  // X AND (col && 'hex'::geometry) AND Y

  lemma BboxBetweenText(col: string, hex: string, a: string, b: string)
    ensures a + And + BboxPredicate(col, hex) + And + b ==
            a + ((And + BboxHead(col)) + (hex + ((GeometryEnd + And) + b)))
    ensures a + And + BboxPredicate(col, hex) + And + b == a + (And + (BboxPredicate(col, hex) + (And + b)))
  {
    var A, H, G, P := And, BboxHead(col), GeometryEnd, BboxPredicate(col, hex);
    AppendAssoc(a + A + P, A, b);
    AppendAssoc(a + A, P, A + b);
    AppendAssoc(a, A, P + (A + b));
    AppendAssoc(H + hex, G, A + b);
    AppendAssoc(H, hex, G + (A + b));
    AppendAssoc(A, H, hex + (G + (A + b)));
    AppendAssoc(G, A, b);
  }

  /** Rewrite 1 fires on `X AND (col && 'hex'::geometry) AND Y` and leaves `X AND Y`. */
  lemma BboxBetweenFires(col: string, hex: string, a: string, b: string)
    requires IsColumnName(col) && IsHex(hex) && GeomFree(col, a) && GeomFree(col, b)
    ensures Sub(BboxBetween(col), And, a + And + BboxPredicate(col, hex) + And + b) == a + And + b
  {
    var s := a + And + BboxPredicate(col, hex) + And + b;
    var X := (And + BboxHead(col)) + (hex + ((GeometryEnd + And) + b));
    var n := |And + BboxHead(col)| + |hex| + |GeometryEnd + And|;
    BboxBetweenText(col, hex, a, b);
    Split(a, X);
    LitRunLitHit(And + BboxHead(col), HexDigit, hex, GeometryEnd + And, b);
    assert OnlyLiveAt(col, s, |a| + 5) by {
      AndJoin(col, a, b);
      BboxPredicateLive(col, hex, And + b);
      LiveBehindAnd(col, a, BboxPredicate(col, hex) + (And + b));
    }
    RulesAnchored(col);
    SubAtAnchorHit(col, BboxBetween(col), 5, BboxProbe, And, s, |a|, n);
    assert s[|a| + n..] == b by {
      assert X[n..] == b;
    }
  }

  /** The rewrites turn `X AND (col && 'hex'::geometry) AND Y` into `X AND Y`. */
  lemma RewriteBboxBetween(col: string, hex: string, a: string, b: string)
    requires IsColumnName(col) && IsHex(hex) && GeomFree(col, a) && GeomFree(col, b)
    ensures Rewrite(col, a + And + BboxPredicate(col, hex) + And + b) == a + And + b
  {
    BboxBetweenFires(col, hex, a, b);
    AndJoin(col, a, b);
    AppendAssoc(a, And, b);
    RewritesKeep(col, a + And + b);
  }

  /** `X AND (col && 'hex'::geometry) AND Y` becomes `X AND Y`, stripped. */
  lemma RemovesBboxBetween(col: string, hex: string, a: string, b: string)
    requires IsColumnName(col) && IsHex(hex) && GeomFree(col, a) && GeomFree(col, b)
    ensures RmGeomCondition(col, a + And + BboxPredicate(col, hex) + And + b) == Strip(a + And + b, UnicodeWhitespace)
    ensures RmGeomCondition(col, RmGeomCondition(col, a + And + BboxPredicate(col, hex) + And + b)) == RmGeomCondition(col, a + And + BboxPredicate(col, hex) + And + b)
  {
    RewriteBboxBetween(col, hex, a, b);
    RmGeomConditionOf(col, a + And + BboxPredicate(col, hex) + And + b, a + And + b);
    AndJoin(col, a, b);
    AppendAssoc(a, And, b);
    SettlesOn(col, a + And + BboxPredicate(col, hex) + And + b, a + And + b);
  }

  // (col && 'hex'::geometry) AND Y

  lemma BboxFirstText(col: string, hex: string, b: string)
    ensures BboxPredicate(col, hex) + And + b == BboxHead(col) + (hex + ((GeometryEnd + And) + b))
    ensures BboxPredicate(col, hex) + And + b == BboxPredicate(col, hex) + (And + b)
  {
    var A, H, G := And, BboxHead(col), GeometryEnd;
    AppendAssoc(H + hex + G, A, b);
    AppendAssoc(H + hex, G, A + b);
    AppendAssoc(H, hex, G + (A + b));
    AppendAssoc(G, A, b);
  }

  /** Rewrite 1 passes over `(col && 'hex'::geometry) AND Y`, and rewrite 2 leaves `Y`. */
  lemma BboxFirstFires(col: string, hex: string, b: string)
    requires IsColumnName(col) && IsHex(hex) && GeomFree(col, b)
    ensures Sub(BboxBetween(col), And, BboxPredicate(col, hex) + And + b) == BboxPredicate(col, hex) + And + b
    ensures Sub(BboxFirst(col), "", BboxPredicate(col, hex) + And + b) == b
  {
    var s := BboxPredicate(col, hex) + And + b;
    var n := |BboxHead(col)| + |hex| + |GeometryEnd + And|;
    BboxFirstText(col, hex, b);
    LitRunLitHit(BboxHead(col), HexDigit, hex, GeometryEnd + And, b);
    assert OnlyLiveAt(col, s, 0) by {
      AndJoin(col, [], b);
      BboxPredicateLive(col, hex, And + b);
    }
    RulesAnchored(col);
    assert s[0..] == s;
    SubAtAnchorMiss(col, BboxBetween(col), 5, BboxProbe, And, s, 0);
    SubAtAnchorHit(col, BboxFirst(col), 0, BboxProbe, "", s, 0, n);
    assert s[n..] == b;
  }

  /** The rewrites turn `(col && 'hex'::geometry) AND Y` into `Y`. */
  lemma RewriteBboxFirst(col: string, hex: string, b: string)
    requires IsColumnName(col) && IsHex(hex) && GeomFree(col, b)
    ensures Rewrite(col, BboxPredicate(col, hex) + And + b) == b
  {
    BboxFirstFires(col, hex, b);
    RewritesKeep(col, b);
  }

  /** `(col && 'hex'::geometry) AND Y` becomes `Y`, stripped. */
  lemma RemovesBboxFirst(col: string, hex: string, b: string)
    requires IsColumnName(col) && IsHex(hex) && GeomFree(col, b)
    ensures RmGeomCondition(col, BboxPredicate(col, hex) + And + b) == Strip(b, UnicodeWhitespace)
    ensures RmGeomCondition(col, RmGeomCondition(col, BboxPredicate(col, hex) + And + b)) == RmGeomCondition(col, BboxPredicate(col, hex) + And + b)
  {
    RewriteBboxFirst(col, hex, b);
    RmGeomConditionOf(col, BboxPredicate(col, hex) + And + b, b);
    SettlesOn(col, BboxPredicate(col, hex) + And + b, b);
  }

  // X AND <predicate>, for a predicate `head + hex + '::geometry)`

  lemma TrailingText(a: string, H: string, hex: string)
    ensures a + And + (H + hex + GeometryEnd) == a + ((And + H) + (hex + GeometryEnd))
    ensures a + And + (H + hex + GeometryEnd) == a + (And + (H + hex + GeometryEnd))
    ensures (And + H) + (hex + GeometryEnd) == And + (H + (hex + GeometryEnd))
    ensures H + hex + GeometryEnd == H + (hex + GeometryEnd)
  {
    AppendAssoc(a, And, H + hex + GeometryEnd);
    AppendAssoc(H, hex, GeometryEnd);
    AppendAssoc(And, H, hex + GeometryEnd);
  }

  /** Where the pieces of `X AND (col && 'hex'::geometry)` sit. */
  lemma BboxLastSlices(col: string, hex: string, a: string, s: string)
    requires s == a + And + BboxPredicate(col, hex)
    ensures |a| + 5 <= |s| && s[..|a|] == a
    ensures s[|a|..] == (And + BboxHead(col)) + (hex + GeometryEnd)
    ensures s[|a| + 5..] == BboxHead(col) + (hex + GeometryEnd)
  {
    var H := BboxHead(col);
    TrailingText(a, H, hex);
    Split(a, (And + H) + (hex + GeometryEnd));
    Split(And, H + (hex + GeometryEnd));
  }

  /** In `X AND (col && 'hex'::geometry)` only the predicate's own `(` is live. */
  lemma BboxLastLive(col: string, hex: string, a: string, s: string)
    requires IsColumnName(col) && IsHex(hex) && GeomFree(col, a) && s == a + And + BboxPredicate(col, hex)
    ensures OnlyLiveAt(col, s, |a| + 5)
  {
    var P := BboxPredicate(col, hex);
    BboxPredicateLive(col, hex, []);
    assert P + [] == P;
    LiveBehindAnd(col, a, P);
    AppendAssoc(a, And, P);
  }

  lemma BboxBetweenMissesLast(col: string, hex: string, x: string)
    requires IsHex(hex) && x == (And + BboxHead(col)) + (hex + GeometryEnd)
    ensures MatchPrefix(BboxBetween(col), x) == None
  {
    LitRunLitShort(And + BboxHead(col), HexDigit, hex, GeometryEnd + And, GeometryEnd, x);
  }

  lemma BboxFirstMissesOnly(col: string, hex: string, x: string)
    requires IsHex(hex) && x == BboxHead(col) + (hex + GeometryEnd)
    ensures MatchPrefix(BboxFirst(col), x) == None
  {
    LitRunLitShort(BboxHead(col), HexDigit, hex, GeometryEnd + And, GeometryEnd, x);
  }

  /** `l1[0-9A-F]+'::geometry)` matches all of `l1 + hex + '::geometry)`. */
  lemma HexThenGeometryEnd(l1: string, hex: string, x: string)
    requires IsHex(hex) && x == l1 + (hex + GeometryEnd)
    ensures MatchPrefix([Lit(l1), Run(HexDigit), Lit(GeometryEnd)], x) == Some(|x|)
  {
    LitRunLitExact(l1, HexDigit, hex, GeometryEnd, x);
  }

  lemma BboxLastMatchesLast(col: string, hex: string, x: string)
    requires IsHex(hex) && x == (And + BboxHead(col)) + (hex + GeometryEnd)
    ensures MatchPrefix(BboxLast(col), x) == Some(|x|)
  {
    HexThenGeometryEnd(And + BboxHead(col), hex, x);
  }

  lemma BboxOnlyMatchesOnly(col: string, hex: string, x: string)
    requires IsHex(hex) && x == BboxHead(col) + (hex + GeometryEnd)
    ensures MatchPrefix(BboxOnly(col), x) == Some(|x|)
  {
    HexThenGeometryEnd(BboxHead(col), hex, x);
  }

  /** Rewrite 1 passes over `X AND (col && 'hex'::geometry)`. */
  lemma BboxLastKeptByBetween(col: string, hex: string, a: string, s: string)
    requires IsColumnName(col) && IsHex(hex) && GeomFree(col, a) && s == a + And + BboxPredicate(col, hex)
    ensures Sub(BboxBetween(col), And, s) == s
  {
    BboxLastSlices(col, hex, a, s);
    BboxLastLive(col, hex, a, s);
    BboxBetweenMissesLast(col, hex, s[|a|..]);
    RulesAnchored(col);
    SubAtAnchorMiss(col, BboxBetween(col), 5, BboxProbe, And, s, |a| + 5);
  }

  /** Rewrite 2 passes over `X AND (col && 'hex'::geometry)`. */
  lemma BboxLastKeptByFirst(col: string, hex: string, a: string, s: string)
    requires IsColumnName(col) && IsHex(hex) && GeomFree(col, a) && s == a + And + BboxPredicate(col, hex)
    ensures Sub(BboxFirst(col), "", s) == s
  {
    BboxLastSlices(col, hex, a, s);
    BboxLastLive(col, hex, a, s);
    BboxFirstMissesOnly(col, hex, s[|a| + 5..]);
    RulesAnchored(col);
    SubAtAnchorMiss(col, BboxFirst(col), 0, BboxProbe, "", s, |a| + 5);
  }

  /** Rewrite 3 turns `X AND (col && 'hex'::geometry)` into `X`. */
  lemma BboxLastFires(col: string, hex: string, a: string, s: string)
    requires IsColumnName(col) && IsHex(hex) && GeomFree(col, a) && s == a + And + BboxPredicate(col, hex)
    ensures Sub(BboxLast(col), "", s) == a
  {
    BboxLastSlices(col, hex, a, s);
    BboxLastLive(col, hex, a, s);
    BboxLastMatchesLast(col, hex, s[|a|..]);
    RulesAnchored(col);
    SubAtAnchorEnd(col, BboxLast(col), 5, BboxProbe, s, |a|);
  }

  /** The rewrites turn `X AND (col && 'hex'::geometry)` into `X`. */
  lemma RewriteBboxLast(col: string, hex: string, a: string)
    requires IsColumnName(col) && IsHex(hex) && GeomFree(col, a)
    ensures Rewrite(col, a + And + BboxPredicate(col, hex)) == a
  {
    var s := a + And + BboxPredicate(col, hex);
    BboxLastKeptByBetween(col, hex, a, s);
    BboxLastKeptByFirst(col, hex, a, s);
    BboxLastFires(col, hex, a, s);
    RewritesKeep(col, a);
  }

  /** `X AND (col && 'hex'::geometry)` becomes `X`, stripped. */
  lemma RemovesBboxLast(col: string, hex: string, a: string)
    requires IsColumnName(col) && IsHex(hex) && GeomFree(col, a)
    ensures RmGeomCondition(col, a + And + BboxPredicate(col, hex)) == Strip(a, UnicodeWhitespace)
    ensures RmGeomCondition(col, RmGeomCondition(col, a + And + BboxPredicate(col, hex))) == RmGeomCondition(col, a + And + BboxPredicate(col, hex))
  {
    RewriteBboxLast(col, hex, a);
    RmGeomConditionOf(col, a + And + BboxPredicate(col, hex), a);
    SettlesOn(col, a + And + BboxPredicate(col, hex), a);
  }

  // (col && 'hex'::geometry)

  /** A lone `(col && 'hex'::geometry)` opens one predicate, at its start. */
  lemma BboxOnlyLive(col: string, hex: string, s: string)
    requires IsColumnName(col) && IsHex(hex) && s == BboxPredicate(col, hex)
    ensures OnlyLiveAt(col, s, 0) && s == BboxHead(col) + (hex + GeometryEnd) && s[0..] == s
  {
    BboxPredicateLive(col, hex, []);
    assert s + [] == s;
    TrailingText([], BboxHead(col), hex);
  }

  /** Rewrites 1 and 3, anchored five characters in, pass over a lone `(col && 'hex'::geometry)`. */
  lemma BboxOnlyKeptByAnd(col: string, hex: string, p: Pattern, r: string, s: string)
    requires IsColumnName(col) && IsHex(hex) && s == BboxPredicate(col, hex)
    requires p == BboxBetween(col) || p == BboxLast(col)
    ensures Sub(p, r, s) == s
  {
    BboxOnlyLive(col, hex, s);
    RulesAnchored(col);
    SubAtAnchorMiss(col, p, 5, BboxProbe, r, s, 0);
  }

  /** Rewrite 2 passes over a lone `(col && 'hex'::geometry)`. */
  lemma BboxOnlyKeptByFirst(col: string, hex: string, s: string)
    requires IsColumnName(col) && IsHex(hex) && s == BboxPredicate(col, hex)
    ensures Sub(BboxFirst(col), "", s) == s
  {
    BboxOnlyLive(col, hex, s);
    BboxFirstMissesOnly(col, hex, s);
    RulesAnchored(col);
    SubAtAnchorMiss(col, BboxFirst(col), 0, BboxProbe, "", s, 0);
  }

  /** Rewrite 4 deletes a lone `(col && 'hex'::geometry)`. */
  lemma BboxOnlyFires(col: string, hex: string, s: string)
    requires IsColumnName(col) && IsHex(hex) && s == BboxPredicate(col, hex)
    ensures Sub(BboxOnly(col), "", s) == ""
  {
    BboxOnlyLive(col, hex, s);
    BboxOnlyMatchesOnly(col, hex, s);
    RulesAnchored(col);
    SubAtAnchorEnd(col, BboxOnly(col), 0, BboxProbe, s, 0);
  }

  /** A lone `(col && 'hex'::geometry)` becomes the empty filter. */
  lemma RemovesBboxOnly(col: string, hex: string)
    requires IsColumnName(col) && IsHex(hex)
    ensures RmGeomCondition(col, BboxPredicate(col, hex)) == ""
    ensures RmGeomCondition(col, RmGeomCondition(col, BboxPredicate(col, hex))) == ""
  {
    var s := BboxPredicate(col, hex);
    BboxOnlyKeptByAnd(col, hex, BboxBetween(col), And, s);
    BboxOnlyKeptByFirst(col, hex, s);
    BboxOnlyKeptByAnd(col, hex, BboxLast(col), "", s);
    BboxOnlyFires(col, hex, s);
    RewritesKeep(col, "");
    RmGeomConditionOf(col, BboxPredicate(col, hex), "");
    RmGeomConditionIdempotent(col, s);
  }

  // X (st_boundary(col) && 'hex'::geometry) Y

  /** Where the pieces of `X (st_boundary(col) && 'hex'::geometry) Y` sit. */
  lemma BoundarySlices(col: string, hex: string, a: string, b: string, s: string)
    requires s == a + (BoundaryPredicate(col, hex) + b)
    ensures |a| < |s| && s[..|a|] == a
    ensures s[|a|..] == BoundaryHead(col) + (hex + (GeometryEnd + b))
    ensures s[|a| + 1..] == "st_boundary(" + col + ") && '" + hex + GeometryEnd + b
    ensures s[|a| + |BoundaryHead(col)| + |hex| + |GeometryEnd|..] == b
  {
    var H, G := BoundaryHead(col), GeometryEnd;
    AppendAssoc(H + hex, G, b);
    AppendAssoc(H, hex, G + b);
    Split(a, H + (hex + (G + b)));
    assert (H + (hex + (G + b)))[|H| + |hex| + |G|..] == b;
    assert H[1..] == "st_boundary(" + col + ") && '";
    assert (H + hex + G + b)[1..] == H[1..] + hex + G + b;
  }

  /** The boundary probe follows the predicate's `(`. */
  lemma BoundaryProbeAt(col: string, hex: string, a: string, b: string, s: string)
    requires s == a + (BoundaryPredicate(col, hex) + b)
    ensures |a| < |s| && ProbeText(col, BoundaryProbe) <= s[|a| + 1..]
  {
    BoundarySlices(col, hex, a, b, s);
    var t := "st_boundary(" + col + ") && '" + hex + GeometryEnd + b;
    assert t[..12] == "st_boundary(";
  }

  /** A rewrite passes over a text whose one live `(` opens a predicate of another kind. */
  lemma KeptByOtherProbe(col: string, p: Pattern, o: nat, k: Probe, r: string, s: string, a: nat, k2: Probe)
    requires IsColumnName(col) && Anchored(col, p, o, k) && 0 < MinLength(p) && k != k2
    requires OnlyLiveAt(col, s, a) && a < |s| && ProbeText(col, k2) <= s[a + 1..]
    ensures NoMatch(p, s) && Sub(p, r, s) == s
  {
    if o <= a {
      WrongProbe(col, p, o, k, s, a - o, k2);
    }
    SubAtAnchorMiss(col, p, o, k, r, s, a);
  }

  /** A bounding-box rewrite passes over a boundary predicate that holds the text's one live `(`. */
  lemma BoundaryKeptByBbox(col: string, hex: string, p: Pattern, o: nat, r: string, a: string, b: string, s: string)
    requires IsColumnName(col) && s == a + (BoundaryPredicate(col, hex) + b) && OnlyLiveAt(col, s, |a|)
    requires Anchored(col, p, o, BboxProbe) && 0 < MinLength(p)
    ensures Sub(p, r, s) == s
  {
    BoundaryProbeAt(col, hex, a, b, s);
    KeptByOtherProbe(col, p, o, BboxProbe, r, s, |a|, BoundaryProbe);
  }

  /** A deleting rewrite that matches, at the one live position, all of `s` between `a` and `b` leaves `a + b`. */
  lemma DeletesAt(col: string, p: Pattern, o: nat, k: Probe, s: string, a: string, b: string, n: nat)
    requires Anchored(col, p, o, k) && 0 < MinLength(p) && OnlyLiveAt(col, s, |a| + o)
    requires |a| < |s| && s[..|a|] == a && MatchPrefix(p, s[|a|..]) == Some(n) && |a| + n <= |s| && s[|a| + n..] == b
    ensures Sub(p, "", s) == a + b
  {
    SubAtAnchorHit(col, p, o, k, "", s, |a|, n);
    assert a + "" == a;
  }

  /** Rule 5 matches the boundary predicate and no more. */
  lemma BoundaryMatchesAt(col: string, hex: string, a: string, b: string, s: string) returns (n: nat)
    requires IsHex(hex) && s == a + (BoundaryPredicate(col, hex) + b)
    ensures |a| < |s| && MatchPrefix(BoundaryBbox(col), s[|a|..]) == Some(n)
    ensures s[..|a|] == a && |a| + n <= |s| && s[|a| + n..] == b
  {
    n := |BoundaryHead(col)| + |hex| + |GeometryEnd|;
    BoundarySlices(col, hex, a, b, s);
    LitRunLitHit(BoundaryHead(col), HexDigit, hex, GeometryEnd, b);
  }

  /** Rewrite 5 deletes the boundary predicate and leaves what surrounds it. */
  lemma BoundaryFires(col: string, hex: string, a: string, b: string, s: string)
    requires IsColumnName(col) && IsHex(hex) && s == a + (BoundaryPredicate(col, hex) + b) && OnlyLiveAt(col, s, |a|)
    ensures Sub(BoundaryBbox(col), "", s) == a + b
  {
    var n := BoundaryMatchesAt(col, hex, a, b, s);
    RulesAnchored(col);
    DeletesAt(col, BoundaryBbox(col), 0, BoundaryProbe, s, a, b, n);
  }

  /**
   * The rewrites delete a boundary predicate that holds the text's one live
   * `(`, and nothing else, when the text around it is column-free.
   */
  lemma RewriteBoundary(col: string, hex: string, a: string, b: string)
    requires IsColumnName(col) && IsHex(hex) && GeomFree(col, a + b)
    requires OnlyLiveAt(col, a + (BoundaryPredicate(col, hex) + b), |a|)
    ensures Rewrite(col, a + (BoundaryPredicate(col, hex) + b)) == a + b
  {
    var s := a + (BoundaryPredicate(col, hex) + b);
    RulesAnchored(col);
    BoundaryKeptByBbox(col, hex, BboxBetween(col), 5, And, a, b, s);
    BoundaryKeptByBbox(col, hex, BboxFirst(col), 0, "", a, b, s);
    BoundaryKeptByBbox(col, hex, BboxLast(col), 5, "", a, b, s);
    BoundaryKeptByBbox(col, hex, BboxOnly(col), 0, "", a, b, s);
    BoundaryFires(col, hex, a, b, s);
    RewritesKeep(col, a + b);
  }

  /** A lone boundary predicate becomes the empty filter. */
  lemma RemovesBoundaryOnly(col: string, hex: string)
    requires IsColumnName(col) && IsHex(hex)
    ensures RmGeomCondition(col, BoundaryPredicate(col, hex)) == ""
    ensures RmGeomCondition(col, RmGeomCondition(col, BoundaryPredicate(col, hex))) == ""
  {
    var Q := BoundaryPredicate(col, hex);
    BoundaryPredicateLive(col, hex, []);
    assert [] + (Q + []) == Q && Q + [] == Q;
    ParenFreeIsGeomFree(col, []);
    RewriteBoundary(col, hex, [], []);
    RmGeomConditionOf(col, Q, "");
    SettlesOn(col, Q, "");
  }

  /**
   * `X AND (st_boundary(col) && 'hex'::geometry)` loses only the predicate:
   * the ` AND` before it stays, and the result is `X AND`, stripped.
   */
  lemma BoundaryAfterAnd(col: string, hex: string, a: string)
    requires IsColumnName(col) && IsHex(hex) && GeomFree(col, a)
    ensures RmGeomCondition(col, a + And + BoundaryPredicate(col, hex)) == Strip(a + And, UnicodeWhitespace)
    ensures RmGeomCondition(col, RmGeomCondition(col, a + And + BoundaryPredicate(col, hex))) == RmGeomCondition(col, a + And + BoundaryPredicate(col, hex))
  {
    var Q := BoundaryPredicate(col, hex);
    BoundaryPredicateLive(col, hex, []);
    assert Q + [] == Q;
    LiveBehindAnd(col, a, Q);
    AppendAssoc(a, And, Q);
    assert (a + And) + (Q + []) == a + (And + Q);
    AndJoin(col, a, []);
    assert And + [] == And;
    assert (a + And) + [] == a + And;
    RewriteBoundary(col, hex, a + And, []);
    RmGeomConditionOf(col, a + And + Q, a + And);
    SettlesOn(col, a + And + Q, a + And);
  }

  // X AND (_st_distance((col)::geography, 'hex'::kind, 'd1'::double precision, true) < 'd2'::double precision) Y

  /** Rule 6 is four patterns in a row: its head up to `'::`, the kind, and two numbers. */
  lemma DistanceBelowParts(col: string)
    ensures DistanceBelow(col) ==
            [Lit("AND " + DistanceHead(col)), Run(HexDigit), Lit("'::")] +
            ([Alt("geometry", "geography"), Lit(", '")] +
            ([Run(DecimalDigit), Lit(DistanceMid)] + [Run(DecimalDigit), Lit(DistanceEnd)]))
  {
  }

  /** A match of `p1` over `u` followed by a match of `p2` over `v` is a match of `p1 + p2` over `u + v`. */
  lemma MatchFollowedBy(p1: Pattern, p2: Pattern, u: string, v: string, w: string, m: nat)
    requires w == u + v && MatchPrefix(p1, w) == Some(|u|) && MatchPrefix(p2, v) == Some(m)
    ensures MatchPrefix(p1 + p2, w) == Some(|u| + m)
  {
    assert w[|u|..] == v;
    MatchAppend(p1, p2, w, |u|);
  }

  /** `l0[class]+l2` matches `l0 + h + l2` in front of anything. */
  lemma LitRunLitBlock(l0: string, c: CharClass, h: string, l2: string, rest: string, x: string)
    requires 0 < |h| && (forall i :: 0 <= i < |h| ==> InClass(c, h[i])) && 0 < |l2| && !InClass(c, l2[0])
    requires x == ((l0 + h) + l2) + rest
    ensures MatchPrefix([Lit(l0), Run(c), Lit(l2)], x) == Some(|(l0 + h) + l2|)
  {
    assert x == l0 + (h + (l2 + rest));
    LitRunLitHit(l0, c, h, l2, rest);
  }

  /** `(g1|g2)l` matches `g + l` in front of anything. */
  lemma AltLitBlock(g1: string, g2: string, g: string, l: string, rest: string, x: string)
    requires !(g1 <= g2) && !(g2 <= g1) && (g == g1 || g == g2) && x == (g + l) + rest
    ensures MatchPrefix([Alt(g1, g2), Lit(l)], x) == Some(|g + l|)
  {
    var p := [Alt(g1, g2), Lit(l)];
    assert p[1..] == [Lit(l)];
    assert x == g + (l + rest);
    MatchOneLit(l, l + rest);
    MatchAltStep(p, g1, g2, g, l + rest);
  }

  /** `[class]+l` matches a complete run and then `l`, in front of anything. */
  lemma RunLitBlock(c: CharClass, h: string, l: string, rest: string, x: string)
    requires 0 < |h| && (forall i :: 0 <= i < |h| ==> InClass(c, h[i])) && 0 < |l| && !InClass(c, l[0])
    requires x == (h + l) + rest
    ensures MatchPrefix([Run(c), Lit(l)], x) == Some(|h + l|)
  {
    assert x == h + (l + rest);
    assert (l + rest)[0] == l[0];
    MatchOneLit(l, l + rest);
    MatchRunLit(c, h, l, l + rest);
  }

  /** `[class]+mid[class]+end` matches two complete runs with `mid` and `end` behind them. */
  lemma RunLitRunLitMatch(c: CharClass, mid: string, end: string, d1: string, d2: string, b: string, x: string)
    requires 0 < |d1| && (forall i :: 0 <= i < |d1| ==> InClass(c, d1[i]))
    requires 0 < |d2| && (forall i :: 0 <= i < |d2| ==> InClass(c, d2[i]))
    requires 0 < |mid| && !InClass(c, mid[0]) && 0 < |end| && !InClass(c, end[0])
    requires x == (d1 + mid) + ((d2 + end) + b)
    ensures MatchPrefix([Run(c), Lit(mid)] + [Run(c), Lit(end)], x) == Some(|d1 + mid| + |d2 + end|)
  {
    var xd := (d2 + end) + b;
    RunLitBlock(c, d2, end, b, xd);
    RunLitBlock(c, d1, mid, xd, x);
    MatchFollowedBy([Run(c), Lit(mid)], [Run(c), Lit(end)], d1 + mid, xd, x, |d2 + end|);
  }

  /** The two numbers of rule 6: `[0-9]+'::double precision, true) < '[0-9]+'::double precision)`. */
  lemma DistanceNumbersMatch(d1: string, d2: string, b: string, x: string)
    requires IsDigits(d1) && IsDigits(d2) && x == (d1 + DistanceMid) + ((d2 + DistanceEnd) + b)
    ensures MatchPrefix([Run(DecimalDigit), Lit(DistanceMid)] + [Run(DecimalDigit), Lit(DistanceEnd)], x) ==
            Some(|d1 + DistanceMid| + |d2 + DistanceEnd|)
  {
    RunLitRunLitMatch(DecimalDigit, DistanceMid, DistanceEnd, d1, d2, b, x);
  }

  /** The kind of rule 6, `(geometry|geography), '`, in front of a match of the rest. */
  lemma DistanceKindMatch(kind: string, q: Pattern, y: string, m: nat, x: string)
    requires (kind == "geometry" || kind == "geography") && MatchPrefix(q, y) == Some(m) && x == (kind + ", '") + y
    ensures MatchPrefix([Alt("geometry", "geography"), Lit(", '")] + q, x) == Some(|kind| + 3 + m)
  {
    assert "geometry"[3] != "geography"[3];
    AltLitBlock("geometry", "geography", kind, ", '", y, x);
    MatchFollowedBy([Alt("geometry", "geography"), Lit(", '")], q, kind + ", '", y, x, m);
  }

  /** The head of rule 6, `l0[0-9A-F]+'::`, in front of a match of the rest. */
  lemma DistanceHeadMatch(l0: string, hex: string, q: Pattern, y: string, m: nat, x: string)
    requires IsHex(hex) && MatchPrefix(q, y) == Some(m) && x == ((l0 + hex) + "'::") + y
    ensures MatchPrefix([Lit(l0), Run(HexDigit), Lit("'::")] + q, x) == Some(|l0| + |hex| + 3 + m)
  {
    LitRunLitBlock(l0, HexDigit, hex, "'::", y, x);
    MatchFollowedBy([Lit(l0), Run(HexDigit), Lit("'::")], q, (l0 + hex) + "'::", y, x, m);
  }

  /** The distance predicate with ` AND` before it and `b` after it, regrouped as rule 6 reads it. */
  lemma DistanceText(l0: string, hex: string, s1: string, kind: string, s2: string, d1: string, mid: string, d2: string, end: string, b: string)
    ensures (l0 + (hex + s1 + kind + s2 + d1 + mid + d2 + end)) + b ==
            ((l0 + hex) + s1) + ((kind + s2) + ((d1 + mid) + ((d2 + end) + b)))
  {
    var t := hex + s1 + kind + s2 + d1 + mid + d2 + end;
    assert (l0 + t) + b == l0 + (t + b);
    assert t + b == hex + (s1 + ((kind + s2) + ((d1 + mid) + ((d2 + end) + b))));
  }

  /** `AND ` and the distance predicate, followed by `b`, regrouped as rule 6 reads them. */
  lemma DistanceRegrouped(col: string, hex: string, kind: string, d1: string, d2: string, b: string) returns (x: string)
    ensures x == ("AND " + DistancePredicate(col, hex, kind, d1, d2)) + b
    ensures x == ((("AND " + DistanceHead(col)) + hex) + "'::") + ((kind + ", '") + ((d1 + DistanceMid) + ((d2 + DistanceEnd) + b)))
  {
    var l0 := "AND " + DistanceHead(col);
    x := ("AND " + DistancePredicate(col, hex, kind, d1, d2)) + b;
    AppendAssoc("AND ", DistanceHead(col), DistanceTail(hex, kind, d1, d2));
    DistanceText(l0, hex, "'::", kind, ", '", d1, DistanceMid, d2, DistanceEnd, b);
  }

  /** How long `AND ` and the distance predicate are, part by part. */
  lemma DistanceLength(col: string, hex: string, kind: string, d1: string, d2: string)
    ensures |"AND " + DistancePredicate(col, hex, kind, d1, d2)| ==
            |"AND " + DistanceHead(col)| + |hex| + 3 + (|kind| + 3 + (|d1 + DistanceMid| + |d2 + DistanceEnd|))
  {
  }

  /** Rule 6 matches `AND ` and the distance predicate, and no more. */
  lemma DistanceMatches(col: string, hex: string, kind: string, d1: string, d2: string, b: string)
    requires IsHex(hex) && IsDigits(d1) && IsDigits(d2) && (kind == "geometry" || kind == "geography")
    ensures MatchPrefix(DistanceBelow(col), ("AND " + DistancePredicate(col, hex, kind, d1, d2)) + b) ==
            Some(|"AND " + DistancePredicate(col, hex, kind, d1, d2)|)
  {
    var l0 := "AND " + DistanceHead(col);
    var xc := (d1 + DistanceMid) + ((d2 + DistanceEnd) + b);
    var xb := (kind + ", '") + xc;
    var x := DistanceRegrouped(col, hex, kind, d1, d2, b);
    var q := [Run(DecimalDigit), Lit(DistanceMid)] + [Run(DecimalDigit), Lit(DistanceEnd)];
    DistanceNumbersMatch(d1, d2, b, xc);
    var m := |d1 + DistanceMid| + |d2 + DistanceEnd|;
    DistanceKindMatch(kind, q, xc, m, xb);
    DistanceHeadMatch(l0, hex, [Alt("geometry", "geography"), Lit(", '")] + q, xb, |kind| + 3 + m, x);
    DistanceLength(col, hex, kind, d1, d2);
    DistanceBelowParts(col);
  }

  /** Where the pieces of `X AND (_st_distance(...) < 'd2'::double precision) Y` sit. */
  lemma DistanceSlices(col: string, hex: string, kind: string, d1: string, d2: string, a: string, b: string, s: string)
    requires s == a + (("AND " + DistancePredicate(col, hex, kind, d1, d2)) + b)
    ensures |a| + 4 < |s| && s[..|a|] == a
    ensures s[|a|..] == ("AND " + DistancePredicate(col, hex, kind, d1, d2)) + b
    ensures s[|a| + |"AND " + DistancePredicate(col, hex, kind, d1, d2)|..] == b
  {
    var L := "AND " + DistancePredicate(col, hex, kind, d1, d2);
    Split(a, L + b);
    Split(L, b);
    assert s[|a| + |L|..] == (L + b)[|L|..];
  }

  /** In `a + (w + ("(" + t + x)) + b`, the text `t` follows the `(`. */
  lemma TextAfterParen(a: string, w: string, t: string, x: string, b: string, s: string)
    requires s == a + ((w + ("(" + t + x)) + b)
    ensures |a| + |w| < |s| && t <= s[|a| + |w| + 1..]
  {
    assert s[|a| + |w| + 1..] == t + x + b;
  }

  /** The distance probe follows the predicate's `(`. */
  lemma DistanceProbeAt(col: string, hex: string, kind: string, d1: string, d2: string, a: string, b: string, s: string)
    requires IsColumnName(col) && IsHex(hex) && IsDigits(d1) && IsDigits(d2) && (kind == "geometry" || kind == "geography")
    requires s == a + (("AND " + DistancePredicate(col, hex, kind, d1, d2)) + b)
    ensures |a| + 4 < |s| && ProbeText(col, DistanceProbe) <= s[|a| + 5..]
  {
    var X := DistanceSplit(col, hex, kind, d1, d2);
    assert "(_st_distance((" + X == "(" + "_st_distance((" + X;
    TextAfterParen(a, "AND ", "_st_distance((", X, b, s);
  }

  /** Rules 1 to 5 pass over a text whose one live `(` opens a distance predicate. */
  lemma KeptBeforeDistance(col: string, s: string, a: nat)
    requires IsColumnName(col) && OnlyLiveAt(col, s, a) && a < |s| && ProbeText(col, DistanceProbe) <= s[a + 1..]
    ensures Sub(BboxBetween(col), And, s) == s && Sub(BboxFirst(col), "", s) == s && Sub(BboxLast(col), "", s) == s
    ensures Sub(BboxOnly(col), "", s) == s && Sub(BoundaryBbox(col), "", s) == s
    ensures NoMatch(BboxBetween(col), s) && NoMatch(BboxFirst(col), s) && NoMatch(BboxLast(col), s)
    ensures NoMatch(BboxOnly(col), s) && NoMatch(BoundaryBbox(col), s)
  {
    RulesAnchored(col);
    KeptByOtherProbe(col, BboxBetween(col), 5, BboxProbe, And, s, a, DistanceProbe);
    KeptByOtherProbe(col, BboxFirst(col), 0, BboxProbe, "", s, a, DistanceProbe);
    KeptByOtherProbe(col, BboxLast(col), 5, BboxProbe, "", s, a, DistanceProbe);
    KeptByOtherProbe(col, BboxOnly(col), 0, BboxProbe, "", s, a, DistanceProbe);
    KeptByOtherProbe(col, BoundaryBbox(col), 0, BoundaryProbe, "", s, a, DistanceProbe);
  }

  /** Rule 6 matches, at the start of `AND `, that and the distance predicate. */
  lemma DistanceMatchesAt(col: string, hex: string, kind: string, d1: string, d2: string, a: string, b: string, s: string) returns (n: nat)
    requires IsHex(hex) && IsDigits(d1) && IsDigits(d2) && (kind == "geometry" || kind == "geography")
    requires s == a + (("AND " + DistancePredicate(col, hex, kind, d1, d2)) + b)
    ensures |a| < |s| && MatchPrefix(DistanceBelow(col), s[|a|..]) == Some(n)
    ensures s[..|a|] == a && |a| + n <= |s| && s[|a| + n..] == b
  {
    n := |"AND " + DistancePredicate(col, hex, kind, d1, d2)|;
    DistanceSlices(col, hex, kind, d1, d2, a, b, s);
    DistanceMatches(col, hex, kind, d1, d2, b);
  }

  /** Rule 6 deletes `AND ` and the distance predicate, and leaves what surrounds them. */
  lemma DistanceFires(col: string, hex: string, kind: string, d1: string, d2: string, a: string, b: string, s: string)
    requires IsColumnName(col) && IsHex(hex) && IsDigits(d1) && IsDigits(d2) && (kind == "geometry" || kind == "geography")
    requires s == a + (("AND " + DistancePredicate(col, hex, kind, d1, d2)) + b) && OnlyLiveAt(col, s, |a| + 4)
    ensures Sub(DistanceBelow(col), "", s) == a + b
  {
    var n := DistanceMatchesAt(col, hex, kind, d1, d2, a, b, s);
    RulesAnchored(col);
    DeletesAt(col, DistanceBelow(col), 4, DistanceProbe, s, a, b, n);
  }

  /**
   * The rewrites delete `AND ` and a distance predicate that holds the
   * text's one live `(`, and nothing else, when the text around them is
   * column-free.
   */
  lemma RewriteDistance(col: string, hex: string, kind: string, d1: string, d2: string, a: string, b: string)
    requires IsColumnName(col) && IsHex(hex) && IsDigits(d1) && IsDigits(d2) && (kind == "geometry" || kind == "geography")
    requires GeomFree(col, a + b) && OnlyLiveAt(col, a + (("AND " + DistancePredicate(col, hex, kind, d1, d2)) + b), |a| + 4)
    ensures Rewrite(col, a + (("AND " + DistancePredicate(col, hex, kind, d1, d2)) + b)) == a + b
  {
    var s := a + (("AND " + DistancePredicate(col, hex, kind, d1, d2)) + b);
    DistanceProbeAt(col, hex, kind, d1, d2, a, b, s);
    KeptBeforeDistance(col, s, |a| + 4);
    DistanceFires(col, hex, kind, d1, d2, a, b, s);
  }

  /** `X AND t` read as `X ` followed by `AND t`. */
  lemma AndRegrouped(a: string, t: string)
    ensures a + And + t == (a + " ") + (("AND " + t) + [])
  {
    assert And == " " + "AND ";
    AppendAssoc(a, " ", "AND " + t);
    assert ("AND " + t) + [] == "AND " + t;
  }

  /** In `X AND (_st_distance(...))` only the predicate's own `(` is live. */
  lemma DistanceAfterAnd(col: string, hex: string, kind: string, d1: string, d2: string, a: string)
    requires IsColumnName(col) && IsHex(hex) && IsDigits(d1) && IsDigits(d2) && (kind == "geometry" || kind == "geography")
    requires GeomFree(col, a)
    ensures OnlyLiveAt(col, a + And + DistancePredicate(col, hex, kind, d1, d2), |a + " "| + 4)
  {
    var D := DistancePredicate(col, hex, kind, d1, d2);
    DistancePredicateLive(col, hex, kind, d1, d2, []);
    assert D + [] == D;
    LiveBehindAnd(col, a, D);
    AppendAssoc(a, And, D);
  }

  /** `X ` is column-free when `X` is. */
  lemma SpaceAfterGeomFree(col: string, a: string)
    requires IsColumnName(col) && GeomFree(col, a)
    ensures GeomFree(col, (a + " ") + [])
  {
    ParenFreeIsGeomFree(col, " ");
    GeomFreeConcat(col, a, " ");
    assert (a + " ") + [] == a + " ";
  }

  /** `X AND (_st_distance(...) < 'd2'::double precision)` becomes `X`, stripped. */
  lemma RemovesDistanceBelow(col: string, hex: string, kind: string, d1: string, d2: string, a: string)
    requires IsColumnName(col) && IsHex(hex) && IsDigits(d1) && IsDigits(d2) && (kind == "geometry" || kind == "geography")
    requires GeomFree(col, a)
    ensures RmGeomCondition(col, a + And + DistancePredicate(col, hex, kind, d1, d2)) == Strip(a + " ", UnicodeWhitespace)
    ensures RmGeomCondition(col, RmGeomCondition(col, a + And + DistancePredicate(col, hex, kind, d1, d2))) == RmGeomCondition(col, a + And + DistancePredicate(col, hex, kind, d1, d2))
  {
    var D := DistancePredicate(col, hex, kind, d1, d2);
    AndRegrouped(a, D);
    DistanceAfterAnd(col, hex, kind, d1, d2, a);
    SpaceAfterGeomFree(col, a);
    RewriteDistance(col, hex, kind, d1, d2, a + " ", []);
    RmGeomConditionOf(col, a + And + D, (a + " ") + []);
    assert (a + " ") + [] == a + " ";
    SettlesOn(col, a + And + D, (a + " ") + []);
  }

  /** A distance predicate that comes first has no `AND ` before it, so no rewrite touches it. */
  lemma DistanceFirstKept(col: string, hex: string, kind: string, d1: string, d2: string, b: string)
    requires IsColumnName(col) && IsHex(hex) && IsDigits(d1) && IsDigits(d2) && (kind == "geometry" || kind == "geography")
    requires GeomFree(col, b)
    ensures Rewrite(col, DistancePredicate(col, hex, kind, d1, d2) + (And + b)) == DistancePredicate(col, hex, kind, d1, d2) + (And + b)
    ensures RmGeomCondition(col, DistancePredicate(col, hex, kind, d1, d2) + (And + b)) ==
            Strip(DistancePredicate(col, hex, kind, d1, d2) + (And + b), UnicodeWhitespace)
    ensures RmGeomCondition(col, RmGeomCondition(col, DistancePredicate(col, hex, kind, d1, d2) + (And + b))) == RmGeomCondition(col, DistancePredicate(col, hex, kind, d1, d2) + (And + b))
  {
    var s := DistancePredicate(col, hex, kind, d1, d2) + (And + b);
    AndJoin(col, [], b);
    DistancePredicateLive(col, hex, kind, d1, d2, And + b);
    KeptBeforeDistance(col, s, 0);
    RulesAnchored(col);
    SubAtAnchorMiss(col, DistanceBelow(col), 4, DistanceProbe, "", s, 0);
    RmGeomConditionOf(col, s, s);
    RmGeomConditionIdempotent(col, s);
  }
}
