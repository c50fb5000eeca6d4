/**
 * Where an anchored rewrite can fire: in a text with one live `(`, a
 * rewrite anchored on that kind of predicate can match only there.
 */
module Anchors {
  import opened Wrappers
  import opened Regex
  import opened GeomFilter

  /** A match of an anchored pattern can start only where its anchor lands on a live `(`. */
  lemma NoMatchAwayFromAnchor(col: string, p: Pattern, o: nat, k: Probe, s: string, a: int, i: nat)
    requires Anchored(col, p, o, k) && OnlyLiveAt(col, s, a)
    requires i < |s| && i + o != a
    ensures MatchPrefix(p, s[i..]).None?
  {
    if MatchPrefix(p, s[i..]).Some? {
      MatchNeedsAnchor(col, p, o, k, s[i..]);
      assert s[i..][o] == s[i + o];
      assert s[i..][o + 1..] == s[i + o + 1..];
      assert LiveAt(col, s, i + o);
    }
  }

  /** `re.sub` with an anchored rule finds nothing when the anchor's position does not match. */
  lemma SubAtAnchorMiss(col: string, p: Pattern, o: nat, k: Probe, r: string, s: string, a: int)
    requires Anchored(col, p, o, k) && 0 < MinLength(p) && OnlyLiveAt(col, s, a)
    requires !(0 <= a - o < |s| && MatchPrefix(p, s[a - o..]).Some?)
    ensures NoMatch(p, s) && Sub(p, r, s) == s
  {
    forall j | 0 <= j < |s|
      ensures MatchPrefix(p, s[j..]).None?
    {
      if j + o != a {
        NoMatchAwayFromAnchor(col, p, o, k, s, a, j);
      }
    }
    SubUnchanged(p, r, s);
  }

  /** `re.sub` with an anchored rule replaces the one match at the live position and nothing else. */
  lemma SubAtAnchorHit(col: string, p: Pattern, o: nat, k: Probe, r: string, s: string, i: nat, n: nat)
    requires Anchored(col, p, o, k) && 0 < MinLength(p) && OnlyLiveAt(col, s, i + o)
    requires i < |s| && MatchPrefix(p, s[i..]) == Some(n)
    ensures i + n <= |s|
    ensures Sub(p, r, s) == s[..i] + r + s[i + n..]
  {
    MatchLength(p, s[i..], n);
    DeadBefore(col, p, o, k, s, i + o, i);
    DeadBehind(col, p, o, k, s, i + o, i + n);
    SubOnce(p, r, s, i, n);
  }

  /** A match at the live position that runs to the end of `s`, deleted, leaves `s[..i]`. */
  lemma SubAtAnchorEnd(col: string, p: Pattern, o: nat, k: Probe, s: string, i: nat)
    requires Anchored(col, p, o, k) && 0 < MinLength(p) && OnlyLiveAt(col, s, i + o)
    requires i < |s| && MatchPrefix(p, s[i..]) == Some(|s| - i)
    ensures Sub(p, "", s) == s[..i]
  {
    DeadBefore(col, p, o, k, s, i + o, i);
    SubToEnd(p, s, i);
  }

  /** Before the one live position, an anchored pattern matches nowhere. */
  lemma DeadBefore(col: string, p: Pattern, o: nat, k: Probe, s: string, a: int, i: nat)
    requires Anchored(col, p, o, k) && OnlyLiveAt(col, s, a)
    requires i + o <= a && i <= |s|
    ensures forall j {:trigger MatchPrefix(p, s[j..])} :: 0 <= j < i ==> MatchPrefix(p, s[j..]).None?
  {
    forall j | 0 <= j < i
      ensures MatchPrefix(p, s[j..]).None?
    {
      NoMatchAwayFromAnchor(col, p, o, k, s, a, j);
    }
  }

  /** Behind the one live position, an anchored pattern matches nowhere. */
  lemma DeadBehind(col: string, p: Pattern, o: nat, k: Probe, s: string, a: int, m: nat)
    requires Anchored(col, p, o, k) && OnlyLiveAt(col, s, a)
    requires a < m + o && m <= |s|
    ensures NoMatch(p, s[m..])
  {
    forall j | 0 <= j < |s[m..]|
      ensures MatchPrefix(p, s[m..][j..]).None?
    {
      AfterAnchorDead(col, p, o, k, s, a, m, j);
    }
  }

  /** Past the one live position, an anchored pattern matches nowhere. */
  lemma AfterAnchorDead(col: string, p: Pattern, o: nat, k: Probe, s: string, a: int, m: nat, j: nat)
    requires Anchored(col, p, o, k) && OnlyLiveAt(col, s, a)
    requires a < m + o && m + j < |s|
    ensures MatchPrefix(p, s[m..][j..]).None?
  {
    assert s[m..][j..] == s[m + j..];
    NoMatchAwayFromAnchor(col, p, o, k, s, a, m + j);
  }

  /** No rewrite matches anywhere in, or changes, a column-free text. */
  lemma SubGeomFree(col: string, p: Pattern, o: nat, k: Probe, r: string, s: string)
    requires Anchored(col, p, o, k) && 0 < MinLength(p) && GeomFree(col, s)
    ensures NoMatch(p, s) && Sub(p, r, s) == s
  {
    SubAtAnchorMiss(col, p, o, k, r, s, -1);
  }
}
