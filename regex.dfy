/**
 * The fragment of Python's `re` that the filter rewrites use: patterns made of
 * literal text, one-or-more runs of a character class (`[0-9A-F]+`,
 * `[0-9]+`) and a two-way alternation (`(geometry|geography)`), and
 * `re.sub`, the leftmost, non-overlapping, left-to-right replacement.
 */
module Regex {
  import opened Wrappers

  /** The two character classes the rewrites use. */
  datatype CharClass = HexDigit | DecimalDigit

  predicate InClass(c: CharClass, ch: char) {
    match c
    case HexDigit => '0' <= ch <= '9' || 'A' <= ch <= 'F'
    case DecimalDigit => '0' <= ch <= '9'
  }

  /** One element of a pattern: `text`, `[class]+`, or `(left|right)`. */
  datatype Piece = Lit(text: string) | Run(cls: CharClass) | Alt(left: string, right: string)

  type Pattern = seq<Piece>

  /** The words one piece stands for. */
  ghost predicate PieceAccepts(q: Piece, w: string) {
    match q
    case Lit(t) => w == t
    case Run(c) => 0 < |w| && forall i :: 0 <= i < |w| ==> InClass(c, w[i])
    case Alt(x, y) => w == x || w == y
  }

  /** The language of a pattern: the words that split into one word per piece. */
  ghost predicate InLang(p: Pattern, w: string)
    decreases |p|
  {
    if p == [] then w == []
    else exists n :: 0 <= n <= |w| && PieceAccepts(p[0], w[..n]) && InLang(p[1..], w[n..])
  }

  /**
   * A pattern in which backtracking can never change the outcome: every run
   * is followed by literal text that starts outside its class, and neither
   * branch of an alternation is a prefix of the other.
   */
  predicate Unambiguous(p: Pattern) {
    (forall i :: 0 <= i < |p| && p[i].Run? ==>
       i + 1 < |p| && p[i + 1].Lit? && 0 < |p[i + 1].text| && !InClass(p[i].cls, p[i + 1].text[0])) &&
    (forall i :: 0 <= i < |p| && p[i].Alt? ==> !(p[i].left <= p[i].right) && !(p[i].right <= p[i].left))
  }

  /** The length of the longest prefix of `s` in class `c` (a greedy run). */
  function RunLength(c: CharClass, s: string): (n: nat)
    ensures n <= |s|
  {
    if s == [] || !InClass(c, s[0]) then 0 else 1 + RunLength(c, s[1..])
  }

  /** The greedy run is in the class and stops at the first character outside it. */
  lemma {:induction false} RunLengthSpec(c: CharClass, s: string)
    ensures forall i :: 0 <= i < RunLength(c, s) ==> InClass(c, s[i])
    ensures RunLength(c, s) < |s| ==> !InClass(c, s[RunLength(c, s)])
  {
    if s != [] && InClass(c, s[0]) {
      RunLengthSpec(c, s[1..]);
      forall i | 1 <= i < RunLength(c, s)
        ensures InClass(c, s[i])
      {
        assert s[i] == s[1..][i - 1];
      }
    }
  }

  /** The shortest word a pattern can match. */
  function MinLength(p: Pattern): nat {
    if p == [] then 0
    else
      (match p[0]
       case Lit(t) => |t|
       case Run(_) => 1
       case Alt(x, y) => if |x| <= |y| then |x| else |y|)
      + MinLength(p[1..])
  }

  /** How much of the front of `s` one piece consumes, trying `left` before `right`. */
  function PieceMatch(q: Piece, s: string): (r: Option<nat>)
    ensures r.Some? ==> r.value <= |s|
  {
    match q
    case Lit(t) => if t <= s then Some(|t|) else None
    case Run(c) => var n := RunLength(c, s); if n == 0 then None else Some(n)
    case Alt(x, y) => if x <= s then Some(|x|) else if y <= s then Some(|y|) else None
  }

  /** What one piece consumes is a word of that piece. */
  lemma PieceMatchSound(q: Piece, s: string)
    requires PieceMatch(q, s).Some?
    ensures PieceAccepts(q, s[..PieceMatch(q, s).value])
  {
    if q.Run? {
      RunLengthSpec(q.cls, s);
    }
  }

  /**
   * The length of the match of `p` at the start of `s` (what `re.match`
   * would find), matching piece by piece without backtracking.
   */
  function MatchPrefix(p: Pattern, s: string): (r: Option<nat>)
    ensures r.Some? ==> r.value <= |s|
    decreases |p|, 1
  {
    if p == [] then Some(0) else MatchRest(p, s, PieceMatch(p[0], s))
  }

  /** The rest of `p` goes on where its first piece, consuming `r`, stopped. */
  function MatchRest(p: Pattern, s: string, r: Option<nat>): (m: Option<nat>)
    requires 0 < |p| && (r.Some? ==> r.value <= |s|)
    ensures m.Some? ==> m.value <= |s|
    decreases |p|, 0
  {
    match r
    case None => None
    case Some(n) => Shift(n, MatchPrefix(p[1..], s[n..]))
  }

  /** A match is at least as long as the shortest word of the pattern. */
  lemma {:induction false} MatchPrefixMinLength(p: Pattern, s: string)
    requires MatchPrefix(p, s).Some?
    ensures MinLength(p) <= MatchPrefix(p, s).value
    decreases |p|
  {
    if p != [] {
      var n := PieceMatch(p[0], s).value;
      MatchPrefixMinLength(p[1..], s[n..]);
    }
  }

  /** Whatever `MatchPrefix` finds belongs to the pattern's language. */
  lemma {:induction false} MatchPrefixSound(p: Pattern, s: string)
    requires MatchPrefix(p, s).Some?
    ensures InLang(p, s[..MatchPrefix(p, s).value])
    decreases |p|
  {
    if p != [] {
      var n := PieceMatch(p[0], s).value;
      var m := MatchPrefix(p[1..], s[n..]).value;
      PieceMatchSound(p[0], s);
      MatchPrefixSound(p[1..], s[n..]);
      var w := s[..n + m];
      assert w[..n] == s[..n];
      assert w[n..] == s[n..][..m];
    }
  }

  /** A word of a pattern that begins with literal text begins with that text. */
  lemma InLangStartsWithLit(p: Pattern, w: string)
    requires 0 < |p| && p[0].Lit? && InLang(p, w)
    ensures p[0].text <= w
  {
    var n :| 0 <= n <= |w| && PieceAccepts(p[0], w[..n]) && InLang(p[1..], w[n..]);
    assert w[..n] == p[0].text;
  }

  /** Two prefixes of one string are prefixes of each other. */
  lemma PrefixesComparable(s: string, x: string, y: string)
    requires x <= s && y <= s
    ensures x <= y || y <= x
  {
    if |x| <= |y| {
      assert x == y[..|x|];
    } else {
      assert y == x[..|y|];
    }
  }

  /** Dropping the first piece of an unambiguous pattern leaves it unambiguous. */
  lemma UnambiguousTail(p: Pattern)
    requires 0 < |p| && Unambiguous(p)
    ensures Unambiguous(p[1..])
  {
    forall i | 0 <= i < |p| - 1 && p[1..][i].Run?
      ensures i + 1 < |p[1..]|
    {
      assert p[i + 1].Run?;
    }
  }

  /**
   * In an unambiguous pattern, the first piece consumes exactly the part
   * `s[..k]` of any split of a word `s[..n]` of the language.
   */
  lemma FirstPieceDetermined(p: Pattern, s: string, k: nat, n: nat)
    requires 0 < |p| && Unambiguous(p)
    requires k <= n <= |s| && PieceAccepts(p[0], s[..k]) && InLang(p[1..], s[k..n])
    ensures PieceMatch(p[0], s) == Some(k)
  {
    match p[0] {
      case Lit(t) =>
      case Alt(x, y) =>
        if s[..k] == y && x <= s {
          PrefixesComparable(s, x, y);
        }
      case Run(c) =>
        InLangStartsWithLit(p[1..], s[k..n]);
        assert s[k] == p[1].text[0];
        RunLengthExact(c, s, k);
    }
  }

  /**
   * For an unambiguous pattern, every prefix of `s` in the pattern's language
   * is the one `MatchPrefix` finds. So there is at most one such prefix, and
   * piecewise matching agrees with Python's backtracking matcher.
   */
  lemma {:induction false} MatchPrefixComplete(p: Pattern, s: string, n: nat)
    requires Unambiguous(p)
    requires n <= |s| && InLang(p, s[..n])
    ensures MatchPrefix(p, s) == Some(n)
    decreases |p|
  {
    if p != [] {
      var k := InLangSplit(p, s, n);
      FirstPieceDetermined(p, s, k, n);
      UnambiguousTail(p);
      MatchPrefixComplete(p[1..], s[k..], n - k);
      MatchPrefixStep(p, s, k);
    } else {
      assert s[..n] == [];
    }
  }

  /** A word of a non-empty pattern splits into a word of its first piece and a word of the rest. */
  lemma InLangSplit(p: Pattern, s: string, n: nat) returns (k: nat)
    requires 0 < |p| && n <= |s| && InLang(p, s[..n])
    ensures k <= n && PieceAccepts(p[0], s[..k])
    ensures InLang(p[1..], s[k..n]) && InLang(p[1..], s[k..][..n - k])
  {
    var w := s[..n];
    k :| 0 <= k <= |w| && PieceAccepts(p[0], w[..k]) && InLang(p[1..], w[k..]);
    assert w[..k] == s[..k];
    assert w[k..] == s[k..n] == s[k..][..n - k];
  }

  /**
   * For an unambiguous pattern, a match at the start of `t` is also the match
   * at the start of any text `t` begins: more text behind it changes nothing.
   */
  lemma MatchPrefixExtends(p: Pattern, t: string, u: string)
    requires Unambiguous(p) && t <= u && MatchPrefix(p, t).Some?
    ensures MatchPrefix(p, u) == MatchPrefix(p, t)
  {
    var n := MatchPrefix(p, t).value;
    MatchPrefixSound(p, t);
    assert t[..n] == u[..n];
    MatchPrefixComplete(p, u, n);
  }

  /** An unambiguous pattern that matches nowhere in `s` matches nowhere in a stretch of it. */
  lemma NoMatchSlice(p: Pattern, s: string, i: nat, j: nat)
    requires Unambiguous(p) && NoMatch(p, s) && i <= j <= |s|
    ensures NoMatch(p, s[i..j])
  {
    forall k | 0 <= k < |s[i..j]|
      ensures MatchPrefix(p, s[i..j][k..]).None?
    {
      if MatchPrefix(p, s[i..j][k..]).Some? {
        assert s[i..j][k..] <= s[i + k..];
        MatchPrefixExtends(p, s[i..j][k..], s[i + k..]);
      }
    }
  }

  /** Once the first piece has consumed `k` characters, the rest of the pattern goes on after them. */
  lemma MatchPrefixStep(p: Pattern, s: string, k: nat)
    requires 0 < |p| && PieceMatch(p[0], s) == Some(k)
    ensures MatchPrefix(p, s) == Shift(k, MatchPrefix(p[1..], s[k..]))
  {
  }

  /** `MatchPrefix(p, s[k..])` finds nothing at any position of `s`. */
  ghost predicate NoMatch(p: Pattern, s: string) {
    forall k {:trigger MatchPrefix(p, s[k..])} :: 0 <= k < |s| ==> MatchPrefix(p, s[k..]).None?
  }

  /**
   * `re.sub(p, repl, s)`: scan `s` from the left; where `p` matches, emit
   * `repl` and continue after the match, otherwise copy one character.
   */
  function Sub(p: Pattern, repl: string, s: string): (r: string)
    requires 0 < MinLength(p)
    ensures |repl| <= MinLength(p) ==> |r| <= |s|
    decreases |s|
  {
    if s == [] then []
    else
      match MatchPrefix(p, s)
      case Some(n) => MatchPrefixMinLength(p, s); repl + Sub(p, repl, s[n..])
      case None => [s[0]] + Sub(p, repl, s[1..])
  }

  /** A match of a pattern that cannot match the empty text consumes something. */
  lemma MatchLength(p: Pattern, s: string, n: nat)
    requires 0 < MinLength(p) && MatchPrefix(p, s) == Some(n)
    ensures 0 < n <= |s|
  {
    MatchPrefixMinLength(p, s);
  }

  /** Where the pattern does not match at the start, the scan copies one character. */
  lemma SubStep(p: Pattern, repl: string, s: string)
    requires 0 < MinLength(p) && s != [] && MatchPrefix(p, s).None?
    ensures Sub(p, repl, s) == [s[0]] + Sub(p, repl, s[1..])
  {
  }

  /**
   * When the only match in `s` starts at `i` and covers `n` characters,
   * `re.sub` replaces exactly that stretch.
   */
  lemma SubOnce(p: Pattern, repl: string, s: string, i: nat, n: nat)
    requires 0 < MinLength(p) && i < |s|
    requires forall j {:trigger MatchPrefix(p, s[j..])} :: 0 <= j < i ==> MatchPrefix(p, s[j..]).None?
    requires MatchPrefix(p, s[i..]) == Some(n) && i + n <= |s| && NoMatch(p, s[i + n..])
    ensures Sub(p, repl, s) == s[..i] + repl + s[i + n..]
  {
    SubFrom(p, repl, s, i);
    SubUnchanged(p, repl, s[i + n..]);
    assert s[i..][n..] == s[i + n..];
  }

  /** When the first match in `s` starts at `i` and runs to the end, deleting it leaves `s[..i]`. */
  lemma SubToEnd(p: Pattern, s: string, i: nat)
    requires 0 < MinLength(p) && i < |s|
    requires forall j {:trigger MatchPrefix(p, s[j..])} :: 0 <= j < i ==> MatchPrefix(p, s[j..]).None?
    requires MatchPrefix(p, s[i..]) == Some(|s| - i)
    ensures Sub(p, "", s) == s[..i]
  {
    SubFrom(p, "", s, i);
    assert s[i..][|s| - i..] == [];
    assert Sub(p, "", s[i..]) == [];
    assert s[..i] + [] == s[..i];
  }

  /** A text in which the pattern matches nowhere comes back unchanged. */
  lemma SubUnchanged(p: Pattern, repl: string, s: string)
    requires 0 < MinLength(p) && NoMatch(p, s)
    ensures Sub(p, repl, s) == s
  {
    SubFrom(p, repl, s, |s|);
    assert s[..|s|] == s && s[|s|..] == [];
  }

  /** When nothing matches before position `i`, the scan copies `s[..i]` and resumes there. */
  lemma {:induction false} SubFrom(p: Pattern, repl: string, s: string, i: nat)
    requires 0 < MinLength(p) && i <= |s|
    requires forall j {:trigger MatchPrefix(p, s[j..])} :: 0 <= j < i ==> MatchPrefix(p, s[j..]).None?
    ensures Sub(p, repl, s) == s[..i] + Sub(p, repl, s[i..])
  {
    if i == 0 {
      assert s[0..] == s && s[..0] == [];
    } else {
      SubFrom(p, repl, s, i - 1);
      SubStepAt(p, repl, s, i - 1);
      assert s[..i - 1] + [s[i - 1]] == s[..i];
      AppendAssoc(s[..i - 1], [s[i - 1]], Sub(p, repl, s[i..]));
    }
  }

  /** `SubStep` at position `i` of `s`. */
  lemma SubStepAt(p: Pattern, repl: string, s: string, i: nat)
    requires 0 < MinLength(p) && i < |s| && MatchPrefix(p, s[i..]).None?
    ensures Sub(p, repl, s[i..]) == [s[i]] + Sub(p, repl, s[i + 1..])
  {
    SubStep(p, repl, s[i..]);
    assert s[i..][0] == s[i] && s[i..][1..] == s[i + 1..];
  }

  lemma AppendAssoc(a: string, b: string, c: string)
    ensures a + (b + c) == (a + b) + c
  {
  }

  /** The matcher never backtracks: a pattern `p1 + p2` matches as `p1` does, then `p2` after it. */
  lemma {:induction false} MatchAppend(p1: Pattern, p2: Pattern, s: string, n: nat)
    requires MatchPrefix(p1, s) == Some(n)
    ensures n <= |s| && MatchPrefix(p1 + p2, s) == Shift(n, MatchPrefix(p2, s[n..]))
    decreases |p1|
  {
    if p1 == [] {
      assert p1 + p2 == p2 && s[0..] == s;
    } else {
      var k := PieceMatch(p1[0], s).value;
      var m := MatchPrefix(p1[1..], s[k..]).value;
      MatchAppend(p1[1..], p2, s[k..], m);
      MatchAppendCons(p1, p2, s, k, m);
    }
  }

  /** One step of `MatchAppend`: the first piece of `p1` consumes `k` characters and the rest of `p1` then `m`. */
  lemma MatchAppendCons(p1: Pattern, p2: Pattern, s: string, k: nat, m: nat)
    requires 0 < |p1| && PieceMatch(p1[0], s) == Some(k) && k + m <= |s|
    requires MatchPrefix(p1[1..] + p2, s[k..]) == Shift(m, MatchPrefix(p2, s[k..][m..]))
    ensures MatchPrefix(p1 + p2, s) == Shift(k + m, MatchPrefix(p2, s[k + m..]))
  {
    AppendHeadTail(p1, p2);
    MatchPrefixStep(p1 + p2, s, k);
    assert s[k..][m..] == s[k + m..];
    ShiftShift(k, m, MatchPrefix(p2, s[k + m..]));
  }

  /**
   * The first piece and the rest of `p1 + p2`. Kept as a lemma of its own:
   * stated inline, next to `MatchPrefix` facts, the solver cannot use it cheaply.
   */
  lemma AppendHeadTail(p1: Pattern, p2: Pattern)
    requires 0 < |p1|
    ensures (p1 + p2)[0] == p1[0] && (p1 + p2)[1..] == p1[1..] + p2
  {
  }

  /** Two shifts in a row are one shift by the sum. */
  lemma ShiftShift(k: nat, m: nat, r: Option<nat>)
    ensures Shift(k, Shift(m, r)) == Shift(k + m, r)
  {
  }

  /** Adds the length of a consumed piece to the rest of a match. */
  function Shift(k: nat, r: Option<nat>): Option<nat> {
    match r
    case None => None
    case Some(m) => Some(k + m)
  }

  /** A run of `k` characters of the class that is not followed by another is the greedy run. */
  lemma {:induction false} RunLengthExact(c: CharClass, w: string, k: nat)
    requires k <= |w| && forall i :: 0 <= i < k ==> InClass(c, w[i])
    requires k == |w| || !InClass(c, w[k])
    ensures RunLength(c, w) == k
  {
    if k > 0 {
      forall i | 0 <= i < k - 1
        ensures InClass(c, w[1..][i])
      {
        assert w[1..][i] == w[i + 1];
      }
      RunLengthExact(c, w[1..], k - 1);
    }
  }

  /** Matching literal text consumes exactly that text. */
  lemma {:induction false} MatchLitStep(p: Pattern, t: string, s: string)
    requires 0 < |p| && p[0] == Lit(t)
    ensures MatchPrefix(p, t + s) == Shift(|t|, MatchPrefix(p[1..], s))
  {
    assert (t + s)[..|t|] == t;
    assert PieceMatch(p[0], t + s) == Some(|t|);
    assert (t + s)[|t|..] == s;
  }

  /** A run followed by a character outside its class consumes exactly the run. */
  lemma {:induction false} MatchRunStep(p: Pattern, c: CharClass, h: string, s: string)
    requires 0 < |p| && p[0] == Run(c)
    requires 0 < |h| && forall i :: 0 <= i < |h| ==> InClass(c, h[i])
    requires s == [] || !InClass(c, s[0])
    ensures MatchPrefix(p, h + s) == Shift(|h|, MatchPrefix(p[1..], s))
  {
    var w := h + s;
    forall i | 0 <= i < |h|
      ensures InClass(c, w[i])
    {
      assert w[i] == h[i];
    }
    if s != [] {
      assert w[|h|] == s[0];
    }
    RunLengthExact(c, w, |h|);
    assert PieceMatch(p[0], w) == Some(|h|);
    assert w[|h|..] == s;
  }

  /** An alternation consumes whichever branch the text starts with. */
  lemma {:induction false} MatchAltStep(p: Pattern, x: string, y: string, w: string, s: string)
    requires 0 < |p| && p[0] == Alt(x, y) && !(x <= y) && !(y <= x)
    requires w == x || w == y
    ensures MatchPrefix(p, w + s) == Shift(|w|, MatchPrefix(p[1..], s))
  {
    assert (w + s)[..|w|] == w;
    assert (w + s)[|w|..] == s;
    if w == x {
      assert x <= w + s;
    } else {
      if x <= w + s {
        PrefixesComparable(w + s, x, y);
      }
      assert !(x <= w + s) && y <= w + s;
    }
    assert PieceMatch(p[0], w + s) == Some(|w|);
  }
}
