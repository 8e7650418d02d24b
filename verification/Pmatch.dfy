/** runit's pattern matcher, and the choice that svlogd makes with it for every line. */
module Pmatch {

  type Text = seq<int>

  const STAR := '*' as int
  const PLUS := '+' as int

  // ----- what patterns mean -----

  /** How often text s begins with character c. */
  function Run(s: Text, c: int): (k: nat)
    ensures k <= |s| && (forall i | 0 <= i < k :: s[i] == c) && (k < |s| ==> s[k] != c)
  {
    if s == [] || s[0] != c then 0 else 1 + Run(s[1..], c)
  }

  /** The character that the matcher finds at the beginning of what is left of a text;
      at its end, that is whatever byte comes next in memory. */
  function Peek(s: Text, beyond: int): int {
    if s == [] then beyond else s[0]
  }

  /** The character that a plus at the beginning of a pattern looks for: the next one, or
      the zero byte behind the pattern. */
  function Repeated(p: Text): int
    requires p != []
  {
    if |p| > 1 then p[1] else 0
  }

  /** What the matcher accepts without leaving the pattern.  A star skips everything up to
      the first occurrence of the pattern character that comes next; a plus skips all
      occurrences of the character that comes next, and if that is the end of the text, the
      rest of the pattern does not matter. */
  ghost predicate Accepts(p: Text, s: Text, beyond: int)
    decreases |p|
  {
    if p == [] then s == []
    else if p[0] == STAR then
      |p| == 1 || exists k :: 0 <= k < |s| && p[1] !in s[..k] && s[k] == p[1] && Accepts(p[1..], s[k..], beyond)
    else if p[0] == PLUS then
      var c := Repeated(p);
      Peek(s, beyond) == c && (Run(s, c) == |s| || (|p| > 1 && Accepts(p[2..], s[Run(s, c)..], beyond)))
    else s != [] && s[0] == p[0] && Accepts(p[1..], s[1..], beyond)
  }

  /** The usual meaning of a star: any text. */
  ghost predicate Glob(p: Text, s: Text)
    decreases |p|
  {
    if p == [] then s == []
    else if p[0] == STAR then exists k :: 0 <= k <= |s| && Glob(p[1..], s[k..])
    else s != [] && s[0] == p[0] && Glob(p[1..], s[1..])
  }

  /** The pattern with its stars filled in. */
  function Expand(p: Text, runs: seq<Text>): Text
    decreases |p|
  {
    if p == [] then []
    else if p[0] != STAR then [p[0]] + Expand(p[1..], runs)
    else if runs == [] then Expand(p[1..], runs)
    else runs[0] + Expand(p[1..], runs[1..])
  }

  function Stars(p: Text): nat {
    if p == [] then 0 else (if p[0] == STAR then 1 else 0) + Stars(p[1..])
  }

  /** Each run avoids the pattern character that follows its star. */
  predicate Avoid(p: Text, runs: seq<Text>)
    decreases |p|
  {
    if p == [] || runs == [] then true
    else if p[0] != STAR then Avoid(p[1..], runs)
    else (|p| > 1 ==> p[1] !in runs[0]) && Avoid(p[1..], runs[1..])
  }

  /** No star is followed by another one. */
  predicate Tidy(p: Text) {
    forall k | 0 <= k < |p| - 1 && p[k] == STAR :: p[k + 1] != STAR
  }

  /** How the stars of the pattern can be filled in to give the text. */
  ghost predicate Filled(p: Text, s: Text, runs: seq<Text>) {
    |runs| == Stars(p) && Expand(p, runs) == s
  }

  /** A text is accepted only if it matches in the usual sense. */
  lemma {:induction false} AcceptedIsGlob(p: Text, s: Text, beyond: int)
    requires PLUS !in p && Accepts(p, s, beyond)
    ensures Glob(p, s)
    decreases |p|
  {
    if p != [] {
      NoPlus(p);
      if p[0] != STAR {
        AcceptedIsGlob(p[1..], s[1..], beyond);
      } else if |p| == 1 {
        assert Glob(p[1..], s[|s|..]);
      } else {
        var k :| 0 <= k < |s| && p[1] !in s[..k] && s[k] == p[1] && Accepts(p[1..], s[k..], beyond);
        AcceptedIsGlob(p[1..], s[k..], beyond);
      }
    }
  }

  lemma NoPlus(p: Text)
    requires PLUS !in p && p != []
    ensures p[0] != PLUS && PLUS !in p[1..]
  {
    assert p[0] in p;
  }

  lemma TidyTail(p: Text)
    requires Tidy(p) && p != []
    ensures Tidy(p[1..]) && (p[0] == STAR && |p| > 1 ==> p[1] != STAR)
  {
    var q := p[1..];
    forall k | 0 <= k < |q| - 1 && q[k] == STAR ensures q[k + 1] != STAR {
      assert p[k + 1] == q[k] && p[k + 2] == q[k + 1];
    }
  }

  /** If every star is the last character or is followed by an ordinary one, a text is
      accepted exactly if the stars can be filled with runs that avoid the pattern
      character that follows. */
  lemma {:induction false} AcceptedMeans(p: Text, s: Text, beyond: int)
    requires PLUS !in p && Tidy(p)
    ensures Accepts(p, s, beyond) <==> exists runs :: Filled(p, s, runs) && Avoid(p, runs)
    decreases |p|
  {
    if p == [] {
      if s == [] {
        assert Filled(p, s, []) && Avoid(p, []);
      }
    } else {
      NoPlus(p);
      TidyTail(p);
      if p[0] != STAR {
        OrdinaryFirst(p, s, beyond);
      } else if |p| == 1 {
        assert Expand(p, [s]) == s + Expand(p[1..], []);
        assert Filled(p, s, [s]) && Avoid(p, [s]);
      } else {
        if Accepts(p, s, beyond) {
          StarRun(p, s, beyond);
        }
        if exists runs :: Filled(p, s, runs) && Avoid(p, runs) {
          var runs :| Filled(p, s, runs) && Avoid(p, runs);
          StarFirst(p, s, runs, beyond);
        }
      }
    }
  }

  lemma StarRun(p: Text, s: Text, beyond: int)
    requires |p| > 1 && p[0] == STAR && PLUS !in p[1..] && Tidy(p[1..]) && Accepts(p, s, beyond)
    ensures exists runs :: Filled(p, s, runs) && Avoid(p, runs)
    decreases |p|, 0
  {
    hide Filled, Avoid, Tidy;
    var k := StarEnds(p, s, beyond);
    hide Accepts;
    AcceptedMeans(p[1..], s[k..], beyond);
    var runs :| Filled(p[1..], s[k..], runs) && Avoid(p[1..], runs);
    FillStar(p, s, k, runs);
  }

  lemma StarEnds(p: Text, s: Text, beyond: int) returns (k: nat)
    requires |p| > 1 && p[0] == STAR && Accepts(p, s, beyond)
    ensures k < |s| && p[1] !in s[..k] && s[k] == p[1] && Accepts(p[1..], s[k..], beyond)
  {
    k :| 0 <= k < |s| && p[1] !in s[..k] && s[k] == p[1] && Accepts(p[1..], s[k..], beyond);
  }

  lemma FillStar(p: Text, s: Text, k: nat, runs: seq<Text>)
    requires |p| > 1 && p[0] == STAR && k <= |s| && p[1] !in s[..k] && Filled(p[1..], s[k..], runs) &&
            Avoid(p[1..], runs)
    ensures Filled(p, s, [s[..k]] + runs) && Avoid(p, [s[..k]] + runs)
  {
    assert ([s[..k]] + runs)[1..] == runs;
    assert s == s[..k] + s[k..];
  }

  lemma OrdinaryFirst(p: Text, s: Text, beyond: int)
    requires p != [] && p[0] != STAR && p[0] != PLUS && PLUS !in p[1..] && Tidy(p[1..])
    ensures Accepts(p, s, beyond) <==> exists runs :: Filled(p, s, runs) && Avoid(p, runs)
    decreases |p|, 0
  {
    if s != [] {
      AcceptedMeans(p[1..], s[1..], beyond);
    }
    if Accepts(p, s, beyond) {
      var runs :| Filled(p[1..], s[1..], runs) && Avoid(p[1..], runs);
      assert Expand(p, runs) == s;
      assert Filled(p, s, runs) && Avoid(p, runs);
    }
    if exists runs :: Filled(p, s, runs) && Avoid(p, runs) {
      var runs :| Filled(p, s, runs) && Avoid(p, runs);
      assert s == [p[0]] + Expand(p[1..], runs);
      assert Filled(p[1..], s[1..], runs) && Avoid(p[1..], runs);
    }
  }

  lemma StarFirst(p: Text, s: Text, runs: seq<Text>, beyond: int)
    requires |p| > 1 && p[0] == STAR && p[1] != STAR && PLUS !in p[1..] && Tidy(p[1..])
    requires Filled(p, s, runs) && Avoid(p, runs)
    ensures Accepts(p, s, beyond)
    decreases |p|, 0
  {
    var k := |runs[0]|;
    assert s == runs[0] + Expand(p[1..], runs[1..]);
    assert s[..k] == runs[0] && s[k..] == Expand(p[1..], runs[1..]);
    assert Filled(p[1..], s[k..], runs[1..]) && Avoid(p[1..], runs[1..]);
    AcceptedMeans(p[1..], s[k..], beyond);
    assert s[k..] == [p[1]] + Expand(p[1..][1..], runs[1..]);
    assert s[k] == s[k..][0] == p[1];
  }

  /** Two stars in a row do not mean what one does: the text must hold a star. */
  lemma DoubleStar(s: Text, beyond: int)
    ensures Accepts([STAR, STAR], s, beyond) <==> STAR in s
    ensures Glob([STAR, STAR], s)
  {
    var p := [STAR, STAR];
    assert p[1..] == [STAR];
    assert Glob([STAR], s[0..]) by {
      assert Glob([STAR][1..], s[0..][|s|..]);
    }
    if STAR in s {
      var k := FirstOf(s, STAR);
      assert Accepts(p[1..], s[k..], beyond);
    }
  }

  lemma {:induction false} FirstOf(s: Text, c: int) returns (k: nat)
    requires c in s
    ensures k < |s| && s[k] == c && c !in s[..k]
  {
    if s[0] == c {
      k := 0;
    } else {
      k := FirstOf(s[1..], c);
      assert s[..k + 1] == [s[0]] + s[1..][..k];
      k := k + 1;
    }
  }

  // ----- what a plus means -----

  predicate AllAre(s: Text, c: int) {
    forall i | 0 <= i < |s| :: s[i] == c
  }

  /** The documented meaning: a plus stands for one or more of the next character, a star
      for any text without the next character, or at the end for any text. */
  ghost predicate Means(p: Text, s: Text)
    decreases |p|
  {
    if p == [] then s == []
    else if p[0] == STAR then |p| == 1 || exists k :: 0 <= k <= |s| && p[1] !in s[..k] && Means(p[1..], s[k..])
    else if p[0] == PLUS then |p| > 1 && exists k :: 1 <= k <= |s| && AllAre(s[..k], p[1]) && Means(p[2..], s[k..])
    else s != [] && s[0] == p[0] && Means(p[1..], s[1..])
  }

  predicate Ordinary(c: int) {
    c != STAR && c != PLUS
  }

  /** What follows "+c" cannot begin with c. */
  predicate Clear(rest: Text, c: int) {
    rest == [] || (if Ordinary(rest[0]) then rest[0] != c else |rest| == 1 || rest[1] != c)
  }

  /** Every star is last or is followed by an ordinary character, and what a plus repeats
      does not come again at once. */
  predicate Definite(p: Text)
    decreases |p|
  {
    if p == [] then true
    else if p[0] == STAR then |p| == 1 || (Ordinary(p[1]) && Definite(p[1..]))
    else if p[0] == PLUS then |p| > 1 && Clear(p[2..], p[1]) && Definite(p[2..])
    else Definite(p[1..])
  }

  /** Where the matcher can stop reading the pattern: at its end, behind the character of
      any plus, and before a plus whose character lies behind the text in memory. */
  predicate Cut(p: Text, i: nat, beyond: int)
    decreases |p|
  {
    if p == [] then i == 0
    else if p[0] == PLUS && |p| > 1 then (i == 0 && p[1] == beyond) || i == 2 || (i > 2 && Cut(p[2..], i - 2, beyond))
    else i > 0 && Cut(p[1..], i - 1, beyond)
  }

  ghost predicate CutMeans(p: Text, s: Text, beyond: int) {
    exists i :: 0 <= i <= |p| && Cut(p, i, beyond) && Means(p[..i], s)
  }

  /** A text is accepted exactly if the pattern means it, or would mean it if it were cut
      off behind one of its pluses, or before one that happens to look for the byte behind
      the text. */
  lemma {:induction false} PlusMeans(p: Text, s: Text, beyond: int)
    requires Definite(p)
    ensures Accepts(p, s, beyond) <==> CutMeans(p, s, beyond)
    decreases |p|
  {
    if p == [] {
      assert Cut(p, 0, beyond) && p[..0] == [];
    } else if p[0] == STAR {
      if |p| == 1 {
        assert Cut(p[1..], 0, beyond) && Cut(p, 1, beyond) && p[..1] == p;
      } else {
        if Accepts(p, s, beyond) {
          StarAccepted(p, s, beyond);
        }
        if CutMeans(p, s, beyond) {
          StarMeant(p, s, beyond);
        }
      }
    } else if p[0] == PLUS {
      if Accepts(p, s, beyond) {
        PlusAccepted(p, s, beyond);
      }
      if CutMeans(p, s, beyond) {
        PlusMeant(p, s, beyond);
      }
    } else {
      OrdinaryCut(p, s, beyond);
    }
  }

  /** The step for one more character of the pattern. */
  lemma CutStep(p: Text, i: nat, beyond: int)
    requires p != [] && p[0] != PLUS && 0 < i <= |p|
    ensures Cut(p, i, beyond) <==> Cut(p[1..], i - 1, beyond)
    ensures p[..i][0] == p[0] && p[..i][1..] == p[1..][..i - 1]
  {
  }

  lemma OrdinaryCut(p: Text, s: Text, beyond: int)
    requires p != [] && Ordinary(p[0]) && Definite(p[1..])
    ensures Accepts(p, s, beyond) <==> CutMeans(p, s, beyond)
    decreases |p|, 0
  {
    if s != [] && s[0] == p[0] {
      PlusMeans(p[1..], s[1..], beyond);
      if Accepts(p, s, beyond) {
        var i :| 0 <= i <= |p[1..]| && Cut(p[1..], i, beyond) && Means(p[1..][..i], s[1..]);
        CutStep(p, i + 1, beyond);
        assert Means(p[..i + 1], s);
      }
    }
    if CutMeans(p, s, beyond) {
      var i :| 0 <= i <= |p| && Cut(p, i, beyond) && Means(p[..i], s);
      CutStep(p, i, beyond);
      assert s != [] && s[0] == p[0] && Means(p[1..][..i - 1], s[1..]);
    }
  }

  lemma StarAccepted(p: Text, s: Text, beyond: int)
    requires |p| > 1 && p[0] == STAR && Ordinary(p[1]) && Definite(p[1..]) && Accepts(p, s, beyond)
    ensures CutMeans(p, s, beyond)
    decreases |p|, 0
  {
    var k :| 0 <= k < |s| && p[1] !in s[..k] && s[k] == p[1] && Accepts(p[1..], s[k..], beyond);
    hide Accepts, Definite;
    PlusMeans(p[1..], s[k..], beyond);
    var i :| 0 <= i <= |p[1..]| && Cut(p[1..], i, beyond) && Means(p[1..][..i], s[k..]);
    CutStep(p, i + 1, beyond);
    hide Cut;
    assert p[..i + 1][1..] == p[1..][..i];
    assert i > 0 ==> p[..i + 1][1] == p[1];
    assert Means(p[..i + 1], s);
  }

  lemma StarMeant(p: Text, s: Text, beyond: int)
    requires |p| > 1 && p[0] == STAR && Ordinary(p[1]) && Definite(p[1..]) && CutMeans(p, s, beyond)
    ensures Accepts(p, s, beyond)
    decreases |p|, 0
  {
    var i :| 0 <= i <= |p| && Cut(p, i, beyond) && Means(p[..i], s);
    CutStep(p, i, beyond);
    assert i > 1 && p[..i][1] == p[1];
    var k :| 0 <= k <= |s| && p[1] !in s[..k] && Means(p[..i][1..], s[k..]);
    assert p[..i][1..][0] == p[1];
    assert s[k..] != [] && s[k] == p[1];
    hide Means, Cut, Definite;
    PlusMeans(p[1..], s[k..], beyond);
    assert CutMeans(p[1..], s[k..], beyond);
  }

  lemma PlusAccepted(p: Text, s: Text, beyond: int)
    requires |p| > 1 && p[0] == PLUS && Definite(p[2..]) && Accepts(p, s, beyond)
    ensures CutMeans(p, s, beyond)
    decreases |p|, 0
  {
    var k := Run(s, p[1]);
    if s == [] {
      assert Cut(p, 0, beyond) && p[..0] == [];
    } else if k == |s| {
      assert Cut(p, 2, beyond) && p[..2][2..] == [] && AllAre(s[..k], p[1]);
      assert Means([], s[k..]);
      assert Means(p[..2], s);
    } else {
      PlusMeans(p[2..], s[k..], beyond);
      var i :| 0 <= i <= |p[2..]| && Cut(p[2..], i, beyond) && Means(p[2..][..i], s[k..]);
      assert p[2..][..0] == [];
      assert i > 0 && Cut(p, i + 2, beyond);
      assert p[..i + 2][2..] == p[2..][..i] && AllAre(s[..k], p[1]);
      assert Means(p[..i + 2], s);
    }
  }

  lemma PlusMeant(p: Text, s: Text, beyond: int)
    requires |p| > 1 && p[0] == PLUS && Definite(p[2..]) && Clear(p[2..], p[1]) && CutMeans(p, s, beyond)
    ensures Accepts(p, s, beyond)
    decreases |p|, 0
  {
    var c := p[1];
    var i :| 0 <= i <= |p| && Cut(p, i, beyond) && Means(p[..i], s);
    if i > 0 {
      var rest := p[2..][..i - 2];
      assert p[..i][2..] == rest && p[..i][1] == c;
      var k :| 1 <= k <= |s| && AllAre(s[..k], c) && Means(rest, s[k..]);
      RunAtLeast(s, c, k);
      if Run(s, c) < |s| {
        Absorbed(rest, s, c, k);
        PlusMeans(p[2..], s[Run(s, c)..], beyond);
      }
    }
  }

  lemma RunAtLeast(s: Text, c: int, k: nat)
    requires 1 <= k <= |s| && AllAre(s[..k], c)
    ensures Run(s, c) >= k && s[0] == c
  {
    assert forall i | 0 <= i < k :: s[i] == s[..k][i];
  }

  lemma RunHead(s: Text, c: int, n: nat)
    requires 1 <= n <= |s| && AllAre(s[..n], c)
    ensures s[0] == c
  {
    assert s[..n][0] == s[0];
  }

  /** What follows a run leaves the whole run to the plus. */
  lemma {:induction false} Absorbed(rest: Text, s: Text, c: int, k: nat)
    requires rest != [] && k <= Run(s, c) && Means(rest, s[k..])
    requires if Ordinary(rest[0]) then rest[0] != c else |rest| == 1 || rest[1] != c
    requires rest[0] == STAR && |rest| > 1 ==> Ordinary(rest[1])
    ensures Means(rest, s[Run(s, c)..])
    decreases Run(s, c) - k
  {
    if k < Run(s, c) {
      assert s[k..][0] == c;
      if rest[0] == PLUS {
        var n :| 1 <= n <= |s[k..]| && AllAre(s[k..][..n], rest[1]) && Means(rest[2..], s[k..][n..]);
        RunHead(s[k..], rest[1], n);
      } else if rest[0] == STAR && |rest| > 1 {
        var n :| 0 <= n <= |s[k..]| && rest[1] !in s[k..][..n] && Means(rest[1..], s[k..][n..]);
        assert s[k..][n..] != [] && s[k..][n..][0] == rest[1];
        assert n > 0;
        assert s[k + 1..][..n - 1] == s[k..][..n][1..] && s[k + 1..][n - 1..] == s[k..][n..];
        assert Means(rest, s[k + 1..]);
      }
      Absorbed(rest, s, c, k + 1);
    }
  }

  /** "+ab" accepts "aa", which it does not mean; "+aab" does not accept "aab", which it
      means; and "+a" accepts the empty text if an 'a' lies behind it. */
  lemma PlusFails()
    ensures Accepts([PLUS, 97, 98], [97, 97], 0) && !Means([PLUS, 97, 98], [97, 97])
    ensures !Accepts([PLUS, 97, 97, 98], [97, 97, 98], 0) && Means([PLUS, 97, 97, 98], [97, 97, 98])
    ensures Accepts([PLUS, 97], [], 97) && !Means([PLUS, 97], [])
  {
    var p, s := [PLUS, 97, 98], [97, 97];
    assert Run(s[1..], 97) == 1 && Run(s, 97) == 2;
    forall k | 1 <= k <= 2 ensures !Means(p[2..], s[k..]) {
      assert p[2..] == [98];
    }
    var q, t := [PLUS, 97, 97, 98], [97, 97, 98];
    assert t[1..][1..] == [98] && Run([98], 97) == 0 && Run(t[1..], 97) == 1 && Run(t, 97) == 2;
    assert q[2..] == [97, 98] && t[2..] == [98];
    assert q[2..][1..] == [98] && t[1..] == [97, 98] && [98][1..] == [];
    assert Means([98], [98]) && Means(q[2..], t[1..]) && AllAre(t[..1], 97);
  }

  // ----- the matcher -----

  /** The number of characters before the first occurrence of c. */
  function Before(s: Text, c: int): (k: nat)
    ensures k <= |s| && c !in s[..k] && (k < |s| ==> s[k] == c)
  {
    if s == [] || s[0] == c then 0
    else
      var k := Before(s[1..], c);
      assert s[..k + 1] == [s[0]] + s[1..][..k];
      k + 1
  }

  lemma BeforeIs(s: Text, c: int, k: nat)
    requires k <= |s| && c !in s[..k] && (k < |s| ==> s[k] == c)
    ensures Before(s, c) == k
  {
    var b := Before(s, c);
    assert forall i | 0 <= i < k :: s[i] == s[..k][i];
    assert forall i | 0 <= i < b :: s[i] == s[..b][i];
  }

  /** The matcher says yes or no, or it reads memory that is not its own. */
  datatype Verdict = Yes | No | Stray

  /** What the matcher makes of the memory m that a pattern begins in: the pattern ends at
      a zero byte, but a plus takes the byte behind it even if that is the zero. */
  function Scan(m: Text, s: Text, beyond: int): Verdict
    decreases |m|
  {
    if m == [] then Stray
    else if m[0] == 0 then (if s == [] then Yes else No)
    else if m[0] == STAR then
      if |m| == 1 then Stray
      else if m[1] == 0 then Yes
      else if Before(s, m[1]) == |s| then No
      else Scan(m[1..], s[Before(s, m[1])..], beyond)
    else if m[0] == PLUS then
      if |m| == 1 then Stray
      else if Peek(s, beyond) != m[1] then No
      else if Run(s, m[1]) == |s| then Yes
      else Scan(m[2..], s[Run(s, m[1])..], beyond)
    else if s == [] || s[0] != m[0] then No
    else Scan(m[1..], s[1..], beyond)
  }

  datatype Rest = Nothing | Left(text: Text)

  /** What is left of the text when the matcher runs past the end of its pattern. */
  function Beyond(p: Text, s: Text, beyond: int): Rest
    decreases |p|
  {
    if p == [] then Nothing
    else if p[0] == STAR then
      if |p| == 1 || Before(s, p[1]) == |s| then Nothing else Beyond(p[1..], s[Before(s, p[1])..], beyond)
    else if p[0] == PLUS then
      var c := Repeated(p);
      if Peek(s, beyond) != c || Run(s, c) == |s| then Nothing
      else if |p| == 1 then Left(s[Run(s, c)..])
      else Beyond(p[2..], s[Run(s, c)..], beyond)
    else if s == [] || s[0] != p[0] then Nothing
    else Beyond(p[1..], s[1..], beyond)
  }

  /** The matcher accepts what its pattern accepts, unless it runs past the pattern's end;
      then it goes on with whatever comes next. */
  lemma {:induction false} Confined(p: Text, behind: Text, s: Text, beyond: int)
    requires 0 !in p
    ensures match Beyond(p, s, beyond)
            case Nothing => Scan(p + [0] + behind, s, beyond) == if Accepts(p, s, beyond) then Yes else No
            case Left(t) => Scan(p + [0] + behind, s, beyond) == Scan(behind, t, beyond)
    decreases |p|
  {
    var m := p + [0] + behind;
    if p != [] {
      assert p[0] in p;
      assert m[1..] == p[1..] + [0] + behind;
      if p[0] == STAR {
        if |p| > 1 {
          assert p[1] in p;
          var k := Before(s, p[1]);
          SkipTo(p, s, k, beyond);
          if k < |s| {
            Confined(p[1..], behind, s[k..], beyond);
          }
        }
      } else if p[0] == PLUS {
        assert m[1] == Repeated(p);
        var k := Run(s, Repeated(p));
        if |p| == 1 {
          assert m[2..] == behind;
        } else if k < |s| {
          assert m[2..] == p[2..] + [0] + behind;
          Confined(p[2..], behind, s[k..], beyond);
        }
      } else if s != [] && s[0] == p[0] {
        Confined(p[1..], behind, s[1..], beyond);
      }
    }
  }

  /** The pattern ends with a plus that has no character. */
  predicate Dangling(p: Text)
    decreases |p|
  {
    if p == [] then false
    else if p[0] == PLUS then |p| == 1 || Dangling(p[2..])
    else Dangling(p[1..])
  }

  /** A pattern without a dangling plus is never left, and no pattern is on a text without a
      zero byte. */
  lemma {:induction false} StaysInside(p: Text, s: Text, beyond: int)
    requires 0 !in p && (!Dangling(p) || 0 !in s)
    ensures Beyond(p, s, beyond).Nothing?
    decreases |p|
  {
    if p != [] {
      if p[0] == STAR {
        if |p| > 1 {
          StaysInside(p[1..], s[Before(s, p[1])..], beyond);
        }
      } else if p[0] == PLUS {
        if |p| > 1 {
          StaysInside(p[2..], s[Run(s, p[1])..], beyond);
        } else if s != [] {
          assert s[0] in s;
        }
      } else if s != [] {
        StaysInside(p[1..], s[1..], beyond);
      }
    }
  }

  /** The pattern's plus meets a zero byte at j, and the text goes on behind the zeros. */
  ghost predicate LeavesAt(p: Text, s: Text, j: int) {
    && p != [] && 0 <= j < |s| && s[j] == 0 && Run(s[j..], 0) < |s| - j
    && Means(p[..|p| - 1], s[..j])
  }

  /** The dangling plus is all that keeps the pattern from being definite. */
  predicate DefiniteButLast(p: Text)
    decreases |p|
  {
    if p == [] then false
    else if p[0] == STAR then |p| > 1 && Ordinary(p[1]) && DefiniteButLast(p[1..])
    else if p[0] == PLUS then |p| == 1 || (Clear(p[2..], p[1]) && DefiniteButLast(p[2..]))
    else DefiniteButLast(p[1..])
  }

  /** A pattern with a dangling plus is left exactly if what comes before that plus means
      the text up to some zero byte, and the text does not end with the zeros. */
  lemma {:induction false} LeavesIff(p: Text, s: Text, beyond: int)
    requires 0 !in p && DefiniteButLast(p)
    ensures Beyond(p, s, beyond).Left? <==> exists j :: LeavesAt(p, s, j)
    decreases |p|
  {
    assert p[0] in p;
    if p == [PLUS] {
      LastLeaves(s, beyond);
    } else {
      var n := if p[0] == PLUS then 2 else 1;
      var k := Taken(p, s);
      LeavesIff(p[n..], s[k..], beyond);
      if Beyond(p, s, beyond).Left? {
        assert Takes(p, s) && Beyond(p[n..], s[k..], beyond).Left?;
        var j :| LeavesAt(p[n..], s[k..], j);
        LeavesLater(p, s, n, k, j);
      }
      if exists j :: LeavesAt(p, s, j) {
        var j :| LeavesAt(p, s, j);
        LeavesNow(p, s, n, k, j);
        hide LeavesAt;
        assert Takes(p, s) && Beyond(p[n..], s[k..], beyond).Left?;
      }
    }
  }

  /** What the first part of the pattern takes from the text, if it is there. */
  function Taken(p: Text, s: Text): (k: nat)
    requires p != []
    ensures k <= |s|
  {
    if |p| > 1 && p[0] == STAR then Before(s, p[1])
    else if |p| > 1 && p[0] == PLUS then Run(s, p[1])
    else if s == [] then 0 else 1
  }

  /** The first part finds what it looks for, and text remains. */
  predicate Takes(p: Text, s: Text)
    requires p != []
  {
    if |p| > 1 && p[0] == STAR then Before(s, p[1]) < |s|
    else if |p| > 1 && p[0] == PLUS then 0 < Run(s, p[1]) < |s|
    else s != [] && s[0] == p[0]
  }

  lemma FirstPart(p: Text)
    requires DefiniteButLast(p) && p != [PLUS]
    ensures |p| > 1 && DefiniteButLast(p[if p[0] == PLUS then 2 else 1..])
    ensures p[0] == STAR ==> |p| > 2 && Ordinary(p[1])
    ensures p[0] == PLUS ==> |p| > 2 && Clear(p[2..][..|p| - 3], p[1]) && (|p| > 4 && p[2] == STAR ==> Ordinary(p[3]))
  {
  }

  lemma ButLast(p: Text, n: nat)
    requires n < |p|
    ensures p[..|p| - 1][n..] == p[n..][..|p[n..]| - 1]
    ensures forall i | 0 <= i < |p| - 1 :: p[..|p| - 1][i] == p[i]
  {
  }

  lemma Shifted(s: Text, k: nat, j: nat)
    requires k <= j <= |s|
    ensures s[..j][k..] == s[k..][..j - k] && s[..j][..k] == s[..k] && s[k..][j - k..] == s[j..]
  {
  }

  lemma LeavesLater(p: Text, s: Text, n: nat, k: nat, j: int)
    requires DefiniteButLast(p) && p != [PLUS] && Takes(p, s)
    requires n == (if p[0] == PLUS then 2 else 1) && k == Taken(p, s) && n < |p| && LeavesAt(p[n..], s[k..], j)
    ensures LeavesAt(p, s, k + j)
  {
    hide DefiniteButLast, Clear, Run, Before, Means;
    FirstPart(p);
    ButLast(p, n);
    Shifted(s, k, k + j);
    var q := p[..|p| - 1];
    MeansLater(q, s[..k + j], n, k);
  }

  lemma MeansLater(q: Text, s: Text, n: nat, k: nat)
    requires q != [] && k <= |s| && n == (if q[0] == PLUS then 2 else 1) && n <= |q| && Means(q[n..], s[k..])
    requires if q[0] == STAR then |q| > 1 && q[1] !in s[..k]
             else if q[0] == PLUS then k > 0 && AllAre(s[..k], q[1])
             else k == 1 && s[0] == q[0]
    ensures Means(q, s)
  {
  }

  lemma LeavesNow(p: Text, s: Text, n: nat, k: nat, j: int)
    requires 0 !in p && DefiniteButLast(p) && p != [PLUS] && LeavesAt(p, s, j)
    requires n == (if p[0] == PLUS then 2 else 1) && k == Taken(p, s)
    ensures n < |p| && Takes(p, s) && LeavesAt(p[n..], s[k..], j - k)
  {
    hide DefiniteButLast, Clear, Run, Before, Means;
    FirstPart(p);
    ButLast(p, n);
    var q := p[..|p| - 1];
    assert p[1] in p;
    MeansNow(q, s, n, j);
    Shifted(s, k, j);
  }

  lemma MeansNow(q: Text, s: Text, n: nat, j: nat)
    requires q != [] && j < |s| && Means(q, s[..j]) && n == (if q[0] == PLUS then 2 else 1)
    requires q[0] == STAR ==> |q| > 1 && Ordinary(q[1])
    requires q[0] == PLUS ==>
            |q| > 1 && Clear(q[2..], q[1]) && (|q| > 3 && q[2] == STAR ==> Ordinary(q[3])) && s[j] != q[1]
    ensures n <= |q| && Takes(q, s) && Taken(q, s) <= j && Means(q[n..], s[..j][Taken(q, s)..])
  {
    if q[0] == STAR {
      StarNow(q, s, j);
    } else if q[0] == PLUS {
      PlusNow(q, s, j);
    } else {
      assert j > 0 && s[..j][0] == s[0];
    }
  }

  lemma StarNow(q: Text, s: Text, j: nat)
    requires |q| > 1 && q[0] == STAR && Ordinary(q[1]) && j < |s| && Means(q, s[..j])
    ensures Before(s, q[1]) < j && Means(q[1..], s[..j][Before(s, q[1])..])
  {
    var n :| 0 <= n <= j && q[1] !in s[..j][..n] && Means(q[1..], s[..j][n..]);
    assert s[..j][..n] == s[..n] && s[n] == s[..j][n..][0] == q[1];
    BeforeIs(s, q[1], n);
  }

  lemma PlusNow(q: Text, s: Text, j: nat)
    requires |q| > 1 && q[0] == PLUS && Clear(q[2..], q[1]) && (|q| > 3 && q[2] == STAR ==> Ordinary(q[3]))
    requires j < |s| && s[j] != q[1] && Means(q, s[..j])
    ensures 0 < Run(s, q[1]) <= j && Means(q[2..], s[..j][Run(s, q[1])..])
  {
    var c := q[1];
    var n :| 1 <= n <= j && AllAre(s[..j][..n], c) && Means(q[2..], s[..j][n..]);
    RunAtLeast(s[..j], c, n);
    RunBefore(s, c, j);
    if q[2..] != [] {
      Absorbed(q[2..], s[..j], c, n);
    }
  }

  lemma LastLeaves(s: Text, beyond: int)
    ensures Beyond([PLUS], s, beyond).Left? <==> exists j :: LeavesAt([PLUS], s, j)
  {
    assert [PLUS][..0] == [];
    if Beyond([PLUS], s, beyond).Left? {
      assert s[0..] == s && LeavesAt([PLUS], s, 0);
    }
    forall j | LeavesAt([PLUS], s, j) ensures j == 0 && Beyond([PLUS], s, beyond).Left? {
      assert s[..j] == [] && s[0..] == s;
    }
  }

  lemma RunBefore(s: Text, c: int, j: nat)
    requires j < |s| && s[j] != c
    ensures Run(s, c) == Run(s[..j], c) <= j
  {
    RunIs(s, c, Run(s[..j], c));
  }

  /** The instruction "+a+" takes a zero byte in the line for its own end, and goes on with
      the next instruction. */
  lemma ZeroLeaves(beyond: int)
    ensures Scan([97, PLUS, 0, 101, 0], [97, 0, 101], beyond) == Yes && !Accepts([97, PLUS], [97, 0, 101], beyond)
  {
    var s := [97, 0, 101];
    assert s[1..] == [0, 101] && s[1..][1..] == [101];
    assert Run([101], 0) == 0 && Run(s[1..], 0) == 1;
    var m := [97, PLUS, 0, 101, 0];
    assert m[1..] == [PLUS, 0, 101, 0] && m[1..][2..] == [101, 0];
    assert [101, 0][1..] == [0] && [101][1..] == [];
    assert Scan([101, 0], [101], beyond) == Yes;
    assert [97, PLUS][1..] == [PLUS];
  }

  /** One step of the matcher, for what is left of memory and text. */
  lemma Branches(m: Text, s: Text, i: nat, j: nat, beyond: int)
    requires i <= |m| && j <= |s|
    ensures i == |m| ==> Scan(m[i..], s[j..], beyond) == Stray
    ensures i < |m| && m[i] == 0 ==> Scan(m[i..], s[j..], beyond) == if j == |s| then Yes else No
    ensures i < |m| && m[i] == STAR ==>
              Scan(m[i..], s[j..], beyond) ==
              if i + 1 == |m| then Stray
              else if m[i + 1] == 0 then Yes
              else if j + Before(s[j..], m[i + 1]) == |s| then No
              else Scan(m[i + 1..], s[j + Before(s[j..], m[i + 1])..], beyond)
    ensures i < |m| && m[i] == PLUS ==>
              Scan(m[i..], s[j..], beyond) ==
              if i + 1 == |m| then Stray
              else if (if j == |s| then beyond else s[j]) != m[i + 1] then No
              else if j + Run(s[j..], m[i + 1]) == |s| then Yes
              else Scan(m[i + 2..], s[j + Run(s[j..], m[i + 1])..], beyond)
    ensures i < |m| && m[i] !in {0, STAR, PLUS} ==>
              Scan(m[i..], s[j..], beyond) ==
              if j == |s| || s[j] != m[i] then No else Scan(m[i + 1..], s[j + 1..], beyond)
  {
    if i < |m| {
      assert m[i..][0] == m[i] && m[i..][1..] == m[i + 1..];
      if m[i] == STAR && i + 1 < |m| {
        assert s[j..][Before(s[j..], m[i + 1])..] == s[j + Before(s[j..], m[i + 1])..];
      } else if m[i] == PLUS && i + 1 < |m| {
        assert m[i..][2..] == m[i + 2..];
        assert s[j..][Run(s[j..], m[i + 1])..] == s[j + Run(s[j..], m[i + 1])..];
      } else if j < |s| {
        assert s[j..][1..] == s[j + 1..];
      }
    }
  }

  /** pmatch; m is the memory from the pattern on, and reading past it is a stray read. */
  method Match(m: Text, s: Text, beyond: int) returns (v: Verdict)
    ensures v == Scan(m, s, beyond)
  {
    var i, j := 0, 0;
    assert m[0..] == m && s[0..] == s;
    hide Scan, Run, Before;
    while true
      invariant 0 <= i <= |m| && 0 <= j <= |s|
      invariant Scan(m, s, beyond) == Scan(m[i..], s[j..], beyond)
      decreases |m| - i
    {
      Branches(m, s, i, j, beyond);
      if i == |m| {
        return Stray;
      }
      var c := m[i];
      i := i + 1;
      if c == 0 {
        return if j == |s| then Yes else No;
      }
      if c == STAR {
        if i == |m| {
          return Stray;
        }
        if m[i] == 0 {
          return Yes;
        }
        j := SkipOthers(s, m[i], j);
        if j == |s| {
          return No;
        }
      } else if c == PLUS {
        if i == |m| {
          return Stray;
        }
        c := m[i];
        i := i + 1;
        if c != (if j == |s| then beyond else s[j]) {
          return No;
        }
        j := SkipRun(s, c, j);
        if j == |s| {
          return Yes;
        }
      } else {
        if j == |s| {
          return No;
        }
        if s[j] != c {
          return No;
        }
        j := j + 1;
      }
    }
  }

  /** The inner loop for a star: on to the first occurrence of the next pattern character. */
  method SkipOthers(s: Text, c: int, start: nat) returns (j: nat)
    requires start <= |s|
    ensures start <= j <= |s| && j == start + Before(s[start..], c)
  {
    j := start;
    while j < |s| && s[j] != c
      invariant start <= j <= |s| && c !in s[start..j]
    {
      j := j + 1;
    }
    assert s[start..][..j - start] == s[start..j];
    BeforeIs(s[start..], c, j - start);
  }

  /** There is only one place where a star can end. */
  lemma SkipTo(p: Text, s: Text, k: nat, beyond: int)
    requires |p| > 1 && p[0] == STAR && k <= |s| && p[1] !in s[..k] && (k < |s| ==> s[k] == p[1])
    ensures Accepts(p, s, beyond) <==> k < |s| && Accepts(p[1..], s[k..], beyond)
  {
    assert forall j | 0 <= j < k :: s[..k][j] == s[j] && s[j] != p[1];
    forall j | k < j < |s| ensures p[1] in s[..j] {
      assert s[..j][k] == s[k];
    }
  }

  /** The inner loop for a plus. */
  method SkipRun(s: Text, c: int, start: nat) returns (j: nat)
    requires start <= |s|
    ensures start <= j <= |s| && j == start + Run(s[start..], c) && s[j..] == s[start..][Run(s[start..], c)..]
  {
    j := start;
    while j < |s| && s[j] == c
      invariant start <= j <= |s| && forall i | start <= i < j :: s[i] == c
    {
      j := j + 1;
    }
    RunIs(s[start..], c, j - start);
  }

  lemma RunIs(s: Text, c: int, k: nat)
    requires k <= |s| && (forall i | 0 <= i < k :: s[i] == c) && (k < |s| ==> s[k] != c)
    ensures Run(s, c) == k
  {
  }

  // ----- svlogd's choice -----

  /** Instructions as they are packed, each with its terminator. */
  function Packed(insts: seq<Text>): Text {
    if insts == [] then [] else Packed(insts[..|insts| - 1]) + insts[|insts| - 1] + [0]
  }

  predicate Instruction(t: Text) {
    0 !in t && t != []
  }

  /** What the matcher says about instruction k, whose pattern begins behind its sign. */
  function Judged(insts: seq<Text>, k: nat, line: Text, beyond: int): Verdict
    requires k < |insts|
  {
    var start := |Packed(insts[..k])| + 1;
    if start <= |Packed(insts)| then Scan(Packed(insts)[start..], line, beyond) else Stray
  }

  predicate Signed(t: Text, a: int, b: int) {
    t != [] && (t[0] == a || t[0] == b)
  }

  /** The sign of the last of the first k instructions that has one of two signs and
      matches the line. */
  function LastSign(insts: seq<Text>, k: nat, line: Text, beyond: int, a: int, b: int, otherwise: int): int
    requires k <= |insts|
  {
    if k == 0 then otherwise
    else if Signed(insts[k - 1], a, b) && Judged(insts, k - 1, line, beyond).Yes? then insts[k - 1][0]
    else LastSign(insts, k - 1, line, beyond, a, b, otherwise)
  }

  /** No pattern that is compared makes the matcher read behind the last instruction. */
  predicate Sober(insts: seq<Text>, line: Text, beyond: int) {
    forall k | 0 <= k < |insts| :: insts[k] != [] && insts[k][0] in SIGNS ==> !Judged(insts, k, line, beyond).Stray?
  }

  const PASS := '+' as int
  const DROP := '-' as int
  const SHOW := 'e' as int
  const HIDE := 'E' as int
  const SIGNS := {PASS, DROP, SHOW, HIDE}

  /** Instructions whose plus signs all have a character, or a line without zero bytes, are
      judged by what their own patterns accept. */
  lemma JudgedAccepts(insts: seq<Text>, k: nat, line: Text, beyond: int)
    requires k < |insts| && Instruction(insts[k]) && (!Dangling(insts[k][1..]) || 0 !in line)
    ensures Judged(insts, k, line, beyond) == if Accepts(insts[k][1..], line, beyond) then Yes else No
  {
    PackedAt(insts, k);
    var t, m, start := insts[k], Packed(insts), |Packed(insts[..k])|;
    var behind := m[start + |t| + 1..];
    assert m[start + 1..] == t[1..] + [0] + behind by {
      assert m[start..start + |t|][1..] == m[start + 1..start + |t|];
    }
    StaysInside(t[1..], line, beyond);
    Confined(t[1..], behind, line, beyond);
  }

  /** The sign that the patterns by themselves give the line. */
  ghost function AcceptedSign(insts: seq<Text>, line: Text, beyond: int, a: int, b: int, otherwise: int): int {
    if insts == [] then otherwise
    else
      var t := insts[|insts| - 1];
      if Signed(t, a, b) && Accepts(t[1..], line, beyond) then t[0]
      else AcceptedSign(insts[..|insts| - 1], line, beyond, a, b, otherwise)
  }

  /** Without a dangling plus or without a zero byte in the line, the last matching pattern
      decides, and nothing is read that is not an instruction. */
  lemma {:induction false} SignAccepted(
      insts: seq<Text>, k: nat, line: Text, beyond: int, a: int, b: int, otherwise: int)
    requires k <= |insts| && forall t <- insts :: Instruction(t) && (!Dangling(t[1..]) || 0 !in line)
    ensures LastSign(insts, k, line, beyond, a, b, otherwise) == AcceptedSign(insts[..k], line, beyond, a, b, otherwise)
    ensures Sober(insts, line, beyond)
  {
    forall j | 0 <= j < |insts| ensures !Judged(insts, j, line, beyond).Stray? {
      assert insts[j] in insts;
      JudgedAccepts(insts, j, line, beyond);
    }
    if k > 0 {
      SignAccepted(insts, k - 1, line, beyond, a, b, otherwise);
      assert insts[k - 1] in insts && insts[..k][..k - 1] == insts[..k - 1];
      JudgedAccepts(insts, k - 1, line, beyond);
    }
  }

  /** Where instruction k lies. */
  lemma {:induction false} PackedAt(insts: seq<Text>, k: nat)
    requires k < |insts|
    ensures var start := |Packed(insts[..k])|;
            && start + |insts[k]| < |Packed(insts)| && |Packed(insts[..k + 1])| == start + |insts[k]| + 1
            && Packed(insts)[start..start + |insts[k]|] == insts[k] && Packed(insts)[start + |insts[k]|] == 0
  {
    var n := |insts| - 1;
    if k < n {
      PackedAt(insts[..n], k);
      assert insts[..n][..k] == insts[..k] && insts[..n][..k + 1] == insts[..k + 1];
    } else {
      assert insts[..k] == insts[..n] && insts[..k + 1] == insts;
    }
  }

  /** byte_chr for a zero byte, from i on. */
  method NextZero(inst: Text, i: nat) returns (end: nat)
    requires i <= |inst|
    ensures i <= end <= |inst| && 0 !in inst[i..end] && (end < |inst| ==> inst[end] == 0)
  {
    end := i;
    while end < |inst| && inst[end] != 0
      invariant i <= end <= |inst| && 0 !in inst[i..end]
    {
      end := end + 1;
    }
  }

  /** What is known after the first k instructions. */
  ghost predicate Chosen(insts: seq<Text>, k: nat, line: Text, beyond: int, selected: int, matcherr: int)
    requires k <= |insts|
  {
    && selected == LastSign(insts, k, line, beyond, PASS, DROP, PASS)
    && matcherr == LastSign(insts, k, line, beyond, SHOW, HIDE, HIDE)
    && forall j | 0 <= j < k :: insts[j] != [] && insts[j][0] in SIGNS ==> !Judged(insts, j, line, beyond).Stray?
  }

  lemma ChosenStep(insts: seq<Text>, k: nat, line: Text, beyond: int, selected: int, matcherr: int)
    requires k < |insts| && insts[k] != [] && Chosen(insts, k, line, beyond, selected, matcherr)
    requires insts[k][0] in SIGNS ==> !Judged(insts, k, line, beyond).Stray?
    ensures var c, yes := insts[k][0], Judged(insts, k, line, beyond).Yes?;
            Chosen(insts, k + 1, line, beyond, if (c == PASS || c == DROP) && yes then c else selected,
                   if (c == SHOW || c == HIDE) && yes then c else matcherr)
  {
    hide Judged;
  }

  /** logmatch: whether the line goes to the log, and whether it goes to standard error. */
  method Logmatch(inst: Text, ghost insts: seq<Text>, line: Text, beyond: int)
      returns (selected: int, matcherr: int, stray: bool)
    requires inst == Packed(insts) && forall t <- insts :: Instruction(t)
    ensures stray <==> !Sober(insts, line, beyond)
    ensures !stray ==> selected == LastSign(insts, |insts|, line, beyond, PASS, DROP, PASS)
    ensures !stray ==> matcherr == LastSign(insts, |insts|, line, beyond, SHOW, HIDE, HIDE)
  {
    hide Scan, Judged, Packed, Chosen, LastSign, Sober, Accepts, Run, Before, Instruction;
    selected, matcherr, stray := PASS, HIDE, false;
    var i := 0;
    ghost var k := 0;
    ChosenStart(insts, line, beyond);
    while i < |inst|
      invariant 0 <= k <= |insts| && i == Place(insts, k)
      invariant Chosen(insts, k, line, beyond, selected, matcherr)
      decreases |insts| - k
    {
      PlaceEnd(insts, k);
      InstructionAt(insts, k, line, beyond);
      var end := NextZero(inst, i);
      EndIs(inst, i, end, insts[k]);
      var c := inst[i];
      if c in SIGNS {
        var v := Match(inst[i + 1..], line, beyond);
        if v.Stray? {
          StrayShown(insts, k, line, beyond);
          stray := true;
          return;
        }
        ChosenStep(insts, k, line, beyond, selected, matcherr);
        if v.Yes? {
          if c == PASS || c == DROP {
            selected := c;
          } else {
            matcherr := c;
          }
        }
      } else {
        ChosenStep(insts, k, line, beyond, selected, matcherr);
      }
      i := end;
      i := i + 1;
      k := k + 1;
    }
    PlaceEnd(insts, k);
    ChosenAll(insts, line, beyond, selected, matcherr);
  }

  /** Where instruction k begins in the packed form. */
  function Place(insts: seq<Text>, k: nat): nat
    requires k <= |insts|
  {
    |Packed(insts[..k])|
  }

  lemma PlaceEnd(insts: seq<Text>, k: nat)
    requires k <= |insts|
    ensures k == |insts| <==> Place(insts, k) >= |Packed(insts)|
  {
    if k < |insts| {
      PackedAt(insts, k);
    } else {
      assert insts[..k] == insts;
    }
  }

  lemma ChosenStart(insts: seq<Text>, line: Text, beyond: int)
    ensures Chosen(insts, 0, line, beyond, PASS, HIDE) && Place(insts, 0) == 0
  {
    assert insts[..0] == [];
  }

  lemma StrayShown(insts: seq<Text>, k: nat, line: Text, beyond: int)
    requires k < |insts| && insts[k] != [] && insts[k][0] in SIGNS && Judged(insts, k, line, beyond).Stray?
    ensures !Sober(insts, line, beyond)
  {
    hide Judged;
  }

  lemma InstructionAt(insts: seq<Text>, k: nat, line: Text, beyond: int)
    requires k < |insts| && forall t <- insts :: Instruction(t)
    ensures var inst, i, t := Packed(insts), Place(insts, k), insts[k];
            && Instruction(t) && t != [] && i + |t| < |inst| && Place(insts, k + 1) == i + |t| + 1
            && inst[i..i + |t|] == t && inst[i + |t|] == 0 && inst[i] == t[0]
            && Judged(insts, k, line, beyond) == Scan(inst[i + 1..], line, beyond)
  {
    hide Scan, LastSign, Accepts, Run, Before, Packed;
    PackedAt(insts, k);
    var inst, i, t := Packed(insts), Place(insts, k), insts[k];
    assert t in insts;
    assert inst[i..i + |t|][0] == inst[i];
  }

  lemma ChosenAll(insts: seq<Text>, line: Text, beyond: int, selected: int, matcherr: int)
    requires Chosen(insts, |insts|, line, beyond, selected, matcherr)
    ensures Sober(insts, line, beyond)
    ensures selected == LastSign(insts, |insts|, line, beyond, PASS, DROP, PASS)
    ensures matcherr == LastSign(insts, |insts|, line, beyond, SHOW, HIDE, HIDE)
  {
  }

  lemma EndIs(inst: Text, i: nat, end: nat, t: Text)
    requires i + |t| < |inst| && inst[i..i + |t|] == t && inst[i + |t|] == 0 && Instruction(t)
    requires i <= end <= |inst| && 0 !in inst[i..end] && (end < |inst| ==> inst[end] == 0)
    ensures end == i + |t|
  {
    forall j | i <= j < i + |t| ensures inst[j] != 0 {
      assert inst[j] == t[j - i] && t[j - i] in t;
    }
    forall j | i <= j < end ensures inst[j] != 0 {
      assert inst[j] == inst[i..end][j - i];
    }
  }
}
