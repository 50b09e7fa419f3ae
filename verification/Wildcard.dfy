/** Shell-style wildcard matching with a single backtrack point. */
module Wildcard {
  import opened Common

  /** The declarative match: a star stands for some split of the text, a question mark for one character. */
  ghost predicate Matches(p: string, t: string)
    decreases |p|
  {
    if p == "" then t == ""
    else if p[0] == '*' then exists k | 0 <= k <= |t| :: Matches(p[1..], t[k..])
    else t != "" && (p[0] == '?' || p[0] == t[0]) && Matches(p[1..], t[1..])
  }

  /** Where the loop stands: both positions, and the last `*` with the text it is matched up to. */
  datatype Cursor = Cursor(pi: nat, ti: nat, star: Option<nat>, starTi: nat)

  predicate Within(p: string, t: string, c: Cursor) {
    c.pi <= |p| && c.ti <= |t| && c.starTi <= c.ti && (c.star.Some? ==> c.star.value < c.pi && p[c.star.value] == '*')
  }

  predicate Consumes(p: string, t: string, c: Cursor)
    requires Within(p, t, c) && c.ti < |t|
  {
    c.pi < |p| && (p[c.pi] == '?' || p[c.pi] == t[c.ti])
  }

  predicate AllStars(p: string) {
    forall i | 0 <= i < |p| :: p[i] == '*'
  }

  /** The loop as a recursion on where it stands. */
  function Scan(p: string, t: string, c: Cursor): bool
    requires Within(p, t, c)
    decreases |t| - c.starTi, |t| - c.ti, |p| - c.pi
  {
    if c.ti == |t| then AllStars(p[c.pi..])
    else if Consumes(p, t, c) then Scan(p, t, c.(pi := c.pi + 1, ti := c.ti + 1))
    else if c.pi < |p| && p[c.pi] == '*' then Scan(p, t, Cursor(c.pi + 1, c.ti, Some(c.pi), c.ti))
    else if c.star.Some? then Scan(p, t, c.(pi := c.star.value + 1, ti := c.starTi + 1, starTi := c.starTi + 1))
    else false
  }

  const START := Cursor(0, 0, None, 0)

  method WildcardMatch(p: string, t: string) returns (matched: bool)
    ensures matched == Scan(p, t, START)
    ensures matched ==> Matches(p, t)
    ensures '*' !in t || '*' !in p ==> (matched <==> Matches(p, t))
  {
    ScanSound(p, t, START);
    if '*' !in t || '*' !in p {
      ScanComplete(p, t, START);
    }
    var pi: nat, ti: nat, star: Option<nat>, starTi: nat := 0, 0, None, 0;
    while ti < |t|
      invariant Within(p, t, Cursor(pi, ti, star, starTi))
      invariant Scan(p, t, Cursor(pi, ti, star, starTi)) == Scan(p, t, START)
      decreases |t| - starTi, |t| - ti, |p| - pi
    {
      if pi < |p| && (p[pi] == '?' || p[pi] == t[ti]) {
        pi, ti := pi + 1, ti + 1;
      } else if pi < |p| && p[pi] == '*' {
        star, starTi := Some(pi), ti;
        pi := pi + 1;
      } else if star.Some? {
        pi := star.value + 1;
        starTi := starTi + 1;
        ti := starTi;
      } else {
        return false;
      }
    }
    matched := forall i | pi <= i < |p| :: p[i] == '*';
    assert matched == AllStars(p[pi..]) by {
      assert forall i | 0 <= i < |p[pi..]| :: p[pi..][i] == p[pi + i];
      assert forall i | pi <= i < |p| :: p[i] == p[pi..][i - pi];
    }
  }

  // ---- what the position stands for ----

  /** The rest matches here, or after the last star swallows more. */
  ghost predicate Meaning(p: string, t: string, c: Cursor)
    requires Within(p, t, c)
  {
    || Matches(p[c.pi..], t[c.ti..])
    || (c.star.Some? && exists j | c.starTi < j <= |t| :: Matches(p[c.star.value + 1..], t[j..]))
  }

  /** Since the last star the pattern was matched character for character, and holds no other star. */
  ghost predicate Straight(p: string, t: string, c: Cursor)
    requires Within(p, t, c)
  {
    c.star.Some? ==> c.pi - c.star.value - 1 == c.ti - c.starTi && forall k | c.star.value < k < c.pi :: p[k] != '*'
  }

  lemma {:induction false} StarsMatchNothing(p: string)
    ensures Matches(p, "") <==> AllStars(p)
    decreases |p|
  {
    if p != "" {
      StarsMatchNothing(p[1..]);
      assert ""[0..] == "";
      assert AllStars(p) <==> p[0] == '*' && AllStars(p[1..]) by {
        assert forall i | 1 <= i < |p| :: p[i] == p[1..][i - 1];
      }
      if p[0] == '*' && Matches(p[1..], "") {
        assert 0 <= 0 <= |""| && Matches(p[1..], ""[0..]);
      }
    }
  }

  /** A star may stay, and take the next characters itself. */
  lemma StarSwallows(p: string, t: string, k: nat)
    requires p != "" && p[0] == '*' && k <= |t| && Matches(p, t[k..])
    ensures Matches(p, t)
  {
    var j :| 0 <= j <= |t[k..]| && Matches(p[1..], t[k..][j..]);
    assert t[k..][j..] == t[k + j..];
    assert Matches(p[1..], t[k + j..]);
  }

  lemma StarMatches(p: string, t: string, k: nat)
    requires p != "" && p[0] == '*' && k <= |t| && Matches(p[1..], t[k..])
    ensures Matches(p, t)
  {
  }

  /** A stretch of pattern without a star takes as many characters. */
  lemma {:induction false} StraightMatch(p: string, t: string, n: nat)
    requires n <= |p| && (forall k | 0 <= k < n :: p[k] != '*') && Matches(p, t)
    ensures n <= |t| && Matches(p[n..], t[n..])
    decreases n
  {
    if n == 0 {
      assert p[0..] == p && t[0..] == t;
    } else {
      StraightMatch(p[1..], t[1..], n - 1);
      assert p[1..][n - 1..] == p[n..] && t[1..][n - 1..] == t[n..];
    }
  }

  // ---- the loop against the declarative match ----

  lemma ConsumeMeans(p: string, t: string, c: Cursor)
    requires Within(p, t, c) && c.ti < |t| && Consumes(p, t, c)
    ensures Matches(p[c.pi + 1..], t[c.ti + 1..]) ==> Matches(p[c.pi..], t[c.ti..])
    ensures p[c.pi] != '*' ==> (Matches(p[c.pi..], t[c.ti..]) <==> Matches(p[c.pi + 1..], t[c.ti + 1..]))
  {
    var q, u := p[c.pi..], t[c.ti..];
    assert q[1..] == p[c.pi + 1..] && u[1..] == t[c.ti + 1..] && q[0] == p[c.pi] && u[0] == t[c.ti];
    if q[0] == '*' && Matches(q[1..], u[1..]) {
      StarMatches(q, u, 1);
    }
  }

  /** Whatever the loop accepts matches, for every pattern and text. */
  lemma {:induction false} ScanSound(p: string, t: string, c: Cursor)
    requires Within(p, t, c)
    ensures Scan(p, t, c) ==> Meaning(p, t, c)
    ensures c == START && Scan(p, t, c) ==> Matches(p, t)
    decreases |t| - c.starTi, |t| - c.ti, |p| - c.pi
  {
    assert p[0..] == p && t[0..] == t;
    if Scan(p, t, c) {
      if c.ti == |t| {
        StarsMatchNothing(p[c.pi..]);
        assert t[|t|..] == "";
      } else if Consumes(p, t, c) {
        ScanSound(p, t, c.(pi := c.pi + 1, ti := c.ti + 1));
        ConsumeMeans(p, t, c);
      } else if c.pi < |p| && p[c.pi] == '*' {
        ScanSound(p, t, Cursor(c.pi + 1, c.ti, Some(c.pi), c.ti));
        StarStep(p, t, c);
      } else {
        var next := c.(pi := c.star.value + 1, ti := c.starTi + 1, starTi := c.starTi + 1);
        ScanSound(p, t, next);
        assert Matches(p[next.pi..], t[next.ti..]) ==> Meaning(p, t, c);
      }
    }
  }

  lemma StarStep(p: string, t: string, c: Cursor)
    requires Within(p, t, c) && c.pi < |p| && p[c.pi] == '*'
    ensures Meaning(p, t, Cursor(c.pi + 1, c.ti, Some(c.pi), c.ti)) <==> Matches(p[c.pi..], t[c.ti..])
  {
    var q, u := p[c.pi..], t[c.ti..];
    assert q[1..] == p[c.pi + 1..];
    if Matches(q, u) {
      var k :| 0 <= k <= |u| && Matches(q[1..], u[k..]);
      assert u[k..] == t[c.ti + k..];
      assert Matches(p[c.pi + 1..], t[c.ti + k..]);
    }
    if Meaning(p, t, Cursor(c.pi + 1, c.ti, Some(c.pi), c.ti)) {
      var j := if Matches(p[c.pi + 1..], t[c.ti..]) then c.ti
               else (var j :| c.ti < j <= |t| && Matches(p[c.pi + 1..], t[j..]); j);
      assert u[j - c.ti..] == t[j..];
      StarMatches(q, u, j - c.ti);
    }
  }

  /** Without a star in the text, or in the pattern, the loop finds every match there is. */
  lemma {:induction false} ScanComplete(p: string, t: string, c: Cursor)
    requires Within(p, t, c) && Straight(p, t, c) && ('*' !in t || '*' !in p)
    ensures Meaning(p, t, c) ==> Scan(p, t, c)
    ensures c == START ==> (Scan(p, t, c) <==> Matches(p, t))
    decreases |t| - c.starTi, |t| - c.ti, |p| - c.pi
  {
    hide Matches, AllStars;
    assert p[0..] == p && t[0..] == t;
    if c == START { ScanSound(p, t, c); }
    if Meaning(p, t, c) {
      if c.ti == |t| {
        EndMeans(p, t, c);
      } else if Consumes(p, t, c) {
        assert p[c.pi] in p && t[c.ti] in t;
        ConsumeMeans(p, t, c);
        ScanComplete(p, t, c.(pi := c.pi + 1, ti := c.ti + 1));
      } else if c.pi < |p| && p[c.pi] == '*' {
        LastStarIsEnough(p, t, c);
        StarStep(p, t, c);
        ScanComplete(p, t, Cursor(c.pi + 1, c.ti, Some(c.pi), c.ti));
      } else {
        NoMatchHere(p, t, c);
        var next := c.(pi := c.star.value + 1, ti := c.starTi + 1, starTi := c.starTi + 1);
        ScanComplete(p, t, next);
      }
    }
  }

  lemma NoMatchHere(p: string, t: string, c: Cursor)
    requires Within(p, t, c) && c.ti < |t| && !Consumes(p, t, c) && (c.pi < |p| ==> p[c.pi] != '*')
    ensures !Matches(p[c.pi..], t[c.ti..])
  {
  }

  /** Backtracking to the most recent star is enough: an earlier one could only come as far. */
  lemma LastStarIsEnough(p: string, t: string, c: Cursor)
    requires Within(p, t, c) && Straight(p, t, c) && Meaning(p, t, c) && c.pi < |p| && p[c.pi] == '*'
    ensures Matches(p[c.pi..], t[c.ti..])
  {
    hide Matches;
    if c.star.Some? && exists j | c.starTi < j <= |t| :: Matches(p[c.star.value + 1..], t[j..]) {
      var sp := c.star.value;
      var j :| c.starTi < j <= |t| && Matches(p[sp + 1..], t[j..]);
      var n := c.pi - sp - 1;
      StraightMatch(p[sp + 1..], t[j..], n);
      assert p[sp + 1..][n..] == p[c.pi..] && t[j..][n..] == t[c.ti..][j + n - c.ti..];
      StarSwallows(p[c.pi..], t[c.ti..], j + n - c.ti);
    }
  }

  lemma EndMeans(p: string, t: string, c: Cursor)
    requires Within(p, t, c) && Straight(p, t, c) && Meaning(p, t, c) && c.ti == |t|
    ensures AllStars(p[c.pi..])
  {
    assert t[|t|..] == "";
    StarsMatchNothing(p[c.pi..]);
    if !Matches(p[c.pi..], t[c.ti..]) {
      var sp := c.star.value;
      var j :| c.starTi < j <= |t| && Matches(p[sp + 1..], t[j..]);
      StraightMatch(p[sp + 1..], t[j..], c.pi - sp - 1);
    }
  }

  // ---- texts that hold a star ----

  /** One `?` for every character, and a star where the text has one. */
  function Probe(n: nat, i: nat): string
    requires i < n
  {
    seq(n + 1, k => if k == i then '*' else '?')
  }

  lemma {:induction false} QuestionsMatch(p: string, t: string)
    requires |p| == |t| && forall k | 0 <= k < |p| :: p[k] == '?'
    ensures Matches(p, t)
    decreases |p|
  {
    if p != "" {
      QuestionsMatch(p[1..], t[1..]);
    }
  }

  lemma {:induction false} ProbeMatches(t: string, i: nat, k: nat)
    requires k <= i < |t|
    ensures Matches(Probe(|t|, i)[k..], t[k..])
    decreases i - k
  {
    var p := Probe(|t|, i);
    var q, u := p[k..], t[k..];
    assert q[1..] == p[k + 1..] && u[1..] == t[k + 1..];
    if k < i {
      ProbeMatches(t, i, k + 1);
    } else {
      QuestionsMatch(q[1..], u);
      assert u[0..] == u;
      StarMatches(q, u, 0);
    }
  }

  /** Taking the text's star for its own, the loop never comes back to it. */
  lemma {:induction false} ProbeScanned(t: string, i: nat, k: nat)
    requires i < |t| && t[i] == '*' && k <= |t|
    ensures !Scan(Probe(|t|, i), t, Cursor(k, k, None, 0))
    decreases |t| - k
  {
    var p := Probe(|t|, i);
    if k < |t| {
      ProbeScanned(t, i, k + 1);
    } else {
      assert p[k..][0] == '?';
    }
  }

  /** The matcher is right about a text for every pattern exactly when the text holds no star. */
  lemma RightExactlyWithoutStars(t: string)
    ensures '*' !in t <==> forall p: string :: Scan(p, t, START) <==> Matches(p, t)
  {
    if '*' in t {
      var i :| 0 <= i < |t| && t[i] == '*';
      var p := Probe(|t|, i);
      ProbeMatches(t, i, 0);
      ProbeScanned(t, i, 0);
      assert p[0..] == p && t[0..] == t;
    } else {
      forall p: string
        ensures Scan(p, t, START) <==> Matches(p, t)
      {
        ScanComplete(p, t, START);
      }
    }
  }
}
