/** FS_IsPatternMatching of filesystem.cpp: one loop over a pattern with '*' and '?' and a name,
    which on a mismatch goes back to the last '*' but never back in the name. */
module Wildcard {

  // --------------------------------------------------------------------------------------
  // The language of a pattern
  // --------------------------------------------------------------------------------------

  /** '*' stands for any string and '?' for any character, or nothing at the end of the name. */
  ghost predicate Matches(p: string, n: string)
    decreases |p|
  {
    if p == [] then n == []
    else if p[0] == '*' then exists k :: 0 <= k <= |n| && Matches(p[1..], n[k..])
    else if p[0] == '?' then Matches(p[1..], if n == [] then [] else n[1..])
    else n != [] && n[0] == p[0] && Matches(p[1..], n[1..])
  }

  lemma StarAbsorbs(p: string, n: string, k: nat)
    requires |p| > 0 && p[0] == '*' && k <= |n| && Matches(p, n[k..])
    ensures Matches(p, n)
  {
    var j :| 0 <= j <= |n[k..]| && Matches(p[1..], n[k..][j..]);
    assert n[k..][j..] == n[k + j..];
  }

  lemma StarAbsorbsAt(p: string, n: string, s: nat, i: nat, e: nat)
    requires s < |p| && p[s] == '*' && i <= e <= |n| && Matches(p[s..], n[e..])
    ensures Matches(p[s..], n[i..])
  {
    assert n[i..][e - i..] == n[e..];
    StarAbsorbs(p[s..], n[i..], e - i);
  }

  // --------------------------------------------------------------------------------------
  // The loop
  // --------------------------------------------------------------------------------------

  /** Where the first character c is, from i on, or the end. */
  function Find(n: string, i: nat, c: char): (r: nat)
    requires i <= |n|
    ensures i <= r <= |n| && (r < |n| ==> n[r] == c) && forall k :: i <= k < r ==> n[k] != c
    decreases |n| - i
  {
    if i == |n| || n[i] == c then i else Find(n, i + 1, c)
  }

  /** How far the name is skipped at a '*': to the pattern's next character, or to the end. */
  function SkipTo(p: string, n: string, s: nat, i: nat): (r: nat)
    requires s <= |p| && i <= |n|
    ensures i <= r <= |n|
  {
    if s == |p| then |n| else Find(n, i, p[s])
  }

  /** The state of the loop: places in pattern and name, the last '*' or -1, and how far the name
      was read when that was last turned to. */
  datatype State = State(s: nat, i: nat, any: int, m: nat)

  ghost predicate Ok(p: string, n: string, t: State) {
    && t.s <= |p| && t.i <= |n| && -1 <= t.any < |p| && t.any <= t.s && t.m <= t.i
    && (t.any >= 0 ==> p[t.any] == '*')
    && (t.any >= 0 && t.s == t.any + 1 ==> t.i == |n| || (t.s < |p| && n[t.i] == p[t.s]))
    && (t.any >= 0 && t.s >= t.any + 2 ==> t.i > t.m || t.i == |n|)
  }

  predicate AtEnd(p: string, n: string, t: State) {
    t.s >= |p| && t.i >= |n|
  }

  /** The character at a place, or the terminator. */
  function At(s: string, i: nat): char {
    if i < |s| then s[i] else '\0'
  }

  predicate NoTerminator(s: string) {
    forall i :: 0 <= i < |s| ==> s[i] != '\0'
  }

  /** One turn of the loop; None when it returns false. */
  function Turn(p: string, n: string, t: State): (r: Option)
    requires t.s <= |p| && t.i <= |n| && !AtEnd(p, n, t)
  {
    if At(p, t.s) == '*' then
      var i := SkipTo(p, n, t.s + 1, t.i);
      Some(State(t.s + 1, i, t.s, if t.any == t.s then t.m else t.i))
    else if At(p, t.s) == '?' then Some(t.(s := t.s + 1, i := if t.i < |n| then t.i + 1 else t.i))
    else if At(p, t.s) != At(n, t.i) then
      if t.any >= 0 && t.i < |n| then Some(State(t.any, t.i, t.any, t.i)) else None
    else Some(t.(s := t.s + 1, i := t.i + 1))
  }

  datatype Option = None | Some(t: State)

  lemma TurnOk(p: string, n: string, t: State)
    requires NoTerminator(p) && NoTerminator(n) && Ok(p, n, t) && !AtEnd(p, n, t)
    ensures Turn(p, n, t).Some? ==>
              var u := Turn(p, n, t).t;
              Ok(p, n, u) && (u.any > t.any || (u.any == t.any && (u.m > t.m || (u.m == t.m && u.s > t.s))))
  {}

  /** The result of the loop from a state on. */
  ghost predicate Accepts(p: string, n: string, t: State)
    requires NoTerminator(p) && NoTerminator(n) && Ok(p, n, t)
    decreases |p| - t.any, |n| - t.m, |p| - t.s
  {
    if AtEnd(p, n, t) then true
    else
      TurnOk(p, n, t);
      Turn(p, n, t).Some? && Accepts(p, n, Turn(p, n, t).t)
  }

  function Start(): State {
    State(0, 0, -1, 0)
  }

  /** The procedure. It always terminates: going back to a '*' the name has been read further
      than the last time. */
  method IsPatternMatching(fileSpec: string, fileName: string) returns (r: bool)
    requires NoTerminator(fileSpec) && NoTerminator(fileName)
    ensures r == Accepts(fileSpec, fileName, Start())
    ensures r ==> Matches(fileSpec, fileName)
    ensures Good(fileSpec) ==> (r <==> Matches(fileSpec, fileName))
  {
    Meaning(fileSpec, fileName);
    hide Matches, Good, Turn, Ok;
    var spec: nat, name: nat := 0, 0;
    var any: int := -1;
    ghost var t := Start();
    assert Ok(fileSpec, fileName, t) by { StartOk(fileSpec, fileName); }
    while spec < |fileSpec| || name < |fileName|
      invariant spec == t.s && name == t.i && any == t.any && Ok(fileSpec, fileName, t)
      invariant Accepts(fileSpec, fileName, t) == Accepts(fileSpec, fileName, Start())
      decreases |fileSpec| - t.any, |fileName| - t.m, |fileSpec| - t.s
    {
      TurnOk(fileSpec, fileName, t);
      OkBounds(fileSpec, fileName, t);
      var on;
      on, spec, name, any := TakeTurn(fileSpec, fileName, spec, name, any, t);
      if !on {
        return false;
      }
      t := Turn(fileSpec, fileName, t).t;
      OkBounds(fileSpec, fileName, t);
    }
    r := true;
  }

  lemma StartOk(p: string, n: string)
    ensures Ok(p, n, Start())
  {}

  lemma OkBounds(p: string, n: string, t: State)
    requires Ok(p, n, t)
    ensures t.s <= |p| && t.i <= |n| && t.m <= |n| && -1 <= t.any < |p| && t.any <= t.s
  {}

  /** The body of the loop. */
  method TakeTurn(fileSpec: string, fileName: string, s: nat, i: nat, last: int, ghost t: State)
    returns (on: bool, spec: nat, name: nat, any: int)
    requires NoTerminator(fileSpec) && NoTerminator(fileName) && s <= |fileSpec| && i <= |fileName| && -1 <= last <= s
    requires t.s == s && t.i == i && t.any == last && !AtEnd(fileSpec, fileName, t)
    ensures on == Turn(fileSpec, fileName, t).Some?
    ensures on ==> var u := Turn(fileSpec, fileName, t).t; u.s == spec && u.i == name && u.any == any
  {
    on, spec, name, any := true, s, i, last;
    if At(fileSpec, spec) == '*' {
      any := spec;
      spec := spec + 1;
      name := Skip(fileSpec, fileName, spec, name);
    } else if At(fileSpec, spec) == '?' {
      spec := spec + 1;
      if name < |fileName| {
        name := name + 1;
      }
    } else if At(fileSpec, spec) != At(fileName, name) {
      if any >= 0 && name < |fileName| {
        spec := any;
      } else {
        on := false;
      }
    } else {
      spec := spec + 1;
      name := name + 1;
    }
  }

  method Skip(p: string, n: string, s: nat, from: nat) returns (i: nat)
    requires s <= |p| && from <= |n| && NoTerminator(n)
    ensures i == SkipTo(p, n, s, from)
  {
    i := from;
    while i < |n| && At(p, s) != n[i]
      invariant from <= i <= |n| && SkipTo(p, n, s, from) == SkipTo(p, n, s, i)
    {
      i := i + 1;
    }
  }

  // --------------------------------------------------------------------------------------
  // Soundness
  // --------------------------------------------------------------------------------------

  lemma Tail(s: string, i: nat)
    requires i < |s|
    ensures s[i..] != [] && s[i..][0] == s[i] && s[i..][1..] == s[i + 1..]
  {}

  /** What the loop accepts from a state on is in the language of the rest of the pattern, or of
      that from the last '*' on. */
  lemma {:induction false} Sound(p: string, n: string, t: State)
    requires NoTerminator(p) && NoTerminator(n) && Ok(p, n, t) && Accepts(p, n, t)
    ensures Matches(p[t.s..], n[t.i..]) || (t.any >= 0 && Matches(p[t.any..], n[t.i..]))
    decreases |p| - t.any, |n| - t.m, |p| - t.s
  {
    if !AtEnd(p, n, t) {
      TurnOk(p, n, t);
      var u := Turn(p, n, t).t;
      Sound(p, n, u);
      if u.s > t.s {
        SoundStep(p, n, t, u);
      }
    }
  }

  lemma SoundStep(p: string, n: string, t: State, u: State)
    requires NoTerminator(p) && NoTerminator(n) && Ok(p, n, t) && !AtEnd(p, n, t) && Turn(p, n, t) == Some(u) && u.s > t.s && u.i <= |n|
    requires u.s <= |p| && -1 <= u.any < |p|
    requires Matches(p[u.s..], n[u.i..]) || (u.any >= 0 && Matches(p[u.any..], n[u.i..]))
    ensures Matches(p[t.s..], n[t.i..]) || (t.any >= 0 && Matches(p[t.any..], n[t.i..]))
  {
    assert t.s < |p|;
    Tail(p, t.s);
    var k := u.i - t.i;
    assert n[t.i..][k..] == n[u.i..];
    if u.any >= 0 && Matches(p[u.any..], n[u.i..]) {
      StarAbsorbs(p[u.any..], n[t.i..], k);
    } else if p[t.s] != '*' {
      if t.i < |n| {
        Tail(n, t.i);
      }
    }
  }

  /** A name the matcher accepts is in the language of the pattern. */
  lemma Soundness(p: string, n: string)
    requires NoTerminator(p) && NoTerminator(n) && Accepts(p, n, Start())
    ensures Matches(p, n)
  {
    Sound(p, n, Start());
    assert p[0..] == p && n[0..] == n;
  }

  // --------------------------------------------------------------------------------------
  // Completeness
  // --------------------------------------------------------------------------------------

  predicate Literal(c: char) {
    c != '*' && c != '?'
  }

  /** Literals and question marks from a to e. */
  predicate NoStar(p: string, a: nat, e: nat) {
    a <= e <= |p| && forall k :: a <= k < e ==> p[k] != '*'
  }

  /** The end of the run that starts at a. */
  function RunEnd(p: string, a: nat): (e: nat)
    requires a <= |p|
    ensures NoStar(p, a, e) && (e == |p| || p[e] == '*')
    decreases |p| - a
  {
    if a == |p| || p[a] == '*' then a else RunEnd(p, a + 1)
  }

  /** No literal from a on. */
  predicate WildTail(p: string, a: nat) {
    forall k :: a <= k < |p| ==> !Literal(p[k])
  }

  /** The character x may stand at c of a run. */
  predicate Fit(c: char, x: char) {
    c == '?' || c == x
  }

  /** Place q of the run at b and place q of the name from o on. */
  predicate Fits(p: string, b: nat, n: string, o: int, q: int) {
    0 <= b + q < |p| && 0 <= o + q < |n| && Fit(p[b + q], n[o + q])
  }

  /** Some character may stand at place q of the run at b, and at the place of a copy of the run
      that starts at j. */
  predicate Agree(p: string, b: nat, j: int, q: int) {
    0 <= j <= q && b + q < |p| && (p[b + q] == '?' || p[b + q - j] == '?' || p[b + q] == p[b + q - j])
  }

  /** The run from b to e can start over within itself at j, up to t, and then not: a name that
      goes on there the way the start of the run does is read past the place where the run
      begins. At the end of the pattern the whole run counts as well. */
  predicate Loses(p: string, b: nat, e: nat, j: nat, t: nat) {
    && 0 < j < t && b + t <= e <= |p|
    && (forall q :: j <= q < t ==> Agree(p, b, j, q))
    && if b + t < e then Literal(p[b + t]) && p[b + t - j] != p[b + t] else e == |p|
  }

  predicate Lossless(p: string, b: nat, e: nat) {
    forall j: nat, t: nat :: t <= |p| && j <= |p| ==> !Loses(p, b, e, j, t)
  }

  /** Behind the '*' at a there are no literals at all, or there is a run that begins with one and
      that the matcher cannot lose. */
  predicate GoodStar(p: string, a: nat)
    requires a < |p|
  {
    WildTail(p, a + 1) || (Literal(p[a + 1]) && Lossless(p, a + 1, RunEnd(p, a + 1)))
  }

  predicate Good(p: string) {
    forall a :: 0 <= a < |p| && p[a] == '*' ==> GoodStar(p, a)
  }

  lemma RunFacts(p: string, a: nat)
    requires Good(p) && a < |p| && p[a] == '*' && !WildTail(p, a + 1)
    ensures a + 1 < |p| && Literal(p[a + 1]) && Lossless(p, a + 1, RunEnd(p, a + 1))
  {
    assert GoodStar(p, a);
  }

  lemma {:induction false} WildMatchesNothing(p: string, s: nat)
    requires s <= |p|
    ensures Matches(p[s..], []) <==> WildTail(p, s)
    decreases |p| - s
  {
    if s < |p| {
      WildMatchesNothing(p, s + 1);
      Tail(p, s);
      var none: string := [];
      assert none[0..] == none;
      if p[s] == '*' && Matches(p[s..], []) {
        var k :| 0 <= k <= |none| && Matches(p[s..][1..], none[k..]);
      }
    }
  }

  /** A run that is matched at k: its characters stand there, and what is behind it matches the
      rest of the name; unless the name ends before. */
  lemma {:induction false} RunLands(p: string, a: nat, e: nat, n: string, k: nat)
    requires NoStar(p, a, e) && k <= |n| && Matches(p[a..], n[k..])
    ensures forall q :: 0 <= q < e - a && k + q < |n| ==> Fits(p, a, n, k, q)
    ensures if k + (e - a) <= |n| then Matches(p[e..], n[k + (e - a)..]) else WildTail(p, a + (|n| - k))
    decreases e - a
  {
    if k == |n| {
      assert n[k..] == [];
      WildMatchesNothing(p, a);
    } else if a < e {
      Tail(p, a);
      Tail(n, k);
      RunLands(p, a + 1, e, n, k + 1);
      hide Matches;
      FitsFrom(p, a, e, n, k, a + 1, k + 1);
    }
  }

  lemma FitsFrom(p: string, a: nat, e: nat, n: string, k: nat, a': nat, k': nat)
    requires a < e <= |p| && k < |n| && Fit(p[a], n[k]) && a' == a + 1 && k' == k + 1
    requires forall q :: 0 <= q < e - a' && k' + q < |n| ==> Fits(p, a', n, k', q)
    ensures forall q :: 0 <= q < e - a && k + q < |n| ==> Fits(p, a, n, k, q)
  {
    forall q | 0 <= q < e - a && k + q < |n|
      ensures Fits(p, a, n, k, q)
    {
      if q > 0 {
        assert Fits(p, a', n, k', q - 1);
      }
    }
  }

  /** The first places of the run at b stand in the name from o on. */
  ghost predicate RunFits(p: string, b: nat, n: string, o: int, places: int) {
    forall q :: 0 <= q < places ==> Fits(p, b, n, o, q)
  }

  /** Since the last '*' the run after it has been matched so far, from a place before which it
      cannot start. */
  ghost predicate Attempt(p: string, n: string, t: State) {
    t.any >= 0 && t.s > t.any && t.any + 1 < |p| && Literal(p[t.any + 1]) ==>
      && t.s <= RunEnd(p, t.any + 1) && t.m <= Origin(t) <= t.i <= |n|
      && RunFits(p, t.any + 1, n, Origin(t), t.s - t.any - 1)
      && forall k :: t.m <= k < Origin(t) ==> n[k] != p[t.any + 1]
  }

  /** Where the present attempt started. */
  function Origin(t: State): int {
    t.i - (t.s - t.any - 1)
  }

  /** The rest of the name can still be matched. */
  ghost predicate Hope(p: string, n: string, t: State)
    requires t.s <= |p| && t.i <= |n| && t.m <= |n| && t.any <= |p|
  {
    if t.any >= 0 then Matches(p[t.any..], n[t.m..]) else Matches(p[t.s..], n[t.i..])
  }

  /** A run is being looked for. */
  ghost predicate Seeking(p: string, n: string, t: State) {
    && Good(p) && Ok(p, n, t) && Attempt(p, n, t) && Hope(p, n, t)
    && t.any >= 0 && t.s > t.any && !WildTail(p, t.any + 1)
  }

  /** Any match of the rest from the last '*' on starts where the present attempt does, or
      later. */
  lemma Later(p: string, n: string, t: State) returns (k: nat)
    requires Seeking(p, n, t)
    ensures t.any + 1 < |p| && Origin(t) <= k < |n| && Matches(p[t.any + 1..], n[k..])
  {
    RunFacts(p, t.any);
    assert p[t.any] == '*' && t.m <= t.i <= |n|;
    assert Matches(p[t.any..], n[t.m..]);
    hide Matches, Good, WildTail, Loses, NoStar;
    k := HopeAt(p, n, t.any, t.m);
    StartsWith(p, n, t.any + 1, k);
  }

  lemma HopeAt(p: string, n: string, any: nat, m: nat) returns (k: nat)
    requires any < |p| && p[any] == '*' && m <= |n| && Matches(p[any..], n[m..])
    ensures m <= k <= |n| && Matches(p[any + 1..], n[k..])
  {
    Tail(p, any);
    var j :| 0 <= j <= |n[m..]| && Matches(p[any + 1..], n[m..][j..]);
    k := m + j;
    assert n[m..][j..] == n[k..];
  }

  lemma StartsWith(p: string, n: string, a: nat, k: nat)
    requires a < |p| && k <= |n| && Literal(p[a]) && Matches(p[a..], n[k..])
    ensures k < |n| && n[k] == p[a]
  {
    Tail(p, a);
    assert n[k..] != [];
    Tail(n, k);
  }

  lemma RunSoFar(p: string, n: string, t: State)
    requires Seeking(p, n, t)
    ensures t.any + 1 <= t.s <= |p| && NoStar(p, t.any + 1, t.s) && p[t.any] == '*'
    ensures 0 <= Origin(t) <= t.i <= |n|
  {
    RunFacts(p, t.any);
    hide Loses, Good;
  }

  /** A '*' with nothing but wildcards behind it matches everything. */
  lemma WildStar(p: string, n: string, s: nat)
    requires s < |p| && p[s] == '*' && WildTail(p, s)
    ensures Matches(p[s..], n)
  {
    WildMatchesNothing(p, s + 1);
    Tail(p, s);
    assert n[|n|..] == [];
    StarHere(p[s..], n, |n|);
  }

  /** A run that has been matched whole: the next '*' can take over here. */
  lemma NextStar(p: string, n: string, t: State)
    requires Seeking(p, n, t) && t.s < |p| && p[t.s] == '*'
    ensures Matches(p[t.s..], n[t.i..])
  {
    RunSoFar(p, n, t);
    var k := Later(p, n, t);
    assert t.i - (t.s - (t.any + 1)) <= k;
    hide *;
    StarTakesOver(p, n, t.any + 1, t.s, t.i, k);
  }

  lemma StarTakesOver(p: string, n: string, a: nat, s: nat, i: nat, k: nat)
    requires a <= s < |p| && p[s] == '*' && NoStar(p, a, s) && i <= |n|
    requires i - (s - a) <= k <= |n| && Matches(p[a..], n[k..])
    ensures Matches(p[s..], n[i..])
  {
    RunLands(p, a, s, n, k);
    if k + (s - a) <= |n| {
      hide *;
      StarAbsorbsAt(p, n, s, i, k + (s - a));
    } else {
      hide Matches, NoStar, Literal, Fits;
      WildStar(p, n[i..], s);
    }
  }

  lemma NotHere(p: string, n: string, s: nat, i: nat)
    requires s <= |p| && i <= |n| && (s < |p| || i < |n|) && NoTerminator(p) && NoTerminator(n)
    requires At(p, s) != '*' && At(p, s) != '?' && At(p, s) != At(n, i)
    ensures !Matches(p[s..], n[i..])
  {
    if s < |p| { Tail(p, s); }
    if i < |n| { Tail(n, i); }
  }

  /** A run matched up to s, and one that is there from k on before that: then the matcher can
      lose it. */
  lemma Overlap(p: string, n: string, b: nat, e: nat, s: nat, o: nat, k: nat)
    requires b <= s <= e <= |p| && o < k < o + (s - b) < |n| && NoStar(p, b, e)
    requires RunFits(p, b, n, o, s - b)
    requires forall q :: 0 <= q < e - b && k + q < |n| ==> Fits(p, b, n, k, q)
    requires if s < e then p[s] != '?' && p[s] != n[o + (s - b)] else e == |p|
    ensures Loses(p, b, e, k - o, s - b)
  {
    var j, t := k - o, s - b;
    forall q | j <= q < t
      ensures Agree(p, b, j, q)
    {
      assert Fits(p, b, n, o, q) && Fits(p, b, n, k, q - j);
    }
    if s < e {
      assert Fits(p, b, n, k, t - j);
    }
  }

  lemma OverlapHere(p: string, n: string, t: State, k: nat)
    requires Seeking(p, n, t) && t.i < |n|
    requires At(p, t.s) != '*' && At(p, t.s) != '?' && At(p, t.s) != At(n, t.i)
    requires t.any + 1 < |p| && Origin(t) < k <= |n| && Matches(p[t.any + 1..], n[k..])
    ensures k >= t.i
  {
    RunFacts(p, t.any);
    var b, e := t.any + 1, RunEnd(p, t.any + 1);
    RunLands(p, b, e, n, k);
    hide Matches, Good, WildTail, Hope, Literal, Fits, NoStar;
    if k < t.i {
      Overlap(p, n, b, e, t.s, Origin(t), k);
    }
  }

  /** A mismatch: no match starts before what has been read. */
  lemma Retry(p: string, n: string, t: State)
    requires NoTerminator(p) && NoTerminator(n) && Seeking(p, n, t) && t.i < |n|
    requires At(p, t.s) != '*' && At(p, t.s) != '?' && At(p, t.s) != At(n, t.i)
    ensures Matches(p[t.any..], n[t.i..])
  {
    RunSoFar(p, n, t);
    hide Matches, Attempt, Ok, Hope, Good, RunEnd, Loses, WildTail, Seeking, NoStar, Fits;
    var k := Later(p, n, t);
    if k == Origin(t) {
      NotHere(p, n, t.s, t.i);
      RunLands(p, t.any + 1, t.s, n, k);
    } else {
      OverlapHere(p, n, t, k);
    }
    StarFrom(p, n, t.any, t.i, k);
  }

  lemma StarFrom(p: string, n: string, any: nat, i: nat, k: nat)
    requires any < |p| && p[any] == '*' && i <= k <= |n| && Matches(p[any + 1..], n[k..])
    ensures Matches(p[any..], n[i..])
  {
    hide Matches;
    Tail(p, any);
    assert n[i..][k - i..] == n[k..];
    StarHere(p[any..], n[i..], k - i);
  }

  lemma StarHere(p: string, n: string, k: nat)
    requires |p| > 0 && p[0] == '*' && k <= |n| && Matches(p[1..], n[k..])
    ensures Matches(p, n)
  {}

  /** What holds at every turn while the rest of the name can be matched. */
  ghost predicate Hopeful(p: string, n: string, t: State) {
    && NoTerminator(p) && NoTerminator(n) && Good(p)
    && Ok(p, n, t) && Attempt(p, n, t) && Hope(p, n, t) && (t.any >= 0 && t.s == t.any ==> t.i == t.m)
  }

  lemma FirstStep(p: string, n: string, t: State)
    requires NoTerminator(p) && NoTerminator(n)
    requires Ok(p, n, t) && Hope(p, n, t) && !AtEnd(p, n, t) && t.any < 0 && At(p, t.s) != '*'
    ensures Turn(p, n, t).Some? && var u := Turn(p, n, t).t; u.any < 0 && u.s <= |p| && u.i <= |n| && u.m <= |n| && Hope(p, n, u)
  {
    if t.s < |p| {
      Tail(p, t.s);
      if t.i < |n| { Tail(n, t.i); }
    }
  }

  /** Before the first '*'. */
  lemma FirstHopes(p: string, n: string, t: State)
    requires Hopeful(p, n, t) && !AtEnd(p, n, t) && t.any < 0 && At(p, t.s) != '*'
    ensures Turn(p, n, t).Some? && Hopeful(p, n, Turn(p, n, t).t)
  {
    TurnOk(p, n, t);
    FirstStep(p, n, t);
    hide Good, Matches, Hope, Turn, Ok;
  }

  lemma StarStep(p: string, n: string, t: State)
    requires Hopeful(p, n, t) && t.s < |p| && p[t.s] == '*' && !Coasting(p, t)
    ensures Turn(p, n, t).Some? && var u := Turn(p, n, t).t;
            u.any == t.s < u.s <= |p| && u.i <= |n| && u.m <= |n| && Attempt(p, n, u) && Hope(p, n, u)
  {
    hide Matches, Good, WildTail;
    if 0 <= t.any < t.s {
      NextStar(p, n, t);
    }
    hide Ok;
  }

  /** At a '*'. */
  lemma StarHopes(p: string, n: string, t: State)
    requires Hopeful(p, n, t) && t.s < |p| && p[t.s] == '*' && !Coasting(p, t)
    ensures Turn(p, n, t).Some? && Hopeful(p, n, Turn(p, n, t).t)
  {
    TurnOk(p, n, t);
    StarStep(p, n, t);
    hide Good, Matches, Hope, Turn, Ok, Attempt, Coasting;
  }

  lemma RetryHopes(p: string, n: string, t: State)
    requires Hopeful(p, n, t) && t.i < |n| && 0 <= t.any < t.s && !Coasting(p, t)
    requires At(p, t.s) != '*' && At(p, t.s) != '?' && At(p, t.s) != At(n, t.i)
    ensures Turn(p, n, t).Some? && Hopeful(p, n, Turn(p, n, t).t)
  {
    TurnOk(p, n, t);
    hide Matches, Good, WildTail;
    Retry(p, n, t);
  }

  /** The run goes on. */
  lemma MoreHopes(p: string, n: string, t: State)
    requires Hopeful(p, n, t) && t.i < |n| && 0 <= t.any < t.s < |p| && !Coasting(p, t)
    requires p[t.s] != '*' && Fit(p[t.s], n[t.i])
    ensures Turn(p, n, t).Some? && Hopeful(p, n, Turn(p, n, t).t)
  {
    TurnOk(p, n, t);
    var u := Turn(p, n, t).t;
    assert u == t.(s := t.s + 1, i := t.i + 1);
    RunFacts(p, t.any);
    hide Loses, Good, Matches;
    AttemptMore(p, n, t);
    hide Attempt, Ok, Turn, Coasting, WildTail;
  }

  lemma AttemptMore(p: string, n: string, t: State)
    requires Ok(p, n, t) && Attempt(p, n, t) && 0 <= t.any < t.s < |p| && t.i < |n| && p[t.s] != '*' && Fit(p[t.s], n[t.i])
    ensures Attempt(p, n, t.(s := t.s + 1, i := t.i + 1))
  {}

  /** The last '*' turned to has no literals behind it. */
  predicate Coasting(p: string, t: State) {
    t.any >= 0 && WildTail(p, t.any + 1)
  }

  /** A turn before the end of the name keeps all of it, and does not give up. */
  lemma TurnHopes(p: string, n: string, t: State)
    requires Hopeful(p, n, t) && t.i < |n| && !Coasting(p, t)
    ensures Turn(p, n, t).Some? && Hopeful(p, n, Turn(p, n, t).t)
  {
    assert -1 <= t.any <= t.s <= |p| && (t.any >= 0 ==> p[t.any] == '*');
    assert At(p, t.s) == At(n, t.i) ==> t.s < |p|;
    hide Matches, Good, Ok, Attempt, Hope, Hopeful, Turn, Coasting;
    if At(p, t.s) == '*' {
      StarHopes(p, n, t);
    } else if t.any < 0 {
      FirstHopes(p, n, t);
    } else if At(p, t.s) == '?' || At(p, t.s) == At(n, t.i) {
      MoreHopes(p, n, t);
    } else {
      RetryHopes(p, n, t);
    }
  }

  /** With the name used up only wildcards can be left. */
  lemma UsedUp(p: string, n: string, t: State)
    requires Hopeful(p, n, t) && t.i == |n| && !Coasting(p, t)
    ensures WildTail(p, t.s)
  {
    if 0 <= t.any < t.s {
      RunBehind(p, n, t);
    } else {
      hide Good, Attempt;
      var q := if t.any >= 0 then t.any else t.s;
      assert q == t.s && n[t.i..] == [] && Matches(p[t.s..], []);
      WildMatchesNothing(p, t.s);
    }
  }

  lemma RunBehind(p: string, n: string, t: State)
    requires Hopeful(p, n, t) && t.i == |n| && !Coasting(p, t) && 0 <= t.any < t.s
    ensures WildTail(p, t.s)
  {
    RunFacts(p, t.any);
    RunSoFar(p, n, t);
    var k := Later(p, n, t);
    hide Good, Attempt, Hope, Matches, Lossless, NoStar;
    var b := t.any + 1;
    RunLands(p, b, t.s, n, k);
    if k + (t.s - b) <= |n| {
      assert k + (t.s - b) == |n| && n[|n|..] == [];
      WildMatchesNothing(p, t.s);
    }
  }

  /** With only wildcards left everything is accepted at the end of the name. */
  lemma {:induction false} EndAccepts(p: string, n: string, t: State)
    requires NoTerminator(p) && NoTerminator(n) && Ok(p, n, t) && t.i == |n| && WildTail(p, t.s)
    ensures Accepts(p, n, t)
    decreases |p| - t.any, |n| - t.m, |p| - t.s
  {
    if !AtEnd(p, n, t) {
      TurnOk(p, n, t);
      assert !Literal(p[t.s]);
      EndAccepts(p, n, Turn(p, n, t).t);
    }
  }

  /** With no literals behind the last '*' every name is accepted. */
  lemma {:induction false} CoastingAccepts(p: string, n: string, t: State)
    requires NoTerminator(p) && NoTerminator(n) && Ok(p, n, t) && Coasting(p, t)
    ensures Accepts(p, n, t)
    decreases |p| - t.any, |n| - t.m, |p| - t.s
  {
    if !AtEnd(p, n, t) {
      TurnOk(p, n, t);
      assert t.s < |p| ==> !Literal(p[t.s]) by { if t.s == t.any { assert p[t.any] == '*'; } }
      CoastingAccepts(p, n, Turn(p, n, t).t);
    }
  }

  lemma {:induction false} Complete(p: string, n: string, t: State)
    requires Hopeful(p, n, t)
    ensures Accepts(p, n, t)
    decreases |p| - t.any, |n| - t.m, |p| - t.s
  {
    hide Attempt, Hope, Good, WildTail;
    if Coasting(p, t) {
      CoastingAccepts(p, n, t);
    } else if t.i == |n| {
      UsedUp(p, n, t);
      EndAccepts(p, n, t);
    } else {
      TurnOk(p, n, t);
      TurnHopes(p, n, t);
      Complete(p, n, Turn(p, n, t).t);
    }
  }

  /** For patterns whose stars are good, the matcher accepts exactly the language. */
  lemma ExactForGood(p: string, n: string)
    requires NoTerminator(p) && NoTerminator(n) && Good(p)
    ensures Accepts(p, n, Start()) <==> Matches(p, n)
  {
    assert p[0..] == p && n[0..] == n;
    if Accepts(p, n, Start()) {
      Soundness(p, n);
    }
    if Matches(p, n) {
      Complete(p, n, Start());
    }
  }

  lemma Meaning(p: string, n: string)
    requires NoTerminator(p) && NoTerminator(n)
    ensures Accepts(p, n, Start()) ==> Matches(p, n)
    ensures Good(p) ==> (Accepts(p, n, Start()) <==> Matches(p, n))
  {
    if Accepts(p, n, Start()) { Soundness(p, n); }
    if Good(p) { ExactForGood(p, n); }
  }

  // --------------------------------------------------------------------------------------
  // Names that are missed
  // --------------------------------------------------------------------------------------

  /** No wildcards, no terminator. */
  predicate PlainName(n: string) {
    forall i :: 0 <= i < |n| ==> Literal(n[i]) && n[i] != '\0'
  }

  /** The shortest name of the rest of a pattern: its literals, and one character for every '?'
      in front of one. */
  function Fill(p: string, s: nat): (r: string)
    requires s <= |p|
    ensures WildTail(p, s) ==> r == []
    decreases |p| - s
  {
    if WildTail(p, s) then []
    else if p[s] == '*' then Fill(p, s + 1)
    else if p[s] == '?' then ['x'] + Fill(p, s + 1)
    else [p[s]] + Fill(p, s + 1)
  }

  lemma {:induction false} FillPlain(p: string, s: nat)
    requires s <= |p| && NoTerminator(p)
    ensures PlainName(Fill(p, s)) && (!WildTail(p, s) ==> Fill(p, s) != [])
    decreases |p| - s
  {
    if !WildTail(p, s) {
      FillPlain(p, s + 1);
    }
  }

  lemma {:induction false} FillMatches(p: string, s: nat)
    requires s <= |p|
    ensures Matches(p[s..], Fill(p, s))
    decreases |p| - s
  {
    if WildTail(p, s) {
      WildMatchesNothing(p, s);
    } else {
      FillMatches(p, s + 1);
      Tail(p, s);
      assert Fill(p, s + 1)[0..] == Fill(p, s + 1);
    }
  }

  /** No name of the rest of a pattern is shorter. */
  lemma {:induction false} FillShortest(p: string, s: nat, n: string)
    requires s <= |p| && NoTerminator(p) && Matches(p[s..], n)
    ensures |Fill(p, s)| <= |n|
    decreases |p| - s
  {
    if !WildTail(p, s) {
      Tail(p, s);
      if p[s] == '*' {
        var k :| 0 <= k <= |n| && Matches(p[s..][1..], n[k..]);
        FillShortest(p, s + 1, n[k..]);
      } else {
        var rest := if n == [] then [] else n[1..];
        FillShortest(p, s + 1, rest);
        if p[s] == '?' && n == [] {
          assert exists k :: s <= k < |p| && Literal(p[k]);
          FillPlain(p, s + 1);
        }
      }
    }
  }

  // A '*' that is followed by another wildcard and later by a literal

  /** Behind the '*' at a comes another wildcard, and further on a literal, at b. */
  predicate Blocked(p: string, a: nat, b: nat) {
    a + 1 < b < |p| && p[a] == '*' && !Literal(p[a + 1]) && Literal(p[b])
  }

  /** With the name used up a literal cannot be passed. */
  lemma {:induction false} EndFails(p: string, n: string, t: State, b: nat)
    requires NoTerminator(p) && NoTerminator(n) && Ok(p, n, t)
    requires t.i == |n| && t.s <= b < |p| && Literal(p[b])
    ensures !Accepts(p, n, t)
    decreases |p| - t.any, |n| - t.m, |p| - t.s
  {
    TurnOk(p, n, t);
    if Turn(p, n, t).Some? {
      EndFails(p, n, Turn(p, n, t).t, b);
    }
  }

  /** The matcher takes the other wildcard for a character it looks for in the name. */
  lemma {:induction false} BlockedFails(p: string, n: string, t: State, a: nat, b: nat)
    requires NoTerminator(p) && NoTerminator(n) && Ok(p, n, t) && Blocked(p, a, b) && t.s <= a
    requires forall i :: 0 <= i < |n| ==> n[i] != p[a + 1]
    ensures !Accepts(p, n, t)
    decreases |p| - t.any, |n| - t.m, |p| - t.s
  {
    TurnOk(p, n, t);
    if Turn(p, n, t).Some? {
      var u := Turn(p, n, t).t;
      if u.s <= a {
        BlockedFails(p, n, u, a, b);
      } else {
        EndFails(p, n, u, b);
      }
    }
  }

  /** Such a pattern accepts no name without the other wildcard in it, though its language has
      names without any. */
  lemma BlockedRejects(p: string, a: nat, b: nat)
    requires NoTerminator(p) && Blocked(p, a, b)
    ensures forall n :: NoTerminator(n) && (forall i :: 0 <= i < |n| ==> n[i] != p[a + 1]) ==> !Accepts(p, n, Start())
    ensures PlainName(Fill(p, 0)) && Matches(p, Fill(p, 0)) && !Accepts(p, Fill(p, 0), Start())
  {
    forall n | NoTerminator(n) && forall i :: 0 <= i < |n| ==> n[i] != p[a + 1]
      ensures !Accepts(p, n, Start())
    {
      BlockedFails(p, n, Start(), a, b);
    }
    FillPlain(p, 0);
    FillMatches(p, 0);
    assert p[0..] == p;
    var n := Fill(p, 0);
    assert NoTerminator(n) && forall i :: 0 <= i < |n| ==> n[i] != p[a + 1];
  }

  /** Two '*' in front of literals reject every name without a '*'. */
  lemma DoubleStarRejects(w: string, n: string)
    requires w != [] && PlainName(w) && NoTerminator(n)
    requires forall i :: 0 <= i < |n| ==> n[i] != '*'
    ensures NoTerminator(['*', '*'] + w) && !Accepts(['*', '*'] + w, n, Start())
  {
    var p := ['*', '*'] + w;
    assert p[2] == w[0] && forall k :: 2 <= k < |p| ==> p[k] == w[k - 2];
    BlockedFails(p, n, Start(), 0, 2);
  }

  // A run that can be lost

  /** A character for the place c of a run. */
  function Inst(c: char): char {
    if c == '?' then 'x' else c
  }

  function Other(c: char): char {
    if c == 'x' then 'y' else 'x'
  }

  /** How many characters of the run from b to e the shortest name of the pattern from b on has. */
  function Core(p: string, b: nat, e: nat): nat
    requires b <= e <= |p|
  {
    if WildTail(p, e) then |Fill(p, b)| else e - b
  }

  /** The shortest name has a character for every place of the run, or for those up to its last
      literal, and nothing behind them. */
  lemma {:induction false} FillRun(p: string, b: nat, e: nat)
    requires NoStar(p, b, e)
    ensures if WildTail(p, e) then |Fill(p, b)| <= e - b && WildTail(p, b + |Fill(p, b)|)
            else |Fill(p, b)| >= e - b && Fill(p, b)[e - b..] == Fill(p, e)
    ensures forall k :: b <= k < e && Literal(p[k]) ==> k - b < |Fill(p, b)|
    decreases e - b
  {
    if b < e {
      FillRun(p, b + 1, e);
      if !WildTail(p, b) {
        assert |Fill(p, b)| == 1 + |Fill(p, b + 1)|;
        if !WildTail(p, e) {
          assert Fill(p, b)[e - b..] == Fill(p, b + 1)[e - (b + 1)..];
        }
      }
    } else {
      assert Fill(p, e)[0..] == Fill(p, e);
    }
  }

  /** How far the two copies of the run go together. */
  function Reach(p: string, b: nat, e: nat, j: nat, t: nat): nat
    requires b <= e <= |p|
  {
    var l := j + Core(p, b, e);
    if b + t < e || t < l then l else t + 1
  }

  /** The name that is lost, from the run on: place q of it is a place of the first copy of the
      run, then of the second, which starts at j. Up to t both fit; at t the first does not. */
  function Place(p: string, b: nat, e: nat, j: nat, t: nat, q: nat): char
    requires Loses(p, b, e, j, t) && q - j < e - b
  {
    if q < j then Inst(p[b + q])
    else if p[b + q - j] != '?' then p[b + q - j]
    else if q < t then Inst(p[b + q])
    else if q == t then Other(if b + t < e then p[b + t] else p[b])
    else 'x'
  }

  /** A run behind a '*' that begins with a literal and can be lost. */
  ghost predicate Losing(p: string, a: nat, e: nat, j: nat, t: nat) {
    && NoTerminator(p) && a + 1 < e <= |p| && p[a] == '*' && Literal(p[a + 1]) && NoStar(p, a + 1, e)
    && (e == |p| || p[e] == '*') && Loses(p, a + 1, e, j, t)
  }

  lemma ReachFits(p: string, a: nat, e: nat, j: nat, t: nat)
    requires Losing(p, a, e, j, t)
    ensures var b := a + 1;
            && t < Reach(p, b, e, j, t) <= j + (e - b) && 0 < Core(p, b, e) <= |Fill(p, b)|
            && j + Core(p, b, e) <= Reach(p, b, e, j, t)
            && (b + t < e ==> Reach(p, b, e, j, t) == j + Core(p, b, e))
  {
    FillRun(p, a + 1, e);
    hide Fill;
  }

  function Twice(p: string, a: nat, e: nat, j: nat, t: nat): string
    requires Losing(p, a, e, j, t)
  {
    var b := a + 1;
    ReachFits(p, a, e, j, t);
    seq(Reach(p, b, e, j, t), q requires 0 <= q < Reach(p, b, e, j, t) => Place(p, b, e, j, t, q)) + Fill(p, b)[Core(p, b, e)..]
  }

  lemma TwiceAt(p: string, a: nat, e: nat, j: nat, t: nat, q: nat)
    requires Losing(p, a, e, j, t)
    ensures |Twice(p, a, e, j, t)| == Reach(p, a + 1, e, j, t) + |Fill(p, a + 1)| - Core(p, a + 1, e)
    ensures q < Reach(p, a + 1, e, j, t) ==>
              && q - j < e - (a + 1) && q < |Twice(p, a, e, j, t)|
              && Twice(p, a, e, j, t)[q] == Place(p, a + 1, e, j, t, q)
  {
    ReachFits(p, a, e, j, t);
    hide Fill, Core, Reach, Place, Loses;
  }

  /** The first copy fits up to t, and there it does not. */
  lemma TwiceFirst(p: string, a: nat, e: nat, j: nat, t: nat, q: nat)
    requires Losing(p, a, e, j, t) && q <= t
    ensures q < |Twice(p, a, e, j, t)|
    ensures q < t ==> Fit(p[a + 1 + q], Twice(p, a, e, j, t)[q])
    ensures q == t ==> a + 1 + t <= e && (if a + 1 + t < e then p[a + 1 + t] else '\0') != Twice(p, a, e, j, t)[q]
  {
    ReachFits(p, a, e, j, t);
    TwiceAt(p, a, e, j, t, q);
    hide Fill, Twice, Core, Reach, NoStar;
    if j <= q < t {
      assert Agree(p, a + 1, j, q);
    }
  }

  /** Characters that fit a run, and a match behind them. */
  lemma {:induction false} RunMatches(p: string, b: nat, c: nat, n: string)
    requires NoStar(p, b, c) && c - b <= |n| && Matches(p[c..], n[c - b..])
    requires RunFits(p, b, n, 0, c - b)
    ensures Matches(p[b..], n)
    decreases c - b
  {
    if b < c {
      Tail(p, b);
      var r := n[1..];
      FitsBehind(p, b, n, c - b, b + 1, r);
      assert r[c - (b + 1)..] == n[c - b..];
      RunMatches(p, b + 1, c, r);
      assert Fits(p, b, n, 0, 0);
    } else {
      assert n[0..] == n;
    }
  }

  lemma FitsBehind(p: string, b: nat, n: string, places: nat, b': nat, r: string)
    requires RunFits(p, b, n, 0, places) && 0 < places <= |n| && r == n[1..] && b' == b + 1
    ensures RunFits(p, b', r, 0, places - 1)
  {
    forall q | 0 <= q < places - 1
      ensures Fits(p, b', r, 0, q)
    {
      assert Fits(p, b, n, 0, q + 1);
    }
  }

  /** The second copy is in the language. */
  lemma TwiceSecond(p: string, a: nat, e: nat, j: nat, t: nat)
    requires Losing(p, a, e, j, t)
    ensures j <= |Twice(p, a, e, j, t)| && Matches(p[a + 1..], Twice(p, a, e, j, t)[j..])
  {
    var b, n, l := a + 1, Twice(p, a, e, j, t), Reach(p, a + 1, e, j, t);
    ReachFits(p, a, e, j, t);
    TwiceAt(p, a, e, j, t, 0);
    SecondRest(p, a, e, j, t);
    hide Fill, Twice, Core, Reach, Matches;
    assert n[j..][l - j..] == n[l..];
    forall q | 0 <= q < l - j
      ensures Fits(p, b, n[j..], 0, q)
    {
      TwiceAt(p, a, e, j, t, j + q);
    }
    RunMatches(p, b, b + (l - j), n[j..]);
  }

  /** What the shortest name has behind its characters of the run matches there, and from any
      place after those as well. */
  lemma CoreRest(p: string, b: nat, e: nat, d: nat)
    requires NoStar(p, b, e) && Core(p, b, e) <= d <= e - b
    ensures Core(p, b, e) <= |Fill(p, b)| && Matches(p[b + d..], Fill(p, b)[Core(p, b, e)..])
  {
    FillRun(p, b, e);
    hide Matches, NoStar, Literal;
    if WildTail(p, e) {
      assert Fill(p, b)[|Fill(p, b)|..] == [];
      WildMatchesNothing(p, b + d);
    } else {
      FillMatches(p, e);
    }
  }

  lemma SecondRest(p: string, a: nat, e: nat, j: nat, t: nat)
    requires Losing(p, a, e, j, t)
    ensures var l, n := Reach(p, a + 1, e, j, t), Twice(p, a, e, j, t);
            j <= l <= |n| && a + 1 + (l - j) <= e && Matches(p[a + 1 + (l - j)..], n[l..])
  {
    ReachFits(p, a, e, j, t);
    TwiceRest(p, a, e, j, t);
    hide Twice, Matches, Fill, Core, Reach, Loses;
    CoreRest(p, a + 1, e, Reach(p, a + 1, e, j, t) - j);
  }

  lemma TwiceRest(p: string, a: nat, e: nat, j: nat, t: nat)
    requires Losing(p, a, e, j, t)
    ensures var l, n := Reach(p, a + 1, e, j, t), Twice(p, a, e, j, t);
            Core(p, a + 1, e) <= |Fill(p, a + 1)| && l <= |n| && n[l..] == Fill(p, a + 1)[Core(p, a + 1, e)..]
  {
    ReachFits(p, a, e, j, t);
    hide Fill, Core, Reach, Losing;
  }

  lemma TwicePlain(p: string, a: nat, e: nat, j: nat, t: nat)
    requires Losing(p, a, e, j, t)
    ensures NoTerminator(Twice(p, a, e, j, t))
  {
    var n := Twice(p, a, e, j, t);
    FillPlain(p, a + 1);
    ReachFits(p, a, e, j, t);
    TwiceAt(p, a, e, j, t, 0);
    forall q | 0 <= q < |n|
      ensures n[q] != '\0'
    {
      if q < Reach(p, a + 1, e, j, t) {
        TwiceAt(p, a, e, j, t, q);
      }
    }
  }

  /** The shortest name of a pattern up to the '*' at a, and then x. */
  function Before(p: string, s: nat, a: nat, x: string): string
    requires s <= a < |p|
    decreases a - s
  {
    if s == a then x
    else if p[s] == '*' then Before(p, s + 1, a, x)
    else [Inst(p[s])] + Before(p, s + 1, a, x)
  }

  lemma {:induction false} BeforeMatches(p: string, s: nat, a: nat, x: string, j: nat)
    requires s <= a < |p| && p[a] == '*' && j <= |x| && Matches(p[a + 1..], x[j..])
    ensures Matches(p[s..], Before(p, s, a, x))
    decreases a - s
  {
    Tail(p, s);
    if s == a {
      StarHere(p[a..], x, j);
    } else {
      BeforeMatches(p, s + 1, a, x, j);
      assert Before(p, s + 1, a, x)[0..] == Before(p, s + 1, a, x);
    }
  }

  lemma {:induction false} BeforePlain(p: string, s: nat, a: nat, x: string)
    requires s <= a < |p| && NoTerminator(p) && NoTerminator(x)
    ensures NoTerminator(Before(p, s, a, x))
    decreases a - s
  {
    if s < a {
      BeforePlain(p, s + 1, a, x);
    }
  }

  /** When the matcher turns back there, what is left cannot be matched from the '*' on. */
  lemma TooShort(p: string, n: string, u: State, a: nat, e: nat, j: nat, t: nat)
    requires Losing(p, a, e, j, t) && NoTerminator(n) && Ok(p, n, u) && u.any == u.s == a
    requires t < |Twice(p, a, e, j, t)| && n[u.i..] == Twice(p, a, e, j, t)[t..]
    ensures !Accepts(p, n, u)
  {
    if Accepts(p, n, u) {
      Sound(p, n, u);
      assert Matches(p[a..], n[u.i..]);
      var k := HopeAt(p, n, a, u.i);
      ShortAndOther(p, a, e, j, t);
      hide Matches, Fill, Twice, Losing, Accepts, Ok;
      assert |n[u.i..]| == |n| - u.i;
      StartsWith(p, n, a + 1, k);
      FillShortest(p, a + 1, n[k..]);
    }
  }

  /** It is shorter than the shortest name, or one character that the run does not start with. */
  lemma ShortAndOther(p: string, a: nat, e: nat, j: nat, t: nat)
    requires Losing(p, a, e, j, t)
    ensures var n := Twice(p, a, e, j, t);
            && t < |n| && a + 1 < |p| && Literal(p[a + 1]) && NoTerminator(p)
            && (|n| - t < |Fill(p, a + 1)| || (|n| - t == 1 && n[t] != p[a + 1]))
  {
    var b, n := a + 1, Twice(p, a, e, j, t);
    ReachFits(p, a, e, j, t);
    TwiceAt(p, a, e, j, t, t);
    FillRun(p, b, e);
    hide Twice, Fill, NoStar;
    if b + t == e && Reach(p, b, e, j, t) != j + Core(p, b, e) {
      assert Core(p, b, e) == |Fill(p, b)| && |n| == t + 1;
      if |Fill(p, b)| == 1 {
        assert !Literal(p[b + t - j]);
      }
    }
  }

  /** The first attempt matches up to t, and by then has read past the place where the run
      begins. */
  lemma {:induction false} Stumbles(p: string, n: string, st: State, a: nat, e: nat, j: nat, t: nat, o: nat, q: nat)
    requires Losing(p, a, e, j, t) && NoTerminator(n) && o <= |n| && n[o..] == Twice(p, a, e, j, t)
    requires q <= t && st.s == a + 1 + q && st.i == o + q && st.any == a && Ok(p, n, st)
    ensures !Accepts(p, n, st)
    decreases t - q
  {
    TwiceFirst(p, a, e, j, t, q);
    var x := Twice(p, a, e, j, t);
    assert |x| == |n| - o && x[q] == n[o + q];
    RunPlace(p, a, e, j, t, q);
    hide Twice, Losing, Loses, Turn;
    TurnOk(p, n, st);
    if q < t {
      FitTurn(p, n, st);
      Stumbles(p, n, st.(s := st.s + 1, i := st.i + 1), a, e, j, t, o, q + 1);
    } else {
      Stops(p, a, e, j, t);
      BackTurn(p, n, st);
      assert n[st.i..] == x[t..];
      TooShort(p, n, State(a, st.i, a, st.i), a, e, j, t);
    }
  }

  lemma FitTurn(p: string, n: string, st: State)
    requires st.s < |p| && st.i < |n| && p[st.s] != '*' && Fit(p[st.s], n[st.i])
    ensures Turn(p, n, st) == Some(st.(s := st.s + 1, i := st.i + 1))
  {}

  lemma BackTurn(p: string, n: string, st: State)
    requires st.s <= |p| && st.i < |n| && At(p, st.s) != '*' && At(p, st.s) != '?' && At(p, st.s) != n[st.i] && st.any >= 0
    ensures Turn(p, n, st) == Some(State(st.any, st.i, st.any, st.i))
  {}

  lemma RunPlace(p: string, a: nat, e: nat, j: nat, t: nat, q: nat)
    requires Losing(p, a, e, j, t) && q <= t
    ensures NoTerminator(p) && (q < t ==> a + 1 + q < |p| && p[a + 1 + q] != '*')
  {}

  lemma Stops(p: string, a: nat, e: nat, j: nat, t: nat)
    requires Losing(p, a, e, j, t)
    ensures a + 1 + t <= |p| && At(p, a + 1 + t) == (if a + 1 + t < e then p[a + 1 + t] else '\0')
    ensures At(p, a + 1 + t) != '*' && At(p, a + 1 + t) != '?'
  {}

  /** No '*' before a is blocked. */
  ghost predicate Clear(p: string, a: nat) {
    forall c: nat, b: nat :: c < a ==> !Blocked(p, c, b)
  }

  /** Up to the '*' at a the name is matched straight away. */
  lemma {:induction false} Straight(p: string, n: string, st: State, a: nat, e: nat, j: nat, t: nat)
    requires Losing(p, a, e, j, t) && NoTerminator(n) && Clear(p, a)
    requires Ok(p, n, st) && st.s <= a && st.any < st.s && n[st.i..] == Before(p, st.s, a, Twice(p, a, e, j, t))
    ensures !Accepts(p, n, st)
    decreases a - st.s
  {
    TurnOk(p, n, st);
    TwiceStarts(p, a, e, j, t);
    assert Literal(p[a + 1]) && p[a] == '*';
    StraightTurn(p, n, st, a, Twice(p, a, e, j, t));
    hide Ok, Turn, Losing, Clear, Twice, Before;
    var u := Turn(p, n, st).t;
    if st.s == a {
      Stumbles(p, n, u, a, e, j, t, st.i, 0);
    } else {
      Straight(p, n, u, a, e, j, t);
    }
  }

  lemma TwiceStarts(p: string, a: nat, e: nat, j: nat, t: nat)
    requires Losing(p, a, e, j, t)
    ensures Twice(p, a, e, j, t) != [] && Twice(p, a, e, j, t)[0] == p[a + 1]
  {
    TwiceFirst(p, a, e, j, t, 0);
    hide Twice;
  }

  lemma StraightTurn(p: string, n: string, st: State, a: nat, x: string)
    requires NoTerminator(p) && a + 1 < |p| && p[a] == '*' && Literal(p[a + 1]) && Clear(p, a)
    requires x != [] && x[0] == p[a + 1]
    requires st.s <= a && st.any < st.s && st.i <= |n| && n[st.i..] == Before(p, st.s, a, x)
    ensures !AtEnd(p, n, st) && Turn(p, n, st).Some?
    ensures var u := Turn(p, n, st).t;
            && u.s == st.s + 1 && u.any < u.s && u.i <= |n|
            && if st.s == a then u.i == st.i && u.any == a && n[st.i..] == x else n[u.i..] == Before(p, u.s, a, x)
  {
    var s, i := st.s, st.i;
    if s == a {
      assert n[i..][0] == p[a + 1];
    } else if p[s] == '*' {
      assert Literal(p[s + 1]) by { if !Literal(p[s + 1]) { assert Blocked(p, s, a + 1); } }
      assert n[i..][0] == p[s + 1];
    } else {
      assert n[i..] != [] && n[i..][0] == n[i] && n[i..][1..] == n[i + 1..];
      assert n[i + 1..] == Before(p, s + 1, a, x);
    }
  }

  /** A run that can be lost: a name with the start of the run in it twice is in the language and
      rejected. */
  lemma LostName(p: string, a: nat, e: nat, j: nat, t: nat)
    requires Losing(p, a, e, j, t) && Clear(p, a)
    ensures var n := Before(p, 0, a, Twice(p, a, e, j, t)); NoTerminator(n) && Matches(p, n) && !Accepts(p, n, Start())
  {
    var x := Twice(p, a, e, j, t);
    var n := Before(p, 0, a, x);
    TwicePlain(p, a, e, j, t);
    TwiceSecond(p, a, e, j, t);
    BeforePlain(p, 0, a, x);
    BeforeMatches(p, 0, a, x, j);
    assert p[0..] == p && n[0..] == n;
    hide Twice, Matches, Before;
    Straight(p, n, Start(), a, e, j, t);
  }

  ghost predicate AlwaysRight(p: string)
    requires NoTerminator(p)
  {
    forall n :: NoTerminator(n) ==> (Accepts(p, n, Start()) <==> Matches(p, n))
  }

  /** The matcher is right about every name if and only if no '*' is blocked and no run can be
      lost. */
  lemma ExactIff(p: string)
    requires NoTerminator(p)
    ensures AlwaysRight(p) <==> Good(p)
  {
    if Good(p) {
      forall n | NoTerminator(n)
        ensures Accepts(p, n, Start()) <==> Matches(p, n)
      {
        ExactForGood(p, n);
      }
    } else {
      Missed(p);
    }
  }

  lemma Missed(p: string)
    requires NoTerminator(p) && !Good(p)
    ensures !AlwaysRight(p)
  {
    var a :| 0 <= a < |p| && p[a] == '*' && !GoodStar(p, a);
    if c, b :| 0 <= c < |p| && Blocked(p, c, b) {
      BlockedRejects(p, c, b);
      assert NoTerminator(Fill(p, 0));
    } else {
      var l :| a + 1 <= l < |p| && Literal(p[l]);
      assert Blocked(p, a, l) || Literal(p[a + 1]);
      var e := RunEnd(p, a + 1);
      assert !Lossless(p, a + 1, e);
      var j: nat, t: nat :| t <= |p| && j <= |p| && Loses(p, a + 1, e, j, t);
      hide Matches, Twice, Before, Fill, WildTail;
      LostName(p, a, e, j, t);
      assert NoTerminator(Before(p, 0, a, Twice(p, a, e, j, t)));
    }
  }

  /** The pattern of names that end in w. */
  function Ending(w: string): string {
    ['*'] + w
  }

  /** A first character that recurs is where the run starts over; it goes on as the start does up
      to some place, or to the end. */
  lemma {:induction false} Recurs(p: string, b: nat, j: nat, t: nat)
    requires 0 < j < t && b + t <= |p| && forall q :: j <= q < t ==> Agree(p, b, j, q)
    requires forall k :: b <= k < |p| ==> Literal(p[k])
    ensures exists u: nat :: u <= |p| && Loses(p, b, |p|, j, u)
    decreases |p| - t
  {
    if b + t < |p| && p[b + t - j] == p[b + t] {
      Recurs(p, b, j, t + 1);
    } else {
      assert Loses(p, b, |p|, j, t);
    }
  }

  lemma LosesInside(p: string, b: nat, e: nat, j: nat, t: nat)
    requires Loses(p, b, e, j, t) && forall k :: b <= k < |p| ==> Literal(p[k])
    ensures 0 < j && b + j < e && p[b + j] == p[b]
  {
    assert Agree(p, b, j, j);
  }

  /** The matcher is right about "names that end in w" for every name if and only if the first
      character of w does not recur in it. */
  lemma EndingExactIff(w: string)
    requires PlainName(w)
    ensures NoTerminator(Ending(w))
    ensures AlwaysRight(Ending(w)) <==> forall j :: 0 < j < |w| ==> w[j] != w[0]
  {
    var p := Ending(w);
    assert forall k :: 1 <= k < |p| ==> p[k] == w[k - 1] && Literal(p[k]);
    ExactIff(p);
    EndingLoses(w);
    EndingStar(w);
  }

  /** The run behind the star can be lost if and only if its first character recurs. */
  lemma EndingLoses(w: string)
    requires PlainName(w)
    ensures Lossless(Ending(w), 1, |w| + 1) <==> forall j :: 0 < j < |w| ==> w[j] != w[0]
  {
    var p := Ending(w);
    assert forall k :: 1 <= k < |p| ==> p[k] == w[k - 1] && Literal(p[k]);
    if j :| 0 < j < |w| && w[j] == w[0] {
      hide Loses, Ending;
      Recurs(p, 1, j, j + 1);
    } else {
      forall j: nat, t: nat | t <= |p| && j <= |p|
        ensures !Loses(p, 1, |p|, j, t)
      {
        if Loses(p, 1, |p|, j, t) {
          LosesInside(p, 1, |p|, j, t);
        }
      }
    }
  }

  lemma EndingStar(w: string)
    requires PlainName(w)
    ensures Good(Ending(w)) <==> w == [] || Lossless(Ending(w), 1, |w| + 1)
  {
    var p := Ending(w);
    assert forall k :: 1 <= k < |p| ==> p[k] == w[k - 1] && Literal(p[k]);
    EndingRun(p, 1);
    hide Lossless;
    assert Good(p) <==> GoodStar(p, 0);
  }

  lemma {:induction false} EndingRun(p: string, a: nat)
    requires a <= |p| && forall k :: a <= k < |p| ==> Literal(p[k])
    ensures RunEnd(p, a) == |p|
    decreases |p| - a
  {
    if a < |p| {
      EndingRun(p, a + 1);
    }
  }
}
