/** The state of the BASIC string heap of qbs.cpp as a value, the invariant it keeps, and the
    pure steps of its two compactors.

    A pointer to a string descriptor is a positive number, a key of `qs`; -1 is the tombstone
    of the index tables and 0 the sentinel that fills slot 0 of the list of temporaries.
    Pointers into the buffer are offsets, so the buffer can move without changing them. `list`
    and `tmps` are the used prefixes of the C tables. */
module HeapState {

  type byte = b: int | 0 <= b < 256

  const SLACK: nat := 32
  const DEAD: int := -1

  /** A string descriptor. A heap string owns the buffer from `chr` to `End()`; a fixed or
      read-only one denotes a window of the memory outside the buffer. */
  datatype Qbs = Qbs(chr: nat, len: nat, listi: nat, tmp: bool, tmplisti: nat, fixed: bool, readonly: bool) {
    predicate OnHeap() { !fixed && !readonly }
    function End(): nat { chr + len }
  }

  type Table = map<int, Qbs>

  datatype State = State(list: seq<int>, qs: Table, sp: nat, mem: seq<byte>, ext: seq<byte>,
                         tmps: seq<int>, freed: seq<int>, next: nat)

  // --------------------------------------------------------------------------------------
  // The invariant
  // --------------------------------------------------------------------------------------

  /** Every listed string is live, on the heap, knows its slot and ends at or before sp. */
  ghost predicate Listed(list: seq<int>, qs: Table, sp: nat) {
    forall i :: 0 <= i < |list| && list[i] != DEAD ==>
      list[i] in qs && qs[list[i]].OnHeap() && qs[list[i]].listi == i && qs[list[i]].End() <= sp
  }

  /** Listed strings are in address order and pairwise disjoint. */
  ghost predicate Ordered(list: seq<int>, qs: Table)
    requires Known(list, qs)
  {
    forall i, j :: 0 <= i < j < |list| && list[i] != DEAD && list[j] != DEAD ==>
      qs[list[i]].End() <= qs[list[j]].chr
  }

  ghost predicate Known(list: seq<int>, qs: Table) {
    forall i :: 0 <= i < |list| && list[i] != DEAD ==> list[i] in qs
  }

  /** Every live heap string other than `loose` is listed; every other string is a window of
      the memory outside the buffer. */
  ghost predicate Backed(st: State, loose: int) {
    && loose !in st.list
    && forall p :: p in st.qs ==>
         && 0 < p < st.next
         && (st.qs[p].OnHeap() && p != loose ==> st.qs[p].listi < |st.list| && st.list[st.qs[p].listi] == p)
         && (!st.qs[p].OnHeap() ==> st.qs[p].End() <= |st.ext|)
  }

  /** The list of temporaries points back and forth; `popped` may have lost its slot. */
  ghost predicate Temps(tmps: seq<int>, qs: Table, popped: int) {
    && 0 < |tmps| && tmps[0] == 0
    && (forall i :: 0 < i < |tmps| && tmps[i] != DEAD ==> tmps[i] in qs && qs[tmps[i]].tmp && qs[tmps[i]].tmplisti == i)
    && (forall p :: p in qs ==> (qs[p].tmp <==> 0 < qs[p].tmplisti))
    && (forall p :: p in qs && qs[p].tmp && p != popped ==> qs[p].tmplisti < |tmps| && tmps[qs[p].tmplisti] == p)
    && (popped in qs && qs[popped].tmp && qs[popped].tmplisti < |tmps| ==>
          tmps[qs[popped].tmplisti] == popped || tmps[qs[popped].tmplisti] == DEAD)
  }

  /** The stack of recycled descriptors holds no live string and no descriptor twice. */
  ghost predicate Recycled(st: State) {
    && 0 < st.next
    && (forall i :: 0 <= i < |st.freed| ==> 0 < st.freed[i] < st.next && st.freed[i] !in st.qs)
    && (forall i, j :: 0 <= i < j < |st.freed| ==> st.freed[i] != st.freed[j])
  }

  /** The heap invariant, up to one heap string that is momentarily not listed and one
      temporary whose slot has been popped. DEAD stands for none. */
  ghost predicate InvBut(st: State, loose: int, popped: int) {
    && Listed(st.list, st.qs, st.sp) && Ordered(st.list, st.qs) && st.sp <= |st.mem|
    && Backed(st, loose) && Temps(st.tmps, st.qs, popped) && Recycled(st)
  }

  ghost predicate Inv(st: State) {
    InvBut(st, 0, 0)
  }

  // --------------------------------------------------------------------------------------
  // What a program can see
  // --------------------------------------------------------------------------------------

  datatype Str = Str(tmp: bool, fixed: bool, readonly: bool, bytes: seq<byte>)

  /** The bytes of a window of a memory. */
  function Window(mem: seq<byte>, q: Qbs): seq<byte> {
    if q.End() <= |mem| then mem[q.chr..q.End()] else []
  }

  function Text(st: State, p: int): Str
    requires p in st.qs
  {
    var q := st.qs[p];
    Str(q.tmp, q.fixed, q.readonly, Window(if q.OnHeap() then st.mem else st.ext, q))
  }

  /** The strings a program holds, by descriptor. */
  ghost function View(st: State): map<int, Str> {
    map p | p in st.qs :: Text(st, p)
  }

  // --------------------------------------------------------------------------------------
  // The sliding compactor
  // --------------------------------------------------------------------------------------

  /** memmove of n bytes from src down to dest. */
  function MoveDown(mem: seq<byte>, dest: nat, src: nat, n: nat): (r: seq<byte>)
    requires dest <= src && src + n <= |mem|
    ensures |r| == |mem|
    ensures r[dest..dest + n] == mem[src..src + n]
    ensures forall p :: 0 <= p < |mem| && !(dest <= p < dest + n) ==> r[p] == mem[p]
  {
    mem[..dest] + mem[src..src + n] + mem[dest + n..]
  }

  /** What the compactor has reached: the descriptors, the buffer, and the end of the last
      string it has placed. */
  datatype Packing = Packing(qs: Table, mem: seq<byte>, dest: nat)

  /** A string can be placed at or below its present position. */
  predicate CanPlace(p: int, k: Packing) {
    p == DEAD || (p in k.qs && k.dest <= k.qs[p].chr && k.qs[p].End() <= |k.mem|)
  }

  /** One turn of the loop: a gap of more than 32 bytes is closed. */
  function Place(p: int, k: Packing): Packing
    requires CanPlace(p, k)
  {
    if p == DEAD then k
    else
      var q := k.qs[p];
      if q.chr - k.dest > SLACK then
        Packing(k.qs[p := q.(chr := k.dest)], MoveDown(k.mem, k.dest, q.chr, q.len), k.dest + q.len)
      else
        k.(dest := q.End())
  }

  /** The relation the loop keeps between the state it started from and the one reached after
      n slots: placed strings hold their bytes, end before `dest` and stay in order; the rest
      is untouched. */
  ghost predicate Packed(list: seq<int>, n: nat, s: Packing, k: Packing)
    requires n <= |list|
  {
    && k.qs.Keys == s.qs.Keys && |k.mem| == |s.mem|
    && Known(list, s.qs)
    && (forall p :: p in s.qs ==> k.qs[p] == s.qs[p].(chr := k.qs[p].chr) && k.qs[p].chr <= s.qs[p].chr)
    && (forall p :: p in s.qs && p !in list[..n] ==> k.qs[p] == s.qs[p])
    && (forall a :: k.dest <= a < |k.mem| ==> k.mem[a] == s.mem[a])
    && (forall i :: 0 <= i < n && list[i] != DEAD ==> k.qs[list[i]].End() <= k.dest)
    && (forall i :: n <= i < |list| && list[i] != DEAD ==> k.dest <= k.qs[list[i]].chr)
  }

  ghost predicate Start(list: seq<int>, s: Packing) {
    && Listed(list, s.qs, |s.mem|) && Ordered(list, s.qs) && s.dest == 0
  }

  lemma PlaceFrame(list: seq<int>, n: nat, s: Packing, k: Packing)
    requires Start(list, s) && n < |list| && Packed(list, n, s, k)
    ensures CanPlace(list[n], k) && Packed(list, n + 1, s, Place(list[n], k))
  {
    var p := list[n];
    assert list[..n + 1] == list[..n] + [p];
    if p != DEAD {
      assert p !in list[..n];
    }
  }

  ghost predicate InOrder(list: seq<int>, n: nat, qs: Table)
    requires n <= |list| && Known(list, qs)
  {
    forall i, j :: 0 <= i < j < n && list[i] != DEAD && list[j] != DEAD ==>
      qs[list[i]].End() <= qs[list[j]].chr
  }

  lemma PlaceOrder(list: seq<int>, n: nat, s: Packing, k: Packing)
    requires Start(list, s) && n < |list| && Packed(list, n, s, k) && Packed(list, n + 1, s, Place(list[n], k))
    requires InOrder(list, n, k.qs)
    ensures InOrder(list, n + 1, Place(list[n], k).qs)
  {
    NoRepeat(list, n, s.qs, |s.mem|);
    PlaceTable(list, n, k);
    hide Place, Start;
  }

  ghost predicate SameBytes(list: seq<int>, n: nat, s: Packing, k: Packing)
    requires n <= |list| && Known(list, s.qs) && Known(list, k.qs)
  {
    forall i :: 0 <= i < n && list[i] != DEAD ==> Window(k.mem, k.qs[list[i]]) == Window(s.mem, s.qs[list[i]])
  }

  lemma PlaceBytes(list: seq<int>, n: nat, s: Packing, k: Packing)
    requires Start(list, s) && n < |list| && Packed(list, n, s, k) && SameBytes(list, n, s, k)
    ensures CanPlace(list[n], k) && Known(list, Place(list[n], k).qs)
    ensures SameBytes(list, n + 1, s, Place(list[n], k))
  {
    var p, k' := list[n], Place(list[n], k);
    forall i | 0 <= i < n + 1 && list[i] != DEAD
      ensures Window(k'.mem, k'.qs[list[i]]) == Window(s.mem, s.qs[list[i]])
    {
      if i < n {
        assert p == DEAD || list[i] != p;
        assert Window(k'.mem, k'.qs[list[i]]) == Window(k.mem, k.qs[list[i]]);
      } else {
        assert p !in list[..n];
        assert Window(k.mem, k.qs[p]) == Window(s.mem, s.qs[p]);
      }
    }
  }

  /** The end of the last listed string among the first n slots, or the start of the buffer. */
  ghost function EndBefore(list: seq<int>, qs: Table, n: nat): nat
    requires n <= |list| && Known(list, qs)
  {
    if n == 0 then 0 else if list[n - 1] != DEAD then qs[list[n - 1]].End() else EndBefore(list, qs, n - 1)
  }

  lemma {:induction false} EndBeforeFrame(list: seq<int>, qs: Table, qs': Table, n: nat)
    requires n <= |list| && Known(list, qs) && Known(list, qs')
    requires forall i :: 0 <= i < n && list[i] != DEAD ==> qs[list[i]] == qs'[list[i]]
    ensures EndBefore(list, qs, n) == EndBefore(list, qs', n)
  {
    if n > 0 { EndBeforeFrame(list, qs, qs', n - 1); }
  }

  /** At most 32 bytes are unused in front of each of the first n listed strings. */
  ghost predicate Tight(list: seq<int>, qs: Table, n: nat)
    requires n <= |list| && Known(list, qs)
  {
    forall i :: 0 <= i < n && list[i] != DEAD ==>
      EndBefore(list, qs, i) <= qs[list[i]].chr <= EndBefore(list, qs, i) + 32
  }

  lemma TightStep(list: seq<int>, n: nat, qs: Table, qs': Table)
    requires n < |list| && Known(list, qs) && Known(list, qs')
    requires forall i :: 0 <= i < n && list[i] != DEAD ==> qs[list[i]] == qs'[list[i]]
    requires Tight(list, qs, n)
    requires list[n] != DEAD ==> EndBefore(list, qs, n) <= qs'[list[n]].chr <= EndBefore(list, qs, n) + SLACK
    ensures Tight(list, qs', n + 1) && EndBefore(list, qs', n) == EndBefore(list, qs, n)
  {
    forall i | 0 <= i <= n
      ensures EndBefore(list, qs, i) == EndBefore(list, qs', i)
    {
      EndBeforeFrame(list, qs, qs', i);
    }
  }

  /** What one turn does to the table: only the placed string moves, down to within 32 bytes. */
  lemma PlaceTable(list: seq<int>, n: nat, k: Packing)
    requires n < |list| && CanPlace(list[n], k) && Known(list, k.qs)
    requires forall i :: 0 <= i < n && list[i] != DEAD ==> list[i] != list[n]
    ensures var k' := Place(list[n], k);
      && Known(list, k'.qs)
      && (forall i :: 0 <= i < n && list[i] != DEAD ==> k'.qs[list[i]] == k.qs[list[i]])
      && (if list[n] == DEAD then k' == k
          else k.dest <= k'.qs[list[n]].chr <= k.dest + SLACK && k'.dest == k'.qs[list[n]].End())
  {}

  lemma NoRepeat(list: seq<int>, n: nat, qs: Table, sp: nat)
    requires Listed(list, qs, sp) && n < |list|
    ensures forall i :: 0 <= i < |list| && i != n && list[i] != DEAD ==> list[i] != list[n]
  {}

  // --------------------------------------------------------------------------------------
  // The whole pass
  // --------------------------------------------------------------------------------------

  /** Everything the sliding compactor promises about the first n slots. */
  ghost predicate PackedWell(list: seq<int>, n: nat, s: Packing, k: Packing)
    requires n <= |list|
  {
    && Packed(list, n, s, k)
    && InOrder(list, n, k.qs) && SameBytes(list, n, s, k)
    && Tight(list, k.qs, n) && k.dest == EndBefore(list, k.qs, n)
  }

  lemma PackStart(list: seq<int>, s: Packing)
    requires Start(list, s)
    ensures PackedWell(list, 0, s, s)
  {}

  /** One turn of the compaction loop keeps every promise. */
  lemma PackStep(list: seq<int>, n: nat, s: Packing, k: Packing)
    requires Start(list, s) && n < |list| && PackedWell(list, n, s, k)
    ensures CanPlace(list[n], k) && PackedWell(list, n + 1, s, Place(list[n], k))
  {
    var k' := Place(list[n], k);
    PlaceFrame(list, n, s, k);
    PlaceOrder(list, n, s, k);
    PlaceBytes(list, n, s, k);
    NoRepeat(list, n, s.qs, |s.mem|);
    PlaceTable(list, n, k);
    TightStep(list, n, k.qs, k'.qs);
  }

  /** After the pass the invariant holds again and no string has changed. */
  lemma PackDone(st: State, k: Packing, loose: int, popped: int)
    requires InvBut(st, loose, popped)
    requires PackedWell(st.list, |st.list|, Packing(st.qs, st.mem, 0), k)
    ensures InvBut(st.(qs := k.qs, mem := k.mem, sp := k.dest), loose, popped)
    ensures View(st.(qs := k.qs, mem := k.mem, sp := k.dest)) - {loose} == View(st) - {loose}
    ensures k.dest <= st.sp
  {
    var st' := st.(qs := k.qs, mem := k.mem, sp := k.dest);
    assert st.list[..|st.list|] == st.list;
    PackSp(st, k, loose, popped);
    PackTemps(st, k, loose, popped);
    forall p | p in st.qs && p != loose
      ensures Text(st', p) == Text(st, p)
    {
      if st.qs[p].OnHeap() {
        assert st.list[st.qs[p].listi] == p;
      }
    }
  }

  /** The compactor moves listed strings and nothing else. */
  lemma PackShape(list: seq<int>, s: Packing, k: Packing)
    requires PackedWell(list, |list|, s, k)
    ensures k.qs.Keys == s.qs.Keys && Tight(list, k.qs, |list|)
    ensures forall p :: p in k.qs ==> k.qs[p] == s.qs[p].(chr := k.qs[p].chr) && (p !in list ==> k.qs[p] == s.qs[p])
  {
    assert list[..|list|] == list;
  }

  lemma StartOf(st: State, loose: int, popped: int)
    requires InvBut(st, loose, popped)
    ensures Start(st.list, Packing(st.qs, st.mem, 0))
  {}

  lemma PackSp(st: State, k: Packing, loose: int, popped: int)
    requires InvBut(st, loose, popped)
    requires PackedWell(st.list, |st.list|, Packing(st.qs, st.mem, 0), k)
    ensures k.dest <= st.sp && k.dest <= |k.mem|
    ensures Listed(st.list, k.qs, k.dest) && Ordered(st.list, k.qs)
  {
    LastEnd(st.list, k.qs, |st.list|);
  }

  /** The last end is 0 or the end of some listed string. */
  lemma {:induction false} LastEnd(list: seq<int>, qs: Table, n: nat)
    requires n <= |list| && Known(list, qs)
    ensures EndBefore(list, qs, n) == 0
         || exists i :: 0 <= i < n && list[i] != DEAD && EndBefore(list, qs, n) == qs[list[i]].End()
  {
    if n > 0 && list[n - 1] == DEAD { LastEnd(list, qs, n - 1); }
  }

  lemma PackTemps(st: State, k: Packing, loose: int, popped: int)
    requires InvBut(st, loose, popped)
    requires Packed(st.list, |st.list|, Packing(st.qs, st.mem, 0), k)
    ensures var st' := st.(qs := k.qs, mem := k.mem, sp := k.dest);
      Backed(st', loose) && Temps(st'.tmps, st'.qs, popped) && Recycled(st')
  {}

  // --------------------------------------------------------------------------------------
  // The index compactor
  // --------------------------------------------------------------------------------------

  /** The listed strings without the tombstones, in order. */
  function Survivors(list: seq<int>): seq<int> {
    if list == [] then []
    else if list[|list| - 1] == DEAD then Survivors(list[..|list| - 1])
    else Survivors(list[..|list| - 1]) + [list[|list| - 1]]
  }

  datatype Indexing = Indexing(list: seq<int>, qs: Table, d: nat)

  /** One turn of the loop: the string in slot i moves to the first free slot d. */
  function Reindex(i: nat, k: Indexing): Indexing
    requires i < |k.list| && k.d <= i && (k.list[i] == DEAD || k.list[i] in k.qs)
  {
    var p := k.list[i];
    if p == DEAD then k
    else if i != k.d then Indexing(k.list[k.d := p], k.qs[p := k.qs[p].(listi := k.d)], k.d + 1)
    else k.(d := k.d + 1)
  }

  /** After i slots: the survivors so far fill the first d slots and know them, the remaining
      slots are untouched, and no descriptor has changed but in its slot number. */
  ghost predicate Reindexed(list: seq<int>, qs: Table, i: nat, k: Indexing)
    requires i <= |list|
  {
    && Known(list, qs)
    && k.d <= i && |k.list| == |list| && k.list[i..] == list[i..] && k.list[..k.d] == Survivors(list[..i])
    && k.qs.Keys == qs.Keys
    && (forall p :: p in qs ==> k.qs[p] == qs[p].(listi := k.qs[p].listi))
    && (forall p :: p in qs && p !in list[..i] ==> k.qs[p] == qs[p])
    && (forall p :: p in qs && p in list[..i] && p != DEAD ==> k.qs[p].listi < k.d && k.list[k.qs[p].listi] == p)
    && (forall j :: 0 <= j < k.d ==> k.list[j] in qs && k.list[j] != DEAD && k.list[j] in list[..i] && k.qs[k.list[j]].listi == j)
  }

  /** Every listed string knows its slot. */
  ghost predicate Slotted(list: seq<int>, qs: Table) {
    forall i :: 0 <= i < |list| && list[i] != DEAD ==> list[i] in qs && qs[list[i]].listi == i
  }

  lemma ReindexStart(st: State, loose: int, popped: int)
    requires InvBut(st, loose, popped)
    ensures Slotted(st.list, st.qs) && Reindexed(st.list, st.qs, 0, Indexing(st.list, st.qs, 0))
  {}

  lemma ReindexStep(list: seq<int>, qs: Table, i: nat, k: Indexing)
    requires Slotted(list, qs) && i < |list| && Reindexed(list, qs, i, k)
    ensures |k.list| == |list| && k.d <= i && (k.list[i] == DEAD || k.list[i] in k.qs)
    ensures Reindexed(list, qs, i + 1, Reindex(i, k))
  {
    assert k.list[i] == k.list[i..][0] == list[i..][0] == list[i];
    var p := list[i];
    assert list[..i + 1] == list[..i] + [p];
    assert list[..i + 1][..i] == list[..i];
    var k' := Reindex(i, k);
    assert k'.list[i + 1..] == k.list[i..][1..];
    if p != DEAD {
      assert p !in list[..i];
      assert k'.list[..k'.d] == k.list[..k.d] + [p];
    }
  }

  /** The survivors among the first i slots are in address order, ahead of the rest. */
  lemma {:induction false} SurvivorsOrder(list: seq<int>, qs: Table, i: nat)
    requires Known(list, qs) && Ordered(list, qs) && i <= |list|
    ensures var front := Survivors(list[..i]);
      && DEAD !in front && Known(front, qs) && Ordered(front, qs)
      && (forall j, m :: 0 <= j < |front| && i <= m < |list| && list[m] != DEAD ==>
            qs[front[j]].End() <= qs[list[m]].chr)
  {
    if i > 0 {
      SurvivorsOrder(list, qs, i - 1);
      assert list[..i][..i - 1] == list[..i - 1];
    }
  }

  /** After the pass the invariant holds, no string has changed and no slot is dead. */
  lemma ReindexDone(st: State, k: Indexing, loose: int, popped: int)
    requires InvBut(st, loose, popped)
    requires Reindexed(st.list, st.qs, |st.list|, k)
    ensures k.d <= |k.list|
    ensures var st' := st.(list := k.list[..k.d], qs := k.qs);
      && InvBut(st', loose, popped) && View(st') == View(st)
      && st'.list == Survivors(st.list) && |st'.list| <= |st.list|
      && k.qs.Keys == st.qs.Keys
      && (forall p :: p in st.qs ==> k.qs[p] == st.qs[p].(listi := k.qs[p].listi))
      && (forall p :: p in st.qs && p !in st.list ==> k.qs[p] == st.qs[p])
  {
    var st' := st.(list := k.list[..k.d], qs := k.qs);
    assert st.list[..|st.list|] == st.list;
    ReindexTemps(st, k, loose, popped);
    ReindexListed(st.list, st.qs, st.sp, k);
    ReindexView(st, k);
  }

  lemma ReindexView(st: State, k: Indexing)
    requires Reindexed(st.list, st.qs, |st.list|, k)
    ensures View(st.(list := k.list[..k.d], qs := k.qs)) == View(st)
  {
    assert forall p :: p in st.qs ==> Text(st.(list := k.list[..k.d], qs := k.qs), p) == Text(st, p);
  }

  lemma ReindexListed(list: seq<int>, qs: Table, sp: nat, k: Indexing)
    requires Listed(list, qs, sp) && Ordered(list, qs) && Reindexed(list, qs, |list|, k)
    ensures Listed(k.list[..k.d], k.qs, sp) && Ordered(k.list[..k.d], k.qs)
  {
    var front := k.list[..k.d];
    assert list[..|list|] == list;
    assert Ordered(front, qs) by { SurvivorsOrder(list, qs, |list|); }
    forall j | 0 <= j < |front|
      ensures front[j] in list && front[j] in k.qs
      ensures k.qs[front[j]].chr == qs[front[j]].chr && k.qs[front[j]].End() == qs[front[j]].End()
      ensures k.qs[front[j]].OnHeap() && k.qs[front[j]].listi == j && k.qs[front[j]].End() <= sp
    {
      assert front[j] == k.list[j];
    }
  }

  lemma ReindexTemps(st: State, k: Indexing, loose: int, popped: int)
    requires InvBut(st, loose, popped) && st.list[..|st.list|] == st.list
    requires Reindexed(st.list, st.qs, |st.list|, k)
    ensures var st' := st.(list := k.list[..k.d], qs := k.qs);
      Backed(st', loose) && Temps(st'.tmps, st'.qs, popped) && Recycled(st')
  {
    var st' := st.(list := k.list[..k.d], qs := k.qs);
    forall p | p in st'.qs && st'.qs[p].OnHeap() && p != loose
      ensures st'.qs[p].listi < |st'.list| && st'.list[st'.qs[p].listi] == p
    {
      assert st.list[st.qs[p].listi] == p;
    }
  }
}
