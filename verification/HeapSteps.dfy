/** The primitive state changes that the operations of qbs.cpp are made of, each with the
    part of the heap invariant it keeps and what it does to the strings a program can see. */
module HeapSteps {
  import opened HeapState

  /** A part of what has been kept. */
  lemma PrefixSlice(mem: seq<byte>, mem': seq<byte>, a: nat, b: nat)
    requires |mem| <= |mem'| && mem'[..|mem|] == mem && a <= b <= |mem|
    ensures mem'[a..b] == mem[a..b]
  {
    forall k | 0 <= k < b - a
      ensures mem'[a..b][k] == mem[a..b][k]
    {
      assert mem'[..|mem|][a + k] == mem[a + k];
    }
  }

  lemma SliceOfSlice(mem: seq<byte>, a: nat, b: nat, i: nat, n: nat)
    requires a <= b <= |mem| && i + n <= b - a
    ensures mem[a..b][i..i + n] == mem[a + i..a + i + n]
  {
    var x, y := mem[a..b][i..i + n], mem[a + i..a + i + n];
    forall k | 0 <= k < n
      ensures x[k] == y[k]
    {
      assert mem[a..b][i + k] == mem[a + i + k];
    }
  }

  /** The buffer may grow: realloc keeps the bytes. */
  lemma GrowMem(st: State, mem': seq<byte>, loose: int, popped: int)
    requires InvBut(st, loose, popped)
    requires |st.mem| <= |mem'| && mem'[..|st.mem|] == st.mem
    ensures InvBut(st.(mem := mem'), loose, popped)
    ensures View(st.(mem := mem')) - {loose} == View(st) - {loose}
  {
    var st' := st.(mem := mem');
    forall p | p in st.qs && p != loose
      ensures Text(st', p) == Text(st, p)
    {
      if st.qs[p].OnHeap() {
        assert st.list[st.qs[p].listi] == p;
        PrefixSlice(st.mem, mem', st.qs[p].chr, st.qs[p].End());
      }
    }
  }

  /** When one string is set or added and no other changes, so does what a program sees. */
  lemma ViewSet(st: State, st': State, p: int)
    requires st'.qs.Keys == st.qs.Keys + {p} && p in st'.qs
    requires forall q :: q in st.qs && q != p ==> Text(st', q) == Text(st, q)
    ensures View(st') == View(st)[p := Text(st', p)]
  {
    hide Text;
    forall q | q in View(st').Keys
      ensures View(st')[q] == View(st)[p := Text(st', p)][q]
    {
      assert q == p || q in st.qs;
    }
  }

  /** What a program sees depends on the descriptors and the bytes only. */
  lemma SameView(st: State, st': State)
    requires st.qs == st'.qs && st.mem == st'.mem && st.ext == st'.ext
    ensures View(st) == View(st')
  {}

  /** A temporary whose slot is gone is not in the list. */
  lemma NotInTmps(st: State, p: int)
    requires InvBut(st, 0, p) && p in st.qs && st.qs[p].tmp
    requires st.qs[p].tmplisti < |st.tmps| ==> st.tmps[st.qs[p].tmplisti] == DEAD
    ensures p !in st.tmps
  {}

  lemma TempsHead(st: State, loose: int, popped: int)
    requires InvBut(st, loose, popped)
    ensures 0 < |st.tmps| && st.tmps[0] == 0
  {}

  /** A descriptor that no string uses. */
  ghost predicate Unused(st: State, p: int) {
    0 < p < st.next && p !in st.qs && p !in st.freed
  }

  function Fresh(at: nat, size: nat, slot: nat): Qbs {
    Qbs(at, size, slot, false, 0, false, false)
  }

  function WithNew(st: State, p: int, size: nat, sp': nat): State {
    st.(qs := st.qs[p := Fresh(st.sp, size, |st.list|)], list := st.list + [p], sp := sp')
  }

  lemma UnusedUnlisted(st: State, p: int)
    requires Inv(st) && Unused(st, p)
    ensures p !in st.list && p !in st.tmps
  {}

  lemma ListNewInv(st: State, p: int, size: nat, sp': nat)
    requires Inv(st) && Unused(st, p) && st.sp + size <= sp' <= |st.mem|
    ensures Inv(WithNew(st, p, size, sp'))
  {
    UnusedUnlisted(st, p);
  }

  /** Listing a new string at the stack pointer. */
  lemma ListNew(st: State, p: int, size: nat, sp': nat)
    requires Inv(st) && Unused(st, p) && st.sp + size <= sp' <= |st.mem|
    ensures var st' := st.(qs := st.qs[p := Fresh(st.sp, size, |st.list|)], list := st.list + [p], sp := sp');
      && Inv(st')
      && View(st') == View(st)[p := Str(false, false, false, st.mem[st.sp..st.sp + size])]
  {
    ListNewInv(st, p, size, sp');
    hide Inv;
    ViewSet(st, WithNew(st, p, size, sp'), p);
  }

  lemma AddWindowInv(st: State, p: int, q: Qbs)
    requires Inv(st) && Unused(st, p) && !q.OnHeap() && !q.tmp && q.tmplisti == 0 && q.End() <= |st.ext|
    ensures Inv(st.(qs := st.qs[p := q]))
  {
    UnusedUnlisted(st, p);
  }

  /** A string outside the buffer gets a descriptor. */
  lemma AddWindow(st: State, p: int, q: Qbs)
    requires Inv(st) && Unused(st, p) && !q.OnHeap() && !q.tmp && q.tmplisti == 0 && q.End() <= |st.ext|
    ensures Inv(st.(qs := st.qs[p := q]))
    ensures View(st.(qs := st.qs[p := q])) == View(st)[p := Str(false, q.fixed, q.readonly, st.ext[q.chr..q.End()])]
  {
    AddWindowInv(st, p, q);
    hide Inv;
    ViewSet(st, st.(qs := st.qs[p := q]), p);
  }

  /** Two tables that agree on everything but the list of temporaries. */
  ghost predicate SameShape(qs: Table, qs': Table) {
    qs.Keys == qs'.Keys && forall p :: p in qs ==> qs'[p] == qs[p].(tmp := qs'[p].tmp, tmplisti := qs'[p].tmplisti)
  }

  lemma Reshape(st: State, qs': Table, loose: int, popped: int)
    requires InvBut(st, loose, popped) && SameShape(st.qs, qs')
    ensures Listed(st.list, qs', st.sp) && Ordered(st.list, qs')
    ensures Backed(st.(qs := qs'), loose) && Recycled(st.(qs := qs'))
  {}

  /** Entering a string in the list of temporaries. */
  function AsTemp(st: State, p: int): State
    requires p in st.qs
  {
    st.(qs := st.qs[p := st.qs[p].(tmp := true, tmplisti := |st.tmps|)], tmps := st.tmps + [p])
  }

  lemma TempNew(st: State, p: int)
    requires Inv(st) && p in st.qs && !st.qs[p].tmp
    ensures Inv(AsTemp(st, p))
  {
    assert 0 !in st.qs && 0 < p;
    Reshape(st, AsTemp(st, p).qs, 0, 0);
    TempEntry(st.tmps, st.qs, p);
  }

  lemma TempView(st: State, p: int)
    requires p in st.qs
    ensures View(AsTemp(st, p)) == View(st)[p := Text(st, p).(tmp := true)]
  {
    assert forall q :: q in st.qs && q != p ==> Text(AsTemp(st, p), q) == Text(st, q);
  }

  lemma TempEntry(tmps: seq<int>, qs: Table, p: int)
    requires Temps(tmps, qs, 0) && p in qs && !qs[p].tmp && p != DEAD && p != 0 && 0 !in qs
    ensures Temps(tmps + [p], qs[p := qs[p].(tmp := true, tmplisti := |tmps|)], 0)
  {
    assert forall i :: 0 < i < |tmps| ==> tmps[i] != p;
  }

  /** Clearing a temporary's slot. */
  lemma TempDrop(st: State, loose: int, p: int)
    requires InvBut(st, loose, p) && p in st.qs && st.qs[p].tmp && st.qs[p].tmplisti < |st.tmps|
    ensures InvBut(st.(tmps := st.tmps[st.qs[p].tmplisti := DEAD]), loose, p)
  {}

  /** Popping a dead slot, or that of the temporary about to go. */
  lemma TempPop(st: State, loose: int, popped: int)
    requires InvBut(st, loose, popped) && 1 < |st.tmps|
    requires st.tmps[|st.tmps| - 1] == DEAD || st.tmps[|st.tmps| - 1] == popped
    ensures InvBut(st.(tmps := st.tmps[..|st.tmps| - 1]), loose, popped)
  {}

  /** Taking a heap string off the list. */
  lemma Unlist(st: State, p: int, popped: int)
    requires InvBut(st, 0, popped) && p in st.qs && st.qs[p].OnHeap()
    ensures st.qs[p].listi < |st.list| && st.list[st.qs[p].listi] == p
    ensures InvBut(st.(list := st.list[st.qs[p].listi := DEAD]), p, popped)
  {}

  /** Cutting dead slots off the end of the list. */
  lemma Truncate(st: State, n: nat, loose: int, popped: int)
    requires InvBut(st, loose, popped) && n <= |st.list|
    requires forall i :: n <= i < |st.list| ==> st.list[i] == DEAD
    ensures InvBut(st.(list := st.list[..n]), loose, popped)
  {
    var st' := st.(list := st.list[..n]);
    assert forall i :: 0 <= i < n ==> st'.list[i] == st.list[i];
  }

  /** The stack pointer may go down to the end of the last listed string. */
  lemma SetSp(st: State, sp': nat, loose: int, popped: int)
    requires InvBut(st, loose, popped) && sp' <= |st.mem|
    requires st.list != [] ==> st.list[|st.list| - 1] != DEAD && st.qs[st.list[|st.list| - 1]].End() <= sp'
    ensures InvBut(st.(sp := sp'), loose, popped)
  {
    var n := |st.list|;
    forall i | 0 <= i < n && st.list[i] != DEAD
      ensures st.qs[st.list[i]].End() <= sp'
    {
      if i < n - 1 { assert st.qs[st.list[i]].End() <= st.qs[st.list[n - 1]].chr; }
    }
  }

  /** Recycling the descriptor of a string that is in neither list. */
  lemma Forget(st: State, p: int, loose: int)
    requires InvBut(st, loose, p) && p in st.qs && p !in st.list && (loose == 0 || loose == p)
    requires p !in st.tmps
    ensures var st' := st.(qs := st.qs - {p}, freed := st.freed + [p]);
      Inv(st') && View(st') == View(st) - {p}
  {
    var st' := st.(qs := st.qs - {p}, freed := st.freed + [p]);
    ForgetListed(st, p, loose);
    ForgetRest(st, p, loose);
    hide InvBut, Listed, Ordered, Backed, Temps, Recycled;
    assert forall q :: q in st'.qs ==> Text(st', q) == Text(st, q);
    assert Inv(st') by { Assembled(st'); }
  }

  lemma ForgetListed(st: State, p: int, loose: int)
    requires InvBut(st, loose, p) && p in st.qs && p !in st.list && (loose == 0 || loose == p)
    ensures var st' := st.(qs := st.qs - {p}, freed := st.freed + [p]);
      Listed(st'.list, st'.qs, st'.sp) && Ordered(st'.list, st'.qs) && st'.sp <= |st'.mem| && Backed(st', 0)
  {
    assert 0 !in st.list;
  }

  lemma ForgetRest(st: State, p: int, loose: int)
    requires InvBut(st, loose, p) && p in st.qs && p !in st.tmps
    ensures var st' := st.(qs := st.qs - {p}, freed := st.freed + [p]); Temps(st'.tmps, st'.qs, 0) && Recycled(st')
  {
    hide Listed, Ordered;
  }

  lemma Assembled(st: State)
    requires Listed(st.list, st.qs, st.sp) && Ordered(st.list, st.qs) && st.sp <= |st.mem|
    requires Backed(st, 0) && Temps(st.tmps, st.qs, 0) && Recycled(st)
    ensures Inv(st)
  {}

  // --------------------------------------------------------------------------------------
  // The ways of qbs_set
  // --------------------------------------------------------------------------------------

  /** The destination takes over the slot and the bytes of a temporary. */
  function Acquired(st: State, d: int, s: int): State
    requires d in st.qs && s in st.qs && d != s
    requires st.qs[d].listi < |st.list| && st.qs[s].listi < |st.list| && st.qs[s].tmplisti < |st.tmps|
  {
    var src := st.qs[s];
    st.(qs := (st.qs - {s})[d := st.qs[d].(listi := src.listi, chr := src.chr, len := src.len)],
        list := st.list[st.qs[d].listi := DEAD][src.listi := d],
        tmps := st.tmps[src.tmplisti := DEAD],
        freed := st.freed + [s])
  }

  ghost predicate CanAcquire(st: State, d: int, s: int) {
    && Inv(st) && d in st.qs && s in st.qs && d != s
    && st.qs[d].OnHeap() && st.qs[s].OnHeap() && st.qs[s].tmp
  }

  lemma AcquireInv(st: State, d: int, s: int)
    requires CanAcquire(st, d, s)
    ensures Inv(Acquired(st, d, s))
  {
    AcquireListed(st, d, s);
    AcquireTemps(st, d, s);
  }

  lemma AcquireListed(st: State, d: int, s: int)
    requires CanAcquire(st, d, s)
    ensures var st' := Acquired(st, d, s); Listed(st'.list, st'.qs, st'.sp) && Ordered(st'.list, st'.qs)
  {
    var st' := Acquired(st, d, s);
    forall i | 0 <= i < |st'.list| && st'.list[i] != DEAD
      ensures st.list[i] != DEAD && st.list[i] != d
      ensures st'.list[i] == if st.list[i] == s then d else st.list[i]
      ensures st'.list[i] in st'.qs && st'.qs[st'.list[i]].OnHeap() && st'.qs[st'.list[i]].listi == i
      ensures st'.qs[st'.list[i]].chr == st.qs[st.list[i]].chr && st'.qs[st'.list[i]].len == st.qs[st.list[i]].len
    {
    }
  }

  lemma AcquireTemps(st: State, d: int, s: int)
    requires CanAcquire(st, d, s)
    ensures var st' := Acquired(st, d, s); Backed(st', 0) && Temps(st'.tmps, st'.qs, 0) && Recycled(st')
  {}

  lemma AcquireView(st: State, d: int, s: int)
    requires CanAcquire(st, d, s)
    ensures View(Acquired(st, d, s)) == (View(st) - {s})[d := Text(st, d).(bytes := Text(st, s).bytes)]
  {
    var st' := Acquired(st, d, s);
    forall q | q in st'.qs
      ensures q in st.qs && q != s
      ensures Text(st', q) == if q == d then Text(st, d).(bytes := Text(st, s).bytes) else Text(st, q)
    {
    }
  }

  /** No listed string behind d begins before d.chr + n. */
  ghost predicate Room(st: State, d: int, n: nat)
    requires d in st.qs && Known(st.list, st.qs)
  {
    forall j :: st.qs[d].listi < j < |st.list| && st.list[j] != DEAD ==> st.qs[d].chr + n <= st.qs[st.list[j]].chr
  }

  /** Bytes change only in [lo, hi). */
  ghost predicate SameOutside(a: seq<byte>, b: seq<byte>, lo: int, hi: int) {
    |a| == |b| && forall i :: 0 <= i < |a| && !(lo <= i < hi) ==> a[i] == b[i]
  }

  /** Overwriting d in place with n bytes. */
  function Written(st: State, d: int, mem': seq<byte>, n: nat, sp': nat): State
    requires d in st.qs
  {
    st.(mem := mem', qs := st.qs[d := st.qs[d].(len := n)], sp := sp')
  }

  ghost predicate CanWrite(st: State, d: int, mem': seq<byte>, n: nat, sp': nat) {
    && Inv(st) && d in st.qs && st.qs[d].OnHeap() && Room(st, d, n)
    && st.qs[d].chr + n <= sp' <= |st.mem|
    && (sp' == st.sp || forall j :: st.qs[d].listi < j < |st.list| ==> st.list[j] == DEAD)
    && SameOutside(st.mem, mem', st.qs[d].chr, st.qs[d].chr + n)
  }

  lemma WriteInv(st: State, d: int, mem': seq<byte>, n: nat, sp': nat)
    requires CanWrite(st, d, mem', n, sp')
    ensures Inv(Written(st, d, mem', n, sp'))
  {
    WriteListed(st, d, mem', n, sp');
    WriteBacked(st, d, mem', n, sp');
  }

  lemma WriteListed(st: State, d: int, mem': seq<byte>, n: nat, sp': nat)
    requires CanWrite(st, d, mem', n, sp')
    ensures var st' := Written(st, d, mem', n, sp'); Listed(st'.list, st'.qs, sp') && Ordered(st'.list, st'.qs)
  {
    assert st.list[st.qs[d].listi] == d;
    forall i | 0 <= i < |st.list| && st.list[i] != DEAD && st.list[i] != d
      ensures i != st.qs[d].listi && st.qs[st.list[i]].End() <= sp'
    {
      if i < st.qs[d].listi { assert st.qs[st.list[i]].End() <= st.qs[d].chr; }
    }
  }

  lemma WriteBacked(st: State, d: int, mem': seq<byte>, n: nat, sp': nat)
    requires CanWrite(st, d, mem', n, sp')
    ensures var st' := Written(st, d, mem', n, sp'); Backed(st', 0) && Temps(st'.tmps, st'.qs, 0) && Recycled(st')
  {}

  lemma SameWindow(a: seq<byte>, b: seq<byte>, lo: int, hi: int, q: Qbs)
    requires SameOutside(a, b, lo, hi) && (q.End() <= lo || hi <= q.chr)
    ensures Window(a, q) == Window(b, q)
  {
    if q.End() <= |a| {
      var x, y := a[q.chr..q.End()], b[q.chr..q.End()];
      assert forall k :: 0 <= k < q.len ==> x[k] == y[k];
    }
  }

  /** The first listed string behind d decides how much room there is. */
  lemma RoomBefore(st: State, d: int, i: nat, n: nat)
    requires Inv(st) && d in st.qs && st.qs[d].OnHeap() && st.qs[d].listi < i < |st.list| && st.list[i] != DEAD
    requires forall j :: st.qs[d].listi < j < i ==> st.list[j] == DEAD
    requires st.qs[d].chr + n <= st.qs[st.list[i]].chr
    ensures Room(st, d, n) && st.qs[d].chr + n <= st.sp
  {
    forall j | st.qs[d].listi < j < |st.list| && st.list[j] != DEAD
      ensures st.qs[d].chr + n <= st.qs[st.list[j]].chr
    {
      if i < j { assert st.qs[st.list[i]].End() <= st.qs[st.list[j]].chr; }
    }
  }

  /** There is always room for what d already holds. */
  lemma Fits(st: State, d: int, n: nat)
    requires Inv(st) && d in st.qs && st.qs[d].OnHeap() && n <= st.qs[d].len
    ensures Room(st, d, n) && st.qs[d].chr + n <= st.sp
  {
    assert st.list[st.qs[d].listi] == d;
  }

  /** A temporary in place may be treated as one whose slot may be missing. */
  lemma TempsWeaken(st: State, p: int)
    requires Inv(st) && p in st.qs
    ensures InvBut(st, 0, p)
  {}

  /** A string shows as many bytes as its descriptor says. */
  lemma TextLen(st: State, p: int)
    requires Inv(st) && p in st.qs
    ensures |Text(st, p).bytes| == st.qs[p].len
  {
    if st.qs[p].OnHeap() { assert st.list[st.qs[p].listi] == p; }
  }

  lemma ViewOf(st: State, p: int)
    requires Inv(st) && p in st.qs
    ensures p in View(st) && View(st)[p].tmp == st.qs[p].tmp && |View(st)[p].bytes| == st.qs[p].len
  {
    TextLen(st, p);
  }

  lemma WindowPart(mem: seq<byte>, q: Qbs, from: nat, n: nat)
    requires q.End() <= |mem| && from + n <= q.len
    ensures Window(mem, q)[from..from + n] == mem[q.chr + from..q.chr + from + n]
  {
    SliceOfSlice(mem, q.chr, q.End(), from, n);
  }

  /** Every temporary has a slot in the list. */
  lemma SlotsBelow(st: State)
    requires Inv(st)
    ensures forall p :: p in st.qs && st.qs[p].tmp ==> st.qs[p].tmplisti < |st.tmps|
  {}

  /** The visible strings are those with a descriptor. */
  lemma ViewAt(st: State)
    ensures View(st).Keys == st.qs.Keys
    ensures forall p :: p in View(st) ==> View(st)[p] == Text(st, p)
  {}

  lemma FillApart(st: State, r: int, p: int)
    requires Inv(st) && r in st.qs && p in st.qs && r != p && st.qs[r].OnHeap()
    ensures st.qs[r].End() <= |st.mem| && st.qs[p].End() <= if st.qs[p].OnHeap() then |st.mem| else |st.ext|
    ensures st.qs[p].OnHeap() ==> st.qs[p].End() <= st.qs[r].chr || st.qs[r].End() <= st.qs[p].chr
  {
    assert st.list[st.qs[r].listi] == r;
    if st.qs[p].OnHeap() { assert st.list[st.qs[p].listi] == p; }
  }

  /** Filling a part of r changes just that part of r. */
  lemma FillDone(st: State, r: int, at: nat, p: int, from: nat, n: nat, mem': seq<byte>)
    requires Inv(st) && r in st.qs && p in st.qs && r != p && st.qs[r].OnHeap()
    requires at + n <= st.qs[r].len && from + n <= st.qs[p].len
    requires SameOutside(st.mem, mem', st.qs[r].chr + at, st.qs[r].chr + at + n)
    requires |Text(st, r).bytes| == st.qs[r].len && |Text(st, p).bytes| == st.qs[p].len && st.qs[r].End() <= |st.mem|
    requires mem'[st.qs[r].chr + at..st.qs[r].chr + at + n] == Text(st, p).bytes[from..from + n]
    ensures Inv(st.(mem := mem'))
    ensures View(st.(mem := mem')) == View(st)[r := View(st)[r].(bytes :=
              View(st)[r].bytes[..at] + View(st)[p].bytes[from..from + n] + View(st)[r].bytes[at + n..])]
  {
    var st' := st.(mem := mem');
    var lo := st.qs[r].chr;
    assert Inv(st');
    hide Inv;
    forall q | q in st.qs && q != r
      ensures Text(st', q) == Text(st, q)
    {
      FillApart(st, r, q);
      if st.qs[q].OnHeap() {
        SameWindow(st.mem, mem', lo + at, lo + at + n, st.qs[q]);
      }
    }
    Spliced(st.mem, mem', lo, at, n, st.qs[r].len);
    assert Text(st', r) == Text(st, r).(bytes :=
        Text(st, r).bytes[..at] + Text(st, p).bytes[from..from + n] + Text(st, r).bytes[at + n..]);
    hide Text;
    ViewSet(st, st', r);
  }

  lemma Spliced(a: seq<byte>, b: seq<byte>, lo: nat, at: nat, n: nat, len: nat)
    requires lo + len <= |a| && at + n <= len && SameOutside(a, b, lo + at, lo + at + n)
    ensures b[lo..lo + len] == a[lo..lo + len][..at] + b[lo + at..lo + at + n] + a[lo..lo + len][at + n..]
  {
    var w := a[lo..lo + len];
    assert b[lo..lo + len] == b[lo..lo + at] + b[lo + at..lo + at + n] + b[lo + at + n..lo + len];
    assert b[lo..lo + at] == w[..at] && b[lo + at + n..lo + len] == w[at + n..];
  }

  /** The source of an assignment does not overlap the room its bytes go to. */
  lemma Apart(st: State, d: int, s: int)
    requires Inv(st) && d in st.qs && s in st.qs && st.qs[d].OnHeap() && Room(st, d, st.qs[s].len)
    ensures st.qs[s].End() <= if st.qs[s].OnHeap() then |st.mem| else |st.ext|
    ensures st.qs[s].OnHeap() ==> st.qs[s].End() <= st.qs[d].chr || st.qs[d].chr + st.qs[s].len <= st.qs[s].chr || s == d
  {
    if st.qs[s].OnHeap() {
      assert st.list[st.qs[s].listi] == s && st.list[st.qs[d].listi] == d;
    }
  }

  lemma WriteApart(st: State, d: int, mem': seq<byte>, n: nat, sp': nat, q: int)
    requires CanWrite(st, d, mem', n, sp') && q in st.qs && q != d && st.qs[q].OnHeap()
    ensures st.qs[q].End() <= st.qs[d].chr || st.qs[d].chr + n <= st.qs[q].chr
  {
    var i, j := st.qs[q].listi, st.qs[d].listi;
    assert st.list[i] == q && st.list[j] == d;
  }

  lemma WriteView(st: State, d: int, mem': seq<byte>, n: nat, sp': nat)
    requires CanWrite(st, d, mem', n, sp')
    ensures View(Written(st, d, mem', n, sp'))
         == View(st)[d := Text(st, d).(bytes := mem'[st.qs[d].chr..st.qs[d].chr + n])]
  {
    var st' := Written(st, d, mem', n, sp');
    forall q | q in st.qs && q != d
      ensures Text(st', q) == Text(st, q)
    {
      WriteText(st, d, mem', n, sp', q);
    }
    assert Text(st', d) == Text(st, d).(bytes := mem'[st.qs[d].chr..st.qs[d].chr + n]);
    hide CanWrite, Text;
    ViewSet(st, st', d);
  }

  lemma WriteText(st: State, d: int, mem': seq<byte>, n: nat, sp': nat, q: int)
    requires CanWrite(st, d, mem', n, sp') && q in st.qs && q != d
    ensures Text(Written(st, d, mem', n, sp'), q) == Text(st, q)
  {
    if st.qs[q].OnHeap() {
      WriteApart(st, d, mem', n, sp', q);
      assert SameOutside(st.mem, mem', st.qs[d].chr, st.qs[d].chr + n);
      SameWindow(st.mem, mem', st.qs[d].chr, st.qs[d].chr + n, st.qs[q]);
    }
  }

  /** Overwriting d with the bytes of s assigns s to d. */
  lemma WriteDone(st: State, d: int, s: int, mem': seq<byte>, sp': nat)
    requires s in st.qs && CanWrite(st, d, mem', st.qs[s].len, sp')
    requires mem'[st.qs[d].chr..st.qs[d].chr + st.qs[s].len] == Text(st, s).bytes
    ensures View(Written(st, d, mem', st.qs[s].len, sp')) == View(st)[d := View(st)[d].(bytes := View(st)[s].bytes)]
  {
    hide InvBut;
    WriteView(st, d, mem', st.qs[s].len, sp');
  }

  /** Listing d again at the stack pointer, with n bytes. */
  function Relisted(st: State, d: int, mem': seq<byte>, n: nat): State
    requires d in st.qs
  {
    st.(mem := mem', qs := st.qs[d := st.qs[d].(chr := st.sp, len := n, listi := |st.list|)],
        list := st.list + [d], sp := st.sp + n)
  }

  ghost predicate CanRelist(st: State, d: int, mem': seq<byte>, n: nat) {
    && InvBut(st, d, 0) && d in st.qs && st.qs[d].OnHeap() && st.sp + n <= |st.mem|
    && SameOutside(st.mem, mem', st.sp, st.sp + n)
  }

  lemma RelistInv(st: State, d: int, mem': seq<byte>, n: nat)
    requires CanRelist(st, d, mem', n)
    ensures Inv(Relisted(st, d, mem', n))
  {
    RelistListed(st, d, mem', n);
    RelistBacked(st, d, mem', n);
  }

  lemma RelistListed(st: State, d: int, mem': seq<byte>, n: nat)
    requires CanRelist(st, d, mem', n)
    ensures var st' := Relisted(st, d, mem', n); Listed(st'.list, st'.qs, st'.sp) && Ordered(st'.list, st'.qs)
  {}

  lemma RelistBacked(st: State, d: int, mem': seq<byte>, n: nat)
    requires CanRelist(st, d, mem', n)
    ensures var st' := Relisted(st, d, mem', n); Backed(st', 0) && Temps(st'.tmps, st'.qs, 0) && Recycled(st')
  {}

  lemma RelistView(st: State, d: int, mem': seq<byte>, n: nat)
    requires CanRelist(st, d, mem', n)
    ensures View(Relisted(st, d, mem', n)) - {d} == View(st) - {d}
    ensures Text(Relisted(st, d, mem', n), d) == Text(st, d).(bytes := mem'[st.sp..st.sp + n])
  {
    var st' := Relisted(st, d, mem', n);
    forall q | q in st.qs && q != d
      ensures Text(st', q) == Text(st, q)
    {
      if st.qs[q].OnHeap() {
        assert st.list[st.qs[q].listi] == q;
        SameWindow(st.mem, mem', st.sp, st.sp + n, st.qs[q]);
      }
    }
  }

  /** A listed source ends before the stack pointer. */
  lemma Behind(st: State, d: int, s: int)
    requires InvBut(st, d, 0) && s in st.qs && s != d
    ensures st.qs[s].End() <= if st.qs[s].OnHeap() then st.sp else |st.ext|
    ensures st.sp <= |st.mem|
  {
    if st.qs[s].OnHeap() { assert st.list[st.qs[s].listi] == s; }
  }

  /** Listing d again with the bytes of s assigns s to d. */
  lemma RelistDone(st: State, d: int, s: int, mem': seq<byte>)
    requires s in st.qs && CanRelist(st, d, mem', st.qs[s].len)
    requires mem'[st.sp..st.sp + st.qs[s].len] == Text(st, s).bytes
    ensures View(Relisted(st, d, mem', st.qs[s].len)) == View(st)[d := View(st)[d].(bytes := View(st)[s].bytes)]
  {
    hide InvBut;
    var st' := Relisted(st, d, mem', st.qs[s].len);
    RelistView(st, d, mem', st.qs[s].len);
    forall q | q in st.qs && q != d
      ensures Text(st', q) == Text(st, q)
    {
      assert Text(st', q) == (View(st') - {d})[q] && Text(st, q) == (View(st) - {d})[q];
    }
    ViewSet(st, st', d);
  }

  /** Two states that show the same strings but for d, whose flags are the same. */
  lemma SameBut(st: State, st': State, d: int, s: int)
    requires View(st) - {d} == View(st') - {d} && d in st.qs && d in st'.qs && s in st.qs && s != d
    requires st'.qs[d].tmp == st.qs[d].tmp && st'.qs[d].fixed == st.qs[d].fixed && st'.qs[d].readonly == st.qs[d].readonly
    ensures s in st'.qs
    ensures View(st')[d := View(st')[d].(bytes := View(st')[s].bytes)] == View(st)[d := View(st)[d].(bytes := View(st)[s].bytes)]
  {
    SameMaps(View(st), View(st'), d, s, View(st)[s].bytes);
    assert View(st')[s] == View(st)[s];
  }

  lemma SameMaps(v: map<int, Str>, v': map<int, Str>, d: int, s: int, bytes: seq<byte>)
    requires v - {d} == v' - {d} && d in v && d in v' && s in v && s != d && v[d].(bytes := bytes) == v'[d].(bytes := bytes)
    ensures s in v' && v'[s] == v[s] && v'[d := v'[d].(bytes := bytes)] == v[d := v[d].(bytes := bytes)]
  {
    forall q | q != d
      ensures (q in v <==> q in v') && (q in v ==> v[q] == v'[q])
    {
      assert q in v <==> q in v - {d};
      assert q in v' <==> q in v' - {d};
      if q in v { assert (v - {d})[q] == (v' - {d})[q]; }
    }
  }

  /** Two windows of the memory outside the buffer that share a byte. */
  predicate Aliased(q: Qbs, d: Qbs) {
    !q.OnHeap() && !d.OnHeap() && q.chr < d.End() && d.chr < q.End()
  }

  /** Writing the window of a fixed string changes only the windows that overlap it. */
  lemma WindowWrite(st: State, d: int, ext': seq<byte>)
    requires Inv(st) && d in st.qs && !st.qs[d].OnHeap()
    requires SameOutside(st.ext, ext', st.qs[d].chr, st.qs[d].End())
    ensures Inv(st.(ext := ext'))
    ensures forall q :: q in st.qs && !Aliased(st.qs[q], st.qs[d]) ==> Text(st.(ext := ext'), q) == Text(st, q)
  {
    forall q | q in st.qs && !Aliased(st.qs[q], st.qs[d])
      ensures Text(st.(ext := ext'), q) == Text(st, q)
    {
      if !st.qs[q].OnHeap() {
        SameWindow(st.ext, ext', st.qs[d].chr, st.qs[d].End(), st.qs[q]);
      }
    }
  }

  function Cut(st: State, p: int, skip: nat, n: nat): State
    requires p in st.qs
  {
    st.(qs := st.qs[p := st.qs[p].(chr := st.qs[p].chr + skip, len := n)])
  }

  lemma ShrinkInv(st: State, p: int, skip: nat, n: nat)
    requires Inv(st) && p in st.qs && st.qs[p].OnHeap() && skip + n <= st.qs[p].len
    ensures Inv(Cut(st, p, skip, n))
  {
    assert st.list[st.qs[p].listi] == p;
  }

  /** A temporary may give up bytes at either end of its own range. */
  lemma Shrink(st: State, p: int, skip: nat, n: nat)
    requires Inv(st) && p in st.qs && st.qs[p].OnHeap() && skip + n <= st.qs[p].len
    ensures var st' := st.(qs := st.qs[p := st.qs[p].(chr := st.qs[p].chr + skip, len := n)]);
      && Inv(st') && Text(st', p).bytes == Text(st, p).bytes[skip..skip + n]
      && View(st') == View(st)[p := Text(st, p).(bytes := Text(st, p).bytes[skip..skip + n])]
  {
    var st' := Cut(st, p, skip, n);
    ShrinkInv(st, p, skip, n);
    assert st.list[st.qs[p].listi] == p && st.qs[p].End() <= |st.mem|;
    hide Inv;
    CutText(st, p, skip, n);
    hide Text, Cut;
    ViewSet(st, st', p);
  }

  lemma CutText(st: State, p: int, skip: nat, n: nat)
    requires p in st.qs && st.qs[p].OnHeap() && st.qs[p].End() <= |st.mem| && skip + n <= st.qs[p].len
    ensures var st' := Cut(st, p, skip, n);
      && st' == st.(qs := st.qs[p := st.qs[p].(chr := st.qs[p].chr + skip, len := n)])
      && |Text(st, p).bytes| == st.qs[p].len && Text(st', p) == Text(st, p).(bytes := Text(st, p).bytes[skip..skip + n])
      && st'.qs.Keys == st.qs.Keys && forall q :: q in st.qs && q != p ==> Text(st', q) == Text(st, q)
  {
    WindowPart(st.mem, st.qs[p], skip, n);
  }
}
