/** The BASIC string heap of qbs.cpp as the object the C globals make up: a byte buffer with a
    stack pointer, the index list, the list of temporaries, the descriptors and the stack of
    recycled descriptors. Every operation is proved to keep the heap invariant and to have
    exactly its BASIC meaning on the strings a program can see. */
module StringHeap {
  import opened HeapState
  import opened HeapSteps

  const SPACE: byte := 32

  /** What a fixed-length destination of n bytes holds after an assignment. */
  function PadTo(s: seq<byte>, n: nat): (r: seq<byte>)
    ensures |r| == n
    ensures forall k :: 0 <= k < n ==> r[k] == if k < |s| then s[k] else 32
  {
    if |s| >= n then s[..n] else s + seq(n - |s|, _ => SPACE)
  }

  lemma Padded(a: seq<byte>, at: nat, src: seq<byte>, n: nat)
    requires at + n <= |a|
    requires |src| >= n ==> a[at..at + n] == src[..n]
    requires |src| < n ==> a[at..at + |src|] == src && forall p :: at + |src| <= p < at + n ==> a[p] == SPACE
    ensures a[at..at + n] == PadTo(src, n)
  {
    if |src| < n {
      var x, y := a[at..at + n], PadTo(src, n);
      forall k | 0 <= k < n
        ensures x[k] == y[k]
      {
        if k < |src| { assert a[at..at + |src|][k] == src[k]; } else { assert a[at + k] == SPACE; }
      }
    }
  }

  /** The bytes of src, cut off or followed by spaces. */
  lemma PaddedOut(half: seq<byte>, out: seq<byte>, at: nat, src: seq<byte>, n: nat, len: nat)
    requires at + len <= |half| && n == (if |src| >= len then len else |src|) && half[at..at + n] == src[..n]
    requires SameOutside(half, out, at + n, at + len) && forall p :: at + n <= p < at + len ==> out[p] == SPACE
    ensures out[at..at + len] == PadTo(src, len)
  {
    SameRange(out, half, at, at, n);
    if |src| < len { assert src[..n] == src; }
    Padded(out, at, src, len);
  }

  lemma SameRange(x: seq<byte>, y: seq<byte>, a: nat, b: nat, n: nat)
    requires a + n <= |x| && b + n <= |y| && forall p :: a <= p < a + n ==> x[p] == y[p - a + b]
    ensures x[a..a + n] == y[b..b + n]
  {
    var u, v := x[a..a + n], y[b..b + n];
    forall k | 0 <= k < n
      ensures u[k] == v[k]
    {
      assert x[a + k] == y[b + k];
    }
  }

  /** memmove within one array, towards lower addresses or between disjoint ranges. */
  method Move(a: array<byte>, dest: nat, src: nat, n: nat)
    requires dest + n <= a.Length && src + n <= a.Length
    requires dest <= src || src + n <= dest
    modifies a
    ensures a[dest..dest + n] == old(a[src..src + n])
    ensures SameOutside(old(a[..]), a[..], dest, dest + n)
  {
    for k := 0 to n
      invariant forall p :: dest <= p < dest + k ==> a[p] == old(a[p - dest + src])
      invariant forall p :: 0 <= p < a.Length && !(dest <= p < dest + k) ==> a[p] == old(a[p])
    {
      a[dest + k] := a[src + k];
    }
    SameRange(a[..], old(a[..]), dest, src, n);
  }

  /** memcpy between different arrays. */
  method Copy(a: array<byte>, dest: nat, b: array<byte>, src: nat, n: nat)
    requires a != b && dest + n <= a.Length && src + n <= b.Length
    modifies a
    ensures a[dest..dest + n] == b[src..src + n]
    ensures SameOutside(old(a[..]), a[..], dest, dest + n)
  {
    for k := 0 to n
      invariant forall p :: dest <= p < dest + k ==> a[p] == b[p - dest + src]
      invariant forall p :: 0 <= p < a.Length && !(dest <= p < dest + k) ==> a[p] == old(a[p])
    {
      a[dest + k] := b[src + k];
    }
    SameRange(a[..], b[..], dest, src, n);
  }

  /** memset with spaces. */
  method Pad(a: array<byte>, dest: nat, n: nat)
    requires dest + n <= a.Length
    modifies a
    ensures forall p :: dest <= p < dest + n ==> a[p] == SPACE
    ensures SameOutside(old(a[..]), a[..], dest, dest + n)
  {
    for k := 0 to n
      invariant forall p :: dest <= p < dest + k ==> a[p] == SPACE
      invariant forall p :: 0 <= p < a.Length && !(dest <= p < dest + k) ==> a[p] == old(a[p])
    {
      a[dest + k] := SPACE;
    }
  }

  class Heap {
    var data: array<byte>
    const outside: array<byte>
    var sp: nat
    var list: seq<int>
    var listLast: nat
    var tmps: seq<int>
    var tmpLast: nat
    var qs: Table
    var freed: seq<int>
    var next: nat

    ghost function Abs(): State
      reads this, data, outside
    {
      State(list, qs, sp, data[..], outside[..], tmps, freed, next)
    }

    /** The strings a program can see. */
    ghost function Strings(): map<int, Str>
      reads this, data, outside
    {
      View(Abs())
    }

    ghost predicate ValidBut(loose: int, popped: int)
      reads this, data, outside
    {
      && data != outside && InvBut(Abs(), loose, popped)
      && |list| <= listLast + 1 && 0 < listLast && |tmps| <= tmpLast + 1 && 0 < tmpLast
    }

    ghost predicate Valid()
      reads this, data, outside
    {
      ValidBut(0, 0)
    }

    constructor (memory: array<byte>)
      ensures Valid() && Strings() == map[] && outside == memory && fresh(data)
    {
      outside := memory;
      data := new byte[1048576];
      sp, list, listLast := 0, [], 65535;
      tmps, tmpLast := [0], 65535;
      qs, freed, next := map[], [], 1;
    }

    // ------------------------------------------------------------------------------------
    // Compaction
    // ------------------------------------------------------------------------------------

    /** The sliding pass over the list. */
    method Pack(ghost loose: int, ghost popped: int)
      requires ValidBut(loose, popped)
      modifies this`qs, this`sp, data
      ensures ValidBut(loose, popped) && Strings() - {loose} == old(Strings()) - {loose}
      ensures sp <= old(sp) && Tight(list, qs, |list|)
      ensures qs.Keys == old(qs).Keys
      ensures forall p :: p in qs ==> qs[p] == old(qs)[p].(chr := qs[p].chr) && (p !in list ==> qs[p] == old(qs)[p])
    {
      hide InvBut, View, Start, PackedWell;
      ghost var st := Abs();
      ghost var s := Packing(qs, data[..], 0);
      StartOf(st, loose, popped);
      sp := PlaceAll(s);
      ghost var k := Packing(qs, data[..], sp);
      assert Abs() == st.(qs := k.qs, mem := k.mem, sp := k.dest);
      PackDone(st, k, loose, popped);
      PackShape(list, s, k);
    }

    method PlaceAll(ghost s: Packing) returns (dest: nat)
      requires s == Packing(qs, data[..], 0) && Start(list, s)
      modifies this`qs, data
      ensures PackedWell(list, |list|, s, Packing(qs, data[..], dest))
    {
      hide Start, PackedWell, Place, CanPlace;
      PackStart(list, s);
      dest := 0;
      for i := 0 to |list|
        invariant PackedWell(list, i, s, Packing(qs, data[..], dest))
      {
        PackStep(list, i, s, Packing(qs, data[..], dest));
        dest := PlaceOne(list[i], dest);
      }
    }

    /** One turn: a gap of more than 32 bytes in front of a string is closed. */
    method PlaceOne(p: int, dest: nat) returns (end: nat)
      requires CanPlace(p, Packing(qs, data[..], dest))
      modifies this`qs, data
      ensures Packing(qs, data[..], end) == Place(p, old(Packing(qs, data[..], dest)))
    {
      hide MoveDown;
      end := dest;
      if p != DEAD {
        if qs[p].chr - dest > SLACK {
          Slide(dest, qs[p].chr, qs[p].len);
          qs := qs[p := qs[p].(chr := dest)];
        }
        end := qs[p].End();
      }
    }

    /** Moves n bytes down. */
    method Slide(dest: nat, src: nat, n: nat)
      requires dest <= src && src + n <= data.Length
      modifies data
      ensures data[..] == MoveDown(old(data[..]), dest, src, n)
    {
      ghost var was := data[..];
      if n > 0 {
        Move(data, dest, src, n);
      }
      ghost var want := MoveDown(was, dest, src, n);
      forall p | 0 <= p < data.Length
        ensures data[p] == want[p]
      {
        if dest <= p < dest + n {
          assert data[p] == data[dest..dest + n][p - dest];
          assert want[p] == want[dest..dest + n][p - dest];
        }
      }
    }

    /** qbs_concat: compacts the buffer, then grows it when the bytes asked for would fill more
        than half of what is left. */
    method Concat(bytesRequired: nat, ghost loose: int, ghost popped: int)
      requires ValidBut(loose, popped)
      modifies this`qs, this`sp, this`data, data
      ensures ValidBut(loose, popped) && Strings() - {loose} == old(Strings()) - {loose}
      ensures data == old(data) || fresh(data)
      ensures sp + bytesRequired <= data.Length
      ensures data.Length == old(data.Length) + if sp * 2 + bytesRequired + 32 >= old(data.Length) then old(data.Length) + bytesRequired else 0
      ensures list != [] ==> sp <= old(sp) && Tight(list, qs, |list|)
      ensures qs.Keys == old(qs).Keys
      ensures forall p :: p in qs ==> qs[p] == old(qs)[p].(chr := qs[p].chr) && (p !in list ==> qs[p] == old(qs)[p])
    {
      if |list| > 0 {
        Pack(loose, popped);
      }
      if sp * 2 + (bytesRequired + SLACK) >= data.Length {
        ghost var st := Abs();
        var bigger := new byte[data.Length * 2 + bytesRequired];
        Copy(bigger, 0, data, 0, data.Length);
        GrowMem(st, bigger[..], loose, popped) by { assert bigger[..][..|st.mem|] == bigger[0..data.Length]; }
        data := bigger;
        assert Abs() == st.(mem := bigger[..]);
      }
    }

    /** The pass that closes the gaps in the index list. */
    method CloseGaps(ghost loose: int, ghost popped: int)
      requires ValidBut(loose, popped)
      modifies this`qs, this`list
      ensures ValidBut(loose, popped) && Strings() == old(Strings())
      ensures list == Survivors(old(list)) && |list| <= old(|list|)
      ensures qs.Keys == old(qs).Keys
      ensures forall p :: p in qs ==> qs[p] == old(qs)[p].(listi := qs[p].listi)
      ensures forall p :: p in qs && p !in old(list) ==> qs[p] == old(qs)[p]
    {
      hide InvBut, Reindexed, View;
      ghost var st := Abs();
      ghost var k := Indexing(list, qs, 0);
      ReindexStart(st, loose, popped);
      var d := 0;
      for i := 0 to |list|
        invariant k == Indexing(list, qs, d) && Reindexed(st.list, st.qs, i, k)
      {
        ReindexStep(st.list, st.qs, i, k);
        k := Reindex(i, k);
        var p := list[i];
        if p != DEAD {
          if i != d {
            qs := qs[p := qs[p].(listi := d)];
            list := list[d := p];
          }
          d := d + 1;
        }
      }
      ReindexDone(st, k, loose, popped);
      list := list[..d];
    }

    /** qbs_concat_list: closes the gaps in the index list and doubles it when it is half full. */
    method ConcatList(ghost loose: int, ghost popped: int)
      requires ValidBut(loose, popped)
      modifies this`qs, this`list, this`listLast
      ensures ValidBut(loose, popped) && Strings() == old(Strings())
      ensures list == Survivors(old(list)) && |list| <= listLast == old(listLast) * if |list| >= old(listLast) / 2 then 2 else 1
      ensures qs.Keys == old(qs).Keys
      ensures forall p :: p in qs ==> qs[p] == old(qs)[p].(listi := qs[p].listi)
      ensures forall p :: p in qs && p !in old(list) ==> qs[p] == old(qs)[p]
    {
      hide InvBut, View;
      CloseGaps(loose, popped);
      if |list| >= listLast / 2 {
        listLast := listLast * 2;
      }
    }

    // ------------------------------------------------------------------------------------
    // Descriptors and temporaries
    // ------------------------------------------------------------------------------------

    /** qbs_new_descriptor: the last recycled descriptor, or the next one of the pool. */
    method NewDescriptor() returns (p: int)
      requires Valid()
      modifies this`freed, this`next
      ensures Valid() && Strings() == old(Strings()) && Unused(Abs(), p)
      ensures if old(freed) != [] then p == old(freed)[|old(freed)| - 1] && freed == old(freed)[..|old(freed)| - 1] && next == old(next)
              else p == old(next) && next == p + 1
    {
      if |freed| > 0 {
        p := freed[|freed| - 1];
        freed := freed[..|freed| - 1];
      } else {
        p := next;
        next := next + 1;
      }
      assert View(Abs()) == old(View(Abs()));
    }

    /** qbs_maketmp: enters a string in the list of temporaries. */
    method MakeTmp(p: int)
      requires Valid() && p in qs && !qs[p].tmp
      modifies this`qs, this`tmps, this`tmpLast
      ensures Valid() && Strings() == old(Strings())[p := old(Strings())[p].(tmp := true)]
      ensures qs == old(qs)[p := old(qs)[p].(tmp := true, tmplisti := old(|tmps|))]
    {
      ghost var st := Abs();
      TempNew(st, p);
      TempView(st, p);
      if |tmps| > tmpLast {
        // qbs_tmp_concat_list doubles a list that is at least half full
        if |tmps| >= tmpLast / 2 {
          tmpLast := tmpLast * 2;
        }
      }
      qs := qs[p := qs[p].(tmp := true, tmplisti := |tmps|)];
      tmps := tmps + [p];
      assert Abs() == AsTemp(st, p);
    }

    /** Lists a new string of `size` bytes at the stack pointer. */
    method Push(p: int, size: nat)
      requires Valid() && Unused(Abs(), p) && sp + size + SLACK <= data.Length && |list| <= listLast
      modifies this`qs, this`list, this`sp
      ensures Valid() && p in qs && !qs[p].tmp
      ensures Strings() == old(Strings())[p := Str(false, false, false, Strings()[p].bytes)]
      ensures |Strings()[p].bytes| == size
    {
      hide InvBut, View;
      ghost var st := Abs();
      ListNew(st, p, size, sp + size + SLACK);
      qs := qs[p := Fresh(sp, size, |list|)];
      list := list + [p];
      sp := sp + size + SLACK;
      assert Abs() == st.(qs := qs, list := list, sp := sp);
      ViewAt(Abs());
    }

    /** qbs_new: a string of `size` bytes, whatever they are, at the stack pointer. */
    method New(size: nat, tmp: bool) returns (p: int)
      requires Valid()
      modifies this, data
      ensures Valid() && (data == old(data) || fresh(data))
      ensures p !in old(Strings()) && p in Strings() && |Strings()[p].bytes| == size
      ensures Strings() == old(Strings())[p := Str(tmp, false, false, Strings()[p].bytes)]
    {
      hide InvBut, View, Text;
      ViewAt(Abs());
      p := Reserve(size);
      ViewAt(Abs());
      Push(p, size);
      ViewAt(Abs());
      ghost var it := Strings()[p];
      if tmp {
        MakeTmp(p);
        assert Strings()[p] == it.(tmp := true);
      }
    }

    /** Room in the buffer, a descriptor and a slot for a new string. */
    method Reserve(size: nat) returns (p: int)
      requires Valid()
      modifies this, data
      ensures Valid() && (data == old(data) || fresh(data))
      ensures Strings() == old(Strings()) && Unused(Abs(), p)
      ensures sp + size + SLACK <= data.Length && |list| <= listLast
    {
      hide View, Text;
      MakeRoom(size);
      if |list| > listLast {
        ConcatList(0, 0);
      }
      p := NewDescriptor();
    }

    /** The test in front of every allocation. */
    method MakeRoom(size: nat)
      requires Valid()
      modifies this`qs, this`sp, this`data, data
      ensures Valid() && (data == old(data) || fresh(data))
      ensures Strings() == old(Strings()) && sp + size + SLACK <= data.Length
    {
      if sp + size + SLACK > data.Length {
        Concat(size + SLACK, 0, 0);
        assert Strings() - {0} == Strings() && old(Strings()) - {0} == old(Strings());
      }
    }

    // ------------------------------------------------------------------------------------
    // Release
    // ------------------------------------------------------------------------------------

    /** Clears a temporary's slot and pops the dead slots above the sentinel. */
    method DropTemp(p: int)
      requires ValidBut(0, p) && p in qs && qs[p].tmp
      modifies this`tmps
      ensures ValidBut(0, p) && Strings() == old(Strings()) && |tmps| <= old(|tmps|)
      ensures p !in tmps
    {
      hide InvBut, View;
      ghost var st := Abs();
      if qs[p].tmplisti < |tmps| {
        TempDrop(st, 0, p);
        tmps := tmps[qs[p].tmplisti := DEAD];
        assert Abs() == st.(tmps := tmps);
      }
      TempsHead(Abs(), 0, p);
      while tmps[|tmps| - 1] == DEAD
        invariant 0 < |tmps| <= |st.tmps| && tmps[0] == 0 && Abs() == st.(tmps := tmps) && InvBut(Abs(), 0, p)
        invariant qs[p].tmplisti < |tmps| ==> tmps[qs[p].tmplisti] == DEAD
        decreases |tmps|
      {
        TempPop(Abs(), 0, p);
        tmps := tmps[..|tmps| - 1];
        assert Abs() == st.(tmps := tmps);
      }
      NotInTmps(Abs(), p);
      SameView(st, Abs());
    }

    /** Pops the dead slots at the end of the list. */
    method TrimList(ghost loose: int, ghost popped: int)
      requires ValidBut(loose, popped)
      modifies this`list
      ensures ValidBut(loose, popped) && Strings() == old(Strings())
      ensures list == [] || list[|list| - 1] != DEAD
    {
      ghost var st := Abs();
      while |list| > 0 && list[|list| - 1] == DEAD
        invariant |list| <= |st.list| && list == st.list[..|list|]
        invariant forall i :: |list| <= i < |st.list| ==> st.list[i] == DEAD
        decreases |list|
      {
        list := list[..|list| - 1];
      }
      Truncate(st, |list|, loose, popped);
      assert Abs() == st.(list := list);
    }

    /** Lowers the stack pointer to 32 bytes past the last string. */
    method LowerSp(ghost loose: int, ghost popped: int)
      requires ValidBut(loose, popped) && (list == [] || list[|list| - 1] != DEAD)
      modifies this`sp
      ensures ValidBut(loose, popped) && Strings() == old(Strings())
      ensures sp == if list == [] then 0 else
                    var e := qs[list[|list| - 1]].End() + 32; if e > data.Length then data.Length else e
    {
      ghost var st := Abs();
      if |list| > 0 {
        sp := qs[list[|list| - 1]].End() + SLACK;
        if sp > data.Length {
          sp := data.Length;
        }
      } else {
        sp := 0;
      }
      SetSp(st, sp, loose, popped);
      assert Abs() == st.(sp := sp);
    }

    /** Takes a heap string off the list. */
    method DropListed(p: int)
      requires ValidBut(0, p) && p in qs && qs[p].OnHeap()
      modifies this`list, this`sp
      ensures ValidBut(p, p) && Strings() == old(Strings())
    {
      hide InvBut, View;
      ghost var st := Abs();
      Unlist(st, p, p);
      list := list[qs[p].listi := DEAD];
      assert Abs() == st.(list := list);
      SameView(st, Abs());
      TrimList(p, p);
      LowerSp(p, p);
    }

    /** qbs_free. The slot of a temporary may have been popped already by the caller. */
    method Free(p: int)
      requires ValidBut(0, p) && p in qs
      modifies this`tmps, this`list, this`sp, this`qs, this`freed
      ensures Valid() && Strings() == old(Strings()) - {p} && |tmps| <= old(|tmps|)
      ensures qs == old(qs) - {p}
    {
      hide View;
      if qs[p].tmplisti > 0 {
        DropTemp(p);
      }
      ghost var off := !qs[p].OnHeap();
      if qs[p].OnHeap() {
        DropListed(p);
      }
      ghost var st := Abs();
      Forget(st, p, if off then 0 else p);
      qs := qs - {p};
      freed := freed + [p];
      assert Abs() == st.(qs := qs, freed := freed);
    }

    // ------------------------------------------------------------------------------------
    // Assignment
    // ------------------------------------------------------------------------------------

    /** Copies the n bytes of a string that begin at `from` to a place in the buffer. */
    method CopyIn(at: nat, q: Qbs, from: nat, n: nat)
      requires data != outside && at + n <= data.Length && from + n <= q.len
      requires q.End() <= if q.OnHeap() then data.Length else outside.Length
      requires q.OnHeap() ==> q.End() <= at || at + n <= q.chr || (q.chr == at && from == 0)
      modifies data
      ensures SameOutside(old(data[..]), data[..], at, at + n)
      ensures data[at..at + n] == old(Window(if q.OnHeap() then data[..] else outside[..], q))[from..from + n]
    {
      WindowPart(if q.OnHeap() then data[..] else outside[..], q, from, n);
      if q.OnHeap() {
        assert data[..][q.chr + from..q.chr + from + n] == data[q.chr + from..q.chr + from + n];
        Move(data, at, q.chr + from, n);
      } else {
        assert outside[..][q.chr + from..q.chr + from + n] == outside[q.chr + from..q.chr + from + n];
        Copy(data, at, outside, q.chr + from, n);
      }
    }

    /** Overwrites d where it stands with the bytes of s. */
    method WriteInPlace(d: int, s: int, newSp: nat)
      requires Valid() && d in qs && s in qs && qs[d].OnHeap()
      requires Room(Abs(), d, qs[s].len) && qs[d].chr + qs[s].len <= newSp <= data.Length
      requires newSp == sp || forall j :: qs[d].listi < j < |list| ==> list[j] == DEAD
      modifies this`qs, this`sp, data
      ensures Valid()
      ensures Strings() == old(Strings())[d := old(Strings()[d].(bytes := Strings()[s].bytes))]
    {
      hide InvBut;
      ghost var st := Abs();
      var at, n := qs[d].chr, qs[s].len;
      Apart(st, d, s);
      CopyIn(at, qs[s], 0, n);
      WriteInv(st, d, data[..], n, newSp);
      WriteDone(st, d, s, data[..], newSp);
      qs := qs[d := qs[d].(len := n)];
      sp := newSp;
      assert Abs() == Written(st, d, data[..], n, newSp);
    }

    /** Pops a dead slot off the end of the list of temporaries. */
    method PopDead()
      requires Valid() && 1 < |tmps| && tmps[|tmps| - 1] == DEAD
      modifies this`tmps
      ensures Valid() && Strings() == old(Strings()) && tmps == old(tmps)[..|old(tmps)| - 1]
    {
      ghost var st := Abs();
      TempPop(st, 0, 0);
      tmps := tmps[..|tmps| - 1];
      assert Abs() == st.(tmps := tmps);
    }

    /** The destination takes over a temporary, which goes. */
    method Acquire(d: int, s: int)
      requires Valid() && CanAcquire(Abs(), d, s)
      modifies this`qs, this`list, this`tmps, this`freed
      ensures Valid()
      ensures Strings() == (old(Strings()) - {s})[d := old(Strings()[d].(bytes := Strings()[s].bytes))]
    {
      hide Listed, Ordered;
      ghost var st := Abs();
      AcquireInv(st, d, s);
      AcquireView(st, d, s);
      var src := qs[s];
      list := list[qs[d].listi := DEAD];
      list := list[src.listi := d];
      tmps := tmps[src.tmplisti := DEAD];
      qs := qs[d := qs[d].(listi := src.listi, chr := src.chr, len := src.len)];
      qs := qs - {s};
      freed := freed + [s];
      assert qs == (st.qs - {s})[d := st.qs[d].(listi := src.listi, chr := src.chr, len := src.len)];
      assert Abs() == Acquired(st, d, s);
      if src.tmplisti == |tmps| - 1 {
        PopDead();
      }
    }

    /** A longer source may still fit where the destination stands: when the destination is the
        last string and the buffer is large enough, or when the next string is far enough away. */
    method TryExtend(d: int, s: int) returns (done: bool)
      requires Valid() && d in qs && s in qs && qs[d].OnHeap() && !(qs[s].tmp && qs[s].OnHeap())
      modifies this`qs, this`sp, this`list, data
      ensures Valid() && (!done ==> qs == old(qs) && sp == old(sp))
      ensures Strings() == if done then old(Strings())[d := old(Strings()[d].(bytes := Strings()[s].bytes))]
                           else old(Strings())
    {
      assert qs[d].listi < |list| && list[qs[d].listi] == d;
      if qs[d].listi == |list| - 1 {
        if qs[d].chr + qs[s].len <= data.Length {
          WriteInPlace(d, s, qs[d].chr + qs[s].len);
          return true;
        }
        return false;
      }
      var i := qs[d].listi + 1;
      while i < |list|
        invariant qs[d].listi < i <= |list|
        invariant forall j :: qs[d].listi < j < i ==> list[j] == DEAD
      {
        if list[i] != DEAD {
          var tqbs := list[i];
          assert qs[tqbs].OnHeap();
          if tqbs == s && qs[s].tmp {
            assert false; // a listed temporary has been acquired before
          } else {
            if qs[d].chr + qs[s].len > qs[tqbs].chr {
              return false;
            }
            RoomBefore(Abs(), d, i, qs[s].len);
            WriteInPlace(d, s, sp);
            return true;
          }
        }
        i := i + 1;
      }
      CutAfter(d);
      if qs[d].chr + qs[s].len <= data.Length {
        WriteInPlace(d, s, qs[d].chr + qs[s].len);
        return true;
      }
      return false;
    }

    /** Cuts the dead slots behind d off the list. */
    method CutAfter(d: int)
      requires Valid() && d in qs && qs[d].OnHeap()
      requires forall j :: qs[d].listi < j < |list| ==> list[j] == DEAD
      modifies this`list
      ensures Valid() && Strings() == old(Strings()) && |list| == qs[d].listi + 1
    {
      ghost var st := Abs();
      assert qs[d].listi < |list|;
      Truncate(st, qs[d].listi + 1, 0, 0);
      list := list[..qs[d].listi + 1];
      assert Abs() == st.(list := list);
    }

    /** The test in front of a relocation, with the destination off the list. */
    method MakeSpace(d: int, n: nat)
      requires ValidBut(d, 0) && d in qs && qs[d].OnHeap()
      modifies this`qs, this`sp, this`data, this`list, this`listLast, data
      ensures ValidBut(d, 0) && (data == old(data) || fresh(data))
      ensures qs.Keys == old(qs).Keys && qs[d] == old(qs)[d]
      ensures forall p :: p in qs ==> qs[p] == old(qs)[p].(chr := qs[p].chr, listi := qs[p].listi)
      ensures Strings() - {d} == old(Strings()) - {d}
      ensures sp + n <= data.Length && |list| <= listLast
    {
      hide Listed, Ordered, Temps, Recycled;
      if sp + n > data.Length {
        Concat(n, d, 0);
      }
      if |list| > listLast {
        ConcatList(d, 0);
      }
    }

    /** Lists d again at the stack pointer and copies the bytes of s to it. */
    method Relist(d: int, s: int)
      requires ValidBut(d, 0) && d in qs && qs[d].OnHeap() && s in qs && s != d
      requires sp + qs[s].len <= data.Length && |list| <= listLast
      modifies this`qs, this`sp, this`list, data
      ensures Valid()
      ensures Strings() == old(Strings())[d := old(Strings()[d].(bytes := Strings()[s].bytes))]
    {
      hide InvBut, View;
      ghost var st := Abs();
      var at, n := sp, qs[s].len;
      Behind(st, d, s);
      CopyIn(at, qs[s], 0, n);
      RelistInv(st, d, data[..], n);
      RelistDone(st, d, s, data[..]);
      qs := qs[d := qs[d].(chr := at, len := n, listi := |list|)];
      list := list + [d];
      sp := sp + n;
      assert Abs() == Relisted(st, d, data[..], n);
    }

    /** The destination moves behind every other string. */
    method Relocate(d: int, s: int)
      requires Valid() && d in qs && qs[d].OnHeap() && s in qs && s != d
      modifies this`qs, this`sp, this`data, this`list, this`listLast, data
      ensures Valid() && (data == old(data) || fresh(data))
      ensures Strings() == old(Strings())[d := old(Strings()[d].(bytes := Strings()[s].bytes))]
    {
      hide InvBut;
      ghost var st := Abs();
      Unlist(st, d, 0);
      list := list[qs[d].listi := DEAD];
      assert Abs() == st.(list := list);
      MakeSpace(d, qs[s].len);
      ghost var moved := Abs();
      SameBut(st, moved, d, s);
      Relist(d, s);
    }

    /** Copies the first n bytes of a string to the memory outside the buffer. */
    method Fetch(at: nat, q: Qbs, n: nat)
      requires data != outside && at + n <= outside.Length && n <= q.len
      requires q.End() <= if q.OnHeap() then data.Length else outside.Length
      requires !q.OnHeap() ==> at <= q.chr || q.chr + n <= at
      modifies outside
      ensures SameOutside(old(outside[..]), outside[..], at, at + n)
      ensures outside[at..at + n] == old(Window(if q.OnHeap() then data[..] else outside[..], q))[0..n]
    {
      WindowPart(if q.OnHeap() then data[..] else outside[..], q, 0, n);
      hide Window, SameOutside;
      if q.OnHeap() {
        assert data[..][q.chr..q.chr + n] == data[q.chr..q.chr + n];
        Copy(outside, at, data, q.chr, n);
      } else {
        assert outside[..][q.chr..q.chr + n] == outside[q.chr..q.chr + n];
        Move(outside, at, q.chr, n);
      }
    }

    /** Writes the bytes of s, cut or padded with spaces, to the window of a fixed string. */
    method CopyOut(d: Qbs, q: Qbs)
      requires data != outside && !d.OnHeap() && d.End() <= outside.Length
      requires q.End() <= if q.OnHeap() then data.Length else outside.Length
      requires !Aliased(q, d) || (q.chr == d.chr && q.len == d.len)
      modifies outside
      ensures SameOutside(old(outside[..]), outside[..], d.chr, d.End())
      ensures outside[d.chr..d.End()] == PadTo(old(Window(if q.OnHeap() then data[..] else outside[..], q)), d.len)
    {
      var n := if q.len >= d.len then d.len else q.len;
      ghost var src := Window(if q.OnHeap() then data[..] else outside[..], q);
      Fetch(d.chr, q, n);
      ghost var half := outside[..];
      Pad(outside, d.chr + n, d.len - n);
      hide Window;
      PaddedOut(half, outside[..], d.chr, src, n, d.len);
    }

    /** Assignment to a fixed-length string. */
    method SetFixed(d: int, s: int)
      requires Valid() && d in qs && s in qs && !qs[d].OnHeap()
      requires s == d || !Aliased(qs[s], qs[d])
      modifies outside
      ensures Valid() && Strings().Keys == old(Strings()).Keys
      ensures Strings()[d] == old(Strings()[d].(bytes := PadTo(Strings()[s].bytes, |Strings()[d].bytes|)))
      ensures forall q :: q in qs && q != d && !Aliased(qs[q], qs[d]) ==> Strings()[q] == old(Strings()[q])
    {
      hide Ordered, Temps, Recycled;
      ghost var st := Abs();
      assert qs[s].OnHeap() ==> list[qs[s].listi] == s;
      CopyOut(qs[d], qs[s]);
      WindowWrite(st, d, outside[..]);
      assert Abs() == st.(ext := outside[..]);
    }

    /** Assignment to a string on the heap, before the source is released. */
    method SetHeap(d: int, s: int)
      requires Valid() && d in qs && s in qs && qs[d].OnHeap() && !(qs[s].tmp && qs[s].OnHeap())
      modifies this`qs, this`sp, this`data, this`list, this`listLast, data
      ensures Valid() && (data == old(data) || fresh(data))
      ensures Strings() == old(Strings())[d := old(Strings()[d].(bytes := Strings()[s].bytes))]
    {
      hide View, Temps, Recycled;
      if qs[s].len <= qs[d].len {
        Fits(Abs(), d, qs[s].len);
        WriteInPlace(d, s, sp);
      } else {
        var done := TryExtend(d, s);
        if !done {
          Relocate(d, s);
        }
      }
    }

    /** qbs_set: the destination holds the bytes the source held, cut or padded when it is
        fixed; a temporary source is gone; no other string has changed, unless it shares the
        memory of a fixed destination. */
    method Set(d: int, s: int)
      requires Valid() && d in qs && s in qs && !qs[d].readonly
      requires s == d ==> !qs[s].tmp
      requires s == d || !Aliased(qs[s], qs[d])
      modifies this, data, outside
      ensures Valid() && (data == old(data) || fresh(data))
      ensures Strings().Keys == old(Strings().Keys - Gone(qs[s].tmp, s))
      ensures Strings()[d] == old(Assigned(Strings()[d], Strings()[s]))
      ensures forall q :: q in Strings() && q != d && !old(Aliased(qs[q], qs[d])) ==> Strings()[q] == old(Strings()[q])
    {
      hide InvBut, Window;
      if qs[d].fixed {
        SetFixed(d, s);
        if qs[s].tmp {
          ReleaseTmp(s);
        }
      } else if qs[s].tmp && !qs[s].fixed && !qs[s].readonly {
        Acquire(d, s);
      } else {
        ghost var was := Strings()[s];
        SetHeap(d, s);
        assert s in Strings() && Strings()[s].tmp == was.tmp;
        if qs[s].tmp {
          ReleaseTmp(s);
        }
      }
    }

    /** Frees a temporary whose slot is in place. */
    method ReleaseTmp(p: int)
      requires Valid() && p in qs
      modifies this`tmps, this`list, this`sp, this`qs, this`freed
      ensures Valid() && Strings() == old(Strings()) - {p} && |tmps| <= old(|tmps|)
    {
      TempsWeaken(Abs(), p);
      Free(p);
    }

    // ------------------------------------------------------------------------------------
    // The operations around the heap
    // ------------------------------------------------------------------------------------

    /** Registers a window of the memory outside the buffer. */
    method AddOutside(chr: nat, len: nat, fixed: bool, readonly: bool) returns (p: int)
      requires Valid() && chr + len <= outside.Length && (fixed || readonly)
      modifies this`qs, this`freed, this`next
      ensures Valid() && p !in old(qs) && p in qs && !qs[p].tmp
      ensures Strings() == old(Strings())[p := Str(false, fixed, readonly, outside[chr..chr + len])]
    {
      hide InvBut;
      p := NewDescriptor();
      ghost var st := Abs();
      AddWindow(st, p, Qbs(chr, len, 0, false, 0, fixed, readonly));
      qs := qs[p := Qbs(chr, len, 0, false, 0, fixed, readonly)];
      assert Abs() == st.(qs := qs);
    }

    /** qbs_new_fixed: a fixed-length string over existing memory. */
    method NewFixed(offset: nat, size: nat, tmp: bool) returns (p: int)
      requires Valid() && offset + size <= outside.Length
      modifies this`qs, this`freed, this`next, this`tmps, this`tmpLast
      ensures Valid() && p !in old(qs)
      ensures Strings() == old(Strings())[p := Str(tmp, true, false, outside[offset..offset + size])]
    {
      hide InvBut;
      p := AddOutside(offset, size, true, false);
      if tmp {
        MakeTmp(p);
      }
    }

    /** qbs_new_txt_len: a read-only temporary over the bytes of a literal. */
    method NewTxt(offset: nat, size: nat) returns (p: int)
      requires Valid() && offset + size <= outside.Length
      modifies this`qs, this`freed, this`next, this`tmps, this`tmpLast
      ensures Valid() && p !in old(qs)
      ensures Strings() == old(Strings())[p := Str(true, false, true, outside[offset..offset + size])]
    {
      hide InvBut;
      p := AddOutside(offset, size, false, true);
      MakeTmp(p);
    }

    /** Copies n bytes of p, from `from` on, into r from `at` on. */
    method Fill(r: int, at: nat, p: int, from: nat, n: nat)
      requires Valid() && r in qs && p in qs && r != p && qs[r].OnHeap()
      requires at + n <= |Strings()[r].bytes| && from + n <= |Strings()[p].bytes|
      modifies data
      ensures Valid()
      ensures Strings() == old(Strings()[r := Strings()[r].(bytes :=
                Strings()[r].bytes[..at] + Strings()[p].bytes[from..from + n] + Strings()[r].bytes[at + n..])])
    {
      hide InvBut;
      ghost var st := Abs();
      TextLen(st, r);
      TextLen(st, p);
      FillApart(st, r, p);
      CopyIn(qs[r].chr + at, qs[p], from, n);
      FillDone(st, r, at, p, from, n, data[..]);
      assert Abs() == st.(mem := data[..]);
    }

    /** A new temporary of the bytes [from, from + n) of p. */
    method NewFrom(p: int, from: nat, n: nat) returns (r: int)
      requires Valid() && p in qs && from + n <= |Strings()[p].bytes|
      modifies this, data
      ensures Valid() && (data == old(data) || fresh(data))
      ensures r !in old(qs) && p in qs && qs[p].tmp == old(qs[p].tmp)
      ensures Strings() == old(Strings())[r := Str(true, false, false, old(Strings()[p].bytes)[from..from + n])]
    {
      hide InvBut, View;
      ViewAt(Abs());
      ghost var was := Strings();
      r := New(n, true);
      ghost var mid := Strings();
      ViewAt(Abs());
      assert mid[p] == was[p];
      assert r in qs && qs[r].OnHeap() by { assert r in mid && mid[r] == Text(Abs(), r); }
      if n > 0 {
        Fill(r, 0, p, from, n);
        assert mid[r].bytes[..0] + was[p].bytes[from..from + n] + mid[r].bytes[n..] == was[p].bytes[from..from + n];
      }
      assert Strings()[p].tmp == was[p].tmp;
    }

    /** A temporary of the bytes [from, from + n) of p; p goes if it is a temporary. */
    method Slice(p: int, from: nat, n: nat) returns (r: int)
      requires Valid() && p in qs && from + n <= |Strings()[p].bytes|
      modifies this, data
      ensures Valid() && (data == old(data) || fresh(data))
      ensures r !in old(qs)
      ensures Strings() == old(Strings() - Gone(qs[p].tmp, p))
                           [r := Str(true, false, false, old(Strings()[p].bytes)[from..from + n])]
    {
      hide InvBut, View;
      r := NewFrom(p, from, n);
      if qs[p].tmp {
        ReleaseTmp(p);
      }
    }

    /** Cuts a temporary on the heap down to the bytes [skip, skip + n) of itself. */
    method Cut(p: int, skip: nat, n: nat)
      requires Valid() && p in qs && qs[p].OnHeap() && skip + n <= |Strings()[p].bytes|
      modifies this`qs
      ensures Valid()
      ensures Strings() == old(Strings()[p := Strings()[p].(bytes := Strings()[p].bytes[skip..skip + n])])
    {
      hide InvBut;
      ghost var st := Abs();
      TextLen(st, p);
      Shrink(st, p, skip, n);
      qs := qs[p := qs[p].(chr := qs[p].chr + skip, len := n)];
      assert Abs() == st.(qs := qs);
    }

    /** qbs_left: the first l bytes, of the string itself when nothing is cut or when it is a
        temporary on the heap, else of a new temporary. */
    method Left(p: int, l: int) returns (r: int)
      requires Valid() && p in qs
      modifies this, data
      ensures Valid() && (data == old(data) || fresh(data))
      ensures r == p || r !in old(qs)
      ensures Strings() == old(Piece(Strings(), p, r, Leftmost(Strings()[p].bytes, l)))
      ensures r in Strings() && Strings()[r].bytes <= old(Strings()[p].bytes)
      ensures |Strings()[r].bytes| == if l < 0 then 0 else if l > |old(Strings()[p].bytes)| then |old(Strings()[p].bytes)| else l
    {
      assert p in Strings();
      PieceShows(Strings(), p, l);
      hide *;
      r := LeftPart(p, l);
    }

    method LeftPart(p: int, l: int) returns (r: int)
      requires Valid() && p in qs
      modifies this, data
      ensures Valid() && (data == old(data) || fresh(data))
      ensures r == p || r !in old(qs)
      ensures Strings() == old(Piece(Strings(), p, r, Leftmost(Strings()[p].bytes, l)))
    {
      ViewOf(Abs(), p);
      hide InvBut, View, Text;
      var m := Clamp(l, qs[p].len);
      ghost var v, bytes := Strings(), Leftmost(Strings()[p].bytes, l);
      Parts(v[p].bytes, l);
      PieceSame(v, p, bytes);
      hide Leftmost, Rightmost, Clamp, Piece;
      if m == qs[p].len {
        return p;
      }
      if qs[p].tmp && qs[p].OnHeap() {
        Cut(p, 0, m);
        return p;
      }
      r := Slice(p, 0, m);
      PieceNew(v, p, r, bytes);
    }

    /** qbs_right: the last l bytes. */
    method Right(p: int, l: int) returns (r: int)
      requires Valid() && p in qs
      modifies this, data
      ensures Valid() && (data == old(data) || fresh(data))
      ensures r == p || r !in old(qs)
      ensures Strings() == old(Piece(Strings(), p, r, Rightmost(Strings()[p].bytes, l)))
      ensures r in Strings() && Ends(old(Strings()[p].bytes), Strings()[r].bytes)
      ensures |Strings()[r].bytes| == if l < 0 then 0 else if l > |old(Strings()[p].bytes)| then |old(Strings()[p].bytes)| else l
    {
      assert p in Strings();
      PieceShows(Strings(), p, l);
      hide *;
      r := RightPart(p, l);
    }

    method RightPart(p: int, l: int) returns (r: int)
      requires Valid() && p in qs
      modifies this, data
      ensures Valid() && (data == old(data) || fresh(data))
      ensures r == p || r !in old(qs)
      ensures Strings() == old(Piece(Strings(), p, r, Rightmost(Strings()[p].bytes, l)))
    {
      ViewOf(Abs(), p);
      hide InvBut, View, Text;
      var m := Clamp(l, qs[p].len);
      ghost var v, bytes := Strings(), Rightmost(Strings()[p].bytes, l);
      Parts(v[p].bytes, l);
      PieceSame(v, p, bytes);
      var at := qs[p].len - m;
      assert v[p].bytes[at..at + m] == bytes;
      hide Leftmost, Rightmost, Clamp, Piece;
      if m == qs[p].len {
        return p;
      }
      if qs[p].tmp && qs[p].OnHeap() {
        Cut(p, at, m);
        return p;
      }
      r := Slice(p, at, m);
      PieceNew(v, p, r, bytes);
    }

    /** Frees p when it is a temporary. */
    method Release(p: int)
      requires Valid() && p in qs
      modifies this`tmps, this`list, this`sp, this`qs, this`freed
      ensures Valid() && Strings() == old(Strings() - Gone(qs[p].tmp, p))
    {
      hide InvBut, View;
      if qs[p].tmp {
        ReleaseTmp(p);
      }
    }

    /** A new temporary of the bytes of two strings. */
    method Joined(p1: int, p2: int) returns (r: int)
      requires Valid() && p1 in qs && p2 in qs
      modifies this, data
      ensures Valid() && (data == old(data) || fresh(data))
      ensures r !in old(qs)
      ensures Strings() == old(Strings())[r := Str(true, false, false, old(Strings()[p1].bytes + Strings()[p2].bytes))]
    {
      hide InvBut, View;
      var n1, n2 := qs[p1].len, qs[p2].len;
      TextLen(Abs(), p1);
      TextLen(Abs(), p2);
      ViewAt(Abs());
      r := New(n1 + n2, true);
      ViewAt(Abs());
      FillTwice(r, p1, p2, n1, n2);
    }

    /** Both operands go into the new string, one behind the other. */
    method FillTwice(r: int, p1: int, p2: int, n1: nat, n2: nat)
      requires Valid() && r in qs && p1 in qs && p2 in qs && r != p1 && r != p2 && qs[r].OnHeap()
      requires |Strings()[p1].bytes| == n1 && |Strings()[p2].bytes| == n2 && |Strings()[r].bytes| == n1 + n2
      modifies data
      ensures Valid() && Strings() == old(Strings()[r := Strings()[r].(bytes := Strings()[p1].bytes + Strings()[p2].bytes)])
    {
      hide InvBut, View;
      ghost var was := Strings();
      ViewAt(Abs());
      Fill(r, 0, p1, 0, n1);
      ViewAt(Abs());
      Fill(r, n1, p2, 0, n2);
      Concatenated(was[r].bytes, was[p1].bytes, was[p2].bytes);
    }

    /** qbs_add: the concatenation of two strings; an empty operand passes the other one on. */
    method Add(p1: int, p2: int) returns (r: int)
      requires Valid() && p1 in qs && p2 in qs && (p1 == p2 ==> !qs[p1].tmp)
      modifies this, data
      ensures Valid() && (data == old(data) || fresh(data))
      ensures r in Strings() && Strings()[r].bytes == old(Strings()[p1].bytes + Strings()[p2].bytes)
      ensures r == p1 || r == p2 ==> Strings() == old(Strings())
      ensures r != p1 && r != p2 ==> r !in old(qs) && Strings() == old(Strings() - Gone(qs[p1].tmp, p1) - Gone(qs[p2].tmp, p2))
                [r := Str(true, false, false, old(Strings()[p1].bytes + Strings()[p2].bytes))]
    {
      hide InvBut;
      TextLen(Abs(), p1);
      TextLen(Abs(), p2);
      if qs[p2].len == 0 {
        assert Strings()[p1].bytes + Strings()[p2].bytes == Strings()[p1].bytes;
        return p1;
      }
      if qs[p1].len == 0 {
        assert Strings()[p1].bytes + Strings()[p2].bytes == Strings()[p2].bytes;
        return p2;
      }
      r := AddNew(p1, p2);
    }

    method AddNew(p1: int, p2: int) returns (r: int)
      requires Valid() && p1 in qs && p2 in qs && (p1 == p2 ==> !qs[p1].tmp)
      modifies this, data
      ensures Valid() && (data == old(data) || fresh(data))
      ensures r !in old(qs) && r in Strings()
      ensures Strings() == old(Strings() - Gone(qs[p1].tmp, p1) - Gone(qs[p2].tmp, p2))
                [r := Str(true, false, false, old(Strings()[p1].bytes + Strings()[p2].bytes))]
    {
      hide InvBut, View;
      ViewAt(Abs());
      r := Joined(p1, p2);
      ViewAt(Abs());
      Release(p1);
      ViewAt(Abs());
      Release(p2);
    }

    /** Pops the last slot of the list of temporaries and frees its string. */
    method FreeTop()
      requires Valid() && 1 < |tmps|
      modifies this`tmps, this`list, this`sp, this`qs, this`freed
      ensures Valid() && |tmps| < old(|tmps|)
      ensures qs == old(qs) - Gone(old(tmps[|tmps| - 1] != DEAD), old(tmps[|tmps| - 1]))
      ensures Strings() == old(Strings()) - Gone(old(tmps[|tmps| - 1] != DEAD), old(tmps[|tmps| - 1]))
      ensures old(tmps[|tmps| - 1]) != DEAD ==>
                old(tmps[|tmps| - 1]) in old(qs) && old(qs[tmps[|tmps| - 1]].tmp && qs[tmps[|tmps| - 1]].tmplisti == |tmps| - 1)
    {
      hide Listed, Ordered, Recycled, View;
      ghost var st := Abs();
      var top := tmps[|tmps| - 1];
      if top != DEAD {
        TempsWeaken(st, top);
        TempPop(st, 0, top);
      } else {
        TempPop(st, 0, 0);
      }
      tmps := tmps[..|tmps| - 1];
      assert Abs() == st.(tmps := tmps);
      SameView(st, Abs());
      hide InvBut;
      if top != DEAD {
        Free(top);
      }
    }

    /** qbs_cleanup: frees every temporary created since the list was `base` long. */
    method Cleanup(base: nat)
      requires Valid() && 0 < base
      modifies this`tmps, this`list, this`sp, this`qs, this`freed
      ensures Valid() && |tmps| <= base
      ensures Strings() == Kept(old(Strings()), old(qs), base)
    {
      hide InvBut, View;
      ghost var was, qs0 := Strings(), qs;
      ViewAt(Abs());
      while |tmps| > base
        invariant Valid() && Strings().Keys == qs.Keys
        invariant qs.Keys <= qs0.Keys && (forall p :: p in qs ==> qs[p] == qs0[p] && Strings()[p] == was[p])
        invariant forall p :: p in qs0 && p !in qs ==> qs0[p].tmp && base <= qs0[p].tmplisti
        decreases |tmps|
      {
        FreeTop();
      }
      SlotsBelow(Abs());
      forall p
        ensures p in Strings() <==> p in Kept(was, qs0, base)
        ensures p in Strings() ==> Strings()[p] == was[p]
      {
        if p in qs0 && !(qs0[p].tmp && base <= qs0[p].tmplisti) { assert p in qs; }
      }
    }
  }

  /** The strings that outlive a cleanup down to `base`. */
  ghost function Kept(v: map<int, Str>, qs: Table, base: nat): map<int, Str> {
    map p | p in v && p in qs && !(qs[p].tmp && base <= qs[p].tmplisti) :: v[p]
  }

  /** A length brought into the range of the string. */
  function Clamp(l: int, n: nat): nat {
    if l > n then n else if l < 0 then 0 else l
  }

  /** The strings after an operation that makes `bytes` of p: in place, or as a temporary r
      that replaces p when p was one. */
  ghost function Piece(v: map<int, Str>, p: int, r: int, bytes: seq<byte>): map<int, Str>
    requires p in v
  {
    if r == p then v[p := v[p].(bytes := bytes)]
    else (v - Gone(v[p].tmp, p))[r := Str(true, false, false, bytes)]
  }

  /** The first l bytes, as far as there are. */
  function Leftmost(b: seq<byte>, l: int): seq<byte> {
    if l < 0 then [] else if l > |b| then b else b[..l]
  }

  /** The last l bytes, as far as there are. */
  function Rightmost(b: seq<byte>, l: int): seq<byte> {
    if l < 0 then [] else if l > |b| then b else b[|b| - l..]
  }

  /** So many bytes as asked for, from the front and from the back. */
  lemma PartsMeet(b: seq<byte>, l: int)
    ensures 0 <= l <= |b| ==> |Leftmost(b, l)| == |Rightmost(b, l)| == l && Leftmost(b, |b| - l) + Rightmost(b, l) == b
    ensures Leftmost(b, l) <= b && Ends(b, Rightmost(b, l))
    ensures l < 0 ==> Leftmost(b, l) == Rightmost(b, l) == []
    ensures l > |b| ==> Leftmost(b, l) == Rightmost(b, l) == b
  {}

  /** b ends with t. */
  predicate Ends(b: seq<byte>, t: seq<byte>) {
    |t| <= |b| && b[|b| - |t|..] == t
  }

  lemma PieceSame(v: map<int, Str>, p: int, bytes: seq<byte>)
    requires p in v
    ensures Piece(v, p, p, bytes) == v[p := v[p].(bytes := bytes)]
    ensures bytes == v[p].bytes ==> Piece(v, p, p, bytes) == v
  {}

  lemma PieceNew(v: map<int, Str>, p: int, r: int, bytes: seq<byte>)
    requires p in v && r != p
    ensures Piece(v, p, r, bytes) == (v - Gone(v[p].tmp, p))[r := Str(true, false, false, bytes)]
  {}

  lemma PieceShows(v: map<int, Str>, p: int, l: int)
    requires p in v
    ensures var b := v[p].bytes;
            && (forall r, bytes :: r in Piece(v, p, r, bytes) && Piece(v, p, r, bytes)[r].bytes == bytes)
            && Leftmost(b, l) <= b && Ends(b, Rightmost(b, l))
            && |Leftmost(b, l)| == |Rightmost(b, l)| == (if l < 0 then 0 else if l > |b| then |b| else l)
  {
    PartsMeet(v[p].bytes, l);
  }

  lemma Parts(b: seq<byte>, l: int)
    ensures var m := Clamp(l, |b|);
            && m <= |b| && Leftmost(b, l) == b[0..m] && Rightmost(b, l) == b[|b| - m..|b|]
            && (m == |b| ==> Leftmost(b, l) == Rightmost(b, l) == b)
  {}

  lemma Concatenated(a: seq<byte>, x: seq<byte>, y: seq<byte>)
    requires |a| == |x| + |y|
    ensures var b := a[..0] + x[0..|x|] + a[|x|..];
      |b| == |a| && b[..|x|] + y[0..|y|] + b[|x| + |y|..] == x + y
  {
    var b := a[..0] + x[0..|x|] + a[|x|..];
    assert b[..|x|] == x;
  }


  /** The descriptors an operation consumes. */
  function Gone(tmp: bool, p: int): set<int> {
    if tmp then {p} else {}
  }

  /** What a destination holds after an assignment. */
  function Assigned(d: Str, s: Str): Str {
    d.(bytes := if d.fixed then PadTo(s.bytes, |d.bytes|) else s.bytes)
  }
}
