/** The handle lists of qblist.cpp: records in blocks that double in size and never move, an
    index from handles to addresses, and a stack of the handles that have been removed. */
module HandleList {
  import opened Powers

  type Byte = bv8

  /** A place in memory: a block and a slot of it; slot 0 is not used. */
  datatype Address = Address(block: nat, slot: nat)

  /** A record with the handle it belongs to appended, 0 when it has been removed. */
  datatype Slot = Slot(data: seq<Byte>, tag: int)

  function Zeros(n: nat): seq<Byte> {
    seq(n, _ => 0)
  }

  /** The size the index grows to is kept in 32 bits. */
  function GrownIndex(last: int): int {
    ToInt32(last * 2 + 1)
  }

  /** It grows as long as it has not reached 2^31 - 1. */
  lemma GrownIndexFits(last: nat)
    requires last < 0x8000_0000
    ensures GrownIndex(last) > last <==> last < 0x4000_0000
    ensures last == 0x7fff_ffff ==> GrownIndex(last) == -1
    ensures last < 0x4000_0000 ==> GrownIndex(last) == 2 * last + 1
  {}

  function At(blocks: seq<seq<Slot>>, a: Address): Slot
    requires a.block < |blocks| && a.slot < |blocks[a.block]|
  {
    blocks[a.block][a.slot]
  }

  function Put(blocks: seq<seq<Slot>>, a: Address, s: Slot): seq<seq<Slot>>
    requires a.block < |blocks| && a.slot < |blocks[a.block]|
  {
    blocks[a.block := blocks[a.block][a.slot := s]]
  }

  predicate Exists(blocks: seq<seq<Slot>>, a: Address) {
    a.block < |blocks| && a.slot < |blocks[a.block]|
  }

  /** The slots from k on are as calloc left them. */
  ghost predicate Clear(block: seq<Slot>, k: nat, size: nat) {
    forall s :: k <= s < |block| ==> block[s] == Slot(Zeros(size), 0)
  }

  /** The records under their handles. */
  ghost function Records(blocks: seq<seq<Slot>>, index: seq<Address>, n: nat): map<int, seq<Byte>>
    requires Placed(blocks, index, n)
  {
    map i | 1 <= i <= n && At(blocks, index[i]).tag != 0 :: At(blocks, index[i]).data
  }

  ghost predicate Placed(blocks: seq<seq<Slot>>, index: seq<Address>, n: nat) {
    n < |index| && forall i :: 1 <= i <= n ==> Exists(blocks, index[i])
  }

  /** Every handle has an address of its own, and a live record knows its handle. `owner` says
      which handle an address was given to. */
  ghost predicate Indexed(blocks: seq<seq<Slot>>, index: seq<Address>, n: nat, owner: map<Address, int>, size: nat) {
    && Placed(blocks, index, n)
    && forall i :: 1 <= i <= n ==>
        && index[i] in owner && owner[index[i]] == i
        && At(blocks, index[i]).tag in {0, i} && |At(blocks, index[i]).data| == size
  }

  /** The addresses in use come before the next one to be used. */
  ghost predicate Room(blocks: seq<seq<Slot>>, owner: map<Address, int>, used: nat, last: nat, size: nat) {
    && (if blocks == [] then used == last == 0 else used <= last && |blocks[|blocks| - 1]| == last + 1)
    && (forall a :: a in owner ==> a.block < |blocks| && (a.block == |blocks| - 1 ==> a.slot <= used))
    && (blocks != [] ==> Clear(blocks[|blocks| - 1], used + 1, size))
  }

  /** The stack holds the dead handles, each once. */
  ghost predicate Stacked(blocks: seq<seq<Slot>>, index: seq<Address>, n: nat, stack: seq<int>)
    requires Placed(blocks, index, n)
  {
    && (forall k :: 0 <= k < |stack| ==> 1 <= stack[k] <= n)
    && (forall k, l :: 0 <= k < l < |stack| ==> stack[k] != stack[l])
    && (forall i :: 1 <= i <= n ==> (At(blocks, index[i]).tag == 0 <==> i in stack))
  }

  /** Writing to the record of one handle. */
  lemma PutRecord(blocks: seq<seq<Slot>>, index: seq<Address>, n: nat, owner: map<Address, int>, size: nat, i: int, s: Slot)
    requires Indexed(blocks, index, n, owner, size) && 1 <= i <= n && s.tag in {0, i} && |s.data| == size
    ensures var b := Put(blocks, index[i], s);
            && Indexed(b, index, n, owner, size)
            && Records(b, index, n) == (if s.tag == 0 then Records(blocks, index, n) - {i} else Records(blocks, index, n)[i := s.data])
            && forall k :: 1 <= k <= n ==> At(b, index[k]) == if k == i then s else At(blocks, index[k])
  {}

  lemma PutRoom(blocks: seq<seq<Slot>>, owner: map<Address, int>, used: nat, last: nat, size: nat, a: Address, s: Slot)
    requires Room(blocks, owner, used, last, size) && a in owner && Exists(blocks, a)
    ensures Room(Put(blocks, a, s), owner, used, last, size)
  {}

  lemma PopStacked(blocks: seq<seq<Slot>>, index: seq<Address>, n: nat, owner: map<Address, int>, size: nat, stack: seq<int>, s: Slot)
    requires Indexed(blocks, index, n, owner, size) && Stacked(blocks, index, n, stack) && stack != []
    requires var i := stack[|stack| - 1]; s.tag == i && |s.data| == size
    ensures Stacked(Put(blocks, index[stack[|stack| - 1]], s), index, n, stack[..|stack| - 1])
  {
    var i, rest := stack[|stack| - 1], stack[..|stack| - 1];
    PutRecord(blocks, index, n, owner, size, i, s);
    assert stack == rest + [i];
  }

  lemma PushStacked(blocks: seq<seq<Slot>>, index: seq<Address>, n: nat, owner: map<Address, int>, size: nat, stack: seq<int>, i: int, s: Slot)
    requires Indexed(blocks, index, n, owner, size) && Stacked(blocks, index, n, stack)
    requires 1 <= i <= n && At(blocks, index[i]).tag != 0 && s.tag == 0 && |s.data| == size
    ensures Stacked(Put(blocks, index[i], s), index, n, stack + [i])
  {
    PutRecord(blocks, index, n, owner, size, i, s);
  }

  /** A new block leaves everything where it is. */
  lemma BlockAdded(blocks: seq<seq<Slot>>, index: seq<Address>, n: nat, owner: map<Address, int>, size: nat, stack: seq<int>, b: seq<Slot>)
    requires Indexed(blocks, index, n, owner, size) && Stacked(blocks, index, n, stack)
    ensures Indexed(blocks + [b], index, n, owner, size) && Stacked(blocks + [b], index, n, stack)
    ensures Records(blocks + [b], index, n) == Records(blocks, index, n)
  {
    assert forall i :: 1 <= i <= n ==> At(blocks + [b], index[i]) == At(blocks, index[i]);
  }

  lemma IndexLonger(blocks: seq<seq<Slot>>, index: seq<Address>, n: nat, owner: map<Address, int>, size: nat, stack: seq<int>, more: seq<Address>)
    requires Indexed(blocks, index, n, owner, size) && Stacked(blocks, index, n, stack)
    ensures Indexed(blocks, index + more, n, owner, size) && Stacked(blocks, index + more, n, stack)
    ensures Records(blocks, index + more, n) == Records(blocks, index, n)
  {}

  /** The next slot becomes the record of the next handle. */
  lemma RecordAdded(blocks: seq<seq<Slot>>, index: seq<Address>, index': seq<Address>, n: nat, owner: map<Address, int>, size: nat,
                    used: nat, last: nat)
    requires Indexed(blocks, index, n, owner, size) && Room(blocks, owner, used, last, size) && used < last && |index'| > n + 1
    requires index'[..n + 1] == index[..n + 1] && index'[n + 1] == Address(|blocks| - 1, used + 1)
    requires Stacked(blocks, index, n, [])
    ensures var a := Address(|blocks| - 1, used + 1);
            var b := Put(blocks, a, At(blocks, a).(tag := n + 1));
            && Indexed(b, index', n + 1, owner[a := n + 1], size) && Room(b, owner[a := n + 1], used + 1, last, size)
            && n + 1 !in Records(blocks, index, n)
            && Records(b, index', n + 1) == Records(blocks, index, n)[n + 1 := Zeros(size)]
            && Stacked(b, index', n + 1, [])
  {
    var a := Address(|blocks| - 1, used + 1);
    var b := Put(blocks, a, At(blocks, a).(tag := n + 1));
    assert At(blocks, a) == Slot(Zeros(size), 0);
    forall k | 1 <= k <= n
      ensures index'[k] == index[k] && index[k] != a
    {
      assert index'[..n + 1][k] == index[..n + 1][k];
    }
  }

  /** The first n entries are as before. */
  ghost predicate Prefix(before: seq<Address>, after: seq<Address>, n: nat) {
    n <= |before| && n <= |after| && after[..n] == before[..n]
  }

  lemma GrownFits(k: nat)
    requires Pow2(k) - 1 < 0x7fff_ffff
    ensures GrownIndex(Pow2(k) - 1) == Pow2(k + 1) - 1
  {
    hide Pow2;
    SmallPower(k);
    GrownIndexFits(Pow2(k) - 1);
    Pow2Next(k);
  }

  lemma SmallPower(k: nat)
    requires Pow2(k) - 1 < 0x7fff_ffff
    ensures Pow2(k) - 1 < 0x4000_0000
  {
    Pow2Values();
    if k >= 31 {
      Pow2Mono(31, k);
    } else {
      Pow2Mono(k, 30);
    }
  }

  /** The size of an index in 32 bits stops growing at 2^31 - 1, and nowhere before. */
  lemma LastIndex(k: nat)
    requires Pow2(k) - 1 < 0x8000_0000
    ensures GrownIndex(Pow2(k) - 1) <= Pow2(k) - 1 <==> Pow2(k) - 1 == 0x7fff_ffff
  {
    hide Pow2;
    if Pow2(k) - 1 < 0x7fff_ffff {
      SmallPower(k);
    }
    GrownIndexFits(Pow2(k) - 1);
  }

  lemma NextIndex(k: nat)
    requires Pow2(k) - 1 < 0x8000_0000 && GrownIndex(Pow2(k) - 1) > Pow2(k) - 1
    ensures Pow2(k) - 1 < GrownIndex(Pow2(k) - 1) == Pow2(k + 1) - 1 < 0x8000_0000
  {
    hide Pow2;
    LastIndex(k);
    GrownFits(k);
  }

  /** n handles need more than 62 blocks only above 2^63 - 64. */
  lemma BlocksNeeded(b: nat, n: nat, used: nat)
    requires n == (if b == 0 then 0 else Pow2(b) - b - 1 + used) && (b > 0 ==> 0 < used <= Pow2(b) - 1)
    ensures b + 1 <= 63 <==> n <= 0x8000_0000_0000_0000 - 64
    ensures n < 0x4000_0000_0000_0000 ==> b + 1 < 64
  {
    Pow2Values();
    if 63 <= b {
      BlocksMono(63, b);
    } else {
      BlocksMono(b, 62);
    }
  }

  /** Pow2(b) - b grows with b. */
  lemma {:induction false} BlocksMono(a: nat, b: nat)
    requires a <= b
    ensures Pow2(a) - a <= Pow2(b) - b
    decreases b
  {
    if a < b {
      BlocksMono(a, b - 1);
    }
  }

  class List {
    const size: nat
    var blocks: seq<seq<Slot>>
    var structures: nat
    var structuresLast: nat
    var freed: seq<int>
    var structuresFreed: nat
    var freedLast: nat
    var index: seq<Address>
    var indexes: nat
    var indexesLast: nat

    ghost var owner: map<Address, int>
    ghost var doublings: nat

    ghost function Live(): map<int, seq<Byte>>
      requires Placed(blocks, index, indexes)
      reads this
    {
      Records(blocks, index, indexes)
    }

    /** How many records all blocks hold together. */
    ghost predicate Counted()
      reads this
    {
      && structuresLast == Pow2(|blocks|) - 1
      && indexes == if blocks == [] then 0 else Pow2(|blocks|) - |blocks| - 1 + structures
    }

    ghost predicate Buffers()
      reads this
    {
      && |index| == indexesLast + 1 && indexes <= indexesLast == Pow2(doublings) - 1 && indexesLast < 0x8000_0000
      && |freed| == freedLast + 1 && structuresFreed <= freedLast
      && (blocks != [] ==> 0 < structures)
    }

    ghost predicate Valid()
      reads this
    {
      && Indexed(blocks, index, indexes, owner, size) && Room(blocks, owner, structures, structuresLast, size)
      && Buffers() && Counted() && Stacked(blocks, index, indexes, freed[1..structuresFreed + 1])
    }

    /** structure_base has 64 entries, the first of which is not used and the second never filled
        with records: it suffices exactly up to 2^63 - 64 handles. */
    lemma BasesSuffice()
      requires Counted() && Room(blocks, owner, structures, structuresLast, size) && (blocks != [] ==> 0 < structures)
      ensures |blocks| + 1 <= 63 <==> indexes <= 0x8000_0000_0000_0000 - 64
      ensures indexes < 0x4000_0000_0000_0000 ==> |blocks| + 1 < 64
    {
      BlocksNeeded(|blocks|, indexes, structures);
    }

    /** list_new */
    constructor (size: nat)
      ensures Valid() && Live() == map[] && indexes == 0
    {
      this.size := size;
      blocks, structures, structuresLast := [], 0, 0;
      freed, structuresFreed, freedLast := [0], 0, 0;
      index, indexes, indexesLast := [Address(0, 0)], 0, 0;
      owner, doublings := map[], 0;
    }

    /** list_get */
    method Get(i: int) returns (found: bool, a: Address)
      requires Valid()
      ensures found <==> i in Live()
      ensures found ==> a == index[i] && Exists(blocks, a) && At(blocks, a).data == Live()[i]
    {
      if i < 1 || i > indexes {
        return false, Address(0, 0);
      }
      a := index[i];
      found := At(blocks, a).tag != 0;
    }

    /** list_get_index finds the handle of a live record again. */
    method GetIndex(a: Address, ghost i: int) returns (h: int)
      requires Valid() && i in Live() && a == index[i]
      ensures h == i
    {
      h := At(blocks, a).tag;
    }

    /** Writing to a record through its address changes that record only. */
    method Write(i: int, data: seq<Byte>)
      requires Valid() && i in Live() && |data| == size
      modifies this`blocks
      ensures Valid() && Live() == old(Live())[i := data]
    {
      var s := At(blocks, index[i]).(data := data);
      PutRecord(blocks, index, indexes, owner, size, i, s);
      PutRoom(blocks, owner, structures, structuresLast, size, index[i], s);
      blocks := Put(blocks, index[i], s);
    }

    /** list_add: the handle is not live, its record is all zero, and no address changes. With
        2^31 - 1 handles and none free the index cannot grow, and the list is as good as lost. */
    method Add() returns (i: int, ok: bool)
      requires Valid()
      modifies this
      ensures ok <==> old(structuresFreed) > 0 || old(indexes) < 0x7fff_ffff
      ensures ok ==> Valid() && i !in old(Live()) && Live() == old(Live())[i := Zeros(size)]
      ensures ok ==> |Live()[i]| == size && forall k :: 0 <= k < size ==> Live()[i][k] == 0
      ensures ok ==> Prefix(old(index), index, old(indexes) + 1)
      ensures ok ==> if old(structuresFreed) > 0 then i == old(freed)[old(structuresFreed)] else i == old(indexes) + 1
    {
      hide Indexed, Stacked, Records, Pow2;
      ok := true;
      if structuresFreed > 0 {
        i := Reuse();
      } else {
        if structures + 1 > structuresLast {
          NewBlock();
        }
        LastIndex(doublings);
        if indexes + 1 > indexesLast && GrownIndex(indexesLast) <= indexesLast {
          return 0, false;
        }
        GrowIndex();
        i := Extend();
      }
    }

    method Reuse() returns (i: int)
      requires Valid() && structuresFreed > 0
      modifies this`blocks, this`structuresFreed
      ensures Valid() && i == old(freed)[old(structuresFreed)] && i !in old(Live()) && Live() == old(Live())[i := Zeros(size)]
    {
      i := freed[structuresFreed];
      ghost var stack := freed[1..structuresFreed + 1];
      assert i == stack[|stack| - 1];
      var s := Slot(Zeros(size), i);
      PopStacked(blocks, index, indexes, owner, size, stack, s);
      PutRecord(blocks, index, indexes, owner, size, i, s);
      PutRoom(blocks, owner, structures, structuresLast, size, index[i], s);
      hide Indexed, Room;
      structuresFreed := structuresFreed - 1;
      assert freed[1..structuresFreed + 1] == stack[..|stack| - 1];
      blocks := Put(blocks, index[i], s);
    }

    /** What holds when a block has been made but not used yet. */
    ghost predicate Ready()
      reads this
    {
      && Indexed(blocks, index, indexes, owner, size) && Room(blocks, owner, structures, structuresLast, size)
      && |index| == indexesLast + 1 && indexes <= indexesLast == Pow2(doublings) - 1 && indexesLast < 0x8000_0000
      && |freed| == freedLast + 1 && structuresFreed <= freedLast
      && Counted() && Stacked(blocks, index, indexes, freed[1..structuresFreed + 1])
      && blocks != [] && structures < structuresLast
    }

    /** A block for twice as many records and one. */
    method NewBlock()
      requires Valid() && structures == structuresLast
      modifies this`blocks, this`structures, this`structuresLast
      ensures Ready() && Live() == old(Live())
    {
      var last := structuresLast * 2 + 1;
      var b := seq(last + 1, _ => Slot(Zeros(size), 0));
      BlockAdded(blocks, index, indexes, owner, size, freed[1..structuresFreed + 1], b);
      hide Indexed, Stacked;
      blocks := blocks + [b];
      structuresLast := last;
      structures := 0;
    }

    /** A handle that has never been used gets the next slot. */
    method Extend() returns (i: int)
      requires Ready() && structuresFreed == 0 && indexes < indexesLast
      modifies this`blocks, this`structures, this`index, this`indexes, this`owner
      ensures Valid() && i == old(indexes) + 1 && i !in old(Live()) && Live() == old(Live())[i := Zeros(size)]
      ensures Prefix(old(index), index, old(indexes) + 1)
    {
      hide Indexed, Stacked, Records, Pow2;
      assert freed[1..1] == [];
      i := indexes + 1;
      var a := Address(|blocks| - 1, structures + 1);
      ghost var index0 := index;
      index := index[i := a];
      assert index[..i] == index0[..i];
      RecordAdded(blocks, index0, index, indexes, owner, size, structures, structuresLast);
      var b := Put(blocks, a, At(blocks, a).(tag := i));
      hide Room, Put, At;
      structures := structures + 1;
      blocks := b;
      indexes := i;
      owner := owner[a := i];
    }

    /** The index grows when it is full. */
    method GrowIndex()
      requires Ready() && (indexes < indexesLast || GrownIndex(indexesLast) > indexesLast)
      modifies this`index, this`indexesLast, this`doublings
      ensures Ready() && Prefix(old(index), index, indexes + 1) && indexes < indexesLast && Live() == old(Live())
    {
      hide Pow2, GrownIndex, Indexed, Stacked, Room, Records, ToInt32;
      if indexes + 1 > indexesLast {
        NextIndex(doublings);
        var last := GrownIndex(indexesLast);
        var more := seq(last - indexesLast, _ => Address(0, 0));
        IndexLonger(blocks, index, indexes, owner, size, freed[1..structuresFreed + 1], more);
        index := index + more;
        indexesLast := last;
        doublings := doublings + 1;
      }
    }

    /** list_remove: a dead or unknown handle is refused and nothing changes. */
    method Remove(i: int) returns (ok: bool)
      requires Valid()
      modifies this`blocks, this`freed, this`structuresFreed, this`freedLast
      ensures Valid() && (ok <==> i in old(Live()))
      ensures Live() == if ok then old(Live()) - {i} else old(Live())
      ensures ok ==> structuresFreed == old(structuresFreed) + 1 && freed[structuresFreed] == i
      ensures !ok ==> blocks == old(blocks) && freed == old(freed) && structuresFreed == old(structuresFreed)
    {
      if i < 1 || i > indexes {
        return false;
      }
      var s := At(blocks, index[i]);
      if s.tag == 0 {
        return false;
      }
      ok := true;
      ghost var stack := freed[1..structuresFreed + 1];
      s := s.(tag := 0);
      PushStacked(blocks, index, indexes, owner, size, stack, i, s);
      PutRecord(blocks, index, indexes, owner, size, i, s);
      PutRoom(blocks, owner, structures, structuresLast, size, index[i], s);
      hide Indexed, Room, Stacked, Records;
      PushFreed(i);
      blocks := Put(blocks, index[i], s);
    }

    /** The stack grows when it is full. */
    method PushFreed(i: int)
      requires |freed| == freedLast + 1 && structuresFreed <= freedLast
      modifies this`freed, this`structuresFreed, this`freedLast
      ensures |freed| == freedLast + 1 && structuresFreed == old(structuresFreed) + 1 <= freedLast
      ensures freed[1..structuresFreed + 1] == old(freed[1..structuresFreed + 1]) + [i] && freed[structuresFreed] == i
    {
      if structuresFreed + 1 > freedLast {
        var last := freedLast * 2 + 1;
        freed := freed[..structuresFreed + 1] + seq(last - structuresFreed, _ => 0);
        freedLast := last;
      }
      freed := freed[structuresFreed + 1 := i];
      structuresFreed := structuresFreed + 1;
    }
  }
}
