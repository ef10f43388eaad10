/** The memory blocks of memblock.cpp. A block value carries the address of a lock record and
    the key that record had when the block was made; records are recycled, keys are not. */
module MemLocks {
  import opened Powers

  const START: int := 1073741823
  const INVALID: int := 1073741821

  /** kind: 0 no security, 1 malloc, 2 image, 3 procedure scope, 4 array, 5 sound. */
  datatype Lock = Lock(id: int, kind: int, offset: int)

  /** What the program holds, and may copy freely: `lock` is the address of a record (its
      position plus one) or 0. */
  datatype Block = Block(offset: int, size: int, key: int, lock: nat)

  /** The lock records that have been used, the stack of those to be used again, the last key,
      and the fill of the current chunk of records. For the reasoning: which record each key was
      given to, which keys have been freed, which record each allocated region belongs to, and
      how often something has been freed that was not allocated to the record. */
  datatype Pool = Pool(locks: seq<Lock>, freed: seq<nat>, id: int, next: nat, max: nat,
                       issued: seq<nat>, dead: set<int>, live: map<int, nat>, wild: nat)

  function Initial(): Pool {
    Pool([], [], START, 0, 10000, [], {}, map[], 0)
  }

  // --------------------------------------------------------------------------------------
  // The operations
  // --------------------------------------------------------------------------------------

  /** new_mem_lock: a recycled record keeps its kind and offset, a new one holds anything. */
  function Issue(p: Pool, junk: Lock): (Pool, nat)
    requires Keyed(p)
  {
    var key := p.id + 1;
    if |p.freed| > 0 then
      var l := p.freed[|p.freed| - 1];
      (p.(freed := p.freed[..|p.freed| - 1], locks := p.locks[l := p.locks[l].(id := key)], id := key, issued := p.issued + [l]), l)
    else
      var l := |p.locks|;
      (p.(next := if p.next == p.max then 1 else p.next + 1, locks := p.locks + [junk.(id := key)], id := key, issued := p.issued + [l]), l)
  }

  /** free_mem_lock */
  function Release(p: Pool, l: nat): Pool
    requires l < |p.locks|
  {
    var k := p.locks[l];
    var q := if k.kind == 1 then FreeRegion(p, k.offset, l) else p;
    q.(locks := q.locks[l := k.(id := 0)], freed := q.freed + [l], dead := q.dead + {k.id})
  }

  /** free, on behalf of record l. */
  function FreeRegion(p: Pool, offset: int, l: nat): Pool {
    var q := p.(live := p.live - {offset});
    if offset in p.live && p.live[offset] == l then q else q.(wild := p.wild + 1)
  }

  function SetKind(p: Pool, l: nat, kind: int): Pool
    requires l < |p.locks|
  {
    p.(locks := p.locks[l := p.locks[l].(kind := kind)])
  }

  /** The record a block refers to still carries its key. */
  predicate Exists(p: Pool, b: Block)
    requires b.lock <= |p.locks|
  {
    b.lock != 0 && p.locks[b.lock - 1].id == b.key
  }

  /** _MEMFREE: an error, or the new pool and the caller's block with its key made invalid. */
  function MemFree(p: Pool, b: Block): (r: (Pool, Block, int))
    requires b.lock <= |p.locks|
  {
    if b.lock == 0 then (p, b, 309)
    else if p.locks[b.lock - 1].id != b.key then (p, b, 307)
    else
      (if p.locks[b.lock - 1].kind == 0 || p.locks[b.lock - 1].kind == 1 then Release(p, b.lock - 1) else p,
       b.(key := INVALID), 0)
  }

  /** _MEM of an offset. */
  function MemAt(p: Pool, offset: int, size: int, pending: bool, junk: Lock): (Pool, Block)
    requires Keyed(p)
  {
    var (q, l) := Issue(p, junk);
    KeyedIssue(p, junk);
    (SetKind(q, l, 0), if size < 0 || pending then Block(0, 0, q.id, l + 1) else Block(offset, size, q.id, l + 1))
  }

  /** _MEMNEW. `at` is what malloc returns. For no bytes at all the kind is left as it is. */
  function MemNew(p: Pool, bytes: int, pending: bool, at: int, junk: Lock): (Pool, Block)
    requires Keyed(p)
  {
    var (q, l) := Issue(p, junk);
    KeyedIssue(p, junk);
    if pending || bytes < 0 then (SetKind(q, l, 0), Block(0, 0, q.id, l + 1))
    else if bytes == 0 then (q, Block(1, 0, q.id, l + 1))
    else if at == 0 then (SetKind(q, l, 0), Block(0, 0, q.id, l + 1))
    else
      (q.(locks := q.locks[l := Lock(q.id, 1, at)], live := q.live[at := l]), Block(at, bytes, q.id, l + 1))
  }

  // --------------------------------------------------------------------------------------
  // Keys
  // --------------------------------------------------------------------------------------

  /** The key was issued, and to this record. */
  ghost predicate IssuedTo(p: Pool, key: int, l: nat) {
    START < key <= p.id && p.id - START == |p.issued| && p.issued[key - START - 1] == l
  }

  /** A record carries a key it was given, or 0. */
  ghost predicate Owned(p: Pool) {
    && p.id - START == |p.issued|
    && (forall l :: 0 <= l < |p.locks| ==> p.locks[l].id == 0 || IssuedTo(p, p.locks[l].id, l))
  }

  /** The stack holds exactly the records without a key, each once. */
  ghost predicate Recycled(p: Pool) {
    && (forall l :: 0 <= l < |p.locks| ==> (p.locks[l].id == 0 <==> l in p.freed))
    && (forall k :: 0 <= k < |p.freed| ==> p.freed[k] < |p.locks|)
    && (forall j, k :: 0 <= j < k < |p.freed| ==> p.freed[j] != p.freed[k])
  }

  /** A key is dead exactly if the record it was given to does not carry it any more. */
  ghost predicate DeadKnown(p: Pool) {
    && (forall k :: 0 <= k < |p.issued| ==> p.issued[k] < |p.locks|)
    && (forall k :: 0 <= k < |p.issued| ==> (START + 1 + k in p.dead <==> p.locks[p.issued[k]].id != START + 1 + k))
    && (forall key :: key in p.dead ==> START < key <= p.id)
  }

  ghost predicate Keyed(p: Pool) {
    Owned(p) && Recycled(p) && DeadKnown(p)
  }

  /** A block value the program can hold: one it was given, under its own key or made invalid. */
  ghost predicate Genuine(p: Pool, b: Block) {
    && b.lock <= |p.locks|
    && (b.lock == 0 || b.key == INVALID || IssuedTo(p, b.key, b.lock - 1))
  }

  /** The state after a new key has been given to record l. */
  ghost predicate IssuedOne(p: Pool, q: Pool, l: nat) {
    && l < |q.locks| && q.locks[l].id == q.id == p.id + 1 && IssuedTo(q, q.id, l)
    && q.dead == p.dead && q.id !in p.dead && q.issued == p.issued + [l]
    && |p.locks| <= |q.locks| <= |p.locks| + 1 && (|q.locks| > |p.locks| ==> l == |p.locks|)
    && (forall k :: 0 <= k < |p.locks| && k != l ==> q.locks[k] == p.locks[k])
    && (l < |p.locks| ==> p.locks[l].id == 0 && q.locks[l] == p.locks[l].(id := q.id))
    && q.live == p.live && q.wild == p.wild
  }

  lemma IssueRecycled(p: Pool, junk: Lock)
    requires Keyed(p) && |p.freed| > 0
    ensures var (q, l) := Issue(p, junk); Keyed(q) && IssuedOne(p, q, l)
  {
    var l, rest := p.freed[|p.freed| - 1], p.freed[..|p.freed| - 1];
    assert p.freed == rest + [l];
    assert p.locks[l].id == 0;
  }

  lemma IssueNew(p: Pool, junk: Lock)
    requires Keyed(p) && |p.freed| == 0
    ensures var (q, l) := Issue(p, junk); Keyed(q) && IssuedOne(p, q, l)
  {}

  lemma KeyedIssue(p: Pool, junk: Lock)
    requires Keyed(p)
    ensures var (q, l) := Issue(p, junk); Keyed(q) && IssuedOne(p, q, l)
  {
    hide Keyed, IssuedOne, Issue;
    if |p.freed| > 0 { IssueRecycled(p, junk); } else { IssueNew(p, junk); }
  }

  lemma ReleaseRecycled(p: Pool, l: nat)
    requires Owned(p) && Recycled(p) && l < |p.locks| && p.locks[l].id != 0
    ensures Owned(Release(p, l)) && Recycled(Release(p, l))
  {
    assert Release(p, l).freed == p.freed + [l];
  }

  lemma ReleaseDead(p: Pool, l: nat)
    requires Owned(p) && DeadKnown(p) && l < |p.locks| && p.locks[l].id != 0
    ensures DeadKnown(Release(p, l))
  {
    assert IssuedTo(p, p.locks[l].id, l);
  }

  lemma KeyedRelease(p: Pool, l: nat)
    requires Keyed(p) && l < |p.locks| && p.locks[l].id != 0
    ensures var q := Release(p, l); Keyed(q) && q.dead == p.dead + {p.locks[l].id} && q.locks[l].id == 0 && q.issued == p.issued
    ensures forall k :: 0 <= k < |p.locks| && k != l ==> Release(p, l).locks[k] == p.locks[k]
  {
    ReleaseRecycled(p, l);
    ReleaseDead(p, l);
    hide Owned, Recycled, DeadKnown;
  }

  lemma KeyedSetKind(p: Pool, l: nat, kind: int, offset: int)
    requires Keyed(p) && l < |p.locks|
    ensures Keyed(p.(locks := p.locks[l := Lock(p.locks[l].id, kind, offset)]))
  {}

  /** Liveness of a block the program holds is exactly that its key has not been freed; a
      freed key is never issued again. */
  lemma ExistsIffNotDead(p: Pool, b: Block)
    requires Keyed(p) && Genuine(p, b)
    ensures Exists(p, b) <==> b.lock != 0 && b.key != INVALID && b.key !in p.dead
  {
    if b.lock != 0 && b.key != INVALID {
      assert p.issued[b.key - START - 1] == b.lock - 1;
      assert START + 1 + (b.key - START - 1) == b.key;
    }
  }

  // --------------------------------------------------------------------------------------
  // Allocated memory
  // --------------------------------------------------------------------------------------

  /** Live malloc records and allocated regions correspond one to one, and nothing has been
      freed twice. */
  ghost predicate Sound(p: Pool) {
    && p.wild == 0
    && (forall l :: 0 <= l < |p.locks| && p.locks[l].id != 0 && p.locks[l].kind == 1 ==>
          p.locks[l].offset in p.live && p.live[p.locks[l].offset] == l)
    && (forall a :: a in p.live ==>
          p.live[a] < |p.locks| && p.locks[p.live[a]].id != 0 && p.locks[p.live[a]].kind == 1 && p.locks[p.live[a]].offset == a)
  }

  /** What a run keeps. */
  ghost predicate Valid(p: Pool) {
    Keyed(p) && Sound(p)
  }

  /** The old pool seen from the new one: keys stay dead and blocks stay genuine. */
  ghost predicate Later(p: Pool, q: Pool) {
    p.dead <= q.dead && p.issued <= q.issued && |p.locks| <= |q.locks| && q.id - START == |q.issued| && p.id - START == |p.issued|
  }

  lemma LaterGenuine(p: Pool, q: Pool, b: Block)
    requires Later(p, q) && Genuine(p, b)
    ensures Genuine(q, b)
  {}

  /** So a block that no longer exists never exists again. */
  lemma NeverRevives(p: Pool, q: Pool, b: Block)
    requires Keyed(p) && Keyed(q) && Later(p, q) && Genuine(p, b) && !Exists(p, b)
    ensures Genuine(q, b) && !Exists(q, b)
  {
    hide Keyed;
    LaterGenuine(p, q, b);
    ExistsIffNotDead(p, b);
    ExistsIffNotDead(q, b);
  }

  lemma IssueLater(p: Pool, junk: Lock)
    requires Keyed(p)
    ensures Later(p, Issue(p, junk).0)
  {}

  /** Releasing a live record frees the region it owns, and no other. */
  lemma SoundRelease(p: Pool, l: nat)
    requires Valid(p) && l < |p.locks| && p.locks[l].id != 0
    ensures Valid(Release(p, l)) && Later(p, Release(p, l))
    ensures Release(p, l).live == if p.locks[l].kind == 1 then p.live - {p.locks[l].offset} else p.live
  {
    KeyedRelease(p, l);
    hide Keyed;
  }

  /** _MEMFREE succeeds exactly for a block that exists, and afterwards neither the block nor any
      copy of it does (but for the kinds that are freed elsewhere); whatever has happened to the
      memory before. */
  lemma MemFreeKeyed(p: Pool, b: Block, copy: Block)
    requires Keyed(p) && Genuine(p, b) && copy.lock == b.lock && copy.key == b.key
    ensures var (q, c, error) := MemFree(p, b);
            && Keyed(q) && Later(p, q) && Genuine(q, c)
            && (error == 0 <==> Exists(p, b))
            && (error != 0 ==> q == p && c == b)
            && (error == 0 ==> !Exists(q, c))
            && (error == 0 && p.locks[b.lock - 1].kind in {0, 1} ==> !Exists(q, copy))
  {
    if Exists(p, b) {
      KeyNonZero(p, b);
      KeyedRelease(p, b.lock - 1);
    }
    hide Keyed;
  }

  /** If memory is in order it frees the region the block stands for, once, and no other. */
  lemma MemFreeOnce(p: Pool, b: Block)
    requires Valid(p) && Genuine(p, b)
    ensures var (q, c, error) := MemFree(p, b);
            && Sound(q)
            && (error == 0 && p.locks[b.lock - 1].kind == 1 ==>
                 p.locks[b.lock - 1].offset in p.live && q.live == p.live - {p.locks[b.lock - 1].offset})
            && (!(error == 0 && p.locks[b.lock - 1].kind == 1) ==> q.live == p.live)
  {
    if Exists(p, b) {
      KeyNonZero(p, b);
      SoundRelease(p, b.lock - 1);
    }
    hide Keyed;
  }

  lemma FreedLock(p: Pool)
    requires Keyed(p)
    ensures |p.freed| > 0 ==> p.freed[|p.freed| - 1] < |p.locks|
  {}

  lemma GenuineLock(p: Pool, b: Block)
    requires Genuine(p, b)
    ensures b.lock <= |p.locks|
  {}

  lemma KeyNonZero(p: Pool, b: Block)
    requires Keyed(p) && Genuine(p, b) && Exists(p, b)
    ensures b.key > START && p.locks[b.lock - 1].id != 0
  {}

  lemma SoundIssue(p: Pool, junk: Lock, kind: int)
    requires Valid(p) && kind != 1
    ensures var (q, l) := Issue(p, junk); l < |q.locks| && Valid(SetKind(q, l, kind)) && Later(p, SetKind(q, l, kind))
  {
    KeyedIssue(p, junk);
    IssueLater(p, junk);
    var (q, l) := Issue(p, junk);
    KeyedSetKind(q, l, kind, q.locks[l].offset);
    hide Keyed, Issue;
  }

  lemma MemAtKeyed(p: Pool, offset: int, size: int, pending: bool, junk: Lock)
    requires Keyed(p)
    ensures var (q, b) := MemAt(p, offset, size, pending, junk);
            Keyed(q) && Later(p, q) && Genuine(q, b) && Exists(q, b) && b.key == p.id + 1 && b.key !in p.dead
  {
    hide Keyed;
    KeyedIssue(p, junk);
    IssueLater(p, junk);
    var (q, l) := Issue(p, junk);
    KeyedSetKind(q, l, 0, q.locks[l].offset);
    hide Issue;
  }

  lemma MemAtSound(p: Pool, offset: int, size: int, pending: bool, junk: Lock)
    requires Valid(p)
    ensures Sound(MemAt(p, offset, size, pending, junk).0)
  {
    SoundIssue(p, junk, 0);
    KeyedIssue(p, junk);
    hide Keyed, Sound, Issue;
  }

  /** The kind the record of the next block was left with. */
  function NextKind(p: Pool, junk: Lock): int
    requires Keyed(p)
  {
    if |p.freed| > 0 then p.locks[p.freed[|p.freed| - 1]].kind else junk.kind
  }

  /** Whether the request reaches the branch that leaves the kind as it is. */
  predicate Untyped(bytes: int, pending: bool) {
    !pending && bytes == 0
  }

  /** _MEMNEW gives a block that exists, under a key never used before. */
  lemma MemNewKeyed(p: Pool, bytes: int, pending: bool, at: int, junk: Lock)
    requires Keyed(p)
    ensures var (q, b) := MemNew(p, bytes, pending, at, junk);
            Keyed(q) && Later(p, q) && Genuine(q, b) && Exists(q, b) && b.key == p.id + 1 && b.key !in p.dead
  {
    hide Keyed;
    KeyedIssue(p, junk);
    IssueLater(p, junk);
    var (q, l) := Issue(p, junk);
    hide Issue;
    assert Genuine(q, Block(0, 0, q.id, l + 1)) && q.locks[l].id == q.id == p.id + 1 && q.id !in p.dead;
    KeyedSetKind(q, l, 0, q.locks[l].offset);
    KeyedSetKind(q, l, 1, at);
    KeyedLive(q.(locks := q.locks[l := Lock(q.id, 1, at)]), q.live[at := l]);
  }

  /** Which regions are allocated does not matter for the keys. */
  lemma KeyedLive(p: Pool, live: map<int, nat>)
    requires Keyed(p)
    ensures Keyed(p.(live := live))
  {}

  lemma MallocSound(p: Pool, bytes: int, at: int, junk: Lock)
    requires Valid(p) && 0 < bytes && at != 0 && at !in p.live
    ensures Sound(MemNew(p, bytes, false, at, junk).0)
  {
    KeyedIssue(p, junk);
    hide Keyed, Issue;
  }

  lemma UntypedSound(p: Pool, at: int, junk: Lock)
    requires Valid(p)
    ensures Sound(MemNew(p, 0, false, at, junk).0) <==> NextKind(p, junk) != 1
  {
    KeyedIssue(p, junk);
    var (q, l) := Issue(p, junk);
    assert q.locks[l].kind == NextKind(p, junk);
    hide Keyed, Issue;
    StaleOffset(p, q, l);
  }

  /** Memory stays in order exactly if the request is for some bytes, or fails, or the record it
      is given was not left as that of a malloc'ed block. */
  lemma MemNewSoundIff(p: Pool, bytes: int, pending: bool, at: int, junk: Lock)
    requires Valid(p) && (at == 0 || at !in p.live)
    ensures Sound(MemNew(p, bytes, pending, at, junk).0) <==> !(Untyped(bytes, pending) && NextKind(p, junk) == 1)
  {
    if Untyped(bytes, pending) {
      UntypedSound(p, at, junk);
    } else if pending || bytes < 0 || at == 0 {
      SoundIssue(p, junk, 0);
    } else {
      MallocSound(p, bytes, at, junk);
    }
    hide Keyed, Sound, Issue;
  }

  /** A record that was not live owns no region. */
  lemma StaleOffset(p: Pool, q: Pool, l: nat)
    requires Sound(p) && IssuedOne(p, q, l)
    ensures forall a :: a in q.live ==> q.live[a] != l
  {}

  function OneBlock(at: int): Pool {
    Pool([Lock(START + 1, 1, at)], [], START + 1, 1, 10000, [0], {}, map[at := 0], 0)
  }

  lemma FirstBlock(at: int, junk: Lock)
    requires at != 0 && Keyed(Initial())
    ensures MemNew(Initial(), 8, false, at, junk) == (OneBlock(at), Block(at, 8, START + 1, 1))
  {
    hide Keyed;
    var q := Issue(Initial(), junk).0;
    assert q.locks == [junk.(id := START + 1)] && q.issued == [0];
    assert q.locks[0 := Lock(q.id, 1, at)] == [Lock(START + 1, 1, at)];
    assert q.live[at := 0] == map[at := 0];
  }

  function NoBlock(at: int): Pool {
    Pool([Lock(0, 1, at)], [0], START + 1, 1, 10000, [0], {START + 1}, map[], 0)
  }

  lemma FreedBlock(at: int)
    ensures MemFree(OneBlock(at), Block(at, 8, START + 1, 1)) == (NoBlock(at), Block(at, 8, INVALID, 1), 0)
  {
    var q := Release(OneBlock(at), 0);
    assert q.locks == [Lock(0, 1, at)] && q.freed == [0] && q.live == map[] && q.dead == {START + 1};
  }

  function TwoBlocks(at: int): Pool {
    Pool([Lock(START + 2, 1, at)], [], START + 2, 1, 10000, [0, 0], {START + 1}, map[], 0)
  }

  lemma FreedTwice(at: int)
    ensures var r := MemFree(TwoBlocks(at), Block(1, 0, START + 2, 1)); r.0.wild == 1 && r.2 == 0
  {}

  lemma OneGenuine(at: int)
    ensures Genuine(OneBlock(at), Block(at, 8, START + 1, 1)) && Exists(OneBlock(at), Block(at, 8, START + 1, 1))
  {}

  lemma InitialValid()
    ensures Valid(Initial())
  {}

  lemma SecondBlock(at: int, junk: Lock)
    requires Keyed(NoBlock(at))
    ensures MemNew(NoBlock(at), 0, false, at, junk)
            == (TwoBlocks(at), Block(1, 0, START + 2, 1))
  {
    hide Keyed;
    var q := Issue(NoBlock(at), junk).0;
    assert q.locks == [Lock(START + 2, 1, at)] && q.freed == [] && q.issued == [0, 0];
  }

  /** After _MEMNEW(8) at an address, _MEMFREE, and _MEMNEW(0), a second _MEMFREE frees the
      address again. */
  lemma ZeroBytesFreeTwice(at: int, junk: Lock)
    requires at != 0
    ensures Valid(Initial())
    ensures var (p1, b1) := MemNew(Initial(), 8, false, at, junk);
            Valid(p1) && b1.lock <= |p1.locks| &&
            var (p2, c1, e1) := MemFree(p1, b1);
            Valid(p2) && e1 == 0 && p2.live == map[] &&
            var (p3, b2) := MemNew(p2, 0, false, at, junk);
            b2.lock <= |p3.locks| &&
            var (p4, c2, e2) := MemFree(p3, b2);
            e2 == 0 && p4.wild == 1
  {
    hide Keyed, Sound, MemNew, MemFree, NextKind, Genuine, Exists;
    InitialValid();
    MemNewSoundIff(Initial(), 8, false, at, junk);
    FirstBlock(at, junk);
    OneGenuine(at);
    MemNewKeyed(Initial(), 8, false, at, junk);
    MemFreeOnce(OneBlock(at), Block(at, 8, START + 1, 1));
    MemFreeKeyed(OneBlock(at), Block(at, 8, START + 1, 1), Block(at, 8, START + 1, 1));
    FreedBlock(at);
    SecondBlock(at, junk);
    FreedTwice(at);
  }

  // --------------------------------------------------------------------------------------
  // Whole runs
  // --------------------------------------------------------------------------------------

  /** What may happen to the pool: the three operations above, and locks that other parts of the
      library take for images, procedures, arrays and sounds and give back themselves. */
  datatype Request =
    | Allocation(bytes: int, pending: bool, at: int, junk: Lock)
    | Description(offset: int, size: int, pending: bool, junk: Lock)
    | Freeing(b: Block)
    | Taking(kind: int, junk: Lock)
    | Giving(l: nat)

  /** A block is freed that the program can hold, a lock given back that is held. */
  ghost predicate Possible(p: Pool, r: Request) {
    (r.Freeing? ==> Genuine(p, r.b)) && (r.Giving? ==> r.l < |p.locks| && p.locks[r.l].id != 0)
  }

  function Served(p: Pool, r: Request): Pool
    requires Keyed(p) && Possible(p, r)
  {
    match r
    case Allocation(bytes, pending, at, junk) => MemNew(p, bytes, pending, at, junk).0
    case Description(offset, size, pending, junk) => MemAt(p, offset, size, pending, junk).0
    case Freeing(b) => MemFree(p, b).0
    case Taking(kind, junk) => KeyedIssue(p, junk); var (q, l) := Issue(p, junk); SetKind(q, l, kind)
    case Giving(l) => Release(p, l)
  }

  lemma ServedKeyed(p: Pool, r: Request)
    requires Keyed(p) && Possible(p, r)
    ensures Keyed(Served(p, r)) && Later(p, Served(p, r))
  {
    match r
    case Allocation(bytes, pending, at, junk) => MemNewKeyed(p, bytes, pending, at, junk);
    case Description(offset, size, pending, junk) => MemAtKeyed(p, offset, size, pending, junk);
    case Freeing(b) => MemFreeKeyed(p, b, b);
    case Taking(kind, junk) =>
      KeyedIssue(p, junk);
      IssueLater(p, junk);
      var (q, l) := Issue(p, junk);
      KeyedSetKind(q, l, kind, q.locks[l].offset);
    case Giving(l) =>
      KeyedRelease(p, l);
  }

  ghost predicate Serves(p: Pool, r: Request, q: Pool) {
    Possible(p, r) && (Keyed(p) ==> q == Served(p, r))
  }

  ghost predicate Run(ps: seq<Pool>, rs: seq<Request>) {
    && |ps| == |rs| + 1 && ps[0] == Initial()
    && forall k :: 0 <= k < |rs| ==> Serves(ps[k], rs[k], ps[k + 1])
  }

  lemma {:induction false} RunKeyed(ps: seq<Pool>, rs: seq<Request>, k: nat)
    requires Run(ps, rs) && k < |ps|
    ensures Keyed(ps[k])
  {
    if k == 0 {
      InitialValid();
    } else {
      RunKeyed(ps, rs, k - 1);
      hide Keyed, Served, Possible;
      assert Serves(ps[k - 1], rs[k - 1], ps[k]);
      ServedKeyed(ps[k - 1], rs[k - 1]);
    }
  }

  lemma KeyedLater(p: Pool)
    requires Keyed(p)
    ensures Later(p, p)
  {}

  lemma {:induction false} RunLater(ps: seq<Pool>, rs: seq<Request>, k: nat, l: nat)
    requires Run(ps, rs) && k <= l < |ps|
    ensures Keyed(ps[k]) && Keyed(ps[l]) && Later(ps[k], ps[l])
    decreases l
  {
    hide Keyed, Served, Possible;
    RunKeyed(ps, rs, l);
    if k < l {
      RunLater(ps, rs, k, l - 1);
      assert Serves(ps[l - 1], rs[l - 1], ps[l]);
      ServedKeyed(ps[l - 1], rs[l - 1]);
    } else {
      KeyedLater(ps[k]);
    }
  }

  /** Over any run, with zero-byte requests and double frees included, a block value that does
      not exist never exists again, although its lock record may have been issued again. */
  lemma StaleForever(ps: seq<Pool>, rs: seq<Request>, k: nat, l: nat, b: Block)
    requires Run(ps, rs) && k <= l < |ps| && Genuine(ps[k], b) && !Exists(ps[k], b)
    ensures Genuine(ps[l], b) && !Exists(ps[l], b)
  {
    RunLater(ps, rs, k, l);
    NeverRevives(ps[k], ps[l], b);
  }

  /** Records come in chunks of 10000; `next` is how many of the last chunk are used, and never more
      than there are. */
  ghost predicate Chunked(p: Pool) {
    p.max == 10000 && p.next == if |p.locks| == 0 then 0 else (|p.locks| - 1) % 10000 + 1
  }

  lemma IssueChunked(p: Pool, junk: Lock)
    requires Keyed(p) && Chunked(p)
    ensures Chunked(Issue(p, junk).0) && Issue(p, junk).0.next <= 10000
  {
    var n := |p.locks|;
    assert n > 0 ==> n % 10000 == if (n - 1) % 10000 == 9999 then 0 else (n - 1) % 10000 + 1;
  }

  lemma SameChunk(p: Pool, q: Pool)
    requires q.max == p.max && q.next == p.next && |q.locks| == |p.locks|
    ensures Chunked(p) ==> Chunked(q)
  {}

  lemma ServedChunked(p: Pool, r: Request)
    requires Keyed(p) && Possible(p, r) && Chunked(p)
    ensures Chunked(Served(p, r))
  {
    hide Keyed, Issue, Chunked;
    match r
    case Allocation(bytes, pending, at, junk) => IssueChunked(p, junk); KeyedIssue(p, junk); SameChunk(Issue(p, junk).0, Served(p, r));
    case Description(offset, size, pending, junk) => IssueChunked(p, junk); KeyedIssue(p, junk); SameChunk(Issue(p, junk).0, Served(p, r));
    case Freeing(b) => SameChunk(p, Served(p, r));
    case Taking(kind, junk) => IssueChunked(p, junk); KeyedIssue(p, junk); SameChunk(Issue(p, junk).0, Served(p, r));
    case Giving(l) => SameChunk(p, Served(p, r));
  }

  /** Over every run each new record is the next of its chunk, and inside it. */
  lemma {:induction false} ChunksSuffice(ps: seq<Pool>, rs: seq<Request>, k: nat)
    requires Run(ps, rs) && k < |ps|
    ensures Chunked(ps[k]) && ps[k].next <= 10000
  {
    if k > 0 {
      ChunksSuffice(ps, rs, k - 1);
      RunKeyed(ps, rs, k - 1);
      hide Keyed, Served, Possible, Chunked;
      assert Serves(ps[k - 1], rs[k - 1], ps[k]);
      ServedChunked(ps[k - 1], rs[k - 1]);
    }
    ChunkBound(ps[k]);
  }

  lemma ChunkBound(p: Pool)
    ensures Chunked(p) ==> p.next <= 10000
  {}

  /** malloc hands out no region that is allocated, and only _MEMNEW makes locks of its kind. */
  ghost predicate Proper(p: Pool, r: Request) {
    (r.Allocation? ==> r.at == 0 || r.at !in p.live) && (r.Taking? ==> r.kind != 1)
  }

  /** A request for no bytes that is given the record of a malloc'ed block. */
  ghost predicate Careless(p: Pool, r: Request) {
    Keyed(p) && r.Allocation? && Untyped(r.bytes, r.pending) && NextKind(p, r.junk) == 1
  }

  lemma ServedSoundIff(p: Pool, r: Request)
    requires Valid(p) && Possible(p, r) && Proper(p, r)
    ensures Sound(Served(p, r)) <==> !Careless(p, r)
  {
    match r
    case Allocation(bytes, pending, at, junk) => MemNewSoundIff(p, bytes, pending, at, junk);
    case Description(offset, size, pending, junk) => MemAtSound(p, offset, size, pending, junk);
    case Freeing(b) => MemFreeOnce(p, b);
    case Taking(kind, junk) => SoundIssue(p, junk, kind);
    case Giving(l) => SoundRelease(p, l);
  }

  /** Over any run, live malloc locks and allocated regions correspond one to one all the time,
      and no region is freed twice, if and only if no request is careless. */
  lemma SoundForeverIff(ps: seq<Pool>, rs: seq<Request>)
    requires Run(ps, rs) && forall k :: 0 <= k < |rs| ==> Proper(ps[k], rs[k])
    ensures (forall k :: 0 <= k < |ps| ==> Sound(ps[k])) <==> (forall k :: 0 <= k < |rs| ==> !Careless(ps[k], rs[k]))
  {
    hide Keyed, Sound, Served, Possible, Proper, Careless;
    if forall k :: 0 <= k < |ps| ==> Sound(ps[k]) {
      forall k | 0 <= k < |rs|
        ensures !Careless(ps[k], rs[k])
      {
        RunStep(ps, rs, k);
        assert Sound(ps[k + 1]);
      }
    } else if forall k :: 0 <= k < |rs| ==> !Careless(ps[k], rs[k]) {
      forall k | 0 <= k < |ps|
        ensures Sound(ps[k])
      {
        CarefulSound(ps, rs, k);
      }
    }
  }

  lemma RunStep(ps: seq<Pool>, rs: seq<Request>, k: nat)
    requires Run(ps, rs) && k < |rs| && Proper(ps[k], rs[k]) && Sound(ps[k])
    ensures Sound(ps[k + 1]) <==> !Careless(ps[k], rs[k])
  {
    hide Keyed, Sound, Served, Possible, Proper, Careless;
    RunKeyed(ps, rs, k);
    assert Serves(ps[k], rs[k], ps[k + 1]);
    ServedSoundIff(ps[k], rs[k]);
  }

  lemma {:induction false} CarefulSound(ps: seq<Pool>, rs: seq<Request>, k: nat)
    requires Run(ps, rs) && k < |ps| && forall j :: 0 <= j < |rs| ==> Proper(ps[j], rs[j]) && !Careless(ps[j], rs[j])
    ensures Sound(ps[k])
  {
    hide Keyed, Sound, Served, Possible, Proper, Careless;
    if k == 0 {
      InitialValid();
    } else {
      CarefulSound(ps, rs, k - 1);
      RunStep(ps, rs, k - 1);
    }
  }

  // --------------------------------------------------------------------------------------
  // Access
  // --------------------------------------------------------------------------------------

  /** The bytes from `offset` on lie inside the block. */
  predicate Covers(b: Block, offset: int, bytes: int) {
    b.offset <= offset && offset + bytes <= b.offset + b.size
  }

  /** The test of the code, on sums of 64 bits. */
  predicate Passes(b: Block, offset: int, bytes: int) {
    b.offset <= offset && ToInt64(offset + bytes) <= ToInt64(b.offset + b.size)
  }

  /** The block lies in the address space, and the numbers are of 64 bits. */
  predicate Addressable(b: Block, offset: int, bytes: int) {
    && 0 <= b.offset && 0 <= b.size && b.offset + b.size < 0x8000_0000_0000_0000
    && ToInt64(offset) == offset && ToInt64(bytes) == bytes
  }

  /** The test is passed inside the block, and where the end of the access is past 2^63. */
  lemma PassesIff(b: Block, offset: int, bytes: int)
    requires Addressable(b, offset, bytes)
    ensures Passes(b, offset, bytes) <==>
            Covers(b, offset, bytes) || (b.offset <= offset && 0x8000_0000_0000_0000 <= offset + bytes)
  {}

  /** An access that is passed and is not inside its block. */
  lemma PassedOutside(at: nat)
    requires 0 < at < 0x1_0000_0000
    ensures var b := Block(at, 8, START + 1, 1);
            Addressable(b, at, 0x7fff_ffff_ffff_ffff) && Passes(b, at, 0x7fff_ffff_ffff_ffff) && !Covers(b, at, 0x7fff_ffff_ffff_ffff)
  {}

  /** _MEMGET of these bytes is no error. */
  predicate Granted(p: Pool, b: Block, offset: int, bytes: int)
    requires b.lock <= |p.locks|
  {
    Exists(p, b) && Passes(b, offset, bytes)
  }

  /** Numbers of 64 bits, and an access that ends below 2^63. */
  predicate Access(offset: int, bytes: int) {
    ToInt64(offset) == offset && ToInt64(bytes) == bytes && offset + bytes < 0x8000_0000_0000_0000
  }

  /** In any later pool. */
  lemma GrantedIff(p: Pool, q: Pool, b: Block, offset: int, bytes: int)
    requires Keyed(p) && Keyed(q) && Later(p, q) && Genuine(p, b) && b.lock != 0 && b.key != INVALID
    requires 0 <= b.offset && 0 <= b.size && b.offset + b.size < 0x8000_0000_0000_0000 && Access(offset, bytes)
    ensures b.lock <= |q.locks|
    ensures Granted(q, b, offset, bytes) <==> b.key !in q.dead && b.offset <= offset && offset + bytes <= b.offset + b.size
  {
    hide Keyed, ToInt64;
    LaterGenuine(p, q, b);
    ExistsIffNotDead(q, b);
    PassesIff(b, offset, bytes);
  }

  lemma IssuedBlock(p: Pool, b: Block)
    requires Keyed(p) && Genuine(p, b) && Exists(p, b)
    ensures b.lock != 0 && b.key != INVALID
  {
    KeyNonZero(p, b);
  }

  /** A block over given memory grants exactly that memory, from when it is made until its key is
      freed; one made in error grants nothing. */
  lemma DescribedGrants(p: Pool, at: int, size: int, pending: bool, junk: Lock, q: Pool, offset: int, bytes: int)
    requires Keyed(p) && Keyed(q) && Later(MemAt(p, at, size, pending, junk).0, q)
    requires 0 <= at && at + size < 0x8000_0000_0000_0000 && Access(offset, bytes)
    ensures var b := MemAt(p, at, size, pending, junk).1;
            && b.lock <= |q.locks|
            && (!pending && 0 <= size ==>
                 (Granted(q, b, offset, bytes) <==> b.key !in q.dead && at <= offset && offset + bytes <= at + size))
            && ((pending || size < 0) && 0 < bytes ==> !Granted(q, b, offset, bytes))
  {
    MemAtKeyed(p, at, size, pending, junk);
    var (r, b) := MemAt(p, at, size, pending, junk);
    IssuedBlock(r, b);
    hide Keyed, Issue, Genuine, Exists, Granted, Access;
    GrantedIff(r, q, b, offset, bytes);
  }

  /** A new block grants exactly the region that malloc gave for it, which is then allocated to its
      lock; when it gave none, or there was an error, nothing. */
  lemma AllocatedGrants(p: Pool, size: int, pending: bool, at: int, junk: Lock, q: Pool, offset: int, bytes: int)
    requires Keyed(p) && Keyed(q) && Later(MemNew(p, size, pending, at, junk).0, q)
    requires 0 <= at && at + size < 0x8000_0000_0000_0000 && Access(offset, bytes)
    ensures var (r, b) := MemNew(p, size, pending, at, junk);
            && b.lock <= |q.locks|
            && (!pending && 0 < size && at != 0 ==>
                 && at in r.live && r.live[at] == b.lock - 1
                 && (Granted(q, b, offset, bytes) <==> b.key !in q.dead && at <= offset && offset + bytes <= at + size))
            && ((pending || size <= 0 || at == 0) && 0 < bytes ==> !Granted(q, b, offset, bytes))
  {
    MemNewKeyed(p, size, pending, at, junk);
    var (r, b) := MemNew(p, size, pending, at, junk);
    IssuedBlock(r, b);
    hide Keyed, Issue, Genuine, Exists, Granted, Access;
    GrantedIff(r, q, b, offset, bytes);
  }

  /** So it is over every run, from the request for the block on. */
  lemma GrantsForever(ps: seq<Pool>, rs: seq<Request>, k: nat, l: nat, offset: int, bytes: int)
    requires Run(ps, rs) && k < |rs| && k < l < |ps| && Access(offset, bytes)
    ensures Keyed(ps[k])
    ensures rs[k].Description? && 0 <= rs[k].offset && 0 <= rs[k].size && rs[k].offset + rs[k].size < 0x8000_0000_0000_0000 && !rs[k].pending ==>
              var b := MemAt(ps[k], rs[k].offset, rs[k].size, false, rs[k].junk).1;
              && b.lock <= |ps[l].locks|
              && (Granted(ps[l], b, offset, bytes) <==>
                   b.key !in ps[l].dead && rs[k].offset <= offset && offset + bytes <= rs[k].offset + rs[k].size)
    ensures rs[k].Allocation? && 0 < rs[k].at && 0 < rs[k].bytes && rs[k].at + rs[k].bytes < 0x8000_0000_0000_0000 && !rs[k].pending ==>
              var b := MemNew(ps[k], rs[k].bytes, false, rs[k].at, rs[k].junk).1;
              && b.lock <= |ps[l].locks|
              && (Granted(ps[l], b, offset, bytes) <==>
                   b.key !in ps[l].dead && rs[k].at <= offset && offset + bytes <= rs[k].at + rs[k].bytes)
  {
    hide Keyed, Granted, Access, MemAt, MemNew, Later;
    RunKeyed(ps, rs, k);
    RunLater(ps, rs, k + 1, l);
    assert Serves(ps[k], rs[k], ps[k + 1]);
    if rs[k].Description? && 0 <= rs[k].offset && rs[k].offset + rs[k].size < 0x8000_0000_0000_0000 {
      DescribedGrants(ps[k], rs[k].offset, rs[k].size, rs[k].pending, rs[k].junk, ps[l], offset, bytes);
    }
    if rs[k].Allocation? && 0 <= rs[k].at && rs[k].at + rs[k].bytes < 0x8000_0000_0000_0000 {
      AllocatedGrants(ps[k], rs[k].bytes, rs[k].pending, rs[k].at, rs[k].junk, ps[l], offset, bytes);
    }
  }

  lemma MemFreeIs(p: Pool, b: Block)
    requires b.lock <= |p.locks|
    ensures var (q, c, error) := MemFree(p, b);
            && (error == 309 <==> b.lock == 0) && (error == 307 <==> b.lock != 0 && !Exists(p, b)) && error in {0, 307, 309}
            && c == (if error == 0 then b.(key := INVALID) else b)
            && (error != 0 || p.locks[b.lock - 1].kind !in {0, 1} ==> q == p)
  {}

  lemma MemNewIs(p: Pool, bytes: int, pending: bool, at: int, junk: Lock)
    requires Keyed(p)
    ensures var (q, b) := MemNew(p, bytes, pending, at, junk);
            if pending || bytes < 0 || (0 < bytes && at == 0) then b.offset == b.size == 0
            else if bytes == 0 then b.offset == 1 && b.size == 0
            else b.offset == at && b.size == bytes && at in q.live && q.live[at] == b.lock - 1
  {
    hide Keyed, Issue;
  }

  lemma MemAtIs(p: Pool, offset: int, size: int, pending: bool, junk: Lock)
    requires Keyed(p)
    ensures var b := MemAt(p, offset, size, pending, junk).1;
            if pending || size < 0 then b.offset == b.size == 0 else b.offset == offset && b.size == size
  {
    hide Keyed, Issue;
  }

  /** The errors of a copy, from the reason each stands for. */
  ghost predicate CopyError(p: Pool, s: Block, soff: int, bytes: int, d: Block, doff: int, error: int)
    requires s.lock <= |p.locks| && d.lock <= |p.locks|
  {
    var live := Exists(p, s) && Exists(p, d) && 0 <= bytes;
    && (error == 0 <==> live && Passes(s, soff, bytes) && Passes(d, doff, bytes))
    && (error == 312 <==> s.lock == 0 && d.lock == 0)
    && (error == 310 <==> s.lock == 0 && d.lock != 0)
    && (error == 311 <==> s.lock != 0 && d.lock == 0)
    && (error == 313 <==> s.lock != 0 && d.lock != 0 && !Exists(p, s) && !Exists(p, d))
    && (error == 305 <==> s.lock != 0 && !Exists(p, s) && Exists(p, d))
    && (error == 306 <==> d.lock != 0 && Exists(p, s) && !Exists(p, d))
    && (error == 301 <==> Exists(p, s) && Exists(p, d) && bytes < 0)
    && (error == 304 <==> live && !Passes(s, soff, bytes) && !Passes(d, doff, bytes))
    && (error == 302 <==> live && !Passes(s, soff, bytes) && Passes(d, doff, bytes))
    && (error == 303 <==> live && Passes(s, soff, bytes) && !Passes(d, doff, bytes))
  }

  /** The memory manager with its state updated in place. */
  class Memory {
    var locks: seq<Lock>
    var freed: seq<nat>
    var id: int
    var next: nat
    var max: nat

    /** The bytes of the process at every address. */
    var ram: int -> bv8

    ghost var issued: seq<nat>
    ghost var dead: set<int>
    ghost var live: map<int, nat>
    ghost var wild: nat

    ghost function State(): Pool
      reads this
    {
      Pool(locks, freed, id, next, max, issued, dead, live, wild)
    }

    constructor (bytes: int -> bv8)
      ensures State() == Initial() && Valid(State()) && ram == bytes
    {
      ram := bytes;
      locks, freed, id, next, max := [], [], START, 0, 10000;
      issued, dead, live, wild := [], {}, map[], 0;
    }

    method NewLock(junk: Lock) returns (l: nat)
      requires Keyed(State())
      modifies this
      ensures ram == old(ram)
      ensures (State(), l) == Issue(old(State()), junk) && Keyed(State()) && IssuedOne(old(State()), State(), l)
    {
      hide Keyed, IssuedOne;
      KeyedIssue(State(), junk);
      FreedLock(State());
      var lock := junk;
      if |freed| > 0 {
        l := freed[|freed| - 1];
        freed := freed[..|freed| - 1];
        lock := locks[l];
      } else {
        if next == max {
          next := 0;
        }
        next := next + 1;
        l := |locks|;
        locks := locks + [junk];
      }
      id := id + 1;
      locks := locks[l := lock.(id := id)];
      assert |freed| == |old(freed)| ==> locks == old(locks) + [lock.(id := id)];
      issued := issued + [l];
    }

    method FreeLock(l: nat)
      requires l < |locks|
      modifies this
      ensures State() == Release(old(State()), l) && ram == old(ram)
    {
      var k := locks[l];
      locks := locks[l := k.(id := 0)];
      if k.kind == 1 {
        wild := if k.offset in live && live[k.offset] == l then wild else wild + 1;
        live := live - {k.offset};
      }
      freed := freed + [l];
      dead := dead + {k.id};
    }

    /** sub__memfree: the region goes back, the block and every copy of it are dead. */
    method Free(b: Block) returns (c: Block, error: int)
      requires Keyed(State()) && Genuine(State(), b)
      modifies this
      ensures (State(), c, error) == MemFree(old(State()), b) && ram == old(ram)
      ensures (error == 309 <==> b.lock == 0) && (error == 307 <==> b.lock != 0 && !old(Exists(State(), b))) && error in {0, 307, 309}
      ensures c == if error == 0 then b.(key := INVALID) else b
      ensures error != 0 || old(locks)[b.lock - 1].kind !in {0, 1} ==> State() == old(State())
      ensures Keyed(State()) && Later(old(State()), State()) && Genuine(State(), c)
      ensures (error == 0 <==> old(Exists(State(), b))) && (error == 0 ==> !Exists(State(), c))
      ensures old(Sound(State())) ==> Sound(State())
    {
      MemFreeKeyed(State(), b, b);
      if Sound(State()) { MemFreeOnce(State(), b); }
      GenuineLock(State(), b);
      MemFreeIs(State(), b);
      hide *;
      c, error := Dispose(b);
    }

    method Dispose(b: Block) returns (c: Block, error: int)
      requires b.lock <= |locks|
      modifies this
      ensures (State(), c, error) == MemFree(old(State()), b) && ram == old(ram)
    {
      if b.lock == 0 {
        return b, 309;
      }
      if locks[b.lock - 1].id != b.key {
        return b, 307;
      }
      if locks[b.lock - 1].kind == 0 {
        FreeLock(b.lock - 1);
      }
      if locks[b.lock - 1].kind == 1 {
        FreeLock(b.lock - 1);
      }
      return b.(key := INVALID), 0;
    }

    /** func__memnew. malloc returns 0 or an address that is not allocated. */
    method New(bytes: int, pending: bool, at: int, junk: Lock) returns (b: Block)
      requires Keyed(State()) && (at == 0 || at !in live)
      modifies this
      ensures (State(), b) == MemNew(old(State()), bytes, pending, at, junk) && ram == old(ram)
      ensures Keyed(State()) && Later(old(State()), State()) && Genuine(State(), b) && Exists(State(), b)
      ensures if pending || bytes < 0 || (0 < bytes && at == 0) then b.offset == b.size == 0
              else if bytes == 0 then b.offset == 1 && b.size == 0
              else b.offset == at && b.size == bytes && at in live && live[at] == b.lock - 1
      ensures old(Sound(State())) ==>
                (Sound(State()) <==> !(Untyped(bytes, pending) && old(NextKind(State(), junk)) == 1))
    {
      MemNewKeyed(State(), bytes, pending, at, junk);
      if Sound(State()) { MemNewSoundIff(State(), bytes, pending, at, junk); }
      MemNewIs(State(), bytes, pending, at, junk);
      hide *;
      b := Allocate(bytes, pending, at, junk);
    }

    method Allocate(bytes: int, pending: bool, at: int, junk: Lock) returns (b: Block)
      requires Keyed(State())
      modifies this
      ensures (State(), b) == MemNew(old(State()), bytes, pending, at, junk) && ram == old(ram)
    {
      var l := NewLock(junk);
      hide Keyed, Issue;
      b := Block(0, 0, id, l + 1);
      if pending || bytes < 0 {
        locks := locks[l := locks[l].(kind := 0)];
        return;
      }
      if bytes == 0 {
        b := b.(offset := 1);
      } else {
        b := b.(offset := at);
        if at == 0 {
          locks := locks[l := locks[l].(kind := 0)];
        } else {
          b := b.(size := bytes);
          ghost var before := locks;
          locks := locks[l := locks[l].(kind := 1)];
          locks := locks[l := locks[l].(offset := at)];
          assert locks == before[l := Lock(id, 1, at)];
          live := live[at := l];
        }
      }
    }

    /** func__mem_at_offset */
    method AtOffset(offset: int, size: int, pending: bool, junk: Lock) returns (b: Block)
      requires Keyed(State())
      modifies this
      ensures (State(), b) == MemAt(old(State()), offset, size, pending, junk) && ram == old(ram)
      ensures Keyed(State()) && Later(old(State()), State()) && Genuine(State(), b) && Exists(State(), b)
      ensures if pending || size < 0 then b.offset == b.size == 0 else b.offset == offset && b.size == size
      ensures old(Sound(State())) ==> Sound(State())
    {
      MemAtKeyed(State(), offset, size, pending, junk);
      if Sound(State()) { MemAtSound(State(), offset, size, pending, junk); }
      MemAtIs(State(), offset, size, pending, junk);
      hide *;
      b := Describe(offset, size, pending, junk);
    }

    method Describe(offset: int, size: int, pending: bool, junk: Lock) returns (b: Block)
      requires Keyed(State())
      modifies this
      ensures (State(), b) == MemAt(old(State()), offset, size, pending, junk) && ram == old(ram)
    {
      var l := NewLock(junk);
      hide Keyed, Issue;
      locks := locks[l := locks[l].(kind := 0)];
      b := Block(offset, size, id, l + 1);
      if size < 0 || pending {
        b := b.(size := 0, offset := 0);
      }
    }

    /** func__memexists */
    method Exist(b: Block) returns (r: int)
      requires Keyed(State()) && Genuine(State(), b)
      ensures r == if b.lock != 0 && b.key != INVALID && b.key !in dead then -1 else 0
    {
      ExistsIffNotDead(State(), b);
      if b.lock == 0 {
        return 0;
      }
      return if locks[b.lock - 1].id == b.key then -1 else 0;
    }

    /** func__memget: the checks before access is granted. */
    method Get(b: Block, offset: int, bytes: int) returns (error: int)
      requires Keyed(State()) && Genuine(State(), b)
      ensures error == 0 <==> b.lock != 0 && b.key != INVALID && b.key !in dead && Passes(b, offset, bytes)
      ensures Addressable(b, offset, bytes) && offset + bytes < 0x8000_0000_0000_0000 ==>
                (error == 0 <==> b.lock != 0 && b.key != INVALID && b.key !in dead && Covers(b, offset, bytes))
      ensures error == 0 <==> Granted(State(), b, offset, bytes)
      ensures error == 309 <==> b.lock == 0
      ensures error == 308 <==> b.lock != 0 && (b.key == INVALID || b.key in dead)
      ensures error in {0, 300, 308, 309}
    {
      ExistsIffNotDead(State(), b);
      if Addressable(b, offset, bytes) { PassesIff(b, offset, bytes); }
      hide ToInt64, Addressable;
      if b.lock == 0 {
        return 309;
      }
      if offset < b.offset || ToInt64(offset + bytes) > ToInt64(b.offset + b.size) || locks[b.lock - 1].id != b.key {
        if locks[b.lock - 1].id != b.key {
          return 308;
        }
        return 300;
      }
      return 0;
    }

    /** sub__memcopy: when the checks allow it the bytes are moved, as if through a buffer. */
    method Copy(s: Block, soff: int, bytes: int, d: Block, doff: int) returns (error: int)
      requires s.lock <= |locks| && d.lock <= |locks|
      modifies this`ram
      ensures CopyError(State(), s, soff, bytes, d, doff, error)
      ensures error in {0, 301, 302, 303, 304, 305, 306, 310, 311, 312, 313}
      ensures error != 0 ==> ram == old(ram)
      ensures error == 0 && Covers(s, soff, bytes) && Covers(d, doff, bytes) ==> forall a :: ram(a) == if doff <= a < doff + bytes then old(ram)(soff + (a - doff)) else old(ram)(a)
    {
      error := CheckCopy(s, soff, bytes, d, doff);
      if error == 0 {
        var was := ram;
        ram := a => if doff <= a < doff + bytes then was(soff + (a - doff)) else was(a);
      }
    }

    method CheckCopy(s: Block, soff: int, bytes: int, d: Block, doff: int) returns (error: int)
      requires s.lock <= |locks| && d.lock <= |locks|
      ensures CopyError(State(), s, soff, bytes, d, doff, error)
      ensures error in {0, 301, 302, 303, 304, 305, 306, 310, 311, 312, 313}
    {
      if s.lock == 0 || d.lock == 0 {
        if s.lock == 0 && d.lock == 0 {
          return 312;
        }
        if s.lock == 0 {
          return 310;
        }
        return 311;
      }
      if bytes < 0 || soff < s.offset || ToInt64(soff + bytes) > ToInt64(s.offset + s.size) || doff < d.offset || ToInt64(doff + bytes) > ToInt64(d.offset + d.size)
         || locks[s.lock - 1].id != s.key || locks[d.lock - 1].id != d.key {
        if locks[s.lock - 1].id != s.key && locks[d.lock - 1].id != d.key {
          return 313;
        }
        if locks[s.lock - 1].id != s.key {
          return 305;
        }
        if locks[d.lock - 1].id != d.key {
          return 306;
        }
        if bytes < 0 {
          return 301;
        }
        if soff < s.offset || ToInt64(soff + bytes) > ToInt64(s.offset + s.size) {
          if doff < d.offset || ToInt64(doff + bytes) > ToInt64(d.offset + d.size) {
            return 304;
          }
          return 302;
        }
        return 303;
      }
      return 0;
    }
  }
}
