/** The chunk list of buffer.cpp: bytes are written in chunks to the end of a linked list and read
    from its front; `tail` says which next-field the following chunk is to be hung on. */
module ChunkBuffer {

  type Byte = bv8

  class Entry {
    const data: seq<Byte>
    var next: Entry?

    constructor (data: seq<Byte>)
      ensures this.data == data && next == null
    {
      this.data, next := data, null;
    }
  }

  /** All bytes of a list of entries. */
  ghost function Bytes(nodes: seq<Entry>): seq<Byte> {
    if nodes == [] then [] else nodes[0].data + Bytes(nodes[1..])
  }

  lemma {:induction false} BytesAppend(nodes: seq<Entry>, e: Entry)
    ensures Bytes(nodes + [e]) == Bytes(nodes) + e.data
  {
    if nodes == [] {
      assert [e][1..] == [];
      assert Bytes([e]) == e.data + Bytes([]);
    } else {
      assert (nodes + [e])[1..] == nodes[1..] + [e];
      BytesAppend(nodes[1..], e);
    }
  }

  /** With the first entry read up to an offset, the appended bytes still come last. */
  lemma BytesBehind(nodes: seq<Entry>, offset: nat, e: Entry)
    requires offset <= (if nodes == [] then 0 else |nodes[0].data|)
    ensures offset <= |Bytes(nodes)| && offset <= |Bytes(nodes + [e])|
    ensures Bytes(nodes + [e])[offset..] == Bytes(nodes)[offset..] + e.data
    ensures nodes != [] ==> (nodes + [e])[0] == nodes[0]
    ensures (nodes + [e])[|nodes|] == e && (nodes + [e])[..|nodes|] == nodes
  {
    BytesAppend(nodes, e);
  }

  /** The entry behind entry i, or null. */
  ghost function After(nodes: seq<Entry>, i: nat): Entry?
    requires i < |nodes|
  {
    if i + 1 < |nodes| then nodes[i + 1] else null
  }

  class Buffer {
    var totalLength: nat
    var curEntryOffset: nat
    var head: Entry?

    /** The entry whose next-field comes next; null stands for the head of the buffer. */
    var tail: Entry?

    ghost var nodes: seq<Entry>

    /** The entries from the head on are linked in this order, each once. */
    ghost predicate Linked()
      reads this`head, this`nodes, nodes
    {
      && head == (if nodes == [] then null else nodes[0])
      && (forall i :: 0 <= i < |nodes| ==> nodes[i].next == After(nodes, i))
      && (forall i, j :: 0 <= i < j < |nodes| ==> nodes[i] != nodes[j])
    }

    ghost predicate Valid()
      reads this, nodes
    {
      && Linked() && tail == (if nodes == [] then null else nodes[|nodes| - 1])
      && curEntryOffset <= (if nodes == [] then 0 else |nodes[0].data|)
      && totalLength == |Contents()|
    }

    /** The bytes that have been written and not been read. */
    ghost function Contents(): seq<Byte>
      reads this
    {
      if curEntryOffset <= |Bytes(nodes)| then Bytes(nodes)[curEntryOffset..] else []
    }

    /** libqb_buffer_init */
    constructor ()
      ensures Valid() && Contents() == [] && nodes == []
    {
      totalLength, curEntryOffset, head, tail, nodes := 0, 0, null, null, [];
    }

    /** libqb_buffer_clear */
    method Clear()
      requires Valid()
      modifies this
      ensures Valid() && Contents() == []
    {
      var entry := head;
      ghost var k := 0;
      while entry != null
        invariant k <= |nodes| && entry == (if k < |nodes| then nodes[k] else null) && Valid()
        decreases |nodes| - k
      {
        entry := entry.next;
        k := k + 1;
      }
      totalLength, curEntryOffset, head, tail, nodes := 0, 0, null, null, [];
    }

    method Length() returns (n: nat)
      requires Valid()
      ensures n == |Contents()|
    {
      n := totalLength;
    }

    /** libqb_buffer_write: the chunk is copied behind everything else. */
    method Write(input: seq<Byte>)
      requires Valid()
      modifies this, nodes
      ensures Valid() && Contents() == old(Contents()) + input
      ensures |nodes| == |old(nodes)| + 1 && fresh(nodes[|nodes| - 1]) && nodes[..|nodes| - 1] == old(nodes)
    {
      hide Bytes, Linked, After;
      var entry := new Entry(input);
      BytesBehind(nodes, curEntryOffset, entry);
      Hang(entry);
      totalLength := totalLength + |input|;
    }

    /** An entry is hung on the field that the tail stands for. */
    method Hang(entry: Entry)
      requires Linked() && tail == (if nodes == [] then null else nodes[|nodes| - 1])
      requires entry !in nodes && entry.next == null
      modifies this`head, this`tail, this`nodes, nodes
      ensures Linked() && nodes == old(nodes) + [entry] && tail == entry
    {
      if tail == null {
        head := entry;
      } else {
        tail.next := entry;
      }
      tail := entry;
      nodes := nodes + [entry];
    }

    /** All but the tail and the length, while bytes are being taken. */
    ghost predicate Reading()
      reads this, nodes
    {
      && Linked() && (nodes != [] ==> tail == nodes[|nodes| - 1])
      && curEntryOffset <= (if nodes == [] then 0 else |nodes[0].data|)
    }

    lemma Unlinked()
      requires Linked() && head != null
      ensures nodes != [] && head == nodes[0] && head.next == (if |nodes| > 1 then nodes[1..][0] else null)
      ensures var r := nodes[1..];
              && (forall i :: 0 <= i < |r| ==> r[i].next == After(r, i))
              && (forall i, j :: 0 <= i < j < |r| ==> r[i] != r[j])
    {
      var r := nodes[1..];
      forall i | 0 <= i < |r|
        ensures r[i].next == After(r, i)
      {
        assert r[i] == nodes[i + 1];
      }
    }

    /** Bytes of the first entry are taken; an entry that is used up is dropped. */
    method Take(left: nat) returns (part: seq<Byte>)
      requires Reading() && head != null && left > 0
      modifies this`head, this`curEntryOffset, this`nodes
      ensures Reading() && old(Contents()) == part + Contents() && |part| <= left
      ensures |nodes| <= |old(nodes)| && (|part| < left ==> |nodes| < |old(nodes)|)
    {
      var entry := head;
      ghost var all, rest := Bytes(nodes), Bytes(nodes[1..]);
      var len := |entry.data| - curEntryOffset;
      if len > left {
        len := left;
      }
      part := entry.data[curEntryOffset..curEntryOffset + len];
      assert all[curEntryOffset..] == part + (entry.data[curEntryOffset + len..] + rest);
      assert entry.data[curEntryOffset + len..] + rest == all[curEntryOffset + len..];
      if len == |entry.data| - curEntryOffset {
        assert all[curEntryOffset + len..] == rest == rest[0..];
        Unlinked();
        head := head.next;
        curEntryOffset := 0;
        nodes := nodes[1..];
      } else {
        curEntryOffset := curEntryOffset + len;
      }
    }

    /** libqb_buffer_read: exactly as many bytes as asked for or as there are. */
    method Read(length: nat) returns (out: seq<Byte>)
      requires Valid()
      modifies this
      ensures Valid() && |out| == (if length < |old(Contents())| then length else |old(Contents())|)
      ensures old(Contents()) == out + Contents()
    {
      hide Bytes, After, Linked, Contents;
      var left: nat := length;
      out := [];
      ghost var all := Contents();
      while head != null && left > 0
        invariant Reading() && all == out + Contents() && |out| + left == length
        invariant totalLength == |all|
        decreases left, |nodes|
      {
        var part := Take(left);
        out := out + part;
        left := left - |part|;
      }
      assert |all| == |out| + |Contents()|;
      FinishRead(out);
      assert |all| == |out| + |Contents()|;
    }

    /** With the list used up the tail is the head of the buffer again. */
    method FinishRead(out: seq<Byte>)
      requires Reading() && totalLength == |out| + |Contents()|
      modifies this`tail, this`totalLength
      ensures Valid() && Contents() == old(Contents()) && (head == null ==> Contents() == [])
    {
      if head == null {
        tail := null;
      }
      totalLength := totalLength - |out|;
    }
  }
}
