/** DoubleBufferFrameBlock of framework.h: two blocks of sample frames, one to read from and one to
    write to, that change places when the first has been read. */
module FrameBlock {
  import opened Arith
  import opened Frames

  class DoubleBuffer {
    var blocks: seq<seq<Frame>>
    var index: nat
    var cursor: nat

    ghost predicate Valid()
      reads this
    {
      |blocks| == 2 && index < 2 && (blocks[index] == [] ==> cursor == 0) && (blocks[index] != [] ==> cursor < |blocks[index]|)
    }

    /** The frames that have been written and not been read. */
    ghost function Queue(): seq<Frame>
      requires Valid()
      reads this
    {
      blocks[index][cursor..] + blocks[1 - index]
    }

    constructor ()
      ensures Valid() && Queue() == []
    {
      blocks, index, cursor := [[], []], 0, 0;
    }

    method Reset()
      requires Valid()
      modifies this
      ensures Valid() && Queue() == []
    {
      blocks, index, cursor := [[], []], 0, 0;
    }

    method IsEmpty() returns (r: bool)
      requires Valid()
      ensures r <==> Queue() == []
    {
      r := |blocks[0]| == 0 && |blocks[1]| == 0;
      assert blocks[index] != [] ==> blocks[index][cursor..] != [];
    }

    method IsWriteBlockEmpty() returns (r: bool)
      requires Valid()
      ensures r <==> blocks[1 - index] == []
    {
      r := |blocks[1 - index]| == 0;
    }

    /** Room for some frames in the block to write to, if that is empty. */
    method GetWriteBlock(frames: nat) returns (ok: bool)
      requires Valid()
      modifies this`blocks
      ensures Valid() && (ok <==> old(blocks[1 - index]) == [])
      ensures ok ==> Queue() == old(Queue()) + seq(frames, _ => SILENCE) && |blocks[1 - index]| == frames
      ensures !ok ==> blocks == old(blocks)
    {
      var writeIndex := 1 - index;
      ok := |blocks[writeIndex]| == 0;
      if ok {
        blocks := blocks[writeIndex := seq(frames, _ => SILENCE)];
      }
    }

    /** The caller fills the block it has been given. */
    method Fill(data: seq<Frame>)
      requires Valid() && |data| == |blocks[1 - index]|
      modifies this`blocks
      ensures Valid() && Queue() == old(Queue())[..|old(Queue())| - |data|] + data
    {
      ghost var front := blocks[index][cursor..];
      assert Queue()[..|Queue()| - |data|] == front;
      blocks := blocks[1 - index := data];
    }

    /** Exactly as many frames as asked for or as there are, in order, and the rest remains; also
        where a read goes from one block into the other. A block that has been used up is free to
        be written to at once: what remains is in the block that is read. */
    method ReadFrames(frames: nat) returns (data: seq<Frame>)
      requires Valid()
      modifies this
      ensures Valid() && |data| == Min(frames, |old(Queue())|) && old(Queue()) == data + Queue()
      ensures blocks[index] == [] ==> blocks[1 - index] == []
    {
      if |blocks[index]| == 0 {
        index := 1 - index;
        cursor := 0;
        if |blocks[index]| == 0 {
          return [];
        }
      }
      data := ReadOn(frames);
    }

    /** From a block with frames left in it. */
    method ReadOn(frames: nat) returns (data: seq<Frame>)
      requires Valid() && blocks[index] != []
      modifies this
      ensures Valid() && |data| == Min(frames, |old(Queue())|) && old(Queue()) == data + Queue()
      ensures blocks[index] == [] ==> blocks[1 - index] == []
    {
      var toCopy := Min(frames, |blocks[index]| - cursor);
      data := blocks[index][cursor..cursor + toCopy];
      ghost var queue, first, rest := Queue(), data, blocks[1 - index];
      Cut(blocks[index], cursor, toCopy, rest);
      cursor := cursor + toCopy;
      if toCopy < frames {
        assert queue == first + rest;
        ChangeOver();
        var more := ReadMore(frames - toCopy);
        Joined(first, more, Queue());
        data := data + more;
      } else {
        Flip();
      }
    }

    /** The other block, from its beginning. */
    method ReadMore(frames: nat) returns (data: seq<Frame>)
      requires |blocks| == 2 && index < 2 && cursor == 0 && blocks[1 - index] == []
      modifies this
      ensures Valid() && |data| == Min(frames, |old(blocks[index])|) && old(blocks[index]) == data + Queue()
      ensures blocks[index] == [] ==> blocks[1 - index] == []
    {
      if |blocks[index]| == 0 {
        return [];
      }
      var remaining := Min(frames, |blocks[index]|);
      data := blocks[index][..remaining];
      Cut(blocks[index], 0, remaining, []);
      cursor := cursor + remaining;
      Flip();
    }

    /** The block that is read is emptied, and the other one is read next. */
    method ChangeOver()
      requires |blocks| == 2 && index < 2
      modifies this
      ensures |blocks| == 2 && index == 1 - old(index) && cursor == 0
      ensures blocks[index] == old(blocks[1 - index]) && blocks[1 - index] == []
    {
      blocks := blocks[index := []];
      index := 1 - index;
      cursor := 0;
    }

    /** A block that has been read to its end makes place for the other one. */
    method Flip()
      requires |blocks| == 2 && index < 2 && cursor <= |blocks[index]| && 0 < |blocks[index]|
      modifies this
      ensures Valid() && Queue() == old(blocks[index][cursor..] + blocks[1 - index])
      ensures blocks[index] == [] ==> blocks[1 - index] == []
    {
      if cursor >= |blocks[index]| {
        ghost var rest := blocks[1 - index];
        assert blocks[index][cursor..] == [] && rest[0..] + [] == rest;
        ChangeOver();
      }
    }
  }

  lemma Joined(a: seq<Frame>, b: seq<Frame>, c: seq<Frame>)
    ensures a + (b + c) == a + b + c
  {}

  lemma Cut(block: seq<Frame>, cursor: nat, n: nat, rest: seq<Frame>)
    requires cursor + n <= |block|
    ensures block[cursor..] + rest == block[cursor..cursor + n] + (block[cursor + n..] + rest)
    ensures cursor + n == |block| ==> block[cursor..] == block[cursor..cursor + n] && block[cursor + n..] + rest == rest
  {}
}
