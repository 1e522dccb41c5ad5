/** The AOF rewrite buffer: a list of fixed-size blocks that is only ever appended to. */
module RewriteBuffer {
  import opened Bytes

  const BLOCK_SIZE := 1024 * 1024 * 10

  class Block {
    const buf: array<byte>
    var used: nat
    var free: nat

    constructor ()
      ensures fresh(this) && fresh(buf) && buf.Length == BLOCK_SIZE && used == 0 && free == BLOCK_SIZE
    {
      buf := new byte[BLOCK_SIZE];
      used := 0;
      free := BLOCK_SIZE;
    }

    ghost predicate Valid()
      reads this
    {
      buf.Length == BLOCK_SIZE && used + free == BLOCK_SIZE
    }

    function Data(): seq<byte>
      requires Valid()
      reads this, buf
    {
      buf[..used]
    }

    /** The memcpy into a block, with its counters. */
    method Fill(s: seq<byte>)
      requires Valid() && |s| <= free
      modifies this, buf
      ensures Valid() && used == old(used) + |s| && Data() == old(Data()) + s
    {
      ghost var before := Data();
      var i := 0;
      while i < |s|
        modifies buf
        invariant 0 <= i <= |s| && Valid() && used == old(used)
        invariant buf[..used + i] == before + s[..i]
      {
        buf[used + i] := s[i];
        i := i + 1;
      }
      used := used + |s|;
      free := free - |s|;
    }
  }

  ghost function Bufs(blocks: seq<Block>): set<object> {
    set b | b in blocks :: b.buf
  }

  /** Blocks do not share storage, and all but the last are full. */
  ghost predicate Chain(blocks: seq<Block>)
    reads blocks
  {
    && (forall i :: 0 <= i < |blocks| ==> blocks[i].Valid())
    && (forall i, j :: 0 <= i < j < |blocks| ==> blocks[i] != blocks[j] && blocks[i].buf != blocks[j].buf)
    && (forall i :: 0 <= i < |blocks| - 1 ==> blocks[i].free == 0)
  }

  ghost function Contents(blocks: seq<Block>): seq<byte>
    requires forall b :: b in blocks ==> b.Valid()
    reads blocks, Bufs(blocks)
  {
    if blocks == [] then []
    else Contents(blocks[..|blocks| - 1]) + blocks[|blocks| - 1].Data()
  }

  /** No write(2) of a block comes back short. */
  ghost predicate Accepted(blocks: seq<Block>, accepted: nat -> int)
    reads blocks
  {
    forall i :: 0 <= i < |blocks| && blocks[i].used > 0 ==> accepted(i) == blocks[i].used
  }

  lemma LastAdds(blocks: seq<Block>, last: Block)
    requires (forall b :: b in blocks ==> b.Valid()) && last.Valid() && last.used == 0
    ensures Contents(blocks + [last]) == Contents(blocks)
  {
    assert (blocks + [last])[..|blocks|] == blocks;
  }

  class Buffer {
    var blocks: seq<Block>

    ghost predicate Valid()
      reads this, blocks
    {
      Chain(blocks)
    }

    ghost function View(): seq<byte>
      requires Valid()
      reads this, blocks, Bufs(blocks)
    {
      Contents(blocks)
    }

    constructor ()
      ensures Valid() && View() == [] && blocks == []
    {
      blocks := [];
    }

    /** aofRewriteBufferReset. */
    method Reset()
      modifies this
      ensures Valid() && View() == [] && blocks == []
    {
      blocks := [];
    }

    /** One round on the last block: what is left of its room is filled. */
    method FillLast(s: seq<byte>) returns (taken: nat)
      requires Valid() && blocks != []
      modifies blocks[|blocks| - 1], blocks[|blocks| - 1].buf
      ensures Valid() && taken <= |s| && View() == old(View()) + s[..taken]
      ensures taken < |s| ==> blocks[|blocks| - 1].free == 0
      ensures taken == 0 ==> s == [] || old(blocks[|blocks| - 1].free) == 0
    {
      var last := blocks[|blocks| - 1];
      ghost var init := blocks[..|blocks| - 1];
      ghost var before := Contents(init);
      taken := if last.free < |s| then last.free else |s|;
      assert last !in init && last.buf !in Bufs(init);
      if taken > 0 {
        last.Fill(s[..taken]);
      }
      assert Contents(init) == before;
    }

    method AddBlock()
      requires Valid() && (blocks != [] ==> blocks[|blocks| - 1].free == 0)
      modifies this
      ensures Valid() && View() == old(View())
      ensures |blocks| == old(|blocks|) + 1 && blocks[..|blocks| - 1] == old(blocks)
      ensures fresh(blocks[|blocks| - 1]) && fresh(blocks[|blocks| - 1].buf)
      ensures blocks[|blocks| - 1].free == BLOCK_SIZE
    {
      hide Contents;
      ghost var former := blocks;
      ghost var before := Contents(former);
      var block := new Block();
      assert block !in former && block.buf !in Bufs(former);
      assert Contents(former) == before;
      blocks := blocks + [block];
      assert blocks[..|blocks| - 1] == former;
      assert Contents(former) == before;
      LastAdds(former, block);
    }

    /** aofRewriteBufferAppend: nothing is dropped or reordered at block boundaries. */
    method Append(s: seq<byte>)
      requires Valid()
      modifies this, blocks, Bufs(blocks)
      ensures Valid() && View() == old(View()) + s
      ensures fresh(set b | b in blocks && b !in old(blocks))
      ensures fresh(Bufs(blocks) - old(Bufs(blocks)))
    {
      hide Chain, Contents, Block.Valid;
      var rest := s;
      ghost var done: seq<byte> := [];
      while rest != []
        invariant Valid()
        invariant done + rest == s && View() == old(View()) + done
        invariant fresh(set b | b in blocks && b !in old(blocks))
        invariant fresh(Bufs(blocks) - old(Bufs(blocks)))
        decreases |rest|, if blocks != [] && blocks[|blocks| - 1].free > 0 then 0 else 1
      {
        if blocks != [] {
          var taken := FillLast(rest);
          done := done + rest[..taken];
          rest := rest[taken..];
        }
        if rest != [] {
          AddBlock();
        }
      }
    }

    /** aofRewriteBufferSize counts whole blocks before the last one; none of them has room left. */
    method Size() returns (n: nat)
      requires Valid()
      ensures n == |View()|
    {
      SizeOf(blocks);
      if blocks == [] { return 0; }
      n := (|blocks| - 1) * BLOCK_SIZE + blocks[|blocks| - 1].used;
    }

    /**
      * aofRewriteBufferWrite. `accepted(i)` is what write(2) returns for block i. Either every block
      * is accepted whole and the file grows by the whole buffer, or the answer is -1.
      */
    method Write(file: seq<byte>, accepted: nat -> int) returns (count: int, grown: seq<byte>)
      requires Valid()
      ensures count != -1 ==> grown == file + View() && count == |View()|
      ensures count == -1 <==> !Accepted(blocks, accepted)
    {
      count := 0;
      grown := file;
      var i := 0;
      assert blocks[..|blocks|] == blocks;
      while i < |blocks|
        invariant 0 <= i <= |blocks| && count >= 0
        invariant grown == file + Contents(blocks[..i]) && count == |Contents(blocks[..i])|
        invariant forall k :: 0 <= k < i && blocks[k].used > 0 ==> accepted(k) == blocks[k].used
      {
        assert blocks[..i + 1][..i] == blocks[..i];
        var block := blocks[i];
        if block.used > 0 {
          if accepted(i) != block.used {
            return -1, grown;
          }
          grown := grown + block.buf[..block.used];
          count := count + block.used;
        }
        i := i + 1;
      }
    }
  }

  lemma {:induction false} SizeOf(blocks: seq<Block>)
    requires Chain(blocks)
    ensures blocks == [] ==> Contents(blocks) == []
    ensures blocks != [] ==> |Contents(blocks)| == (|blocks| - 1) * BLOCK_SIZE + blocks[|blocks| - 1].used
  {
    if blocks != [] { SizeOf(blocks[..|blocks| - 1]); }
  }
}
