/** The PIR client: its query buffer, into which every server's mask and the index are
    exclusive-ored, and its result buffer, into which every answer is. */
module Client {
  import opened Bits
  import opened ByteStrings
  import opened Tables
  import opened Layout
  import opened Helper
  import opened Server

  /** Right part behind the own chunk, left part at the front: together the spread mask. */
  lemma SpreadInto(c: Config, id: nat, q: seq<byte>, mask: seq<byte>)
    requires c.Valid() && id < c.servers && |q| == c.groups && |mask| == c.MaskLength(id)
    ensures c.Start(id + 1) + c.RightGroups(id) <= c.groups && c.LeftGroups(id) <= c.groups
    ensures XorInto(XorInto(q, c.Start(id + 1), mask[..c.RightGroups(id)]), 0, mask[c.RightGroups(id)..])
         == XorBytes(q, Spread(c, id, mask))
  {
    hide Config.Size, Config.Start, XorByte, XorBytes, XorInto;
    var right, left, own := c.RightGroups(id), c.LeftGroups(id), c.Start(id + 1);
    var r := XorInto(XorInto(q, own, mask[..right]), 0, mask[right..]);
    forall p | 0 <= p < c.groups
      ensures r[p] == XorBytes(q, Spread(c, id, mask))[p]
    {
      XorByteZero(q[p]);
    }
  }

  class PirClient {
    const c: Config
    const size: nat
    const expand: Expander
    var chunksGroupsMap: seq<nat>
    const querybuf: array<byte>
    const resultbuf: array<byte>

    ghost predicate Valid()
      reads this
    {
      && c.Valid()
      && |chunksGroupsMap| == c.servers
      && (forall i :: 0 <= i < c.servers ==> chunksGroupsMap[i] == c.Size(i))
      && querybuf.Length == c.groups && resultbuf.Length == size
      && querybuf != resultbuf
    }

    constructor (c: Config, size: nat, expand: Expander)
      requires c.Valid()
      ensures this.c == c && this.size == size && this.expand == expand
      ensures Valid() && fresh(querybuf) && fresh(resultbuf)
    {
      var sizes := ChunkMap(c);
      this.c, this.size, this.expand := c, size, expand;
      chunksGroupsMap := sizes;
      querybuf := new byte[c.groups](_ => 0);
      resultbuf := new byte[size](_ => 0);
    }

    method InitRequest()
      requires Valid()
      modifies querybuf
      ensures querybuf[..] == Zeros(c.groups)
    {
      forall k | 0 <= k < querybuf.Length {
        querybuf[k] := 0;
      }
    }

    /** Groups of the mask to the right of the own chunk, groups that wrapped around, and
        groups to skip to get behind the own chunk. */
    method MaskSpans(id: nat) returns (groupsright: nat, groupsleft: nat, skipgroups: nat)
      requires Valid() && id < c.servers
      ensures groupsright == c.RightGroups(id) && groupsleft == c.LeftGroups(id) && skipgroups == c.Start(id + 1)
    {
      hide Config.Size;
      groupsright, groupsleft := 0, 0;
      var i := 1;
      while i < c.chunks && i + id < c.servers
        invariant 1 <= i <= c.chunks && i + id <= c.servers
        invariant c.Start(id + 1) + groupsright == c.Start(i + id)
      {
        groupsright := groupsright + chunksGroupsMap[i + id];
        i := i + 1;
      }
      if i < c.chunks {
        var j := 0;
        while i < c.chunks
          invariant i <= c.chunks && j == i + id - c.servers
          invariant groupsleft == c.Start(j)
        {
          groupsleft := groupsleft + chunksGroupsMap[j];
          i := i + 1;
          j := j + 1;
        }
      }
      skipgroups := 0;
      for k := 0 to id + 1
        invariant skipgroups == c.Start(k)
      {
        skipgroups := skipgroups + chunksGroupsMap[k];
      }
    }

    /** Expands a server's seed and exclusive-ors the mask into the query, the part under
        the mutex included. */
    method HandleSeed(id: nat, seed: seq<byte>)
      requires Valid() && id < c.servers
      modifies querybuf
      ensures querybuf[..] == XorBytes(old(querybuf[..]), Spread(c, id, expand(seed, c.MaskLength(id))))
    {
      hide XorInto, XorBytes, Spread, Config.RightGroups, Config.LeftGroups, Config.Start, Config.Size;
      var groupsright, groupsleft, skipgroups := MaskSpans(id);
      var groups := groupsleft + groupsright;
      var mask := expand(seed, groups);
      var query := new byte[groups](i requires 0 <= i < groups => mask[i]);
      ghost var was := querybuf[..];
      assert query[0..groupsright] == mask[..groupsright];
      assert query[groupsright..groupsright + groupsleft] == mask[groupsright..];
      SpreadInto(c, id, was, mask);
      XorBytesInto(querybuf, skipgroups, query, 0, groupsright);
      XorBytesInto(querybuf, 0, query, groupsright, groupsleft);
    }

    /** Puts the index into the query and clears the result. */
    method SetIndex(index: nat)
      requires Valid() && index / 8 < c.groups
      modifies querybuf, resultbuf
      ensures querybuf[..] == XorBytes(old(querybuf[..]), OneHot(index, c.groups))
      ensures resultbuf[..] == Zeros(size)
    {
      ghost var hot := OneHot(index, c.groups);
      var queryindex := index / 8;
      PowerMonotone(7 - index % 8, 7);
      assert Pow2(7) == 128;
      var queryvalue := Pow2(8 - 1 - index % 8);
      ghost var was := querybuf[..];
      querybuf[queryindex] := XorByte(querybuf[queryindex], queryvalue);
      forall k | 0 <= k < c.groups ensures querybuf[k] == XorBytes(was, hot)[k] {
        XorByteZero(was[k]);
      }
      forall k | 0 <= k < resultbuf.Length {
        resultbuf[k] := 0;
      }
      assert querybuf[..] == XorBytes(was, hot);
    }

    /** The part of the query that goes to server id: its own chunk. */
    method SendQuery(id: nat) returns (message: seq<byte>)
      requires Valid() && id < c.servers
      ensures message == Chunk(c, querybuf[..], id)
    {
      hide Config.Size;
      var startid := 0;
      for i := 0 to id
        invariant startid == c.Start(i)
      {
        startid := startid + chunksGroupsMap[i];
      }
      c.StartTotal();
      c.StartMonotone(id + 1, c.servers);
      var numBytes := chunksGroupsMap[id];
      message := querybuf[startid..startid + numBytes];
    }

    /** Receives a server's answer and exclusive-ors it into the result. */
    method ReceiveResults(message: seq<byte>)
      requires Valid() && |message| == size
      modifies resultbuf
      ensures resultbuf[..] == XorBytes(old(resultbuf[..]), message)
    {
      hide XorBytes;
      ghost var was := resultbuf[..];
      var dest := new byte[size](i requires 0 <= i < size => message[i]);
      assert dest[0..size] == message;
      XorWhole(was, message);
      XorBytesInto(resultbuf, 0, dest, 0, size);
    }
  }

  lemma XorWhole(m: seq<byte>, t: seq<byte>)
    requires |m| == |t|
    ensures XorInto(m, 0, t) == XorBytes(m, t)
  {
  }
}
