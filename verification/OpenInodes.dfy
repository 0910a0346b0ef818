/** fs/inode.c: the list of open inodes, which is a cache of the inode table. */
module OpenInodes {
  import opened Disk
  import opened Volume
  import opened Inodes

  /** `i` is where the list walk for inode `no` ends. */
  ghost predicate FoundAt(open: seq<Inode>, no: nat, i: nat) {
    i <= |open| && (i < |open| ==> open[i].no == no) && forall j :: 0 <= j < i ==> open[j].no != no
  }

  /** Unique numbers, and open counts that are the outstanding opens. */
  ghost predicate Counted(open: seq<Inode>, handles: multiset<nat>) {
    && (forall i, j :: 0 <= i < j < |open| ==> open[i].no != open[j].no)
    && (forall i :: 0 <= i < |open| ==> open[i].openCount == handles[open[i].no] > 0)
    && (forall h :: h in handles ==> exists i :: 0 <= i < |open| && open[i].no == h)
  }

  lemma CountedBump(open: seq<Inode>, handles: multiset<nat>, no: nat, i: nat, count: nat)
    requires Counted(open, handles) && i < |open| && open[i].no == no && count > 0
    ensures no in handles && Counted(open[i := open[i].(openCount := count)], handles[no := count])
  {
    var open', handles' := open[i := open[i].(openCount := count)], handles[no := count];
    forall h | h in handles' ensures exists k :: 0 <= k < |open'| && open'[k].no == h {
      assert h in handles;
      var k :| 0 <= k < |open| && open[k].no == h;
      assert open'[k].no == h;
    }
  }

  lemma NotOpen(open: seq<Inode>, handles: multiset<nat>, no: nat)
    requires Counted(open, handles) && FoundAt(open, no, |open|)
    ensures no !in handles
  {
  }

  lemma CountedPush(open: seq<Inode>, handles: multiset<nat>, inode: Inode)
    requires Counted(open, handles) && FoundAt(open, inode.no, |open|) && inode.openCount == 1
    ensures inode.no !in handles && Counted([inode] + open, handles[inode.no := 1])
  {
    var open', handles' := [inode] + open, handles[inode.no := 1];
    forall h | h in handles' ensures exists k :: 0 <= k < |open'| && open'[k].no == h {
      if h == inode.no {
        assert open'[0].no == h;
      } else {
        assert h in handles;
        var k :| 0 <= k < |open| && open[k].no == h;
        assert open'[k + 1].no == h;
      }
    }
  }

  /** An inode that is not the one asked for puts the list out of order. */
  lemma PushCounts(open: seq<Inode>, handles: multiset<nat>, no: nat, inode: Inode)
    requires Counted(open, handles) && FoundAt(open, no, |open|) && inode.openCount == 1
    ensures no !in handles && (Counted([inode] + open, handles[no := 1]) <==> inode.no == no)
  {
    NotOpen(open, handles, no);
    if inode.no == no {
      CountedPush(open, handles, inode);
    } else {
      var open', handles' := [inode] + open, handles[no := 1];
      forall k | 0 <= k < |open'| ensures open'[k].no != no {
        if k > 0 { assert open'[k] == open[k - 1]; }
      }
      assert no in handles';
    }
  }

  function Without(open: seq<Inode>, i: nat): (r: seq<Inode>)
    requires i < |open|
    ensures |r| == |open| - 1 && forall k :: 0 <= k < |r| ==> r[k] == open[if k < i then k else k + 1]
  {
    open[..i] + open[i + 1..]
  }

  lemma CountedDrop(open: seq<Inode>, handles: multiset<nat>, no: nat, i: nat)
    requires Counted(open, handles) && i < |open| && open[i].no == no
    ensures Counted(Without(open, i), handles[no := 0])
  {
    var open', handles' := Without(open, i), handles[no := 0];
    forall h | h in handles' ensures exists k :: 0 <= k < |open'| && open'[k].no == h {
      assert h in handles;
      var k :| 0 <= k < |open| && open[k].no == h;
      assert open'[if k < i then k else k - 1].no == h;
    }
    forall k | 0 <= k < |open'| ensures open'[k].openCount == handles'[open'[k].no] > 0 {
      var k0 := if k < i then k else k + 1;
      assert open[k0].no != no;
    }
  }

  function Stored(disk: seq<Sector>, lba: nat, no: nat): Inode
    requires no < MAX_FILES && lba + TABLE_SECTS <= |disk|
  {
    FromBytes(SlotBytes(disk, lba, no))
  }

  /** The opens that have not been closed yet are `handles`, by inode number. */
  class Cache {
    var open: seq<Inode>
    var disk: seq<Sector>
    const tableLba: nat
    ghost var handles: multiset<nat>

    ghost predicate Valid()
      reads this
    {
      tableLba + TABLE_SECTS <= |disk| && Counted(open, handles)
    }

    method Search(no: nat) returns (i: nat)
      ensures FoundAt(open, no, i)
    {
      i := 0;
      while i < |open| && open[i].no != no
        invariant i <= |open| && forall j :: 0 <= j < i ==> open[j].no != no
      {
        i := i + 1;
      }
    }

    /** The inode's bytes, from one or two sectors. */
    method ReadSlot(no: nat) returns (bytes: seq<Byte>)
      requires tableLba + TABLE_SECTS <= |disk| && no < MAX_FILES
      ensures bytes == SlotBytes(disk, tableLba, no)
    {
      LocateInTable(no);
      var pos := Locate(no);
      var lba := tableLba + pos.sec;
      var inodeBuf: seq<Byte> := disk[lba];
      if pos.twoSec {
        var second: seq<Byte> := disk[lba + 1];
        inodeBuf := inodeBuf + second;
      }
      bytes := inodeBuf[pos.off..pos.off + INODE_BYTES];
    }

    /** The inode as its slot in the table has it. */
    method ReadInode(no: nat) returns (inode: Inode)
      requires tableLba + TABLE_SECTS <= |disk| && no < MAX_FILES
      ensures inode == Stored(disk, tableLba, no)
    {
      var bytes := ReadSlot(no);
      inode := FromBytes(bytes);
    }

    /** inode_open of an inode in the list. */
    method Share(no: nat, i: nat) returns (inode: Inode)
      requires Valid() && i < |open| && open[i].no == no
      modifies this`open, this`handles
      ensures Valid() && handles == old(handles)[no := old(handles)[no] + 1] && no in old(handles)
      ensures inode == old(open)[i].(openCount := old(open)[i].openCount + 1) && open == old(open)[i := inode]
    {
      inode := open[i].(openCount := open[i].openCount + 1);
      CountedBump(open, handles, no, i, inode.openCount);
      open, handles := open[i := inode], handles[no := inode.openCount];
    }

    /** inode_open of an inode that was not in the list, once it is read. */
    method Load(no: nat, stored: Inode) returns (inode: Inode)
      requires Valid() && FoundAt(open, no, |open|)
      modifies this`open, this`handles
      ensures (Valid() <==> stored.no == no) && handles == old(handles)[no := old(handles)[no] + 1]
      ensures no !in old(handles)
      ensures inode == stored.(openCount := 1) && open == [inode] + old(open)
    {
      inode := stored.(openCount := 1);
      PushCounts(open, handles, no, inode);
      open, handles := [inode] + open, handles[no := 1];
    }

    /** inode_open. An inode that is open already is shared; another comes from the table. The list stays in
        order exactly when the slot has been written for this number before. */
    method InodeOpen(no: nat, ghost at: nat) returns (inode: Inode)
      requires Valid() && no < MAX_FILES && FoundAt(open, no, at)
      modifies this`open, this`handles
      ensures Valid() <==> at < |old(open)| || Stored(disk, tableLba, no).no == no
      ensures handles == old(handles)[no := old(handles)[no] + 1]
      ensures at < |old(open)| <==> no in old(handles)
      ensures at < |old(open)| ==>
                inode == old(open)[at].(openCount := old(open)[at].openCount + 1) && open == old(open)[at := inode]
      ensures at == |old(open)| ==> inode == Stored(disk, tableLba, no).(openCount := 1) && open == [inode] + old(open)
    {
      var i := Search(no);
      if i < |open| {
        inode := Share(no, i);
      } else {
        var stored := ReadInode(no);
        inode := Load(no, stored);
      }
    }

    /** inode_close with other opens left. */
    method Release(no: nat, i: nat)
      requires Valid() && i < |open| && open[i].no == no && open[i].openCount > 1
      modifies this`open, this`handles
      ensures Valid() && handles == old(handles)[no := old(handles)[no] - 1]
      ensures open == old(open)[i := old(open)[i].(openCount := old(handles)[no] - 1)]
    {
      var count := open[i].openCount - 1;
      CountedBump(open, handles, no, i, count);
      open, handles := open[i := open[i].(openCount := count)], handles[no := count];
    }

    /** The last inode_close: the inode leaves the list. */
    method Drop(no: nat, i: nat)
      requires Valid() && i < |open| && open[i].no == no && open[i].openCount == 1
      modifies this`open, this`handles
      ensures Valid() && handles == old(handles)[no := old(handles)[no] - 1]
      ensures open == Without(old(open), i)
    {
      CountedDrop(open, handles, no, i);
      open, handles := Without(open, i), handles[no := 0];
    }

    /** inode_close: the last close drops the inode from the list. */
    method InodeClose(no: nat, ghost at: nat)
      requires Valid() && no in handles && FoundAt(open, no, at)
      modifies this`open, this`handles
      ensures Valid() && handles == old(handles)[no := old(handles)[no] - 1] && at < |old(open)|
      ensures open == if old(handles)[no] == 1 then Without(old(open), at)
                      else old(open)[at := old(open)[at].(openCount := old(handles)[no] - 1)]
    {
      var i := Search(no);
      assert i < |open| && open[i].openCount == handles[no];
      if open[i].openCount - 1 == 0 {
        Drop(no, i);
      } else {
        Release(no, i);
      }
    }
  }

  /** What inode_sync stored is what an uncached inode_open finds: the same number, size and blocks, hence
      the same contents. */
  lemma SurvivesReopen(v: Vol, n: nat, data: seq<Byte>)
    requires Inv(v) && n in v.inodes && FileIs(v.disk, v.inodes[n], data)
    requires SlotBytes(v.disk, v.geo.tableLba, n) == Bytes(v.inodes[n])
    ensures var found := FromBytes(SlotBytes(v.disk, v.geo.tableLba, n));
            found == v.inodes[n].(openCount := 0, writeDeny := false) && FileIs(v.disk, found, data)
  {
    OwnedFits(v, n);
    BytesRoundTrip(v.inodes[n]);
    SameBlocks(v.disk, v.inodes[n], v.inodes[n].(openCount := 0, writeDeny := false), data);
  }

  lemma SameBlocks(disk: seq<Sector>, a: Inode, b: Inode, data: seq<Byte>)
    requires FileIs(disk, a, data) && b.size == a.size && b.sectors == a.sectors
    ensures FileIs(disk, b, data)
  {
    assert BlocksOf(disk, b) == BlocksOf(disk, a);
  }

  lemma OwnedFits(v: Vol, n: nat)
    requires Inv(v) && n in v.inodes && v.inodes[n].size < MAX32
    ensures Fits(v.inodes[n])
  {
    var inode := v.inodes[n];
    assert Owned(v.disk, v.owner, n, inode);
    forall i | 0 <= i < 13 ensures inode.sectors[i] < MAX32 {
      if inode.sectors[i] != 0 {
        var slot := if i < DIRECT then i else TABLE;
        assert HasSlot(inode, slot);
        assert LbaAt(v.disk, inode, slot) == inode.sectors[i];
      }
    }
  }
}
