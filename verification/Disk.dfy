/** The disk as 512-byte sectors, little-endian words in them, and device/ide.c's transfers. */
module Disk {

  type Byte = b: int | 0 <= b < 256

  type Sector = s: seq<Byte> | |s| == 512 witness seq(512, _ => 0)

  const MAX32 := 0x1_0000_0000

  // ---------------------------------------------------------------- 32-bit words

  function Join(b0: nat, b1: nat, b2: nat, b3: nat): nat {
    b0 + 256 * (b1 + 256 * (b2 + 256 * b3))
  }

  function Word(bytes: seq<Byte>, k: nat): (x: nat)
    requires 4 * k + 4 <= |bytes|
    ensures x < MAX32
  {
    Join(bytes[4 * k], bytes[4 * k + 1], bytes[4 * k + 2], bytes[4 * k + 3])
  }

  function ByteOf(x: nat, k: nat): Byte {
    if k == 0 then x % 256 else if k == 1 then x / 256 % 256 else if k == 2 then x / 256 / 256 % 256
    else x / 256 / 256 / 256 % 256
  }

  function Words(bytes: seq<Byte>): (xs: seq<nat>)
    requires |bytes| % 4 == 0
    ensures |xs| == |bytes| / 4 && forall k :: 0 <= k < |xs| ==> xs[k] == Word(bytes, k)
  {
    seq(|bytes| / 4, k requires 0 <= k < |bytes| / 4 => Word(bytes, k))
  }

  function Encode(xs: seq<nat>): (bytes: seq<Byte>)
    ensures |bytes| == 4 * |xs|
  {
    seq(4 * |xs|, j requires 0 <= j < 4 * |xs| => ByteOf(xs[j / 4], j % 4))
  }

  lemma WordOfBytes(x: nat)
    requires x < MAX32
    ensures Join(ByteOf(x, 0), ByteOf(x, 1), ByteOf(x, 2), ByteOf(x, 3)) == x
  {
    var x1 := x / 256;
    var x2 := x1 / 256;
    var x3 := x2 / 256;
    assert x3 < 256;
  }

  lemma EncodedWord(xs: seq<nat>, k: nat)
    requires k < |xs| && xs[k] < MAX32
    ensures Word(Encode(xs), k) == xs[k]
  {
    var b := Encode(xs);
    EncodedByte(xs, k, 0);
    EncodedByte(xs, k, 1);
    EncodedByte(xs, k, 2);
    EncodedByte(xs, k, 3);
    WordOfBytes(xs[k]);
  }

  lemma EncodedByte(xs: seq<nat>, k: nat, j: nat)
    requires k < |xs| && j < 4
    ensures Encode(xs)[4 * k + j] == ByteOf(xs[k], j)
  {
    assert (4 * k + j) / 4 == k && (4 * k + j) % 4 == j;
  }

  /** What memory holds as words is what comes back from its bytes. */
  lemma DecodeEncode(xs: seq<nat>)
    requires forall k :: 0 <= k < |xs| ==> xs[k] < MAX32
    ensures Words(Encode(xs)) == xs
  {
    forall k | 0 <= k < |xs| ensures Words(Encode(xs))[k] == xs[k] {
      EncodedWord(xs, k);
    }
  }

  // ---------------------------------------------------------------- the controller

  /** The task-file registers of a command, each one byte. */
  datatype Command = Command(count: Byte, low: Byte, mid: Byte, high: Byte, device: Byte)

  /** select_sector: the count is cut to a byte; the device byte is
      (lba >> 24) | 0xe0 | (0x10 for the slave), cut to a byte. */
  function SelectSector(lba: nat, cnt: nat, slave: bool): Command {
    var top := lba / 256 / 256 / 256 % 256;
    var drive := if slave || top / 16 % 2 == 1 then 1 else 0;
    Command(cnt % 256, lba % 256, lba / 256 % 256, lba / 256 / 256 % 256, 0xe0 + 16 * drive + top % 16)
  }

  /** What a drive makes of the registers. */
  datatype Request = Request(slave: bool, lba: nat, count: nat)

  /** A 28-bit address, the drive bit, and 256 sectors for a count of 0. */
  function Understood(c: Command): Request {
    Request(c.device / 16 % 2 == 1,
            Join(c.low, c.mid, c.high, c.device % 16),
            if c.count == 0 then 256 else c.count)
  }

  /** The drive gets the command it was meant to get, for every count a transfer uses, exactly when
      the address fits 28 bits. */
  lemma AddressFits(lba: nat, cnt: nat, slave: bool)
    requires 1 <= cnt <= 256
    ensures Understood(SelectSector(lba, cnt, slave)) == Request(slave, lba, cnt) <==> lba < 0x1000_0000
  {
    var top := lba / 256 / 256 / 256;
    assert lba == Join(lba % 256, lba / 256 % 256, lba / 256 / 256 % 256, top);
    assert (top % 256) % 16 == top <==> top < 16;
  }

  function ChunkSize(left: nat): nat {
    if left >= 256 then 256 else left
  }

  /** The requests of one ide_read or ide_write. */
  function Requests(lba: nat, cnt: nat, slave: bool): seq<Request>
    decreases cnt
  {
    if cnt == 0 then []
    else [Request(slave, lba, ChunkSize(cnt))] + Requests(lba + ChunkSize(cnt), cnt - ChunkSize(cnt), slave)
  }

  /** The requests sent when `done` of the cnt sectors have been transferred. */
  ghost predicate Sent(sent: seq<Request>, lba: nat, done: nat, cnt: nat, slave: bool) {
    done <= cnt && sent + Requests(lba + done, cnt - done, slave) == Requests(lba, cnt, slave)
  }

  lemma SentMore(sent: seq<Request>, lba: nat, done: nat, cnt: nat, slave: bool)
    requires Sent(sent, lba, done, cnt, slave) && done < cnt
    ensures var n := ChunkSize(cnt - done);
            Sent(sent + [Request(slave, lba + done, n)], lba, done + n, cnt, slave)
  {
  }

  predicate Covers(r: Request, slave: bool, sector: int) {
    r.slave == slave && r.lba <= sector < r.lba + r.count
  }

  function Covering(rs: seq<Request>, slave: bool, sector: int): nat {
    if rs == [] then 0 else (if Covers(rs[0], slave, sector) then 1 else 0) + Covering(rs[1..], slave, sector)
  }

  /** The chunks ask for every sector of the transfer exactly once and for no other sector. */
  lemma {:induction false} RequestsTile(lba: nat, cnt: nat, slave: bool, sector: int)
    ensures Covering(Requests(lba, cnt, slave), slave, sector) == if lba <= sector < lba + cnt then 1 else 0
    ensures Covering(Requests(lba, cnt, slave), !slave, sector) == 0
    decreases cnt
  {
    if cnt > 0 {
      var n := ChunkSize(cnt);
      RequestsTile(lba + n, cnt - n, slave, sector);
      assert Requests(lba, cnt, slave)[1..] == Requests(lba + n, cnt - n, slave);
    }
  }

  /** One command for each 256 sectors begun. */
  lemma {:induction false} RequestsCount(lba: nat, cnt: nat, slave: bool)
    ensures |Requests(lba, cnt, slave)| == (cnt + 255) / 256
    decreases cnt
  {
    if cnt > 0 { RequestsCount(lba + ChunkSize(cnt), cnt - ChunkSize(cnt), slave); }
  }

  /** One channel's drives, sector by sector: what they hold and the requests they have carried out. */
  class Controller<T> {
    var master: seq<T>
    var slave: seq<T>
    var log: seq<Request>

    function Drive(onSlave: bool): seq<T>
      reads this
    {
      if onSlave then slave else master
    }

    ghost predicate InReach(onSlave: bool, lba: nat, cnt: nat)
      reads this
    {
      lba + cnt <= 0x1000_0000 && lba + cnt <= |Drive(onSlave)|
    }

    /** The drive executes a read command. */
    method Fetch(c: Command) returns (data: seq<T>)
      requires var r := Understood(c); r.lba + r.count <= |Drive(r.slave)|
      modifies this`log
      ensures var r := Understood(c);
              log == old(log) + [r] && data == Drive(r.slave)[r.lba..r.lba + r.count]
    {
      var r := Understood(c);
      log := log + [r];
      data := Drive(r.slave)[r.lba..r.lba + r.count];
    }

    /** The drive executes a write command with the data it is sent. */
    method Store(c: Command, data: seq<T>)
      requires var r := Understood(c); r.lba + r.count <= |Drive(r.slave)| && |data| == r.count
      modifies this
      ensures var r := Understood(c);
              && log == old(log) + [r]
              && Drive(r.slave) == Replace(old(Drive(r.slave)), r.lba, data) && Drive(!r.slave) == old(Drive(!r.slave))
    {
      var r := Understood(c);
      log := log + [r];
      if r.slave {
        slave := Replace(slave, r.lba, data);
      } else {
        master := Replace(master, r.lba, data);
      }
    }

    /** One round of ide_read: select, command, wait, fetch. */
    method ReadChunk(onSlave: bool, lba: nat, perOp: nat) returns (data: seq<T>)
      requires 1 <= perOp <= 256 && InReach(onSlave, lba, perOp)
      modifies this`log
      ensures data == Drive(onSlave)[lba..lba + perOp]
      ensures log == old(log) + [Request(onSlave, lba, perOp)]
    {
      AddressFits(lba, perOp, onSlave);
      data := Fetch(SelectSector(lba, perOp, onSlave));
    }

    /** ide_read, chunk by chunk. */
    method IdeRead(onSlave: bool, lba: nat, secCnt: nat) returns (buf: seq<T>)
      requires InReach(onSlave, lba, secCnt)
      modifies this`log
      ensures buf == Drive(onSlave)[lba..lba + secCnt]
      ensures log == old(log) + Requests(lba, secCnt, onSlave)
    {
      buf := [];
      var done := 0;
      ghost var sent: seq<Request> := [];
      while done < secCnt
        invariant done <= secCnt
        invariant buf == Drive(onSlave)[lba..lba + done]
        invariant log == old(log) + sent && Sent(sent, lba, done, secCnt, onSlave)
      {
        var perOp := if secCnt - done >= 256 then 256 else secCnt - done;
        SentMore(sent, lba, done, secCnt, onSlave);
        sent := sent + [Request(onSlave, lba + done, perOp)];
        SliceMore(Drive(onSlave), lba, done, done + perOp);
        var data := ReadChunk(onSlave, lba + done, perOp);
        buf := buf + data;
        done := done + perOp;
      }
    }

    /** One round of ide_write: select, command, store, wait. */
    method WriteChunk(onSlave: bool, lba: nat, data: seq<T>)
      requires 1 <= |data| <= 256 && InReach(onSlave, lba, |data|)
      modifies this
      ensures Drive(onSlave) == Replace(old(Drive(onSlave)), lba, data) && Drive(!onSlave) == old(Drive(!onSlave))
      ensures log == old(log) + [Request(onSlave, lba, |data|)]
    {
      AddressFits(lba, |data|, onSlave);
      Store(SelectSector(lba, |data|, onSlave), data);
    }

    /** ide_write, chunk by chunk. */
    method IdeWrite(onSlave: bool, lba: nat, buf: seq<T>)
      requires InReach(onSlave, lba, |buf|)
      modifies this
      ensures Drive(onSlave) == Replace(old(Drive(onSlave)), lba, buf) && Drive(!onSlave) == old(Drive(!onSlave))
      ensures log == old(log) + Requests(lba, |buf|, onSlave)
    {
      var done := 0;
      ghost var was, sent: seq<Request> := Drive(onSlave), [];
      while done < |buf|
        invariant done <= |buf| && lba + |buf| <= 0x1000_0000 && lba + |buf| <= |was|
        invariant Drive(onSlave) == Replace(was, lba, buf[..done]) && Drive(!onSlave) == old(Drive(!onSlave))
        invariant log == old(log) + sent && Sent(sent, lba, done, |buf|, onSlave)
      {
        var perOp := if |buf| - done >= 256 then 256 else |buf| - done;
        SentMore(sent, lba, done, |buf|, onSlave);
        ReplaceMore(was, lba, buf, done, done + perOp);
        WriteChunk(onSlave, lba + done, buf[done..done + perOp]);
        sent := sent + [Request(onSlave, lba + done, perOp)];
        done := done + perOp;
      }
      assert buf[..|buf|] == buf;
    }
  }

  lemma SliceMore<T>(disk: seq<T>, lba: nat, i: nat, j: nat)
    requires i <= j && lba + j <= |disk|
    ensures disk[lba..lba + i] + disk[lba + i..lba + j] == disk[lba..lba + j]
  {
  }

  lemma ReplaceMore<T>(disk: seq<T>, lba: nat, buf: seq<T>, i: nat, j: nat)
    requires i <= j <= |buf| && lba + |buf| <= |disk|
    ensures Replace(Replace(disk, lba, buf[..i]), lba + i, buf[i..j]) == Replace(disk, lba, buf[..j])
  {
  }

  /** The sectors with those from lba on replaced by data. */
  function Replace<T>(disk: seq<T>, lba: nat, data: seq<T>): (r: seq<T>)
    requires lba + |data| <= |disk|
    ensures |r| == |disk|
    ensures forall i :: 0 <= i < |disk| ==> r[i] == if lba <= i < lba + |data| then data[i - lba] else disk[i]
  {
    disk[..lba] + data + disk[lba + |data|..]
  }
}
