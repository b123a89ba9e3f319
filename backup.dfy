/**
 * The backup rotation: each edit stores the text it started from in one of ten
 * slots of the user's cache directory, and a marker file names the slot
 * written last. A rollback takes the slot the marker names and steps the
 * marker back by one, so successive rollbacks walk back through the ring.
 *
 * The cache directory is the state of a `Backup` object: the marker file (missing,
 * empty, or holding a number) and the contents of the slot files by number.
 */
module Backups {
  import opened Builtins

  /** The marker file: missing, present but empty, or holding a number. */
  datatype Marker = Absent | Blank | Number(n: int)

  /** The cache directory: the marker file and the backup files by slot number. */
  datatype Disk = Disk(marker: Marker, files: map<int, string>)

  /** The slot a write uses: the one after the marked slot, or slot 0 without a number. */
  function WriteSlot(m: Marker): (slot: int)
    ensures 0 <= slot < 10
  {
    (if m.Number? then m.n + 1 else 0) % 10
  }

  /** The slot a rollback takes: the marked one, or slot 0 without a number. */
  function DiscardSlot(m: Marker): (slot: int)
    ensures 0 <= slot < 10
  {
    (if m.Number? then m.n else 0) % 10
  }

  /** The directory after `write_backup(text)`. */
  function Written(d: Disk, text: string): Disk
  {
    Disk(Number(WriteSlot(d.marker)), d.files[WriteSlot(d.marker) := text])
  }

  /** The slot `discard_backup` returns: none without a marker file. */
  function Rollback(d: Disk): Option<int>
  {
    if d.marker.Absent? then None else Some(DiscardSlot(d.marker))
  }

  /** The directory after `discard_backup`: the marker one below the slot returned. */
  function Discarded(d: Disk): Disk
  {
    if d.marker.Absent? then d else Disk(Number(DiscardSlot(d.marker) - 1), d.files)
  }

  class Backup {
    const user: string
    var marker: Marker
    var files: map<int, string>

    /** A backup for `user` over the directory as it is found. */
    constructor (user: string, disk: Disk)
      ensures this.user == user && marker == disk.marker && files == disk.files
    {
      this.user := user;
      marker := disk.marker;
      files := disk.files;
    }

    function State(): Disk
      reads this
    {
      Disk(marker, files)
    }

    /** `write_backup`: create the marker file if missing, advance it, store the text in its slot. */
    method WriteBackup(text: string)
      modifies this
      ensures State() == Written(old(State()), text)
    {
      if marker.Absent? {
        marker := Blank;
      }
      var fileNo := (if marker.Number? then marker.n + 1 else 0) % 10;
      marker := Number(fileNo);
      files := files[fileNo := text];
    }

    /** `discard_backup`: the slot of the latest backup, with the marker stepped back below it. */
    method DiscardBackup() returns (slot: Option<int>)
      modifies this
      ensures slot == Rollback(old(State()))
      ensures State() == Discarded(old(State()))
    {
      if marker.Absent? {
        return None;
      }
      var fileNo := (if marker.Number? then marker.n else 0) % 10;
      marker := Number(fileNo - 1);
      return Some(fileNo);
    }
  }

  /** A rollback right after a write returns the slot just written, which holds the text. */
  lemma WriteThenRollback(d: Disk, text: string)
    ensures Rollback(Written(d, text)) == Some(WriteSlot(d.marker))
    ensures Written(d, text).files[WriteSlot(d.marker)] == text
  {
  }

  /**
   * A write right after a rollback reuses the slot the rollback returned, and
   * a second rollback returns the slot before it in the ring (slot 0 is
   * followed by slot 9, through a marker of -1).
   */
  lemma RollbackThenWrite(d: Disk)
    requires d.marker != Absent
    ensures WriteSlot(Discarded(d).marker) == DiscardSlot(d.marker)
    ensures Rollback(Discarded(d)) == Some((DiscardSlot(d.marker) + 9) % 10)
  {
  }

  /**
   * Rolling back past the oldest backup is not refused: after a single write
   * into a fresh directory, a second rollback names slot 9, which holds no
   * backup.
   */
  lemma RollbackPastOldest(text: string)
    ensures var d := Written(Disk(Absent, map[]), text);
      && Rollback(d) == Some(0)
      && Rollback(Discarded(d)) == Some(9)
      && 9 !in Discarded(d).files
  {
  }

  /** The directory after writing each text in turn. */
  function WriteAll(d: Disk, ts: seq<string>): Disk
    decreases |ts|
  {
    if ts == [] then d else Written(WriteAll(d, ts[..|ts| - 1]), ts[|ts| - 1])
  }

  /** The directory after `i` rollbacks. */
  function Discards(d: Disk, i: nat): Disk
  {
    if i == 0 then d else Discarded(Discards(d, i - 1))
  }

  /** Slot `j` of the ring counted from slot `b`. */
  function RingSlot(b: int, j: int): int
  {
    (b + j) % 10
  }

  /** Fewer than ten steps from the same start land on different slots. */
  lemma RingSlotsDistinct(b: int, j: int, n: int)
    requires 0 <= b < 10 && 0 <= j < n < 10
    ensures RingSlot(b, j) != RingSlot(b, n)
  {
    if b + n < 10 {
    } else if b + j < 10 {
      assert RingSlot(b, n) == b + n - 10;
    } else {
      assert RingSlot(b, n) - RingSlot(b, j) == n - j;
    }
  }

  /** The slot after slot `n - 1` of the ring is slot `n`. */
  lemma RingSlotNext(b: int, n: int)
    requires 0 <= b < 10 && 0 < n < 10
    ensures WriteSlot(Number(RingSlot(b, n - 1))) == RingSlot(b, n)
  {
    if b + n - 1 >= 10 {
      assert RingSlot(b, n - 1) == b + n - 11;
    }
  }

  /** One more write fills the next slot of the ring and keeps the slots filled before it. */
  lemma WriteNextSlot(before: Disk, b: int, ts: seq<string>)
    requires 0 <= b < 10 && 1 < |ts| <= 10
    requires before.marker == Number(RingSlot(b, |ts| - 2))
    requires forall j :: 0 <= j < |ts| - 1 ==>
      RingSlot(b, j) in before.files && before.files[RingSlot(b, j)] == ts[j]
    ensures Written(before, ts[|ts| - 1]).marker == Number(RingSlot(b, |ts| - 1))
    ensures forall j :: 0 <= j < |ts| ==>
      RingSlot(b, j) in Written(before, ts[|ts| - 1]).files && Written(before, ts[|ts| - 1]).files[RingSlot(b, j)] == ts[j]
  {
    var n := |ts| - 1;
    RingSlotNext(b, n);
    forall j | 0 <= j < n ensures RingSlot(b, j) != RingSlot(b, n) {
      RingSlotsDistinct(b, j, n);
    }
  }

  /**
   * Up to ten writes fill consecutive slots of the ring, starting at the slot
   * after the marked one, and leave the marker on the last of them.
   */
  lemma {:induction false} WritesFillRing(d: Disk, ts: seq<string>)
    requires 0 < |ts| <= 10
    ensures WriteAll(d, ts).marker == Number(RingSlot(WriteSlot(d.marker), |ts| - 1))
    ensures forall j :: 0 <= j < |ts| ==>
      RingSlot(WriteSlot(d.marker), j) in WriteAll(d, ts).files && WriteAll(d, ts).files[RingSlot(WriteSlot(d.marker), j)] == ts[j]
    decreases |ts|
  {
    var n := |ts| - 1;
    var b := WriteSlot(d.marker);
    var before := WriteAll(d, ts[..n]);
    assert WriteAll(d, ts) == Written(before, ts[n]);
    if n == 0 {
      assert ts[..n] == [];
      assert RingSlot(b, 0) == b;
    } else {
      WritesFillRing(d, ts[..n]);
      assert forall j :: 0 <= j < n ==> ts[..n][j] == ts[j];
      WriteNextSlot(before, b, ts);
    }
  }

  /** Rollbacks leave the backup files alone and step back one slot each. */
  lemma {:induction false} RollbacksStepBack(d: Disk, x: int, i: nat)
    requires d.marker == Number(x)
    ensures Discards(d, i).files == d.files
    ensures Rollback(Discards(d, i)) == Some((x - i) % 10)
    decreases i
  {
    if i > 0 {
      RollbacksStepBack(d, x, i - 1);
      var prev := Discards(d, i - 1);
      assert prev.marker.Number? && prev.marker.n % 10 == (x - (i - 1)) % 10 by {
        if i - 1 > 0 {
          var before := Discards(d, i - 2);
          assert prev == Discarded(before);
        }
      }
    }
  }

  /**
   * After up to ten writes, successive rollbacks return the backups newest
   * first: the `i`-th rollback names the slot holding the `i`-th latest text.
   */
  lemma NewestFirst(d: Disk, ts: seq<string>, i: nat)
    requires i < |ts| <= 10
    ensures var w := WriteAll(d, ts);
      && Rollback(Discards(w, i)).Some?
      && Rollback(Discards(w, i)).value in w.files
      && w.files[Rollback(Discards(w, i)).value] == ts[|ts| - 1 - i]
  {
    var b := WriteSlot(d.marker);
    var w := WriteAll(d, ts);
    WritesFillRing(d, ts);
    RollbacksStepBack(w, RingSlot(b, |ts| - 1), i);
    RingSlotBack(b, |ts| - 1, i);
  }

  /** Stepping `i` slots back from slot `m` of the ring lands on slot `m - i`. */
  lemma RingSlotBack(b: int, m: int, i: int)
    requires 0 <= b < 10 && 0 <= i <= m < 10
    ensures (RingSlot(b, m) - i) % 10 == RingSlot(b, m - i)
  {
    if b + m >= 10 {
      assert RingSlot(b, m) == b + m - 10;
      if b + m - i >= 10 {
        assert RingSlot(b, m - i) == b + m - i - 10;
      } else {
        assert RingSlot(b, m - i) == b + m - i;
      }
    } else {
      assert RingSlot(b, m) == b + m;
    }
  }
}
