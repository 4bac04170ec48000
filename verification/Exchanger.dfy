// The frame exchanger (spook/frame.c): a ring of slots through which the
// master thread hands empty frames to a capture thread (the slave) and gets
// them back filled. deliver_frame takes no lock, so its four writes are
// separate steps here; a pipe carries one byte for every frame handed back.
module Exchanger {
  import opened Bytes

  datatype Slot<F> = Slot(f: Option<F>, pending: bool)

  /** Where the slave is inside deliver_frame. Stalled: its pipe write failed
      and it left with -1, the slot published but the cursor not advanced. */
  datatype SlavePc<F> =
    | Idle
    | Stored(frame: F)      // slave_cur->f = f done
    | Published(frame: F)   // slave_cur->pending = 0 done
    | Signalled             // the byte is in the pipe, the cursor not yet moved
    | Stalled(frame: F)

  /** The slave has stored a frame that is not signalled yet. */
  ghost predicate InHand<F>(slave: SlavePc<F>) {
    slave.Stored? || slave.Published? || slave.Stalled?
  }

  /** The slave hands back the frames that were offered, in order. */
  ghost predicate InOrder<F>(delivered: seq<F>, offered: seq<F>, slave: SlavePc<F>) {
    && |delivered| <= |offered| && delivered == offered[..|delivered|]
    && (InHand(slave) ==> |delivered| < |offered| && slave.frame == offered[|delivered|])
  }

  /** Offering one more frame does not change that. */
  lemma StillInOrder<F>(delivered: seq<F>, offered: seq<F>, slave: SlavePc<F>, frame: F)
    ensures InOrder(delivered, offered, slave) ==> InOrder(delivered, offered + [frame], slave)
  {
  }

  class Exchanger<F(==)> {
    const slots: array<Slot<F>>
    var slaveCur: nat
    var masterRead: nat
    var masterWrite: nat
    var pipe: nat
    var slave: SlavePc<F>
    var hasByte: bool          // exchanger_read took a byte and not yet the frame

    ghost var offered: seq<F>    // frames exchange_frame accepted
    ghost var delivered: seq<F>  // frames signalled by deliver_frame
    ghost var consumed: seq<F>   // frames passed to the callback
    ghost var faithful: bool     // the slave hands back what it was given

    /** The ring index i places behind the master's read cursor. */
    function At(i: int): int
      reads `masterRead
    {
      var k := masterRead + i;
      if k < 0 then k + slots.Length else if k >= slots.Length then k - slots.Length else k
    }

    /** How many of the slave's rounds lie between its cursor and masterRead. */
    ghost function SlaveLead(): int
      reads `slave, `delivered, `consumed
    {
      |delivered| - |consumed| - if slave.Signalled? then 1 else 0
    }

    /** What the slot i places behind masterRead holds. */
    ghost function Expected(i: nat): Slot<F>
      reads `slave, `offered, `delivered, `consumed
    {
      var r := |consumed|;
      if r + i < |delivered| then Slot(Some(delivered[r + i]), false)
      else if r + i == |delivered| && slave.Stored? then Slot(Some(slave.frame), true)
      else if r + i == |delivered| && (slave.Published? || slave.Stalled?) then Slot(Some(slave.frame), false)
      else if r + i < |offered| then Slot(Some(offered[r + i]), true)
      else Slot(None, false)
    }

    ghost predicate Valid()
      reads this, slots
    {
      Cursors() && Ring() && Faithful() && consumed == delivered[..|consumed|]
    }

    /** R <= D <= W <= R + N, one pipe byte per frame delivered and not yet
        read, and cursors where these counts put them. */
    ghost predicate Cursors()
      reads this
    {
      && 0 < slots.Length
      && |consumed| <= |delivered| <= |offered| <= |consumed| + slots.Length
      && (Delivering() ==> |delivered| < |offered|)
      && (slave.Signalled? ==> delivered != [])
      && |delivered| == |consumed| + pipe + (if hasByte then 1 else 0)
      && masterRead < slots.Length && masterWrite < slots.Length && slaveCur < slots.Length
      && masterWrite == At(|offered| - |consumed|)
      && slaveCur == At(SlaveLead())
    }

    ghost predicate Ring()
      requires Cursors()
      reads this, slots
    {
      forall i :: 0 <= i < slots.Length ==> slots[At(i)] == Expected(i)
    }

    ghost predicate Delivering()
      reads `slave
    {
      InHand(slave)
    }

    ghost predicate Faithful()
      reads `faithful, `delivered, `offered, `slave
    {
      faithful ==> InOrder(delivered, offered, slave)
    }

    /** new_exchanger */
    constructor (count: nat)
      requires count > 0
      ensures Valid() && fresh(slots) && slots.Length == count
      ensures offered == delivered == consumed == [] && slave == Idle && faithful && !hasByte && pipe == 0
    {
      slots := new Slot<F>[count](_ => Slot(None, false));
      slaveCur, masterRead, masterWrite, pipe := 0, 0, 0, 0;
      slave, hasByte := Idle, false;
      offered, delivered, consumed, faithful := [], [], [], true;
    }

    /** exchange_frame refuses exactly when all slots are occupied. */
    method ExchangeFrame(frame: F) returns (ok: bool)
      requires Valid()
      modifies this`masterWrite, this`offered, slots
      ensures Valid()
      ensures ok <==> |old(offered)| - |consumed| < slots.Length
      ensures offered == if ok then old(offered) + [frame] else old(offered)
    {
      ghost var k := |offered| - |consumed|;
      assert slots[masterWrite] == Expected(if k == slots.Length then 0 else k);
      if slots[masterWrite].f.Some? { return false; }
      Fill(frame);
      return true;
    }

    method Fill(frame: F)
      requires Valid() && |offered| - |consumed| < slots.Length
      modifies this`masterWrite, this`offered, slots
      ensures Valid() && offered == old(offered) + [frame]
    {
      hide InOrder, Expected;
      StillInOrder(delivered, offered, slave, frame);
      slots[masterWrite] := Slot(Some(frame), true);
      masterWrite := if masterWrite + 1 == slots.Length then 0 else masterWrite + 1;
      offered := offered + [frame];
      FilledRing(frame);
    }

    /** One slot more holds a frame that waits for the slave. */
    twostate lemma FilledRing(frame: F)
      requires old(Cursors() && Ring()) && Cursors() && |old(offered)| - |consumed| < slots.Length
      requires offered == old(offered) + [frame] && unchanged(`delivered, `consumed, `slave, `masterRead)
      requires slots[..] == old(slots[..])[old(masterWrite) := Slot(Some(frame), true)]
      ensures Ring()
    {
      forall i | 0 <= i < slots.Length ensures slots[At(i)] == Expected(i) {
        assert slots[..][At(i)] == slots[At(i)];
        assert old(slots[..])[At(i)] == old(slots[At(i)]) == old(Expected(i));
      }
    }

    /** get_next_frame without waiting, called by the slave between deliveries:
        the oldest frame it has not handed back, if there is one. */
    method GetNextFrame() returns (f: Option<F>)
      requires Valid() && (slave.Idle? || slave.Stalled?)
      ensures f == if slave.Idle? && |delivered| < |offered| then Some(offered[|delivered|]) else None
    {
      var i: nat := SlaveLead();
      if i < slots.Length {
        assert slots[At(i)] == Expected(i);
      } else {
        assert slots[At(0)] == Expected(0);
      }
      f := if slots[slaveCur].pending then slots[slaveCur].f else None;
    }

    // ---- deliver_frame, one unlocked write at a time ------------------------

    method Store(frame: F)
      requires Valid() && slave.Idle? && |delivered| < |offered|
      modifies this`slave, this`faithful, slots
      ensures Valid() && slave == Stored(frame)
      ensures faithful == (old(faithful) && frame == offered[|delivered|])
    {
      ghost var k := |delivered| - |consumed|;
      assert slots[slaveCur] == Expected(k);
      ghost var before := slots[..];
      slots[slaveCur] := slots[slaveCur].(f := Some(frame));
      slave := Stored(frame);
      faithful := faithful && frame == offered[|delivered|];
      forall i | 0 <= i < slots.Length ensures slots[At(i)] == Expected(i) {
        assert before[At(i)] == old(slots[At(i)]) == old(Expected(i));
      }
    }

    method ClearPending()
      requires Valid() && slave.Stored?
      modifies this`slave, slots
      ensures Valid() && slave == Published(old(slave).frame)
    {
      ghost var k := |delivered| - |consumed|;
      assert slots[slaveCur] == Expected(k);
      ghost var before := slots[..];
      slots[slaveCur] := slots[slaveCur].(pending := false);
      slave := Published(slave.frame);
      forall i | 0 <= i < slots.Length ensures slots[At(i)] == Expected(i) {
        assert before[At(i)] == old(slots[At(i)]) == old(Expected(i));
      }
    }

    /** The pipe write; when it fails deliver_frame returns -1 at once. */
    method Signal(written: bool)
      requires Valid() && slave.Published?
      modifies this`slave, this`pipe, this`delivered
      ensures Valid()
      ensures if written then slave == Signalled && delivered == old(delivered) + [old(slave).frame]
              else slave == Stalled(old(slave).frame) && delivered == old(delivered)
    {
      if written {
        Signalling();
      } else {
        slave := Stalled(slave.frame);
        assert forall i :: 0 <= i < slots.Length ==> Expected(i) == old(Expected(i));
      }
    }

    method Signalling()
      requires Valid() && slave.Published?
      modifies this`slave, this`pipe, this`delivered
      ensures Valid() && slave == Signalled && delivered == old(delivered) + [old(slave).frame]
    {
      delivered := delivered + [slave.frame];
      pipe := pipe + 1;
      slave := Signalled;
      assert forall i :: 0 <= i < slots.Length ==> Expected(i) == old(Expected(i));
    }

    method Advance()
      requires Valid() && slave.Signalled?
      modifies this`slave, this`slaveCur
      ensures Valid() && slave == Idle
    {
      slaveCur := if slaveCur + 1 == slots.Length then 0 else slaveCur + 1;
      slave := Idle;
      forall i | 0 <= i < slots.Length ensures slots[At(i)] == Expected(i) {
        assert slots[At(i)] == old(Expected(i));
      }
    }

    // ---- exchanger_read -------------------------------------------------------

    method ReadPipe() returns (got: bool)
      requires Valid() && !hasByte
      modifies this`pipe, this`hasByte
      ensures Valid() && got == hasByte
      ensures got <==> |delivered| > |consumed|
    {
      if pipe == 0 { return false; }
      pipe, hasByte := pipe - 1, true;
      return true;
    }

    /** The locked part of exchanger_read: the frame for the callback is never
        null, and is the oldest delivered one not yet read. */
    method TakeFrame() returns (f: Option<F>)
      requires Valid() && hasByte
      modifies this`masterRead, this`hasByte, this`consumed, slots
      ensures Valid() && !hasByte
      ensures |old(consumed)| < |delivered| && f == Some(delivered[|old(consumed)|])
      ensures consumed == old(consumed) + [delivered[|old(consumed)|]]
    {
      hide InOrder;
      assert slots[At(0)] == Expected(0);
      f := slots[masterRead].f;
      ghost var before := slots[..];
      slots[masterRead] := slots[masterRead].(f := None);
      consumed := consumed + [delivered[|consumed|]];
      masterRead := if masterRead + 1 == slots.Length then 0 else masterRead + 1;
      hasByte := false;
      forall i | 0 <= i < slots.Length ensures slots[At(i)] == Expected(i) {
        if i + 1 < slots.Length {
          assert At(i) == old(At(i + 1));
          assert before[At(i)] == old(slots[At(i + 1)]) == old(Expected(i + 1));
        } else {
          assert At(i) == old(At(0)) && before[At(i)] == old(Expected(0));
        }
      }
    }

    /** exchanger_read when the pipe fails or is closed: it does not return but
        goes on to the slot at masterRead. This is what the callback would
        get: the right frame if and only if one has been delivered; else a
        frame that is still the slave's, or none at all. */
    method FrameWithoutByte() returns (f: Option<F>)
      requires Valid() && !hasByte
      ensures |consumed| < |delivered| ==> f == Some(delivered[|consumed|])
      ensures |consumed| == |delivered| ==>
                f == if InHand(slave) then Some(slave.frame)
                     else if |consumed| < |offered| then Some(offered[|consumed|]) else None
    {
      assert slots[At(0)] == Expected(0);
      f := slots[masterRead].f;
    }

    // ---- Any interleaving ------------------------------------------------------

    /** Any schedule of the two threads. The frames to offer and to deliver
        are arbitrary; when the slave hands back what it was given, the
        callback sees the offered frames, each once and in order. */
    method Interleave(steps: nat, frames: seq<F>)
      requires Valid()
      modifies this, slots
      ensures Valid()
      ensures |consumed| <= |delivered| <= |offered| <= |consumed| + slots.Length
      ensures pipe + (if hasByte then 1 else 0) == |delivered| - |consumed|
      ensures old(offered) <= offered && old(delivered) <= delivered && old(consumed) <= consumed
      ensures consumed <= delivered
      ensures faithful ==> delivered <= offered
    {
      hide *;
      var n := steps;
      while n > 0
        invariant Valid()
        invariant old(offered) <= offered && old(delivered) <= delivered && old(consumed) <= consumed
      {
        n := n - 1;
        var choice: int := *;
        var pick: int := *;
        var chosen := 0 <= pick < |frames|;
        match choice {
          case 0 =>
            if chosen { var ok := ExchangeFrame(frames[pick]); }
          case 1 =>
            if slave.Idle? || slave.Stalled? {
              var f := GetNextFrame();
              if f.Some? { Store(if chosen then frames[pick] else f.value); }
            }
          case 2 => if slave.Stored? { ClearPending(); }
          case 3 => if slave.Published? { Signal(pick != 0); }
          case 4 => if slave.Signalled? { Advance(); }
          case 5 => if !hasByte { var got := ReadPipe(); }
          case _ => if hasByte { var f := TakeFrame(); }
        }
      }
      Safety();
    }

    lemma Safety()
      requires Valid()
      ensures |consumed| <= |delivered| <= |offered| <= |consumed| + slots.Length
      ensures pipe + (if hasByte then 1 else 0) == |delivered| - |consumed|
      ensures consumed <= delivered && (faithful ==> delivered <= offered)
    {
    }

    /** When neither thread has anything left to do and the slave's pipe never
        failed, every frame offered has come back. */
    lemma Quiescent()
      requires Valid() && slave.Idle? && pipe == 0 && !hasByte && faithful
      requires forall i :: 0 <= i < slots.Length ==> !slots[i].pending
      ensures consumed == offered
    {
      assert slots[At(0)] == Expected(0);
    }
  }
}
