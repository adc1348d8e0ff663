/** The 33-number acknowledgement: the latest number and a 32-bit field for the ones before it
    (ClientNetworkCore/Session.cpp, `GenerateAckBitfield` and the coverage test of `HandleAck`). */
module AckField {
  import opened SerialNumber
  import opened ReceiveWindow
  import opened Bits32

  /** The `i`-th number before `latest`, with wrap below zero. */
  function Before(latest: u16, i: nat): u16 {
    Wrap(latest - i)
  }

  /** The field after the first `n` rounds of the encoder's loop. */
  function EncodeFirst(history: set<int>, latest: u16, n: nat): bv32
    requires n <= 32
  {
    if n == 0 then 0
    else if Slot(Before(latest, n)) in history then SetBit(EncodeFirst(history, latest, n - 1), n - 1)
    else EncodeFirst(history, latest, n - 1)
  }

  function Encode(history: set<int>, latest: u16): bv32 {
    EncodeFirst(history, latest, 32)
  }

  /** The numbers an acknowledgement covers: the ones the decoder's loop looks up. */
  ghost predicate Covers(latest: u16, field: bv32, k: u16) {
    k == latest || exists i :: 1 <= i <= 32 && TestBit(field, i - 1) && k == Before(latest, i)
  }

  lemma {:induction false} EncodeFirstBits(history: set<int>, latest: u16, n: nat, i: nat)
    requires n <= 32 && 1 <= i <= 32
    ensures TestBit(EncodeFirst(history, latest, n), i - 1) <==> i <= n && Slot(Before(latest, i)) in history
  {
    hide SerialNumber.Wrap, Slot, TestBit, SetBit;
    if n == 0 {
      NoBits(i - 1);
    } else {
      EncodeFirstBits(history, latest, n - 1, i);
      SetBitOnly(EncodeFirst(history, latest, n - 1), n - 1, i - 1);
    }
  }

  /** Encoding then decoding is exact: the acknowledgement covers the latest number and precisely those
      of the 32 before it (modulo 65536) whose history bit is set. */
  lemma EncodeDecodeExact(history: set<int>, latest: u16, k: u16)
    ensures Covers(latest, Encode(history, latest), k) <==>
            k == latest || exists i :: 1 <= i <= 32 && k == Before(latest, i) && Slot(k) in history
  {
    hide SerialNumber.Wrap, Slot, TestBit;
    var field := Encode(history, latest);
    forall i | 1 <= i <= 32
      ensures TestBit(field, i - 1) <==> Slot(Before(latest, i)) in history
    {
      EncodeFirstBits(history, latest, 32, i);
    }
  }

  /** In numbers: bit i - 1 stands for the number i before the latest, modulo 65536. */
  lemma FieldInNumbers(history: set<int>, latest: u16, i: nat)
    requires 1 <= i <= 32
    ensures TestBit(Encode(history, latest), i - 1) <==> (latest - i) % 65536 % 1024 in history
  {
    EncodeFirstBits(history, latest, 32, i);
  }

  /** And what is encoded, decoded: the latest number and those of the 32 before it, modulo 65536, that the
      receiver has recorded by their residue modulo 1024. */
  lemma CoversInNumbers(history: set<int>, latest: u16, k: u16)
    ensures Covers(latest, Encode(history, latest), k) <==>
            k == latest || exists i: nat :: 1 <= i <= 32 && k == Back(latest, i) && k % 1024 in history
  {
    hide Covers, Encode;
    EncodeDecodeExact(history, latest, k);
    forall i: nat ensures Back(latest, i) == Before(latest, i) {}
    if k != latest && Covers(latest, Encode(history, latest), k) {
      var i :| 1 <= i <= 32 && k == Before(latest, i) && Slot(k) in history;
      assert Back(latest, i) == k;
    }
  }

  /** `latest - i` on 16 bits, written out. */
  function Back(latest: u16, i: nat): int {
    (latest - i) % 65536
  }

  /** The guard `!IsSeqGreater(latestSeq, seq)` in the encoder's loop never fires. */
  lemma EarlierIsSmaller(latest: u16, i: nat)
    requires 1 <= i <= 32
    ensures IsSeqGreater(latest, Before(latest, i))
  {
    GreaterIsTrueOrder(latest, latest - i);
  }
}
