/** The scancode ring: 128 slots, of which one always stays free. */
module Rings {

  const KEY_BUFFER_SIZE: nat := 128

  function Next(i: nat): nat {
    (i + 1) % 128
  }

  datatype Ring = Ring(slots: seq<nat>, head: nat, tail: nat) {

    predicate Ok() {
      |slots| == KEY_BUFFER_SIZE && head < KEY_BUFFER_SIZE && tail < KEY_BUFFER_SIZE
    }

    function Waiting(): nat
      requires Ok()
    {
      if tail <= head then head - tail else head + 128 - tail
    }

    /** The scancodes waiting to be handled, oldest first. */
    function Contents(): (s: seq<nat>)
      requires Ok()
      ensures |s| == Waiting()
    {
      if tail <= head then slots[tail..head] else slots[tail..] + slots[..head]
    }

    // The separate memory accesses of a push and of a take.

    function Store(b: nat): Ring
      requires Ok()
    {
      this.(slots := slots[head := b])
    }

    function Publish(next: nat): Ring {
      this.(head := next)
    }

    function Advance(): Ring {
      this.(tail := Next(tail))
    }

    /** A whole push: the scancode is dropped when the ring is full. */
    function Push(b: nat): Ring
      requires Ok()
    {
      if Next(head) == tail then this else Store(b).Publish(Next(head))
    }
  }

  function EmptyRing(): (r: Ring)
    ensures r.Ok() && r.Contents() == []
  {
    Ring(seq(KEY_BUFFER_SIZE, _ => 0), 0, 0)
  }

  lemma FullMeans127(r: Ring)
    requires r.Ok()
    ensures Next(r.head) == r.tail <==> r.Waiting() == 127
    ensures r.head == r.tail <==> r.Contents() == []
  {
  }

  /** Storing into the free slot touches nothing that is waiting. */
  lemma StoreUnseen(r: Ring, b: nat)
    requires r.Ok()
    ensures r.Store(b).Ok() && r.Store(b).Contents() == r.Contents()
  {
  }

  /** Publishing the next head makes the stored scancode the last one waiting. */
  lemma PublishAppends(r: Ring)
    requires r.Ok() && Next(r.head) != r.tail
    ensures r.Publish(Next(r.head)).Ok()
    ensures r.Publish(Next(r.head)).Contents() == r.Contents() + [r.slots[r.head]]
  {
    var p := r.Publish(Next(r.head));
    if r.tail <= r.head && r.head == 127 {
      assert r.slots[r.tail..] == r.slots[r.tail..r.head] + [r.slots[r.head]];
    }
  }

  /** Advancing the tail takes the oldest scancode away. */
  lemma AdvanceTakes(r: Ring)
    requires r.Ok() && r.head != r.tail
    ensures r.Advance().Ok()
    ensures r.Contents() == [r.slots[r.tail]] + r.Advance().Contents()
  {
    var a := r.Advance();
    assert a.tail == if r.tail == 127 then 0 else r.tail + 1;
    hide Next;
    if r.tail < r.head {
      HeadOf(r.slots, r.tail, r.head);
    } else if r.tail < 127 {
      HeadOf(r.slots, r.tail, 128);
      assert a.Contents() == r.slots[r.tail + 1..128] + r.slots[..r.head];
    } else {
      HeadOf(r.slots, 127, 128);
      assert a.Contents() == r.slots[..r.head];
    }
  }

  lemma HeadOf(s: seq<nat>, i: nat, j: nat)
    requires i < j <= |s|
    ensures s[i..j] == [s[i]] + s[i + 1..j] && (j == |s| ==> s[i..] == s[i..j])
  {
  }

  lemma PushAppends(r: Ring, b: nat)
    requires r.Ok()
    ensures r.Push(b).Ok()
    ensures r.Push(b).Contents() == if r.Waiting() == 127 then r.Contents() else r.Contents() + [b]
  {
    FullMeans127(r);
    if Next(r.head) != r.tail {
      StoreUnseen(r, b);
      PublishAppends(r.Store(b));
    }
  }

  class KeyBuffer {
    const keyBuffer: array<nat>
    var keyBufferHead: nat
    var keyBufferTail: nat

    constructor ()
      ensures Valid() && fresh(keyBuffer)
      ensures Abs().Contents() == []
    {
      keyBuffer := new nat[KEY_BUFFER_SIZE](_ => 0);
      keyBufferHead, keyBufferTail := 0, 0;
    }

    ghost predicate Valid()
      reads this, keyBuffer
    {
      keyBuffer.Length == KEY_BUFFER_SIZE && Abs().Ok()
    }

    ghost function Abs(): Ring
      reads this, keyBuffer
    {
      Ring(keyBuffer[..], keyBufferHead, keyBufferTail)
    }

    method PushScancode(scancode: nat)
      requires Valid()
      modifies this`keyBufferHead, keyBuffer
      ensures Valid()
      ensures Abs() == old(Abs()).Push(scancode)
      ensures Abs().Contents() ==
        if old(Abs()).Waiting() == 127 then old(Abs()).Contents() else old(Abs()).Contents() + [scancode]
    {
      PushAppends(Abs(), scancode);
      var nextHead := (keyBufferHead + 1) % KEY_BUFFER_SIZE;
      if nextHead == keyBufferTail {
        return;
      }
      keyBuffer[keyBufferHead] := scancode;
      keyBufferHead := nextHead;
    }

    method HasInput() returns (some: bool)
      requires Valid()
      ensures some <==> Abs().Contents() != []
    {
      FullMeans127(Abs());
      some := keyBufferHead != keyBufferTail;
    }

    /** Reads the oldest scancode, then frees its slot. */
    method TakeScancode() returns (scancode: nat)
      requires Valid() && Abs().Contents() != []
      modifies this`keyBufferTail
      ensures Valid()
      ensures old(Abs()).Contents() == [scancode] + Abs().Contents()
    {
      FullMeans127(Abs());
      AdvanceTakes(Abs());
      scancode := keyBuffer[keyBufferTail];
      keyBufferTail := (keyBufferTail + 1) % KEY_BUFFER_SIZE;
    }
  }
}
