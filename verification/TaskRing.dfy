/** The output ring of a background task (belya_harness.c). */
module TaskRing {
  import opened Cyclic
  import opened Text

  /** BELYA_TASK_RING_BUFFER_SIZE. */
  const SIZE: nat := 65536

  function Min(a: nat, b: nat): nat {
    if a < b then a else b
  }

  /** The last SIZE bytes of a log, or all of it. */
  function Recent(log: string): (r: string)
    ensures |r| == Min(|log|, 65536) && exists k: nat :: k <= |log| && log[k..] == r
  {
    log[|log| - Min(|log|, SIZE)..]
  }

  class Ring {
    var buffer: array<char>
    var head: nat
    var tail: nat
    var count: nat
    var total: nat
    /** Everything written since the task was spawned. */
    ghost var log: string

    ghost predicate Valid()
      reads this, buffer
    {
      && buffer.Length == SIZE
      && count == Min(|log|, SIZE) && total == |log|
      && head == Slot(|log|, SIZE) && tail == Slot(|log| - count, SIZE)
      && Holds(buffer[..], log, |log| - count, SIZE)
    }

    constructor ()
      ensures Valid() && log == "" && fresh(buffer)
    {
      buffer := new char[SIZE](_ => '\0');
      head, tail, count, total, log := 0, 0, 0, 0, "";
    }

    /** What `belya_harness_spawn_task` does to the ring of a reused slot. */
    method Reset()
      requires Valid()
      modifies this
      ensures Valid() && log == "" && buffer == old(buffer)
    {
      head, tail, count, total, log := 0, 0, 0, 0, "";
    }

    /** One iteration of the write loop, with the byte counted at once. */
    method Put(c: char)
      requires Valid()
      modifies this, buffer
      ensures Valid() && log == old(log) + [c] && buffer == old(buffer)
    {
      ghost var n, from := |log|, |log| - count;
      SlotPlus(n, 1, SIZE);
      SlotPlus(from, 1, SIZE);
      PutHolds(buffer[..], log, from, c, SIZE);
      buffer[head] := c;
      head := (head + 1) % SIZE;
      if count < SIZE {
        count := count + 1;
      } else {
        tail := (tail + 1) % SIZE;
      }
      total := total + 1;
      log := log + [c];
    }

    /** `belya_task_ring_write`. */
    method Write(data: string)
      requires Valid()
      modifies this, buffer
      ensures Valid() && log == old(log) + data && buffer == old(buffer)
    {
      var i := 0;
      while i < |data|
        invariant 0 <= i <= |data| && buffer == old(buffer)
        invariant Valid() && log == old(log) + data[..i]
      {
        Put(data[i]);
        i := i + 1;
      }
    }

    /** The read loop of `belya_task_drain_output`: chunks arrive until none is left. */
    method Drain(chunks: seq<string>)
      requires Valid()
      modifies this, buffer
      ensures Valid() && log == old(log) + Concat(chunks) && buffer == old(buffer)
    {
      var i := 0;
      while i < |chunks|
        invariant 0 <= i <= |chunks| && buffer == old(buffer)
        invariant Valid() && log == old(log) + Concat(chunks[..i])
      {
        assert chunks[..i + 1][..i] == chunks[..i];
        Write(chunks[i]);
        i := i + 1;
      }
      assert chunks[..i] == chunks;
    }

    /** `belya_task_ring_read_all`. */
    method ReadAll() returns (out: string)
      requires Valid()
      ensures out == Recent(log)
    {
      out := "";
      ghost var from := |log| - count;
      var i := 0;
      while i < count
        invariant 0 <= i <= count && |out| == i
        invariant forall k :: 0 <= k < i ==> out[k] == log[from + k]
      {
        ReadHolds(buffer[..], log, from, i, SIZE);
        out := out + [buffer[(tail + i) % SIZE]];
        i := i + 1;
      }
    }
  }
}
