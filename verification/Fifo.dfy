/** The ring buffer that passes items between threads; each call holds the lock, so calls are steps. */
module Fifo {
  import opened Tables

  const WORD: nat := 0x1_0000_0000

  /** The fields: a buffer, the two indices and the two counters (32-bit). */
  datatype Ring<T> = Ring(buffer: seq<T>, read: nat, write: nat, used: nat, maxEverUsed: nat)

  ghost predicate WellFormed<T>(r: Ring<T>) { 0 < |r.buffer| < WORD && r.read < |r.buffer| && r.write < |r.buffer| }

  /** The index after `i`, wrapping to the start. */
  function Succ(i: nat, size: nat): (r: nat)
    requires i < size
    ensures r < size
  {
    if i + 1 == size then 0 else i + 1
  }

  /** A read fails when the indices meet. */
  function ReadItem<T>(r: Ring<T>): (Option<T>, Ring<T>)
    requires WellFormed(r)
  {
    if r.write == r.read then (None, r)
    else (Some(r.buffer[r.read]),
          r.(read := Succ(r.read, |r.buffer|), used := (r.used + WORD - 1) % WORD))
  }

  /** A write never fails: it checks nothing. */
  function WriteItem<T>(r: Ring<T>, t: T): Ring<T>
    requires WellFormed(r)
  {
    var used := (r.used + 1) % WORD;
    r.(buffer := r.buffer[r.write := t], write := Succ(r.write, |r.buffer|), used := used,
       maxEverUsed := if used < r.maxEverUsed then r.maxEverUsed else used)
  }

  // ---------------------------------------------------------------- refinement

  /** The cell `k` places after the read index. */
  function Cell(read: nat, k: nat, size: nat): (r: nat)
    requires read < size && k <= size
    ensures r < size
  {
    if read + k < size then read + k else read + k - size
  }

  /** The ring holds exactly the unread items, oldest first; one cell always stays free. */
  ghost predicate Holds<T>(r: Ring<T>, unread: seq<T>) {
    && WellFormed(r) && |unread| < |r.buffer|
    && r.used == |unread| && r.write == Cell(r.read, |unread|, |r.buffer|)
    && forall k :: 0 <= k < |unread| ==> r.buffer[Cell(r.read, k, |r.buffer|)] == unread[k]
  }

  lemma CellsDiffer(read: nat, j: nat, k: nat, size: nat)
    requires read < size && j < k < size
    ensures Cell(read, j, size) != Cell(read, k, size)
  {
  }

  /** A read gives the oldest unread item, and fails exactly when nothing is unread. */
  lemma ReadRefines<T>(r: Ring<T>, unread: seq<T>)
    requires Holds(r, unread)
    ensures ReadItem(r).0.None? <==> unread == []
    ensures unread != [] ==> ReadItem(r).0 == Some(unread[0]) && Holds(ReadItem(r).1, unread[1..])
    ensures ReadItem(r).1.maxEverUsed == r.maxEverUsed
  {
    var size := |r.buffer|;
    if unread != [] {
      CellsDiffer(r.read, 0, |unread|, size);
      var after := ReadItem(r).1;
      assert Cell(r.read, 0, size) == r.read;
      forall k | 0 <= k < |unread| - 1 ensures after.buffer[Cell(after.read, k, size)] == unread[1..][k] {
        assert Cell(after.read, k, size) == Cell(r.read, k + 1, size);
      }
    }
  }

  /** A write appends as long as a cell besides the free one is left. */
  lemma WriteRefines<T>(r: Ring<T>, unread: seq<T>, t: T)
    requires Holds(r, unread) && |unread| + 1 < |r.buffer|
    ensures Holds(WriteItem(r, t), unread + [t])
    ensures WriteItem(r, t).maxEverUsed == if |unread| + 1 < r.maxEverUsed then r.maxEverUsed else |unread| + 1
  {
    var size, after := |r.buffer|, WriteItem(r, t);
    forall k | 0 <= k <= |unread| ensures after.buffer[Cell(after.read, k, size)] == (unread + [t])[k] {
      if k < |unread| {
        CellsDiffer(r.read, k, |unread|, size);
      }
    }
  }

  /** A write into the free cell loses everything: the indices meet and the next read fails. So the item
      count below the size is exactly what a reader needs. */
  lemma ReadableAfterWrite<T>(r: Ring<T>, unread: seq<T>, t: T)
    requires Holds(r, unread)
    ensures ReadItem(WriteItem(r, t)).0 == Some((unread + [t])[0]) <==> |unread| + 1 < |r.buffer|
    ensures ReadItem(WriteItem(r, t)).0.None? <==> |unread| + 1 == |r.buffer|
  {
    if |unread| + 1 < |r.buffer| {
      WriteRefines(r, unread, t);
      ReadRefines(WriteItem(r, t), unread + [t]);
    }
  }

  /** A ring of two cells: after two writes nothing can be read. */
  lemma FullRingReadsNothing()
    ensures var r := Ring([0, 0], 0, 0, 0, 0);
      var full := WriteItem(WriteItem(r, 7), 8);
      Holds(r, []) && full.used == 2 && ReadItem(full).0 == None
  {
  }

  // ---------------------------------------------------------------- runs

  datatype Call<T> = Read | Write(item: T)

  /** What the calls return; a write always returns false. */
  datatype Answer<T> = Item(item: T) | Failed

  function Perform<T>(r: Ring<T>, c: Call<T>): (Answer<T>, Ring<T>)
    requires WellFormed(r)
  {
    match c
    case Read => (var p := ReadItem(r); (if p.0.Some? then Item(p.0.value) else Failed, p.1))
    case Write(t) => (Failed, WriteItem(r, t))
  }

  lemma PerformWellFormed<T>(r: Ring<T>, c: Call<T>)
    requires WellFormed(r)
    ensures WellFormed(Perform(r, c).1)
  {
  }

  function Answers<T>(r: Ring<T>, cs: seq<Call<T>>): seq<Answer<T>>
    requires WellFormed(r)
    decreases |cs|
  {
    if cs == [] then []
    else
      PerformWellFormed(r, cs[0]);
      [Perform(r, cs[0]).0] + Answers(Perform(r, cs[0]).1, cs[1..])
  }

  function After<T>(r: Ring<T>, cs: seq<Call<T>>): Ring<T>
    requires WellFormed(r)
    decreases |cs|
  {
    if cs == [] then r
    else
      PerformWellFormed(r, cs[0]);
      After(Perform(r, cs[0]).1, cs[1..])
  }

  /** The unbounded queue. */
  function QueueStep<T>(q: seq<T>, c: Call<T>): seq<T> {
    match c
    case Read => if q == [] then [] else q[1..]
    case Write(t) => q + [t]
  }

  function QueueAnswers<T>(q: seq<T>, cs: seq<Call<T>>): seq<Answer<T>>
    decreases |cs|
  {
    if cs == [] then []
    else [if cs[0].Read? && q != [] then Item(q[0]) else Failed] + QueueAnswers(QueueStep(q, cs[0]), cs[1..])
  }

  function QueueAfter<T>(q: seq<T>, cs: seq<Call<T>>): seq<T>
    decreases |cs|
  {
    if cs == [] then q else QueueAfter(QueueStep(q, cs[0]), cs[1..])
  }

  /** The greatest length the queue reaches by a write, or `most` if that is more. */
  function Peak<T>(q: seq<T>, cs: seq<Call<T>>, most: nat): nat
    decreases |cs|
  {
    if cs == [] then most
    else
      var q' := QueueStep(q, cs[0]);
      Peak(q', cs[1..], if cs[0].Write? && most < |q'| then |q'| else most)
  }

  /** No more than `size - 1` items are ever unread. */
  ghost predicate Fits<T>(q: seq<T>, cs: seq<Call<T>>, size: nat)
    decreases |cs|
  {
    |q| < size && (cs == [] || Fits(QueueStep(q, cs[0]), cs[1..], size))
  }

  lemma PerformRefines<T>(r: Ring<T>, q: seq<T>, c: Call<T>)
    requires Holds(r, q) && |QueueStep(q, c)| < |r.buffer|
    ensures Perform(r, c).0 == if c.Read? && q != [] then Item(q[0]) else Failed
    ensures var after := Perform(r, c).1;
      && Holds(after, QueueStep(q, c)) && |after.buffer| == |r.buffer|
      && after.maxEverUsed == if c.Write? && r.maxEverUsed < |q| + 1 then |q| + 1 else r.maxEverUsed
  {
    match c
    case Read => ReadRefines(r, q);
    case Write(t) => WriteRefines(r, q, t);
  }

  /** As long as the items fit, every run answers as the unbounded queue does, and the counters say how many
      items are unread and how many ever were. */
  lemma {:induction false} RunRefinesQueue<T>(r: Ring<T>, q: seq<T>, cs: seq<Call<T>>)
    requires Holds(r, q) && Fits(q, cs, |r.buffer|)
    ensures Answers(r, cs) == QueueAnswers(q, cs)
    ensures Holds(After(r, cs), QueueAfter(q, cs))
    ensures After(r, cs).used == |QueueAfter(q, cs)|
    ensures After(r, cs).maxEverUsed == Peak(q, cs, r.maxEverUsed)
    decreases |cs|
  {
    if cs != [] {
      PerformRefines(r, q, cs[0]);
      RunRefinesQueue(Perform(r, cs[0]).1, QueueStep(q, cs[0]), cs[1..]);
    }
  }

  // ---------------------------------------------------------------- the class

  class Buffer<T(0)> {
    const buffer: array<T>
    const size: nat
    var read: nat
    var write: nat
    var used: nat
    var maxEverUsed: nat

    ghost function State(): Ring<T>
      reads this, buffer
    {
      Ring(buffer[..], read, write, used, maxEverUsed)
    }

    ghost predicate Valid()
      reads this, buffer
    {
      size == buffer.Length && WellFormed(State())
    }

    constructor (size: nat)
      requires 0 < size < WORD
      ensures Valid() && fresh(buffer) && this.size == size && Holds(State(), []) && maxEverUsed == 0
    {
      this.size := size;
      buffer := new T[size];
      read, write, used, maxEverUsed := 0, 0, 0, 0;
    }

    /** On failure the item passed in is left as it was. */
    method Read(t: T) returns (ok: bool, item: T)
      requires Valid()
      modifies this`read, this`used
      ensures Valid()
      ensures State() == ReadItem(old(State())).1
      ensures (if ok then Some(item) else None) == ReadItem(old(State())).0
      ensures !ok ==> item == t
    {
      item := t;
      if write == read {
        return false, item;
      }
      item := buffer[read];
      read := read + 1;
      if read == size {
        read := 0;
      }
      used := (used + WORD - 1) % WORD;
      ok := true;
    }

    method Write(t: T) returns (ok: bool)
      requires Valid()
      modifies this`write, this`used, this`maxEverUsed, buffer
      ensures Valid() && !ok
      ensures State() == WriteItem(old(State()), t)
    {
      buffer[write] := t;
      write := write + 1;
      if write == size {
        write := 0;
      }
      used := (used + 1) % WORD;
      if maxEverUsed <= used {
        maxEverUsed := used;
      }
      ok := false;
    }
  }
}
