/** The world-chat ring: a circular buffer that drops its oldest half when full. */
module ChatRing {

  datatype Option<T> = None | Some(value: T)

  /** How many of `n` logged messages a ring of `m` slots has dropped: half of it, whenever it would be full. */
  function Dropped(m: nat, n: nat): (d: nat)
    requires m >= 2
    ensures d <= n && n - d < m
  {
    if n == 0 then 0
    else
      var d := Dropped(m, n - 1);
      if n - d == m then d + m / 2 else d
  }

  lemma DroppedNext(m: nat, n: nat)
    requires m >= 2
    ensures var d := Dropped(m, n); Dropped(m, n + 1) == if n + 1 - d == m then d + m / 2 else d
  {
  }

  /** The newest messages, up to half the ring rounded up, are never dropped. */
  lemma Retention(m: nat, n: nat)
    requires m >= 2
    ensures Min(n, m - m / 2) <= n - Dropped(m, n) < m
  {
    if n > 0 { Retention(m, n - 1); }
  }

  function Min(a: int, b: int): int { if a < b then a else b }

  /** The same number without the history. */
  function DroppedClosed(m: nat, n: nat): int
    requires m >= 2
  {
    if n < m then 0 else m / 2 * (1 + (n - m) / (m / 2))
  }

  lemma {:induction false} ClosedForm(m: nat, n: nat)
    requires m >= 2
    ensures Dropped(m, n) == DroppedClosed(m, n)
    ensures Dropped(m, n) == if n < m then 0 else m / 2 * (1 + (n - m) / (m / 2))
  {
    if n > 0 {
      ClosedForm(m, n - 1);
      if n > m {
        ClosedStep(m, n - 1);
      } else if n == m {
        assert (n - m) / (m / 2) == 0;
      }
    }
  }

  lemma ClosedStep(m: nat, n: nat)
    requires 2 <= m <= n
    ensures DroppedClosed(m, n + 1) == DroppedClosed(m, n) + (if n + 1 - DroppedClosed(m, n) == m then m / 2 else 0)
  {
    var s, x := m / 2, n - m;
    var q, r := x / s, x % s;
    assert x == q * s + r;
    NextQuotient(x, s);
    StepOfClosed(m, s, x, q, r);
    assert n + 1 - m == x + 1;
  }

  lemma StepOfClosed(m: nat, s: nat, x: nat, q: nat, r: nat)
    requires x == q * s + r && r < s <= m
    ensures s * (1 + q) == m + x - (m - s + r)
    ensures s * (1 + (q + 1)) == s * (1 + q) + s
  {
    assert s * (1 + q) == s + q * s;
  }

  lemma NextQuotient(x: nat, s: nat)
    requires s > 0
    ensures (x + 1) / s == x / s + (if x % s == s - 1 then 1 else 0)
  {
    var q, r := x / s, x % s;
    assert x == q * s + r;
    if r == s - 1 {
      assert (q + 1) * s == q * s + s;
      QuotientIs(x + 1, s, q + 1, 0);
    } else {
      QuotientIs(x + 1, s, q, r + 1);
    }
  }

  lemma QuotientIs(x: nat, s: nat, q: nat, r: nat)
    requires r < s && x == q * s + r
    ensures x / s == q && x % s == r
  {
    var q', r' := x / s, x % s;
    assert x == q' * s + r';
    assert (q - q') * s == q * s - q' * s == r' - r;
    if q > q' { AtLeastOnce(q - q', s); }
    if q < q' {
      assert (q' - q) * s == q' * s - q * s;
      AtLeastOnce(q' - q, s);
    }
  }

  lemma AtLeastOnce(k: nat, s: nat)
    requires k >= 1
    ensures k * s >= s
  {
    assert k * s == (k - 1) * s + s;
  }

  lemma WrapOnce(x: nat, m: nat)
    requires m > 0 && x < 2 * m
    ensures x % m == if x >= m then x - m else x
  {
    QuotientIs(x, m, if x >= m then 1 else 0, if x >= m then x - m else x);
  }

  /** The slot `k` places behind slot `head` of a ring of `m`. */
  function Slot(m: nat, head: nat, k: nat): nat {
    if head + k >= m then head + k - m else head + k
  }

  /** From `head` on, `count` slots show the log from entry `d` on. */
  ghost predicate Shows(q: seq<string>, head: nat, count: nat, log: seq<string>, d: nat)
    requires head < |q| && count <= |q| && d + count <= |log|
  {
    forall k :: 0 <= k < count ==> q[Slot(|q|, head, k)] == log[d + k]
  }

  lemma ShowsOneMore(q: seq<string>, head: nat, count: nat, log: seq<string>, d: nat, msg: string)
    requires head < |q| && count < |q| && d + count == |log| && Shows(q, head, count, log, d)
    ensures Shows(q[Slot(|q|, head, count) := msg], head, count + 1, log + [msg], d)
  {
  }

  lemma ShowsFromLater(q: seq<string>, head: nat, count: nat, log: seq<string>, d: nat, shift: nat)
    requires head < |q| && shift <= count <= |q| && shift < |q| && d + count <= |log| && Shows(q, head, count, log, d)
    ensures Shows(q, Slot(|q|, head, shift), count - shift, log, d + shift)
  {
    forall k | 0 <= k < count - shift
      ensures q[Slot(|q|, Slot(|q|, head, shift), k)] == log[d + shift + k]
    {
      assert Slot(|q|, Slot(|q|, head, shift), k) == Slot(|q|, head, shift + k);
    }
  }

  /** Slots from `head` up to `tail`, around the end. */
  function Between(m: nat, head: nat, tail: nat): int {
    if tail >= head then tail - head else m - head + tail
  }

  /** The ring shows the window of the log that the timestamp names. */
  ghost predicate Refines(q: seq<string>, head: nat, tail: nat, timestamp: int, log: seq<string>, base: int) {
    && |q| >= 2 && head < |q| && tail < |q|
    && timestamp == base + Dropped(|q|, |log|)
    && Between(|q|, head, tail) == |log| - Dropped(|q|, |log|) >= 0
    && Shows(q, head, Between(|q|, head, tail), log, Dropped(|q|, |log|))
  }

  /** Head, tail and timestamp once a message has been written at `tail`. */
  function Next(m: nat, tail: nat): nat { if tail + 1 == m then 0 else tail + 1 }

  function HeadAfter(m: nat, head: nat, tail: nat): nat {
    if Next(m, tail) != head then head else if head + m / 2 >= m then head + m / 2 - m else head + m / 2
  }

  function TimestampAfter(m: nat, head: nat, tail: nat, timestamp: int): int {
    if Next(m, tail) != head then timestamp else timestamp + m / 2
  }

  lemma RefinesNext(q: seq<string>, head: nat, tail: nat, timestamp: int, log: seq<string>, base: int, msg: string)
    requires Refines(q, head, tail, timestamp, log, base)
    ensures Refines(q[tail := msg], HeadAfter(|q|, head, tail), Next(|q|, tail),
                    TimestampAfter(|q|, head, tail, timestamp), log + [msg], base)
  {
    if Next(|q|, tail) == head {
      RefinesFull(q, head, tail, timestamp, log, base, msg);
    } else {
      DroppedNext(|q|, |log|);
      ShowsOneMore(q, head, Between(|q|, head, tail), log, Dropped(|q|, |log|), msg);
    }
  }

  /** The ring has run full and gives up its older half. */
  lemma RefinesFull(q: seq<string>, head: nat, tail: nat, timestamp: int, log: seq<string>, base: int, msg: string)
    requires Refines(q, head, tail, timestamp, log, base) && Next(|q|, tail) == head
    ensures var to := if head + |q| / 2 >= |q| then head + |q| / 2 - |q| else head + |q| / 2;
            Refines(q[tail := msg], to, head, timestamp + |q| / 2, log + [msg], base)
  {
    var m, d := |q|, Dropped(|q|, |log|);
    DroppedNext(m, |log|);
    ShowsOneMore(q, head, m - 1, log, d, msg);
    ShowsFromLater(q[tail := msg], head, m, log + [msg], d, m / 2);
  }

  class WorldChat {
    const queue: array<string>
    const msgMax: nat
    var head: nat
    var tail: nat
    var timestamp: int
    /** Every accepted message since the last initialisation, whose timestamp was `base`. */
    ghost var log: seq<string>
    ghost var base: int

    ghost function Capacity(): nat { queue.Length }

    ghost function Count(): int
      reads this
    {
      Between(queue.Length, head, tail)
    }

    ghost predicate Valid()
      reads this, queue
    {
      Refines(queue[..], head, tail, timestamp, log, base)
    }

    constructor (capacity: nat, maxLength: nat)
      requires capacity >= 2
      ensures Valid() && fresh(queue) && queue.Length == capacity && msgMax == maxLength
      ensures log == [] && base == 0
    {
      queue := new string[capacity](_ => "");
      msgMax := maxLength;
      head, tail, timestamp, log, base := 0, 0, 0, [], 0;
    }

    method Init(ts: int)
      requires Valid()
      modifies this
      ensures Valid() && log == [] && base == ts
      ensures head == 0 && tail == 0 && timestamp == ts
    {
      head, tail, timestamp := 0, 0, ts;
      log, base := [], ts;
    }

    method HeadTs() returns (ts: int)
      requires Valid()
      ensures ts == base + Dropped(Capacity(), |log|)
    {
      ts := timestamp;
    }

    method TailTs() returns (ts: int)
      requires Valid()
      ensures ts == base + |log|
      ensures ts == timestamp + (if head <= tail then tail - head else queue.Length - head + tail)
    {
      var diff := if tail >= head then tail - head else queue.Length - head + tail;
      ts := timestamp + diff;
    }

    /** Appends to the log and, when the ring has run full, moves the window up by half. */
    method Add(msg: Option<string>) returns (ret: int)
      requires Valid()
      modifies this`head, this`tail, this`timestamp, this`log, queue
      ensures Valid()
      ensures ret == if msg.None? then -3 else if |msg.value| >= msgMax then -2 else 0
      ensures log == if ret == 0 then old(log) + [msg.value] else old(log)
      ensures ret != 0 ==>
                && head == old(head) && tail == old(tail) && timestamp == old(timestamp)
                && queue[..] == old(queue[..])
      ensures ret == 0 ==>
                var next := if old(tail) + 1 == queue.Length then 0 else old(tail) + 1;
                var full, to := next == old(head), old(head) + queue.Length / 2;
                && queue[..] == old(queue[..])[old(tail) := msg.value] && tail == next
                && head == (if !full then old(head) else if to >= queue.Length then to - queue.Length else to)
                && timestamp == old(timestamp) + (if full then queue.Length / 2 else 0)
    {
      if msg.None? { return -3; }
      if |msg.value| >= msgMax { return -2; }
      TakeIn(msg.value);
      ret := 0;
    }

    /** An accepted message is stored, and the window moves if the ring has run full. */
    method TakeIn(msg: string)
      requires Valid()
      modifies this`head, this`tail, this`timestamp, this`log, queue
      ensures Valid() && log == old(log) + [msg]
      ensures var next := if old(tail) + 1 == queue.Length then 0 else old(tail) + 1;
              var full, to := next == old(head), old(head) + queue.Length / 2;
              && queue[..] == old(queue[..])[old(tail) := msg] && tail == next
              && head == (if !full then old(head) else if to >= queue.Length then to - queue.Length else to)
              && timestamp == old(timestamp) + (if full then queue.Length / 2 else 0)
    {
      ghost var m, q := queue.Length, queue[..];
      RefinesNext(q, head, tail, timestamp, log, base, msg);
      ghost var head', tail' := HeadAfter(m, head, tail), Next(m, tail);
      ghost var timestamp' := TimestampAfter(m, head, tail, timestamp);
      ghost var q', log' := q[tail := msg], log + [msg];
      Append(msg);
      log := log + [msg];
      if head == tail { DropHalf(); }
      assert queue[..] == q' && head == head' && tail == tail' && timestamp == timestamp' && log == log';
    }

    /** Writes behind the last message; the tail wraps around. */
    method Append(msg: string)
      requires tail < queue.Length
      modifies this`tail, queue
      ensures queue[..] == old(queue[..])[old(tail) := msg]
      ensures tail == if old(tail) + 1 == queue.Length then 0 else old(tail) + 1
    {
      queue[tail] := msg;
      tail := tail + 1;
      if tail >= queue.Length { tail := 0; }
    }

    /** A full ring gives up its older half. */
    method DropHalf()
      requires head < queue.Length && queue.Length >= 2
      modifies this`head, this`timestamp
      ensures var to := old(head) + queue.Length / 2; head == if to >= queue.Length then to - queue.Length else to
      ensures timestamp == old(timestamp) + queue.Length / 2
    {
      var shift := queue.Length / 2;
      WrapOnce(head + shift, queue.Length);
      head := (head + shift) % queue.Length;
      timestamp := timestamp + shift;
    }

    /** The logged message of a timestamp inside the window, nothing outside. */
    method Get(ts: int) returns (msg: Option<string>)
      requires Valid()
      ensures msg == if base + Dropped(Capacity(), |log|) <= ts < base + |log| then Some(log[ts - base]) else None
      ensures base + |log| - Min(|log|, Capacity() - Capacity() / 2) <= ts < base + |log| ==>
                msg == Some(log[ts - base])
      ensures var kept := if head <= tail then tail - head else queue.Length - head + tail;
              var slot := (head + (ts - timestamp)) % queue.Length;
              msg == if timestamp <= ts < timestamp + kept then Some(queue[slot]) else None
    {
      Retention(queue.Length, |log|);
      var headTs := HeadTs();
      var tailTs := TailTs();
      if ts < headTs || ts >= tailTs { return None; }
      var diff := ts - headTs;
      WrapOnce(head + diff, queue.Length);
      var index := (head + diff) % queue.Length;
      assert index == Slot(queue.Length, head, diff) && queue[index] == queue[..][index];
      return Some(queue[index]);
    }

    /** The timestamp shown for a slot. Slots that hold a message answer with its timestamp, but only
        while the ring is not wrapped: then the range check turns every slot away. */
    method IndexTs(index: int) returns (ts: int)
      requires Valid()
      ensures head <= index < tail ==>
                && ts == timestamp + (index - head)
                && base + Dropped(Capacity(), |log|) <= ts < base + |log| && queue[index] == log[ts - base]
      ensures !(head <= index < tail) ==> ts == -1
      ensures forall k :: 0 <= k < Count() && Slot(Capacity(), head, k) == index ==>
                ts == if head <= tail then timestamp + k else -1
    {
      if index >= tail || index < head { return -1; }
      assert tail >= head;  // so only the first of the source's cases is ever reached
      assert index == Slot(queue.Length, head, index - head) && queue[index] == queue[..][index];
      var headTs := HeadTs();
      return headTs + (index - head);
    }

    /** Head meets tail only before the first message. */
    lemma EmptyMeansNothingAdded()
      requires Valid()
      ensures head == tail <==> log == []
    {
      Retention(queue.Length, |log|);
    }
  }
}
