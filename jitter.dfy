/** The jitter buffer. receiver_enhanced.py and syncwave_app.py each define a
    `JitterBuffer` class with the same behaviour: a `deque(maxlen=size)` that
    `add` appends to, `get` pops from the front of once at least three
    entries are held, and `size` reports. It is modelled once, here.
    Entries come out in the order they arrived. */
module Jitter {
  import opened Wrappers

  /** JITTER_BUFFER_SIZE, the default capacity. */
  const DefaultSize: nat := 10
  /** JITTER_BUFFER_MIN: `get` hands out nothing below this occupancy. */
  const MinFill: nat := 3

  function Min(a: nat, b: nat): nat {
    if a < b then a else b
  }

  /** A deque with maxlen cap after `append(x)`: the newest cap entries of
      s + [x] (none at all when cap is 0). */
  function Appended<T>(s: seq<T>, x: T, cap: nat): (r: seq<T>)
    ensures |r| <= cap
    ensures |s| < cap ==> r == s + [x]
    ensures |s| == cap > 0 ==> r == s[1..] + [x]
  {
    var t := s + [x];
    t[|t| - Min(|t|, cap)..]
  }

  class JitterBuffer<T> {
    /** The deque, oldest entry first. */
    var buffer: seq<T>
    /** The deque's maxlen. */
    const maxlen: nat
    /** Every entry ever added, oldest first. */
    ghost var added: seq<T>

    /** The held entries are the most recently added ones, in arrival order,
        and there are at most maxlen of them. */
    ghost predicate Valid()
      reads this
    {
      |buffer| <= maxlen && |buffer| <= |added| && buffer == added[|added| - |buffer|..]
    }

    constructor (size: nat)
      ensures Valid() && maxlen == size && buffer == [] && added == []
    {
      maxlen := size;
      buffer := [];
      added := [];
    }

    method Add(data: T)
      requires Valid()
      modifies this
      ensures Valid() && added == old(added) + [data]
      ensures buffer == Appended(old(buffer), data, maxlen)
      ensures Apply(Replayed(old(buffer), []), Op.Add(data), maxlen) == Replayed(buffer, [])
    {
      NewestAfterAppend(added, buffer, data, maxlen);
      buffer := Appended(buffer, data, maxlen);
      added := added + [data];
    }

    method Get() returns (r: Option<T>)
      requires Valid()
      modifies this
      ensures Valid() && added == old(added)
      ensures |old(buffer)| < MinFill ==> r == None && buffer == old(buffer)
      ensures |old(buffer)| >= MinFill ==> r == Some(old(buffer)[0]) && buffer == old(buffer)[1..]
      ensures Apply(Replayed(old(buffer), []), Op.Get, maxlen) == Replayed(buffer, if r.Some? then [r.value] else [])
    {
      if |buffer| >= MinFill {
        r := Some(buffer[0]);
        buffer := buffer[1..];
      } else {
        r := None;
      }
    }

    method Size() returns (n: nat)
      ensures n == |buffer|
    {
      n := |buffer|;
    }
  }

  /** A call on a jitter buffer. */
  datatype Op<T> = Add(x: T) | Get

  /** The state after a run of calls: the deque, and what `get` handed out. */
  datatype Replayed<T> = Replayed(buffer: seq<T>, out: seq<T>)

  /** One call's effect, as the class's methods have it. */
  function Apply<T>(prev: Replayed<T>, op: Op<T>, cap: nat): Replayed<T> {
    match op
    case Add(x) => Replayed(Appended(prev.buffer, x, cap), prev.out)
    case Get =>
      if |prev.buffer| >= MinFill then Replayed(prev.buffer[1..], prev.out + [prev.buffer[0]])
      else prev
  }

  /** The effect of a run of calls on a fresh buffer of capacity cap. */
  function Replay<T>(ops: seq<Op<T>>, cap: nat): Replayed<T> {
    if ops == [] then Replayed([], [])
    else Apply(Replay(ops[..|ops| - 1], cap), ops[|ops| - 1], cap)
  }

  lemma ReplaySnoc<T>(ops: seq<Op<T>>, op: Op<T>, cap: nat)
    ensures Replay(ops + [op], cap) == Apply(Replay(ops, cap), op, cap)
  {
    assert (ops + [op])[..|ops|] == ops;
  }

  /** The entries the calls added, in order. */
  function Adds<T>(ops: seq<Op<T>>): seq<T> {
    if ops == [] then []
    else Adds(ops[..|ops| - 1]) + (match ops[|ops| - 1] case Add(x) => [x] case Get => [])
  }

  /** Occupancy never exceeds the capacity, and what is held is always the
      most recently added entries: eviction and `get` both take the oldest. */
  lemma {:induction false} ReplayHoldsNewest<T>(ops: seq<Op<T>>, cap: nat)
    ensures var r := Replay(ops, cap);
      |r.buffer| <= cap && |r.buffer| <= |Adds(ops)| &&
      r.buffer == Adds(ops)[|Adds(ops)| - |r.buffer|..]
  {
    if ops != [] {
      var init, op := ops[..|ops| - 1], ops[|ops| - 1];
      ReplayHoldsNewest(init, cap);
      ApplyHoldsNewest(Adds(init), Replay(init, cap), op, cap);
      assert Replay(ops, cap) == Apply(Replay(init, cap), op, cap);
      assert Adds(ops) == Adds(init) + (match op case Add(x) => [x] case Get => []);
    }
  }

  /** One call keeps the buffer holding the newest entries of what was
      added so far. */
  lemma ApplyHoldsNewest<T>(a: seq<T>, prev: Replayed<T>, op: Op<T>, cap: nat)
    requires |prev.buffer| <= cap && |prev.buffer| <= |a| && prev.buffer == a[|a| - |prev.buffer|..]
    ensures var a' := a + (match op case Add(x) => [x] case Get => []);
      var b := Apply(prev, op, cap).buffer;
      |b| <= cap && |b| <= |a'| && b == a'[|a'| - |b|..]
  {
    match op
    case Add(x) =>
      NewestAfterAppend(a, prev.buffer, x, cap);
    case Get =>
      assert a + [] == a;
      if |prev.buffer| >= MinFill {
        var b := prev.buffer[1..];
        assert b == a[|a| - |b|..];
      }
  }

  /** Appending to a deque that holds the newest entries of a keeps it
      holding the newest entries of a + [x]. */
  lemma NewestAfterAppend<T>(a: seq<T>, b: seq<T>, x: T, cap: nat)
    requires |b| <= |a| && b == a[|a| - |b|..]
    ensures var r := Appended(b, x, cap);
      |r| <= |a| + 1 && r == (a + [x])[|a| + 1 - |r|..]
  {
    var r := Appended(b, x, cap);
    var ax := a + [x];
    var t := b + [x];
    assert t == ax[|a| - |b|..];
    assert r == t[|t| - |r|..];
    assert t[|t| - |r|..] == ax[|a| + 1 - |r|..];
  }

  /** No call adds to a full buffer, so no entry is ever evicted. */
  predicate NeverEvicts<T>(ops: seq<Op<T>>, cap: nat) {
    forall i :: 0 <= i < |ops| && ops[i].Add? ==> |Replay(ops[..i], cap).buffer| < cap
  }

  /** When nothing is ever evicted, entries leave in exactly the order they
      arrived: what was handed out, followed by what is still held, is
      everything that was added. */
  lemma {:induction false} ReplayFifo<T>(ops: seq<Op<T>>, cap: nat)
    requires NeverEvicts(ops, cap)
    ensures Replay(ops, cap).out + Replay(ops, cap).buffer == Adds(ops)
  {
    if ops != [] {
      var init := ops[..|ops| - 1];
      var prev := Replay(init, cap);
      forall i | 0 <= i < |init| && init[i].Add?
        ensures |Replay(init[..i], cap).buffer| < cap
      {
        assert init[..i] == ops[..i];
      }
      ReplayFifo(init, cap);
      match ops[|ops| - 1]
      case Add(x) =>
        assert |prev.buffer| < cap by { assert ops[..|ops| - 1] == init; }
        assert prev.out + (prev.buffer + [x]) == (prev.out + prev.buffer) + [x];
      case Get =>
        assert Adds(ops) == Adds(init);
        if |prev.buffer| >= MinFill {
          assert prev.out + [prev.buffer[0]] + prev.buffer[1..] == prev.out + prev.buffer;
        }
    }
  }

  /** At most cap adds in all can never fill the buffer past its capacity. */
  lemma FewAddsNeverEvict<T>(ops: seq<Op<T>>, cap: nat)
    requires |Adds(ops)| <= cap
    ensures NeverEvicts(ops, cap)
  {
    forall i | 0 <= i < |ops| && ops[i].Add?
      ensures |Replay(ops[..i], cap).buffer| < cap
    {
      ReplayHoldsNewest(ops[..i], cap);
      AddsPrefix(ops, i);
    }
  }

  /** A prefix of the calls added fewer entries than the calls up to and
      including a later add. */
  lemma {:induction false} AddsPrefix<T>(ops: seq<Op<T>>, i: nat)
    requires i < |ops| && ops[i].Add?
    ensures |Adds(ops[..i])| < |Adds(ops)|
  {
    if i < |ops| - 1 {
      var init := ops[..|ops| - 1];
      assert init[..i] == ops[..i];
      AddsPrefix(init, i);
    } else {
      assert ops[..|ops| - 1] == ops[..i];
    }
  }

  /** The calls the receive loop makes: for each payload, `add` and then
      one `get`. */
  function AddGets<T>(xs: seq<T>): seq<Op<T>> {
    if xs == [] then []
    else AddGets(xs[..|xs| - 1]) + [Add(xs[|xs| - 1]), Get]
  }

  /** A session of add-then-get calls, however long, holds fewer than three
      entries after each pair, so with room for three nothing is evicted and
      ReplayFifo applies to it. */
  lemma {:induction false} AddGetsNeverEvict<T>(xs: seq<T>, cap: nat)
    requires cap >= MinFill
    ensures NeverEvicts(AddGets(xs), cap)
    ensures |Replay(AddGets(xs), cap).buffer| < MinFill
  {
    if xs != [] {
      var x := xs[|xs| - 1];
      var prevOps := AddGets(xs[..|xs| - 1]);
      var ops := AddGets(xs);
      AddGetsNeverEvict(xs[..|xs| - 1], cap);
      assert ops == prevOps + [Add(x), Get];
      forall i | 0 <= i < |ops| && ops[i].Add?
        ensures |Replay(ops[..i], cap).buffer| < cap
      {
        if i < |prevOps| {
          assert ops[..i] == prevOps[..i];
        } else {
          assert ops[..i] == prevOps;
        }
      }
      assert ops[..|ops| - 1] == prevOps + [Add(x)];
      assert (prevOps + [Add(x)])[..|prevOps|] == prevOps;
    }
  }

  /** For any number of payloads, the add-then-get calls hand out every
      payload, oldest first, except the ones still held. */
  lemma AddGetsFifo<T>(xs: seq<T>)
    ensures Replay(AddGets(xs), DefaultSize).out + Replay(AddGets(xs), DefaultSize).buffer == xs
  {
    AddGetsNeverEvict(xs, DefaultSize);
    ReplayFifo(AddGets(xs), DefaultSize);
    AddsOfAddGets(xs);
  }

  /** The add-then-get calls add exactly the payloads, in order. */
  lemma {:induction false} AddsOfAddGets<T>(xs: seq<T>)
    ensures Adds(AddGets(xs)) == xs
  {
    if xs != [] {
      var init := xs[..|xs| - 1];
      var ops := AddGets(xs);
      AddsOfAddGets(init);
      assert ops[..|ops| - 1] == AddGets(init) + [Add(xs[|xs| - 1])];
      assert (AddGets(init) + [Add(xs[|xs| - 1])])[..|AddGets(init)|] == AddGets(init);
      assert init + [xs[|xs| - 1]] == xs;
    }
  }

  /** Nothing is handed out while fewer than three entries are held; the
      third add makes the next `get` return the first entry. */
  lemma UnderrunThenFirst<T>(a: T, b: T, c: T)
    ensures Replay([Add(a), Add(b), Get], DefaultSize).out == []
    ensures Replay([Add(a), Add(b), Get, Add(c), Get], DefaultSize).out == [a]
  {
    var n := DefaultSize;
    ReplaySnoc([], Add(a), n);
    assert [] + [Add(a)] == [Add(a)];
    assert Replay([Add(a)], n) == Replayed([a], []);
    ReplaySnoc([Add(a)], Add(b), n);
    assert [Add(a)] + [Add(b)] == [Add(a), Add(b)];
    assert Replay([Add(a), Add(b)], n) == Replayed([a, b], []);
    ReplaySnoc([Add(a), Add(b)], Get, n);
    assert [Add(a), Add(b)] + [Get] == [Add(a), Add(b), Get];
    assert Replay([Add(a), Add(b), Get], n) == Replayed([a, b], []);
    ReplaySnoc([Add(a), Add(b), Get], Add(c), n);
    assert [Add(a), Add(b), Get] + [Add(c)] == [Add(a), Add(b), Get, Add(c)];
    assert Replay([Add(a), Add(b), Get, Add(c)], n) == Replayed([a, b, c], []);
    ReplaySnoc([Add(a), Add(b), Get, Add(c)], Get, n);
    assert [Add(a), Add(b), Get, Add(c)] + [Get] == [Add(a), Add(b), Get, Add(c), Get];
  }

  /** Entries leave in arrival order, not timestamp order: three packets
      whose timestamps arrive as 300, 100, 200 (any t1 > t3 > t2) come out
      starting with the latest-stamped one. */
  lemma ArrivalOrderNotTimestampOrder(t1: int, t2: int, t3: int)
    requires t2 < t3 < t1
    ensures Replay([Add(t1), Add(t2), Add(t3), Get], DefaultSize).out == [t1]
  {
    var n := DefaultSize;
    ReplaySnoc([], Add(t1), n);
    assert [] + [Add(t1)] == [Add(t1)];
    assert Replay([Add(t1)], n) == Replayed([t1], []);
    ReplaySnoc([Add(t1)], Add(t2), n);
    assert [Add(t1)] + [Add(t2)] == [Add(t1), Add(t2)];
    assert Replay([Add(t1), Add(t2)], n) == Replayed([t1, t2], []);
    ReplaySnoc([Add(t1), Add(t2)], Add(t3), n);
    assert [Add(t1), Add(t2)] + [Add(t3)] == [Add(t1), Add(t2), Add(t3)];
    assert Replay([Add(t1), Add(t2), Add(t3)], n) == Replayed([t1, t2, t3], []);
    ReplaySnoc([Add(t1), Add(t2), Add(t3)], Get, n);
    assert [Add(t1), Add(t2), Add(t3)] + [Get] == [Add(t1), Add(t2), Add(t3), Get];
  }

  /** With capacity 2, adding 10, 20, 30 evicts 10. */
  lemma OverflowEvictsOldest()
    ensures Replay([Add(10), Add(20), Add(30)], 2).buffer == [20, 30]
  {
    ReplaySnoc([], Add(10), 2);
    assert [] + [Add(10)] == [Add(10)];
    assert Replay([Add(10)], 2) == Replayed([10], []);
    ReplaySnoc([Add(10)], Add(20), 2);
    assert [Add(10)] + [Add(20)] == [Add(10), Add(20)];
    assert Replay([Add(10), Add(20)], 2) == Replayed([10, 20], []);
    ReplaySnoc([Add(10), Add(20)], Add(30), 2);
    assert [Add(10), Add(20)] + [Add(30)] == [Add(10), Add(20), Add(30)];
  }
}
