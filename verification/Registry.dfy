/** The registry of destructors behind `__cxa_atexit` and `__cxa_finalize`.

  The registry is a growable array.  Finalization scans it downwards, overwrites a live
  slot with a tombstone, runs the callback without the lock and starts the scan again
  whenever the callback has registered more.  This module proves that all of that is
  a plain last-in first-out stack, whatever trees of registrations the callbacks make. */
module AtexitRegistry {

  /** A callback is known by its id and by the registrations that it makes while it
      runs.  `Null` is the null function pointer, which also marks a cleared slot. */
  datatype Func = Null | Fn(id: int, registers: seq<Entry>)
  datatype Entry = Entry(fn: Func, arg: int)

  /** One observable call: which callback ran, and with which argument. */
  datatype Call = Call(id: int, arg: int)

  const CLEARED := Entry(Null, 0)

  // ---------------------------------------------------------------------------
  // The specification: a stack machine
  // ---------------------------------------------------------------------------

  ghost predicate AllLive(es: seq<Entry>) {
    forall k :: 0 <= k < |es| ==> es[k].fn.Fn?
  }

  /** The registrations that the registry keeps: null functions are refused. */
  function Live(es: seq<Entry>): (live: seq<Entry>)
    ensures AllLive(live)
  {
    if es == [] then []
    else Live(es[..|es| - 1]) + (if es[|es| - 1].fn.Fn? then [es[|es| - 1]] else [])
  }

  /** The number of calls that an entry stands for, counting those it will register. */
  function Size(e: Entry): nat
    decreases e, 1
  {
    match e.fn
    case Null => 0
    case Fn(_, registers) => 1 + SizeAll(registers)
  }

  function SizeAll(es: seq<Entry>): nat
    decreases es, 0
  {
    if es == [] then 0 else SizeAll(es[..|es| - 1]) + Size(es[|es| - 1])
  }

  lemma {:induction false} SizeAppend(a: seq<Entry>, b: seq<Entry>)
    ensures SizeAll(a + b) == SizeAll(a) + SizeAll(b)
    decreases |b|
  {
    if b == [] {
      assert a + b == a;
    } else {
      assert (a + b)[..|a + b| - 1] == a + b[..|b| - 1];
      SizeAppend(a, b[..|b| - 1]);
    }
  }

  lemma {:induction false} LiveAppend(a: seq<Entry>, b: seq<Entry>)
    ensures Live(a + b) == Live(a) + Live(b)
    decreases |b|
  {
    if b == [] {
      assert a + b == a;
    } else {
      assert (a + b)[..|a + b| - 1] == a + b[..|b| - 1];
      LiveAppend(a, b[..|b| - 1]);
    }
  }

  lemma {:induction false} LiveSize(es: seq<Entry>)
    ensures SizeAll(Live(es)) == SizeAll(es)
    decreases |es|
  {
    if es != [] {
      var front, last := es[..|es| - 1], es[|es| - 1];
      LiveSize(front);
      if last.fn.Fn? {
        SizeAppend(Live(front), [last]);
        assert SizeAll([last]) == SizeAll([last][..0]) + Size(last) == Size(last);
      } else {
        assert Live(front) + [] == Live(front);
      }
    }
  }

  /** A call takes its own node out of the forest of pending callbacks. */
  lemma {:induction false} PopShrinks(stack: seq<Entry>)
    requires stack != [] && stack[|stack| - 1].fn.Fn?
    ensures SizeAll(stack[..|stack| - 1] + Live(stack[|stack| - 1].fn.registers)) == SizeAll(stack) - 1
  {
    var rest, top := stack[..|stack| - 1], stack[|stack| - 1];
    SizeAppend(rest, Live(top.fn.registers));
    LiveSize(top.fn.registers);
    assert Size(top) == 1 + SizeAll(top.fn.registers);
  }

  /** Pop the top of the stack, call it, push what it registered, and go on until the
      stack is empty. */
  function Lifo(stack: seq<Entry>): (calls: seq<Call>)
    requires AllLive(stack)
    decreases SizeAll(stack)
  {
    if stack == [] then [] else
    var rest, top := stack[..|stack| - 1], stack[|stack| - 1];
    PopShrinks(stack);
    [Call(top.fn.id, top.arg)] + Lifo(rest + Live(top.fn.registers))
  }

  // ---------------------------------------------------------------------------
  // What the stack machine does
  // ---------------------------------------------------------------------------

  /** An independent description of the order: every callback runs immediately before
      everything that it registered, and later registrations run before earlier ones. */
  function Visit(e: Entry): seq<Call>
    decreases e, 1
  {
    match e.fn
    case Null => []
    case Fn(id, registers) => [Call(id, e.arg)] + VisitAll(registers)
  }

  function VisitAll(es: seq<Entry>): seq<Call>
    decreases es, 0
  {
    if es == [] then [] else Visit(es[|es| - 1]) + VisitAll(es[..|es| - 1])
  }

  lemma {:induction false} VisitAllAppend(a: seq<Entry>, b: seq<Entry>)
    ensures VisitAll(a + b) == VisitAll(b) + VisitAll(a)
    decreases |b|
  {
    if b == [] {
      assert a + b == a;
    } else {
      assert (a + b)[..|a + b| - 1] == a + b[..|b| - 1];
      VisitAllAppend(a, b[..|b| - 1]);
    }
  }

  lemma {:induction false} VisitAllLive(es: seq<Entry>)
    ensures VisitAll(Live(es)) == VisitAll(es)
    decreases |es|
  {
    if es != [] {
      var front, last := es[..|es| - 1], es[|es| - 1];
      VisitAllLive(front);
      if last.fn.Fn? {
        VisitAllAppend(Live(front), [last]);
        assert VisitAll([last]) == Visit(last) + VisitAll([last][..0]) == Visit(last);
      } else {
        assert Live(front) + [] == Live(front);
      }
    }
  }

  /** The stack machine performs the reversed pre-order walk of the callback forest. */
  lemma {:induction false} LifoIsReversePreorder(stack: seq<Entry>)
    requires AllLive(stack)
    ensures Lifo(stack) == VisitAll(stack)
    decreases SizeAll(stack)
  {
    if stack != [] {
      var rest, top := stack[..|stack| - 1], stack[|stack| - 1];
      var pushed := Live(top.fn.registers);
      PopShrinks(stack);
      LifoIsReversePreorder(rest + pushed);
      VisitAllAppend(rest, pushed);
      VisitAllLive(top.fn.registers);
      var call, inner, outer := [Call(top.fn.id, top.arg)], VisitAll(pushed), VisitAll(rest);
      assert Lifo(stack) == call + (inner + outer);
      assert VisitAll(stack) == (call + inner) + outer;
    }
  }

  /** What lies on top of the stack is finished, with all that it registers, before
      anything below it starts. */
  lemma {:induction false} LifoAppend(below: seq<Entry>, above: seq<Entry>)
    requires AllLive(below) && AllLive(above)
    ensures Lifo(below + above) == Lifo(above) + Lifo(below)
  {
    LifoIsReversePreorder(below + above);
    LifoIsReversePreorder(below);
    LifoIsReversePreorder(above);
    VisitAllAppend(below, above);
  }

  /** The number of times that the forest contains this callback with this argument. */
  function Occurrences(es: seq<Entry>, c: Call): nat
    decreases es, 0
  {
    if es == [] then 0 else Occurrences(es[..|es| - 1], c) + OccurrencesIn(es[|es| - 1], c)
  }

  function OccurrencesIn(e: Entry, c: Call): nat
    decreases e, 1
  {
    match e.fn
    case Null => 0
    case Fn(id, registers) => (if Call(id, e.arg) == c then 1 else 0) + Occurrences(registers, c)
  }

  lemma {:induction false} VisitCounts(e: Entry, c: Call)
    ensures multiset(Visit(e))[c] == OccurrencesIn(e, c)
    ensures |Visit(e)| == Size(e)
    decreases e, 1
  {
    if e.fn.Fn? {
      VisitAllCounts(e.fn.registers, c);
    }
  }

  lemma {:induction false} VisitAllCounts(es: seq<Entry>, c: Call)
    ensures multiset(VisitAll(es))[c] == Occurrences(es, c)
    ensures |VisitAll(es)| == SizeAll(es)
    decreases es, 0
  {
    if es != [] {
      VisitAllCounts(es[..|es| - 1], c);
      VisitCounts(es[|es| - 1], c);
    }
  }

  /** Every registration, made before or during finalization, is called exactly once:
      no call is lost and none is repeated. */
  lemma {:induction false} EachCalledExactlyOnce(stack: seq<Entry>, c: Call)
    requires AllLive(stack)
    ensures multiset(Lifo(stack))[c] == Occurrences(stack, c)
    ensures |Lifo(stack)| == SizeAll(stack)
  {
    LifoIsReversePreorder(stack);
    VisitAllCounts(stack, c);
  }

  /** Tombstones at the end of the array do not matter. */
  lemma {:induction false} LiveIgnoresTombstones(slots: seq<Entry>, i: nat)
    requires i <= |slots| && forall k :: i <= k < |slots| ==> slots[k].fn.Null?
    ensures Live(slots) == Live(slots[..i])
    decreases |slots|
  {
    if i < |slots| {
      LiveIgnoresTombstones(slots[..|slots| - 1], i);
      assert slots[..|slots| - 1][..i] == slots[..i];
    } else {
      assert slots[..i] == slots;
    }
  }

  /** Clearing the highest live slot and calling its entry is one step of the stack
      machine, taken on the live entries. */
  lemma {:induction false} ScanStep(slots: seq<Entry>, i: nat)
    requires i < |slots| && slots[i].fn.Fn?
    requires forall k :: i < k < |slots| ==> slots[k].fn.Null?
    ensures Lifo(Live(slots)) == [Call(slots[i].fn.id, slots[i].arg)]
                                 + Lifo(Live(slots[i := CLEARED] + Live(slots[i].fn.registers)))
    ensures SizeAll(Live(slots[i := CLEARED] + Live(slots[i].fn.registers))) < SizeAll(Live(slots))
  {
    var top := slots[i];
    LiveIgnoresTombstones(slots, i + 1);
    assert slots[..i + 1][..i] == slots[..i];
    assert Live(slots) == Live(slots[..i]) + [top];
    var cleared := slots[i := CLEARED];
    LiveIgnoresTombstones(cleared, i);
    assert cleared[..i] == slots[..i];
    LiveAppend(cleared, Live(top.fn.registers));
    LiveIdempotent(top.fn.registers);
    var stack := Live(slots);
    assert stack[..|stack| - 1] == Live(slots[..i]);
    PopShrinks(stack);
  }

  lemma {:induction false} LiveIdempotent(es: seq<Entry>)
    ensures Live(Live(es)) == Live(es)
    decreases |es|
  {
    if es != [] {
      var front, last := es[..|es| - 1], es[|es| - 1];
      LiveIdempotent(front);
      LiveAppend(Live(front), if last.fn.Fn? then [last] else []);
    }
  }

  // ---------------------------------------------------------------------------
  // Growth of the array
  // ---------------------------------------------------------------------------

  const INITIAL_CAPACITY: nat := 8

  function Pow2(k: nat): nat {
    if k == 0 then 1 else 2 * Pow2(k - 1)
  }

  /** Capacity, and elements moved by reallocation, after `n` accepted registrations. */
  datatype Growth = Growth(capacity: nat, moved: nat)

  function GrowthAfter(n: nat): Growth {
    if n == 0 then Growth(INITIAL_CAPACITY, 0) else
    var g := GrowthAfter(n - 1);
    if n > g.capacity then Growth(2 * g.capacity, g.moved + g.capacity) else g
  }

  /** The capacity is the least of 8, 16, 32, ... that has room for all entries, and all
      growth together has moved fewer than two elements for each registration. */
  lemma {:induction false} GrowthBounds(n: nat) returns (k: nat)
    ensures GrowthAfter(n).capacity == 8 * Pow2(k)
    ensures n <= GrowthAfter(n).capacity
    ensures k > 0 ==> 8 * Pow2(k - 1) < n
    ensures GrowthAfter(n).capacity <= 8 || GrowthAfter(n).capacity <= 2 * (n - 1)
    ensures GrowthAfter(n).moved == GrowthAfter(n).capacity - 8
    ensures n > 0 ==> GrowthAfter(n).moved < 2 * n
  {
    if n == 0 {
      k := 0;
    } else {
      k := GrowthBounds(n - 1);
      if n > GrowthAfter(n - 1).capacity {
        k := k + 1;
      }
    }
  }

  // ---------------------------------------------------------------------------
  // The registry itself
  // ---------------------------------------------------------------------------

  class Registry {
    var slots: array?<Entry>
    var capacity: nat
    var count: nat
    /** The contents of the first `count` slots. */
    ghost var entries: seq<Entry>
    /** Elements copied by reallocation so far. */
    ghost var moved: nat
    /** The calls made so far, in order. */
    ghost var calls: seq<Call>
    /** Whether the array has been released; no use of the registry is defined after. */
    ghost var freed: bool

    ghost predicate Valid()
      reads this, slots
    {
      && !freed
      && Growth(capacity, moved) == GrowthAfter(count)
      && |entries| == count
      && (slots == null ==> count == 0)
      && (slots != null ==> slots.Length == capacity && count <= capacity)
      && (forall k :: 0 <= k < count ==> slots[k] == entries[k])
    }

    constructor ()
      ensures Valid() && entries == [] && calls == []
    {
      slots, capacity, count := null, INITIAL_CAPACITY, 0;
      entries, moved, calls, freed := [], 0, [], false;
    }

    /** `__cxa_atexit` */
    method Register(fn: Func, arg: int) returns (result: int)
      requires Valid()
      modifies this, slots
      ensures Valid() && calls == old(calls)
      ensures result == if fn.Null? then -1 else 0
      ensures entries == old(entries) + if fn.Null? then [] else [Entry(fn, arg)]
      ensures slots == old(slots) || fresh(slots)
    {
      result := -1;
      if fn != Null {
        ghost var k := GrowthBounds(count + 1);
        count := count + 1;
        if slots == null {
          slots := new Entry[capacity];
        }
        if count > capacity {
          moved := moved + capacity;
          capacity := 2 * capacity;
          slots := Reallocate(slots, capacity);
        }
        slots[count - 1] := Entry(fn, arg);
        entries := entries + [Entry(fn, arg)];
        result := 0;
      }
    }

    /** `realloc` */
    static method Reallocate(current: array<Entry>, size: nat) returns (grown: array<Entry>)
      requires current.Length <= size
      ensures fresh(grown) && grown.Length == size
      ensures forall k :: 0 <= k < current.Length ==> grown[k] == current[k]
    {
      grown := new Entry[size];
      for i := 0 to current.Length
        invariant forall k :: 0 <= k < i ==> grown[k] == current[k]
      {
        grown[i] := current[i];
      }
    }

    /** A callback: it is called with its argument and makes its registrations. */
    method Run(fn: Func, arg: int)
      requires Valid() && fn.Fn?
      modifies this, slots
      ensures Valid() && calls == old(calls) + [Call(fn.id, arg)]
      ensures entries == old(entries) + Live(fn.registers)
      ensures slots == old(slots) || fresh(slots)
    {
      calls := calls + [Call(fn.id, arg)];
      var rs := fn.registers;
      for k := 0 to |rs|
        invariant Valid() && calls == old(calls) + [Call(fn.id, arg)]
        invariant entries == old(entries) + Live(rs[..k])
        invariant slots == old(slots) || fresh(slots)
      {
        assert rs[..k + 1][..k] == rs[..k];
        var _ := Register(rs[k].fn, rs[k].arg);
      }
      assert rs[..|rs|] == rs;
    }

    /** The calls made so far, followed by those that the stack machine would make. */
    ghost function Outcome(): seq<Call>
      reads this
    {
      calls + Lifo(Live(entries))
    }

    /** The number of calls still to be made. */
    ghost function Pending(): nat
      reads this
    {
      SizeAll(Live(entries))
    }

    /** The middle of the scan: clear a slot before its callback is called. */
    method CallEntry(i: nat)
      requires Valid() && i < count && entries[i].fn.Fn?
      requires forall k :: i < k < count ==> entries[k].fn.Null?
      modifies this, slots
      ensures Valid() && count >= old(count)
      ensures slots == old(slots) || fresh(slots)
      ensures count == old(count) ==> forall k :: i <= k < count ==> entries[k].fn.Null?
      ensures Outcome() == old(Outcome())
      ensures Pending() < old(Pending())
    {
      ScanStep(entries, i);
      var entry := slots[i];
      slots[i] := CLEARED;
      entries := entries[i := CLEARED];
      Run(entry.fn, entry.arg);
    }

    /** `__cxa_finalize`.  Its termination is part of the proof: each restart follows a
        call, and a call takes its own node out of the forest of pending callbacks. */
    method Finalize()
      requires Valid()
      modifies this, slots
      ensures calls == old(calls) + Lifo(Live(old(entries)))
      ensures freed <==> old(count) > 0
      ensures |entries| == count >= old(count)
      ensures forall k :: 0 <= k < count ==> entries[k].fn.Null?
    {
      label Restart:
      while true
        invariant Valid() && count >= old(count) && (old(count) == 0 ==> count == 0)
        invariant slots == old(slots) || fresh(slots)
        invariant Outcome() == old(Outcome())
        decreases Pending()
      {
        if count == 0 {
          break;
        }
        ghost var pending := Pending();
        var total := count;
        var i := count - 1;
        while true
          invariant Valid() && 0 <= i < total == count && count >= old(count) > 0
          invariant slots == old(slots) || fresh(slots)
          invariant forall k :: i < k < count ==> entries[k].fn.Null?
          invariant Outcome() == old(Outcome())
          invariant Pending() <= pending
          decreases Pending(), i
        {
          if slots[i].fn == Null {
            if i == 0 { break; }
            i := i - 1;
            continue;
          }
          CallEntry(i);
          if count != total {
            continue Restart;
          }
          if i == 0 { break; }
          i := i - 1;
        }
        LiveIgnoresTombstones(entries, 0);
        freed := true;
        break;
      }
    }
  }
}
