/** The two ring buffers: the breaker's event log (server/circuitBreaker.ts) and the cache's rolling window
    (server/cacheEngine.ts). They compute their read positions by different formulas. */
module RingBuffers {
  import opened Wrappers
  import opened Modular

  function Min(a: nat, b: nat): nat {
    if a < b then a else b
  }

  // The last min(|s|, n) items, oldest first.
  ghost function LastN<T>(s: seq<T>, n: nat): seq<T> {
    s[|s| - Min(|s|, n)..]
  }

  // Slot j % capacity holds the j-th pushed item, for the last items.
  ghost predicate Holds<T>(slots: seq<Option<T>>, pushed: seq<T>) {
    && |slots| > 0
    && forall j | |pushed| - Min(|pushed|, |slots|) <= j < |pushed| :: slots[j % |slots|] == Some(pushed[j])
  }

  lemma HoldsPush<T>(slots: seq<Option<T>>, pushed: seq<T>, item: T)
    requires Holds(slots, pushed)
    ensures Holds(slots[|pushed| % |slots| := Some(item)], pushed + [item])
  {
    var pushed', slots' := pushed + [item], slots[|pushed| % |slots| := Some(item)];
    forall j | |pushed'| - Min(|pushed'|, |slots|) <= j < |pushed'|
      ensures slots'[j % |slots|] == Some(pushed'[j])
    {
      if j < |pushed| {
        Near(j, |pushed|, |slots|);
      }
    }
  }

  // The state both buffers keep.
  ghost predicate RingOk<T>(slots: seq<Option<T>>, pushed: seq<T>, head: nat, size: nat) {
    Holds(slots, pushed) && head == |pushed| % |slots| && size == Min(|pushed|, |slots|)
  }

  lemma RingPush<T>(slots: seq<Option<T>>, pushed: seq<T>, head: nat, size: nat, item: T)
    requires RingOk(slots, pushed, head, size)
    ensures head < |slots|
    ensures RingOk(slots[head := Some(item)], pushed + [item], (head + 1) % |slots|,
                   if size < |slots| then size + 1 else size)
  {
    HoldsPush(slots, pushed, item);
    AddAfter(|pushed|, 1, |slots|);
  }

  // The i-th oldest item, by the event log's formula.
  lemma FromStart<T>(slots: seq<Option<T>>, pushed: seq<T>, head: nat, size: nat, i: nat)
    requires RingOk(slots, pushed, head, size) && i < size
    ensures var start := if size < |slots| then 0 else head;
            slots[(start + i) % |slots|] == Some(LastN(pushed, |slots|)[i])
  {
    var j := |pushed| - size + i;
    assert slots[j % |slots|] == Some(pushed[j]);
    if size == |slots| {
      AddAfter(|pushed|, i, |slots|);
      ShiftUp(j, 1, |slots|);
    }
  }

  // The i-th oldest item, by the rolling window's formula.
  lemma FromHead<T>(slots: seq<Option<T>>, pushed: seq<T>, head: nat, size: nat, i: nat)
    requires RingOk(slots, pushed, head, size) && i < size
    ensures head - size + i + |slots| >= 0
    ensures slots[(head - size + i + |slots|) % |slots|] == Some(LastN(pushed, |slots|)[i])
  {
    var j := |pushed| - size + i;
    assert slots[j % |slots|] == Some(pushed[j]);
    AddAfter(|pushed|, i - size + |slots|, |slots|);
    ShiftUp(j, 1, |slots|);
  }

  class RingBuffer<T> {
    const capacity: nat
    const buffer: array<Option<T>>
    var head: nat // the next slot to write
    var size: nat
    ghost var pushed: seq<T> // every item ever pushed, oldest first

    ghost predicate Valid()
      reads this, buffer
    {
      buffer.Length == capacity && RingOk(buffer[..], pushed, head, size)
    }

    constructor (capacity: nat)
      requires capacity >= 1
      ensures Valid() && pushed == [] && this.capacity == capacity && fresh(buffer)
    {
      this.capacity := capacity;
      buffer := new Option<T>[capacity](_ => None);
      head, size, pushed := 0, 0, [];
    }

    method Push(item: T)
      requires Valid()
      modifies this, buffer
      ensures Valid() && pushed == old(pushed) + [item]
    {
      RingPush(buffer[..], pushed, head, size, item);
      buffer[head] := Some(item);
      assert buffer[..] == old(buffer[..])[old(head) := Some(item)];
      head := (head + 1) % capacity;
      if size < capacity {
        size := size + 1;
      }
      pushed := pushed + [item];
    }

    // Exactly the last min(n, capacity) pushed items, oldest first.
    method ToArray() returns (result: seq<T>)
      requires Valid()
      ensures result == LastN(pushed, capacity)
    {
      result := [];
      var start := if size < capacity then 0 else head;
      for i := 0 to size
        invariant |result| == i && result == LastN(pushed, capacity)[..i]
      {
        FromStart(buffer[..], pushed, head, size, i);
        var slot := buffer[(start + i) % capacity];
        result := result + [slot.value];
      }
    }
  }

  datatype WindowEvent = WindowEvent(ts: int, hit: bool)

  ghost function CountSince(events: seq<WindowEvent>, cutoff: int, hit: bool): nat {
    if events == [] then 0
    else
      var e := events[|events| - 1];
      CountSince(events[..|events| - 1], cutoff, hit) + if e.ts >= cutoff && e.hit == hit then 1 else 0
  }

  // A longer window counts at least as much.
  lemma {:induction false} WindowsNest(events: seq<WindowEvent>, cutoff: int, earlier: int, hit: bool)
    requires earlier <= cutoff
    ensures CountSince(events, cutoff, hit) <= CountSince(events, earlier, hit) <= |events|
  {
    if events != [] {
      WindowsNest(events[..|events| - 1], cutoff, earlier, hit);
    }
  }

  const HOUR := 60 * 60 * 1000
  const DAY := 24 * HOUR
  const WEEK := 7 * DAY

  datatype Counts = Counts(hits: nat, misses: nat)

  ghost function CountsSince(events: seq<WindowEvent>, cutoff: int): Counts {
    Counts(CountSince(events, cutoff, true), CountSince(events, cutoff, false))
  }

  class RollingWindowBuffer {
    const capacity: nat
    const buf: array<Option<WindowEvent>>
    var head: nat
    var size: nat
    ghost var pushed: seq<WindowEvent>

    ghost predicate Valid()
      reads this, buf
    {
      buf.Length == capacity && RingOk(buf[..], pushed, head, size)
    }

    constructor (capacity: nat)
      requires capacity >= 1
      ensures Valid() && pushed == [] && this.capacity == capacity && fresh(buf)
    {
      this.capacity := capacity;
      buf := new Option<WindowEvent>[capacity](_ => None);
      head, size, pushed := 0, 0, [];
    }

    method Push(hit: bool, now: int)
      requires Valid()
      modifies this, buf
      ensures Valid() && pushed == old(pushed) + [WindowEvent(now, hit)]
    {
      var ev := WindowEvent(now, hit);
      RingPush(buf[..], pushed, head, size, ev);
      buf[head] := Some(ev);
      assert buf[..] == old(buf[..])[old(head) := Some(ev)];
      head := (head + 1) % capacity;
      if size < capacity {
        size := size + 1;
      }
      pushed := pushed + [ev];
    }

    method Snapshot() returns (out: seq<WindowEvent>)
      requires Valid()
      ensures out == LastN(pushed, capacity)
    {
      out := [];
      for i := 0 to size
        invariant |out| == i && out == LastN(pushed, capacity)[..i]
      {
        FromHead(buf[..], pushed, head, size, i);
        var ev := buf[(head - size + i + capacity) % capacity];
        if ev.Some? {
          out := out + [ev.value];
        }
      }
    }

    method CountWindow(windowMs: int, now: int) returns (counts: Counts)
      requires Valid()
      ensures counts == CountsSince(LastN(pushed, capacity), now - windowMs)
    {
      var cutoff := now - windowMs;
      var hits, misses := 0, 0;
      var events := Snapshot();
      for i := 0 to |events|
        invariant hits == CountSince(events[..i], cutoff, true) && misses == CountSince(events[..i], cutoff, false)
      {
        assert events[..i + 1][..i] == events[..i];
        if events[i].ts >= cutoff {
          if events[i].hit {
            hits := hits + 1;
          } else {
            misses := misses + 1;
          }
        }
      }
      assert events[..|events|] == events;
      counts := Counts(hits, misses);
    }

    method GetWindows(now: int) returns (lastHour: Counts, last24h: Counts, last7d: Counts)
      requires Valid()
      ensures lastHour.hits <= last24h.hits <= last7d.hits && lastHour.misses <= last24h.misses <= last7d.misses
      ensures last7d.hits + last7d.misses <= Min(|pushed|, capacity)
      ensures var events := LastN(pushed, capacity);
              && lastHour == CountsSince(events, now - 3_600_000) && last24h == CountsSince(events, now - 86_400_000)
              && last7d == CountsSince(events, now - 604_800_000)
    {
      lastHour := CountWindow(HOUR, now);
      last24h := CountWindow(DAY, now);
      last7d := CountWindow(WEEK, now);
      ghost var events := LastN(pushed, capacity);
      WindowsNest(events, now - HOUR, now - DAY, true);
      WindowsNest(events, now - HOUR, now - DAY, false);
      WindowsNest(events, now - DAY, now - WEEK, true);
      WindowsNest(events, now - DAY, now - WEEK, false);
      HitsAndMisses(events, now - WEEK);
    }
  }

  lemma {:induction false} HitsAndMisses(events: seq<WindowEvent>, cutoff: int)
    ensures CountSince(events, cutoff, true) + CountSince(events, cutoff, false) <= |events|
  {
    if events != [] {
      HitsAndMisses(events[..|events| - 1], cutoff);
    }
  }
}
