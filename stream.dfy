/**
 * The output stream of the flip-test emitter, seen as a sequence of
 * abstract items rather than raw characters.  A write is accepted while
 * the stream holds fewer than `capacity` items; once one write fails every
 * later one fails too, which is how a full or broken FILE* behaves.
 */
module Output {

  /** Which half of a signal a bit block describes. */
  datatype Part = Whole | Lsb | Msb

  /** The attribute that carries a flipped entry's token list. */
  datatype Attr = Bits | MultiBits

  /**
   * One write of the emitter.  The macros of the unseen header
   * (BSM_PREFIX, BSM_MESSAGE_PREFIX, BSM_MESSAGE_SUFFIX, BSM_SUFFIX) and the
   * generator comment are opaque items; a message prefix keeps the values
   * it is formatted with.
   */
  datatype Item =
    | Text(text: string)
    | GeneratorComment
    | DocPrefix
    | TimeComment(stamp: string)
    | DocSuffix
    | MessagePrefix(name: string, id: nat, key: nat, size: nat)
    | MessageSuffix
    | BlockOpen(name: string, part: Part)
    | BlockEntry(name: string, part: Part, flipped: bool, attr: Attr, value: string, size: nat)
    | BlockClose

  /** The first `room` items of `items`, or all of them when they fit. */
  function Take(items: seq<Item>, room: nat): (r: seq<Item>)
    ensures |r| <= room
    ensures |r| == if room < |items| then room else |items|
  {
    if room < |items| then items[..room] else items
  }

  /** How many more writes a stream holding `out` accepts. */
  function Room(out: seq<Item>, capacity: nat): (r: nat)
    ensures r == 0 <==> |out| >= capacity
    ensures |out| < capacity ==> |out| + r == capacity
  {
    if |out| < capacity then capacity - |out| else 0
  }

  /** What a stream holding `out` holds after `items` are written one by one. */
  function After(out: seq<Item>, items: seq<Item>, capacity: nat): (r: seq<Item>)
    ensures |r| <= |out| + |items|
    ensures |r| == |out| + |items| <==> Room(out, capacity) >= |items|
    ensures Room(out, capacity) < |items| ==> |r| >= capacity
  {
    out + Take(items, Room(out, capacity))
  }

  /** Writing `a` and then `b` is writing `a + b`. */
  lemma AfterAppend(out: seq<Item>, a: seq<Item>, b: seq<Item>, capacity: nat)
    ensures After(After(out, a, capacity), b, capacity) == After(out, a + b, capacity)
  {
    var room := Room(out, capacity);
    var mid := After(out, a, capacity);
    if room < |a| {
      assert Room(mid, capacity) == 0;
      assert (a + b)[..room] == a[..room];
    } else if room < |a| + |b| {
      assert Room(mid, capacity) == room - |a|;
      assert (a + b)[..room] == a + b[..room - |a|];
    } else {
      assert Room(mid, capacity) == room - |a|;
    }
  }

  /** Nothing more reaches a stream that is full. */
  lemma AfterFull(out: seq<Item>, items: seq<Item>, capacity: nat)
    requires |out| >= capacity
    ensures After(out, items, capacity) == out
  {
  }

  /** The room left after writing `items`. */
  lemma RoomAfter(out: seq<Item>, items: seq<Item>, capacity: nat)
    ensures Room(After(out, items, capacity), capacity) ==
      if |items| <= Room(out, capacity) then Room(out, capacity) - |items| else 0
  {
  }

  /** A stream stays below capacity exactly while the writes fit in the room it had. */
  lemma AfterSize(out: seq<Item>, items: seq<Item>, capacity: nat)
    ensures |After(out, items, capacity)| < capacity <==> |items| < Room(out, capacity)
  {
  }

  /** After a stream fills up, further writes leave it as it is. */
  lemma AfterFullPrefix(out: seq<Item>, a: seq<Item>, b: seq<Item>, capacity: nat)
    requires |After(out, a, capacity)| >= capacity
    ensures After(out, a + b, capacity) == After(out, a, capacity)
  {
    AfterFull(After(out, a, capacity), b, capacity);
    AfterAppend(out, a, b, capacity);
  }

  /** Once a stream is full, writing more than a prefix of `all` changes nothing. */
  lemma AfterFullExtends(out: seq<Item>, done: seq<Item>, all: seq<Item>, capacity: nat)
    requires done <= all
    requires |After(out, done, capacity)| >= capacity
    ensures After(out, all, capacity) == After(out, done, capacity)
  {
    assert all == done + all[|done|..];
    AfterFullPrefix(out, done, all[|done|..], capacity);
  }

  /** A prefix stays a prefix behind a common head and before any tail. */
  lemma PrefixBetween(head: seq<Item>, a: seq<Item>, b: seq<Item>, tail: seq<Item>)
    requires a <= b
    ensures head + a <= head + b + tail
  {
    assert (head + b + tail)[..|head + a|] == head + a;
  }

  /** One more write of a loop that writes `items` in order. */
  lemma AfterNext(out: seq<Item>, items: seq<Item>, i: nat, capacity: nat)
    requires i < |items|
    ensures After(After(out, items[..i], capacity), [items[i]], capacity) == After(out, items[..i + 1], capacity)
  {
    AfterAppend(out, items[..i], [items[i]], capacity);
    assert items[..i] + [items[i]] == items[..i + 1];
  }

  /** A loop that stops at its first failed write leaves what writing them all would. */
  lemma AfterStop(out: seq<Item>, items: seq<Item>, i: nat, capacity: nat)
    requires i <= |items|
    requires |After(out, items[..i], capacity)| >= capacity
    ensures After(out, items[..i], capacity) == After(out, items, capacity)
  {
    AfterFullPrefix(out, items[..i], items[i..], capacity);
    assert items[..i] + items[i..] == items;
  }

  class Stream {
    /** The items the stream has accepted so far. */
    var out: seq<Item>
    /** How many items the stream accepts before every write fails. */
    const capacity: nat

    constructor (capacity: nat)
      ensures out == [] && this.capacity == capacity
    {
      out := [];
      this.capacity := capacity;
    }

    /** One write (an fputc, fputs or fprintf); `ok` says whether it was accepted. */
    method Put(x: Item) returns (ok: bool)
      modifies this
      ensures ok <==> |old(out)| < capacity
      ensures out == After(old(out), [x], capacity)
      ensures out == if ok then old(out) + [x] else old(out)
    {
      ok := |out| < capacity;
      if ok {
        out := out + [x];
      }
    }
  }
}
