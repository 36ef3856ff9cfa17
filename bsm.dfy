/**
 * The flip-test emitter of 2bsm.c: signal2bsm writes the bit blocks of one
 * signal, msg2bsm one message (payload size, fillers, multiplexor check),
 * dbc2bsm the whole document.  What each writes is given as a sequence of
 * output items; the methods are proved to write exactly that sequence, as
 * far as the stream accepts it.
 */
module Bsm {
  import opened Results
  import opened Model
  import opened Output
  import opened Escape
  import opened Buffer
  import opened Layout

  // ---------------------------------------------------------------------
  // Token lists
  // ---------------------------------------------------------------------

  /** n tokens "1" joined by ","; empty for n = 0. */
  function OnesText(n: nat): (r: string)
    ensures |r| == if n == 0 then 0 else 2 * n - 1
  {
    seq(if n == 0 then 0 else 2 * n - 1, i => if i % 2 == 0 then '1' else ',')
  }

  /**
   * One round of the loop that fills `szBits`: a "," when the buffer is not
   * empty, then a "1", turns the list of n tokens into the list of n + 1.
   */
  lemma OnesStep(n: nat)
    ensures OnesText(n + 1) == (if OnesText(n) == [] then [] else OnesText(n) + ",") + "1"
  {
    var p := OnesText(n);
    var t := (if p == [] then [] else p + ",") + "1";
    assert |t| == |OnesText(n + 1)|;
    forall i | 0 <= i < |t|
      ensures t[i] == OnesText(n + 1)[i]
    {
      if i < |p| {
        assert t[i] == p[i];
      }
    }
  }

  /** The number of "1" tokens in a list is `n`, with `n - 1` separators. */
  lemma {:induction false} OnesCount(n: nat)
    ensures multiset(OnesText(n))['1'] == n
    ensures multiset(OnesText(n))[','] == if n == 0 then 0 else n - 1
  {
    if n > 0 {
      OnesCount(n - 1);
      OnesStep(n - 1);
      var p := OnesText(n - 1);
      if p == [] {
        assert OnesText(n) == "1";
      } else {
        assert OnesText(n) == p + "," + "1";
        assert multiset(OnesText(n)) == multiset(p) + multiset(",") + multiset("1");
      }
    }
  }

  /** With at most 64 tokens the list and its terminator fit the 128-character buffer. */
  lemma OnesFit(n: nat)
    requires n <= 64
    ensures |OnesText(n)| < SIZE
  {
  }

  /**
   * The strcat_s loop of signal2bsm: `count` more rounds of "," (when the
   * buffer is not empty) and "1".
   */
  method AppendOnes(buf: CharBuffer, ghost done: nat, count: nat)
    requires buf.Valid() && buf.Text() == OnesText(done)
    requires done + count <= 64
    modifies buf.data
    ensures buf.Valid() && buf.Text() == OnesText(done + count)
  {
    for i := 0 to count
      invariant buf.Valid() && buf.Text() == OnesText(done + i)
    {
      ghost var p := OnesText(done + i);
      OnesStep(done + i);
      var len := buf.Strlen();
      if len > 0 {
        buf.Strcat(",");
        assert buf.Text() == p + ",";
      }
      buf.Strcat("1");
      assert buf.Text() == (if p == [] then [] else p + ",") + "1";
    }
  }

  // ---------------------------------------------------------------------
  // signal2bsm
  // ---------------------------------------------------------------------

  /**
   * One BE element: a Normal entry with Bits="0" and a Flipped entry with
   * the token list `tokens` under attribute `attr`, both `size` bits wide.
   */
  function BlockItems(name: string, part: Part, attr: Attr, tokens: string, size: nat): seq<Item>
  {
    [ BlockOpen(name, part),
      BlockEntry(name, part, false, Bits, "0", size),
      BlockEntry(name, part, true, attr, tokens, size),
      BlockClose ]
  }

  /**
   * What signal2bsm writes for `s`: one Whole block for at most 16 bits,
   * otherwise an LSB block of 16 bits and an MSB block of the rest.  The
   * MSB list continues the LSB list, because the memset before it clears
   * nothing, so it holds bitLength tokens rather than bitLength - 16.
   */
  function SignalItems(s: Signal): seq<Item>
  {
    var n := s.bitLength;
    if n > 16 then
      BlockItems(s.name, Lsb, Bits, OnesText(16), 16) + BlockItems(s.name, Msb, MultiBits, OnesText(n), n - 16)
    else
      BlockItems(s.name, Whole, MultiBits, OnesText(n), n)
  }

  /** The bits the Normal entries of a signal's blocks cover. */
  function NormalBits(items: seq<Item>): nat
  {
    if items == [] then 0
    else (if items[0].BlockEntry? && !items[0].flipped then items[0].size else 0) + NormalBits(items[1..])
  }

  /** The number of blocks opened. */
  function Blocks(items: seq<Item>): nat
  {
    if items == [] then 0 else (if items[0].BlockOpen? then 1 else 0) + Blocks(items[1..])
  }

  /** Counting blocks and Normal bits distributes over concatenation. */
  lemma {:induction false} CountsAppend(a: seq<Item>, b: seq<Item>)
    ensures Blocks(a + b) == Blocks(a) + Blocks(b)
    ensures NormalBits(a + b) == NormalBits(a) + NormalBits(b)
  {
    if a != [] {
      assert (a + b)[1..] == a[1..] + b;
      CountsAppend(a[1..], b);
    } else {
      assert a + b == b;
    }
  }

  /** One BE element is one block whose Normal entry covers `size` bits. */
  lemma BlockCounts(name: string, part: Part, attr: Attr, tokens: string, size: nat)
    ensures Blocks(BlockItems(name, part, attr, tokens, size)) == 1
    ensures NormalBits(BlockItems(name, part, attr, tokens, size)) == size
  {
    var e1 := BlockEntry(name, part, false, Bits, "0", size);
    var e2 := BlockEntry(name, part, true, attr, tokens, size);
    var t3 := [BlockClose];
    var t2 := [e2] + t3;
    var t1 := [e1] + t2;
    var t0 := [BlockOpen(name, part)] + t1;
    assert t3[1..] == [] && t2[1..] == t3 && t1[1..] == t2 && t0[1..] == t1;
    assert Blocks(t3) == 0 && NormalBits(t3) == 0;
    assert Blocks(t2) == 0 && NormalBits(t2) == 0;
    assert Blocks(t1) == 0 && NormalBits(t1) == size;
    assert Blocks(t0) == 1 && NormalBits(t0) == size;
    assert BlockItems(name, part, attr, tokens, size) == t0;
  }

  /**
   * signal2bsm writes one block for at most 16 bits and two for more, the
   * Normal entries together span the whole signal with Bits="0", and every
   * Flipped list holds as many tokens as its block is wide, except the MSB
   * list, which holds 16 more.
   */
  lemma SignalItemsMeaning(s: Signal)
    ensures Blocks(SignalItems(s)) == if s.bitLength > 16 then 2 else 1
    ensures NormalBits(SignalItems(s)) == s.bitLength
    ensures forall i :: 0 <= i < |SignalItems(s)| && SignalItems(s)[i].BlockEntry? && !SignalItems(s)[i].flipped ==>
      SignalItems(s)[i].value == "0" && SignalItems(s)[i].attr == Bits
    ensures forall i :: 0 <= i < |SignalItems(s)| && SignalItems(s)[i].BlockEntry? && SignalItems(s)[i].flipped ==>
      multiset(SignalItems(s)[i].value)['1'] ==
        SignalItems(s)[i].size + (if SignalItems(s)[i].part == Msb then 16 else 0)
  {
    var n := s.bitLength;
    OnesCount(16);
    OnesCount(n);
    if n > 16 {
      var lsb := BlockItems(s.name, Lsb, Bits, OnesText(16), 16);
      var msb := BlockItems(s.name, Msb, MultiBits, OnesText(n), n - 16);
      BlockCounts(s.name, Lsb, Bits, OnesText(16), 16);
      BlockCounts(s.name, Msb, MultiBits, OnesText(n), n - 16);
      CountsAppend(lsb, msb);
    } else {
      BlockCounts(s.name, Whole, MultiBits, OnesText(n), n);
    }
  }

  /**
   * A whole BE element starts at `k`: its opening, a Normal entry, a Flipped
   * entry of the same part and size, and its closing.
   */
  predicate BlockAt(items: seq<Item>, k: nat)
  {
    && k + 4 <= |items|
    && items[k].BlockOpen?
    && items[k + 1].BlockEntry? && !items[k + 1].flipped
    && items[k + 2].BlockEntry? && items[k + 2].flipped
    && items[k + 1].part == items[k].part && items[k + 2].part == items[k].part
    && items[k + 1].size == items[k + 2].size
    && items[k + 3] == BlockClose
  }

  /**
   * The blocks of signal2bsm, each a whole BE element, part by part: above
   * 16 bits an LSB block of 16 bits whose Flipped entry lists 16 tokens under
   * Bits=, then an MSB block of the remaining bits whose Flipped entry lists
   * bitLength tokens under MultiBits=; otherwise one Whole block of bitLength bits listing
   * bitLength tokens under MultiBits=.  Every entry bears the signal's name.
   */
  lemma SignalBlocksByPart(s: Signal)
    ensures |SignalItems(s)| == 4 * Blocks(SignalItems(s))
    ensures BlockAt(SignalItems(s), 0)
    ensures s.bitLength > 16 ==> BlockAt(SignalItems(s), 4)
    ensures forall e :: e in SignalItems(s) && e.BlockEntry? ==> e.name == s.name
    ensures s.bitLength > 16 ==>
      && SignalItems(s)[0] == BlockOpen(s.name, Lsb)
      && SignalItems(s)[4] == BlockOpen(s.name, Msb)
      && forall e :: e in SignalItems(s) && e.BlockEntry? ==>
        || (e.part == Lsb && e.size == 16 && (e.flipped ==> e.attr == Bits && e.value == OnesText(16)))
        || (e.part == Msb && e.size == s.bitLength - 16 &&
            (e.flipped ==> e.attr == MultiBits && e.value == OnesText(s.bitLength)))
    ensures s.bitLength <= 16 ==>
      && SignalItems(s)[0] == BlockOpen(s.name, Whole)
      && forall e :: e in SignalItems(s) && e.BlockEntry? ==>
        e.part == Whole && e.size == s.bitLength &&
        (e.flipped ==> e.attr == MultiBits && e.value == OnesText(s.bitLength))
  {
    var n := s.bitLength;
    if n > 16 {
      BlockCounts(s.name, Lsb, Bits, OnesText(16), 16);
      BlockCounts(s.name, Msb, MultiBits, OnesText(n), n - 16);
      CountsAppend(BlockItems(s.name, Lsb, Bits, OnesText(16), 16), BlockItems(s.name, Msb, MultiBits, OnesText(n), n - 16));
    } else {
      BlockCounts(s.name, Whole, MultiBits, OnesText(n), n);
    }
  }

  /** The four fprintf calls of one BE element; their results are not checked. */
  method WriteBlock(o: Stream, name: string, part: Part, attr: Attr, tokens: string, size: nat)
    modifies o
    ensures o.out == After(old(o.out), BlockItems(name, part, attr, tokens, size), o.capacity)
  {
    ghost var out0 := o.out;
    ghost var items := BlockItems(name, part, attr, tokens, size);
    assert items[..0] == [] && items[..4] == items;
    var ok := o.Put(BlockOpen(name, part));
    AfterNext(out0, items, 0, o.capacity);
    assert o.out == After(out0, items[..1], o.capacity);
    ok := o.Put(BlockEntry(name, part, false, Bits, "0", size));
    AfterNext(out0, items, 1, o.capacity);
    assert o.out == After(out0, items[..2], o.capacity);
    ok := o.Put(BlockEntry(name, part, true, attr, tokens, size));
    AfterNext(out0, items, 2, o.capacity);
    assert o.out == After(out0, items[..3], o.capacity);
    ok := o.Put(BlockClose);
    AfterNext(out0, items, 3, o.capacity);
  }

  /**
   * One flipped list of signal2bsm: the memset, whose value and count are
   * swapped so that it clears nothing, then `count` rounds of the strcat_s
   * loop after the `done` tokens already in the buffer.
   */
  method FillOnes(buf: CharBuffer, ghost done: nat, count: nat) returns (bits: string)
    requires buf.Valid() && buf.Text() == OnesText(done)
    requires done + count <= 64
    modifies buf.data
    ensures buf.Valid() && buf.Text() == OnesText(done + count)
    ensures bits == OnesText(done + count)
  {
    // memset(szBits, sizeof(szBits), 0)
    buf.Memset(SIZE as char, 0);
    assert buf.Text() == OnesText(done);
    AppendOnes(buf, done, count);
    bits := buf.Text();
  }

  /**
   * signal2bsm: writes the blocks of `s`, building each Flipped list in the
   * 128-character buffer.  Its writes are not checked and it returns 0.
   * The source guarantees `bitLength <= 64`, which keeps the buffer from
   * overflowing.  `depth` is unused, as in the source.
   */
  method Signal2Bsm(s: Signal, o: Stream, depth: nat) returns (r: int)
    requires s.bitLength <= 64
    modifies o
    ensures o.out == After(old(o.out), SignalItems(s), o.capacity)
    ensures r == 0
  {
    ghost var out0 := o.out;
    var buf := new CharBuffer();
    if s.bitLength > 16 {
      var bits := FillOnes(buf, 0, 16);
      WriteBlock(o, s.name, Lsb, Bits, bits, 16);
      ghost var out1 := o.out;
      bits := FillOnes(buf, 16, s.bitLength - 16);
      assert o.out == out1;
      WriteBlock(o, s.name, Msb, MultiBits, bits, s.bitLength - 16);
      ghost var lsb := BlockItems(s.name, Lsb, Bits, OnesText(16), 16);
      ghost var msb := BlockItems(s.name, Msb, MultiBits, OnesText(s.bitLength), s.bitLength - 16);
      AfterAppend(out0, lsb, msb, o.capacity);
      assert SignalItems(s) == lsb + msb;
    } else {
      var bits := FillOnes(buf, 0, s.bitLength);
      assert o.out == out0;
      WriteBlock(o, s.name, Whole, MultiBits, bits, s.bitLength);
      assert SignalItems(s) == BlockItems(s.name, Whole, MultiBits, OnesText(s.bitLength), s.bitLength);
    }
    r := 0;
  }

  // ---------------------------------------------------------------------
  // msg2bsm
  // ---------------------------------------------------------------------

  /** The items of each element of `es`, in order. */
  function Flatten<E>(es: seq<E>, f: E -> seq<Item>): seq<Item>
  {
    if es == [] then [] else Flatten(es[..|es| - 1], f) + f(es[|es| - 1])
  }

  lemma {:induction false} FlattenConcat<E>(a: seq<E>, b: seq<E>, f: E -> seq<Item>)
    ensures Flatten(a + b, f) == Flatten(a, f) + Flatten(b, f)
    decreases |b|
  {
    if b == [] {
      assert a + b == a;
    } else {
      assert (a + b)[..|a + b| - 1] == a + b[..|b| - 1];
      FlattenConcat(a, b[..|b| - 1], f);
    }
  }

  lemma FlattenPair<E>(x: E, y: E, f: E -> seq<Item>)
    ensures Flatten([x, y], f) == f(x) + f(y)
  {
    assert [x, y][..1] == [x];
    FlattenSingle(x, f);
  }

  lemma FlattenSingle<E>(x: E, f: E -> seq<Item>)
    ensures Flatten([x], f) == f(x)
  {
    assert [x][..0] == [];
  }

  /** What holds of every item of every part holds of every item of the whole. */
  lemma {:induction false} FlattenEvery<E>(es: seq<E>, f: E -> seq<Item>, p: Item -> bool)
    requires forall e :: e in es ==> forall x :: x in f(e) ==> p(x)
    ensures forall x :: x in Flatten(es, f) ==> p(x)
  {
    if es != [] {
      var init := es[..|es| - 1];
      assert forall e :: e in init ==> e in es;
      FlattenEvery(init, f, p);
      assert es[|es| - 1] in es;
    }
  }

  /** The blocks signal2bsm writes for one entry of the plan. */
  function EntryItems(e: Entry): seq<Item>
  {
    SignalItems(EntrySignal(e))
  }

  /** The blocks of a plan's entries, in order. */
  function PlanItems(es: seq<Entry>): seq<Item>
  {
    Flatten(es, EntryItems)
  }

  /** The indentation and the message prefix with its name, the id twice and the payload size. */
  function MessageHead(m: Message, depth: nat): seq<Item>
  {
    Tabs(depth) + [MessagePrefix(m.name, m.id, m.id, Padding(m.signals))]
  }

  /** Whether msg2bsm stops at a second multiplexor. */
  function MuxError(m: Message): bool
  {
    PlanFold(m.signals).failed
  }

  /** What msg2bsm writes: the head, the plan's blocks, and the suffix unless it stopped. */
  function MessageItems(m: Message, depth: nat): seq<Item>
  {
    MessageHead(m, depth) + PlanItems(PlanFold(m.signals).entries) + (if MuxError(m) then [] else [MessageSuffix])
  }

  /** The first pass of msg2bsm and its rounding chain: the payload size. */
  method PaddingSize(signals: seq<Signal>) returns (padding: nat)
    ensures padding == Padding(signals)
  {
    var lastBit: nat := 0;
    padding := 0;
    for i := 0 to |signals|
      invariant PadFold(signals[..i]) == PadState(padding, lastBit)
    {
      var s := signals[i];
      assert signals[..i + 1][..i] == signals[..i];
      if lastBit < s.startBit {
        padding := padding + (s.startBit - lastBit);
        lastBit := s.startBit;
      }
      padding := padding + s.bitLength;
      lastBit := s.startBit + s.bitLength;
    }
    assert signals[..|signals|] == signals;
    if padding <= 8 {
      padding := 8;
    } else if padding <= 16 {
      padding := 16;
    } else if padding <= 24 {
      padding := 24;
    } else if padding <= 32 {
      padding := 32;
    }
  }

  /** One more signal of the second pass. */
  lemma PlanFoldNext(ss: seq<Signal>, i: nat)
    requires i < |ss|
    ensures PlanFold(ss[..i + 1]) == PlanStep(PlanFold(ss[..i]), ss[i])
  {
    assert ss[..i + 1][..i] == ss[..i];
  }

  /** A pass that has failed after the first `i + 1` signals has failed for good. */
  lemma PlanStopsAt(ss: seq<Signal>, i: nat)
    requires i < |ss| && PlanFold(ss[..i + 1]).failed
    ensures PlanFold(ss) == PlanFold(ss[..i + 1])
  {
    PlanFailSticks(ss[..i + 1], ss[i + 1..]);
    assert ss[..i + 1] + ss[i + 1..] == ss;
  }

  /**
   * One signal of the second pass that is neither multiplexor nor
   * multiplexed: signal2bsm on the UNKNOWN filler for the gap before it, if
   * any, then on the signal.  `added` are the entries this step adds to the
   * plan.
   */
  method WriteOrdinary(o: Stream, s: Signal, lastBit: nat, depth: nat, ghost seenMux: bool, ghost es: seq<Entry>)
    returns (ghost added: seq<Entry>)
    requires ValidSignal(s) && !s.isMultiplexor && !s.isMultiplexed
    modifies o
    ensures PlanStep(PlanState(es, lastBit, seenMux, false), s) == PlanState(es + added, End(s), seenMux, false)
    ensures o.out == After(old(o.out), PlanItems(added), o.capacity)
  {
    ghost var out0 := o.out;
    ghost var st := PlanState(es, lastBit, seenMux, false);
    if lastBit < s.startBit {
      var unknown := Filler(lastBit, s.startBit - lastBit);
      var done := Signal2Bsm(unknown, o, depth + 1);
      ghost var out1 := o.out;
      done := Signal2Bsm(s, o, depth + 1);
      added := [Gap(lastBit, s.startBit - lastBit), Real(s)];
      assert PlanStep(st, s) == st.(entries := es + added, last := End(s));
      AfterAppend(out0, SignalItems(unknown), SignalItems(s), o.capacity);
      FlattenPair(Gap(lastBit, s.startBit - lastBit), Real(s), EntryItems);
    } else {
      var done := Signal2Bsm(s, o, depth + 1);
      added := [Real(s)];
      assert PlanStep(st, s) == st.(entries := es + added, last := End(s));
      FlattenSingle(Real(s), EntryItems);
    }
  }

  /**
   * The second pass of msg2bsm: a filler before every gap and the blocks of
   * every signal that is neither multiplexor nor multiplexed.  `failed` says
   * it stopped at a second multiplexor, where msg2bsm returns -1.
   */
  method WriteEntries(signals: seq<Signal>, o: Stream, depth: nat) returns (failed: bool)
    requires forall i :: 0 <= i < |signals| ==> ValidSignal(signals[i])
    modifies o
    ensures failed == PlanFold(signals).failed
    ensures o.out == After(old(o.out), PlanItems(PlanFold(signals).entries), o.capacity)
  {
    ghost var out0 := o.out;
    var lastBit: nat := 0;
    var multiplexor: Option<Signal> := None;
    ghost var entries: seq<Entry> := [];
    for i := 0 to |signals|
      invariant PlanFold(signals[..i]) == PlanState(entries, lastBit, multiplexor.Some?, false)
      invariant o.out == After(out0, PlanItems(entries), o.capacity)
    {
      var s := signals[i];
      ghost var st := PlanState(entries, lastBit, multiplexor.Some?, false);
      assert ValidSignal(s);
      if s.isMultiplexor {
        if multiplexor.Some? {
          assert PlanFold(signals[..i + 1]) == st.(failed := true) by {
            PlanFoldNext(signals, i);
          }
          PlanStopsAt(signals, i);
          return true;
        }
        multiplexor := Some(s);
        assert PlanFold(signals[..i + 1]) == st.(seenMux := true) by {
          PlanFoldNext(signals, i);
        }
        continue;
      }
      if s.isMultiplexed {
        assert PlanFold(signals[..i + 1]) == st by {
          PlanFoldNext(signals, i);
        }
        continue;
      }
      ghost var added := WriteOrdinary(o, s, lastBit, depth, multiplexor.Some?, entries);
      assert o.out == After(out0, PlanItems(entries + added), o.capacity) by {
        AfterAppend(out0, PlanItems(entries), PlanItems(added), o.capacity);
        FlattenConcat(entries, added, EntryItems);
      }
      entries := entries + added;
      lastBit := s.startBit + s.bitLength;
      PlanFoldNext(signals, i);
    }
    assert signals[..|signals|] == signals;
    failed := false;
  }

  /**
   * msg2bsm: writes the indentation and the message prefix, then the
   * blocks of every entry of the plan.  A second multiplexor returns -1
   * at once; otherwise the result says whether the suffix was written.
   */
  method Msg2Bsm(m: Message, o: Stream, depth: nat) returns (r: int)
    requires ValidMessage(m)
    modifies o
    ensures o.out == After(old(o.out), MessageItems(m, depth), o.capacity)
    ensures r == 0 || r == -1
    ensures r == 0 <==> !MuxError(m) && |MessageItems(m, depth)| <= Room(old(o.out), o.capacity)
  {
    ghost var out0 := o.out;
    var ignored := Indent(o, depth);
    var padding := PaddingSize(m.signals);
    var ok := o.Put(MessagePrefix(m.name, m.id, m.id, padding));
    ghost var head := MessageHead(m, depth);
    assert o.out == After(out0, head, o.capacity) by {
      AfterAppend(out0, Tabs(depth), [MessagePrefix(m.name, m.id, m.id, padding)], o.capacity);
    }

    var failed := WriteEntries(m.signals, o, depth);
    ghost var body := PlanItems(PlanFold(m.signals).entries);
    assert o.out == After(out0, head + body, o.capacity) by {
      AfterAppend(out0, head, body, o.capacity);
    }
    if failed {
      assert MessageItems(m, depth) == head + body + [];
      return -1;
    }

    ok := o.Put(MessageSuffix);
    assert MessageItems(m, depth) == head + body + [MessageSuffix];
    assert o.out == After(out0, head + body + [MessageSuffix], o.capacity) by {
      AfterAppend(out0, head + body, [MessageSuffix], o.capacity);
    }
    assert ok <==> |head + body + [MessageSuffix]| <= Room(out0, o.capacity) by {
      AfterSize(out0, head + body, o.capacity);
    }
    if !ok {
      return -1;
    }
    r := 0;
  }

  /** On a second multiplexor the prefix is written and the suffix never is. */
  lemma MuxErrorOutput(m: Message, depth: nat)
    requires MuxCount(m.signals) >= 2
    ensures MuxError(m)
    ensures MessageItems(m, depth)[depth] == MessagePrefix(m.name, m.id, m.id, Padding(m.signals))
    ensures MessageSuffix !in MessageItems(m, depth)
  {
    PlanFailsOnSecondMux(m.signals);
    PlanItemsBlocksOnly(PlanFold(m.signals).entries);
  }

  /** An item of a bit block. */
  predicate IsBlockItem(x: Item)
  {
    x.BlockOpen? || x.BlockEntry? || x.BlockClose?
  }

  /** signal2bsm writes nothing but blocks. */
  lemma SignalItemsBlocksOnly(s: Signal)
    ensures forall x :: x in SignalItems(s) ==> IsBlockItem(x)
  {
  }

  /** A plan writes nothing but blocks. */
  lemma PlanItemsBlocksOnly(es: seq<Entry>)
    ensures forall x :: x in PlanItems(es) ==> IsBlockItem(x)
  {
    forall e | e in es
      ensures forall x :: x in EntryItems(e) ==> IsBlockItem(x)
    {
      SignalItemsBlocksOnly(EntrySignal(e));
    }
    FlattenEvery(es, EntryItems, IsBlockItem);
  }

  // ---------------------------------------------------------------------
  // dbc2bsm
  // ---------------------------------------------------------------------

  /** The generator comment, BSM_PREFIX, and the time comment when asked for. */
  function Head(useTimeStamps: bool, stamp: string): seq<Item>
  {
    [GeneratorComment, DocPrefix] + (if useTimeStamps then [TimeComment(stamp)] else [])
  }

  /**
   * Whether the run over `ms` stops at some message; `stops` says which
   * messages stop it.  The run of dbc2bsm uses MuxError.
   */
  function Aborted(ms: seq<Message>, stops: Message -> bool): bool
  {
    ms != [] && (Aborted(ms[..|ms| - 1], stops) || stops(ms[|ms| - 1]))
  }

  /**
   * What the messages write, in index order, up to and including the first
   * message that stops; `write` gives what each message writes.
   */
  function Body(ms: seq<Message>, write: Message -> seq<Item>, stops: Message -> bool): seq<Item>
  {
    if ms == [] then []
    else
      var init := ms[..|ms| - 1];
      if Aborted(init, stops) then Body(init, write, stops) else Body(init, write, stops) + write(ms[|ms| - 1])
  }

  /** What msg2bsm writes for a message of the document, at depth 1. */
  function TopLevel(m: Message): seq<Item>
  {
    MessageItems(m, 1)
  }

  /** What dbc2bsm writes: the head, the messages, and BSM_SUFFIX unless a message stopped. */
  function DatabaseItems(d: Database, useTimeStamps: bool, stamp: string): seq<Item>
  {
    Head(useTimeStamps, stamp) + Body(d.messages, TopLevel, MuxError) +
      (if Aborted(d.messages, MuxError) then [] else [DocSuffix])
  }

  /** A run is aborted exactly when some message has two or more multiplexors. */
  lemma {:induction false} AbortedMeaning(ms: seq<Message>)
    ensures Aborted(ms, MuxError) <==> exists i :: 0 <= i < |ms| && MuxCount(ms[i].signals) >= 2
  {
    if ms != [] {
      var init := ms[..|ms| - 1];
      AbortedMeaning(init);
      PlanFailsOnSecondMux(ms[|ms| - 1].signals);
      if Aborted(init, MuxError) {
        var i :| 0 <= i < |init| && MuxCount(init[i].signals) >= 2;
        assert ms[i] == init[i];
      }
      if exists i :: 0 <= i < |ms| && MuxCount(ms[i].signals) >= 2 {
        var i :| 0 <= i < |ms| && MuxCount(ms[i].signals) >= 2;
        if i < |init| {
          assert init[i] == ms[i];
        }
      }
    }
  }

  /** After a message stops, later messages add nothing. */
  lemma {:induction false} BodyStops(ms: seq<Message>, k: nat, write: Message -> seq<Item>, stops: Message -> bool)
    requires k <= |ms| && Aborted(ms[..k], stops)
    ensures Aborted(ms, stops) && Body(ms, write, stops) == Body(ms[..k], write, stops)
    decreases |ms| - k
  {
    if k < |ms| {
      var init := ms[..|ms| - 1];
      assert init[..k] == ms[..k];
      BodyStops(init, k, write, stops);
    } else {
      assert ms[..k] == ms;
    }
  }

  /** The body of a prefix of the messages is a prefix of the body. */
  lemma {:induction false} BodyPrefix(ms: seq<Message>, k: nat, write: Message -> seq<Item>, stops: Message -> bool)
    requires k <= |ms|
    ensures Body(ms[..k], write, stops) <= Body(ms, write, stops)
    decreases |ms| - k
  {
    if k < |ms| {
      var init := ms[..|ms| - 1];
      assert ms[..k] == init[..k];
      BodyPrefix(init, k, write, stops);
    } else {
      assert ms[..k] == ms;
    }
  }

  /** One more message, when none before it stopped. */
  lemma BodyNext(ms: seq<Message>, i: nat, write: Message -> seq<Item>, stops: Message -> bool)
    requires i < |ms| && !Aborted(ms[..i], stops)
    ensures Body(ms[..i + 1], write, stops) == Body(ms[..i], write, stops) + write(ms[i])
    ensures Aborted(ms[..i + 1], stops) <==> stops(ms[i])
  {
    assert ms[..i + 1][..i] == ms[..i];
  }

  /**
   * The timestamp option adds the time comment right after BSM_PREFIX and
   * changes nothing else.
   */
  lemma TimestampOnlyAddsComment(d: Database, stamp: string, other: string)
    ensures DatabaseItems(d, true, stamp)[2] == TimeComment(stamp)
    ensures DatabaseItems(d, true, stamp)[..2] + DatabaseItems(d, true, stamp)[3..] == DatabaseItems(d, false, other)
  {
    var rest := Body(d.messages, TopLevel, MuxError) + (if Aborted(d.messages, MuxError) then [] else [DocSuffix]);
    assert DatabaseItems(d, true, stamp) == [GeneratorComment, DocPrefix, TimeComment(stamp)] + rest;
    assert DatabaseItems(d, false, other) == [GeneratorComment, DocPrefix] + rest;
  }

  /** The head of the document; the results of its writes are not checked. */
  method WriteHead(o: Stream, useTimeStamps: bool, stamp: string)
    modifies o
    ensures o.out == After(old(o.out), Head(useTimeStamps, stamp), o.capacity)
  {
    ghost var out0 := o.out;
    var ok := o.Put(GeneratorComment);
    ok := o.Put(DocPrefix);
    AfterAppend(out0, [GeneratorComment], [DocPrefix], o.capacity);
    if useTimeStamps {
      ok := o.Put(TimeComment(stamp));
      AfterAppend(out0, [GeneratorComment, DocPrefix], [TimeComment(stamp)], o.capacity);
    }
  }

  /** Writes that do not fit in the room left after `done` overflow the stream. */
  lemma Overflows(out: seq<Item>, done: seq<Item>, more: seq<Item>, capacity: nat)
    requires |more| > Room(After(out, done, capacity), capacity)
    ensures |done + more| > Room(out, capacity)
    ensures |After(out, done + more, capacity)| >= capacity
  {
    RoomAfter(out, done, capacity);
    AfterAppend(out, done, more, capacity);
  }

  /** Writes of at least one item that fit after `done` keep the whole run within the room. */
  lemma FitsAfter(out: seq<Item>, done: seq<Item>, more: seq<Item>, capacity: nat)
    requires 1 <= |more| <= Room(After(out, done, capacity), capacity)
    ensures |done + more| <= Room(out, capacity)
  {
    RoomAfter(out, done, capacity);
  }

  /** Every message writes at least its prefix. */
  lemma MessageItemsNonEmpty(m: Message, depth: nat)
    ensures |MessageItems(m, depth)| >= 1
  {
  }

  /** Writing message `i` after the ones before it. */
  lemma MessageStep(out: seq<Item>, head: seq<Item>, ms: seq<Message>, i: nat, capacity: nat,
                    write: Message -> seq<Item>, stops: Message -> bool)
    requires i < |ms| && !Aborted(ms[..i], stops)
    ensures After(After(out, head + Body(ms[..i], write, stops), capacity), write(ms[i]), capacity) ==
      After(out, head + Body(ms[..i + 1], write, stops), capacity)
    ensures Aborted(ms[..i + 1], stops) <==> stops(ms[i])
  {
    BodyNext(ms, i, write, stops);
    AfterAppend(out, head + Body(ms[..i], write, stops), write(ms[i]), capacity);
    assert head + Body(ms[..i], write, stops) + write(ms[i]) == head + Body(ms[..i + 1], write, stops);
  }

  /** A message that stops the run is the last one that writes anything. */
  lemma StoppedMessage(ms: seq<Message>, i: nat, write: Message -> seq<Item>, stops: Message -> bool)
    requires i < |ms| && !Aborted(ms[..i], stops) && stops(ms[i])
    ensures Aborted(ms, stops) && Body(ms, write, stops) == Body(ms[..i + 1], write, stops)
  {
    BodyNext(ms, i, write, stops);
    BodyStops(ms, i + 1, write, stops);
  }

  /**
   * When message `i` overflows the stream, nothing after it reaches the
   * stream: what was written is what writing everything would leave.
   */
  lemma OverflowedMessage(out: seq<Item>, head: seq<Item>, ms: seq<Message>, i: nat, capacity: nat,
                          write: Message -> seq<Item>, stops: Message -> bool, tail: seq<Item>)
    requires i < |ms| && !Aborted(ms[..i], stops)
    requires |write(ms[i])| > Room(After(out, head + Body(ms[..i], write, stops), capacity), capacity)
    ensures |head + Body(ms, write, stops)| > Room(out, capacity)
    ensures After(out, head + Body(ms[..i + 1], write, stops), capacity) ==
      After(out, head + Body(ms, write, stops) + tail, capacity)
  {
    BodyThrough(head, ms, i, write, stops);
    OverflowWithin(out, head + Body(ms[..i], write, stops), write(ms[i]), head + Body(ms, write, stops), tail, capacity);
  }

  /** The writes up to message `i`, when none before it stopped, are the earlier ones and its own, and begin all the writes. */
  lemma BodyThrough(head: seq<Item>, ms: seq<Message>, i: nat, write: Message -> seq<Item>, stops: Message -> bool)
    requires i < |ms| && !Aborted(ms[..i], stops)
    ensures head + Body(ms[..i + 1], write, stops) == head + Body(ms[..i], write, stops) + write(ms[i])
    ensures head + Body(ms[..i], write, stops) + write(ms[i]) <= head + Body(ms, write, stops)
  {
    BodyNext(ms, i, write, stops);
    BodyPrefix(ms, i + 1, write, stops);
    PrefixBehind(head, Body(ms[..i], write, stops), write(ms[i]), Body(ms[..i + 1], write, stops), Body(ms, write, stops));
  }

  /** A prefix `a + w` of `c` stays one behind a common head. */
  lemma PrefixBehind(head: seq<Item>, a: seq<Item>, w: seq<Item>, b: seq<Item>, c: seq<Item>)
    requires b == a + w && b <= c
    ensures head + b == head + a + w
    ensures head + a + w <= head + c
  {
    PrefixBetween(head, b, c, []);
    assert head + c + [] == head + c;
  }

  /** Writes that overflow the stream and are a prefix of all the writes leave what all of them would. */
  lemma OverflowWithin(out: seq<Item>, before: seq<Item>, more: seq<Item>, all: seq<Item>, tail: seq<Item>, capacity: nat)
    requires |more| > Room(After(out, before, capacity), capacity)
    requires before + more <= all
    ensures |all| > Room(out, capacity)
    ensures After(out, before + more, capacity) == After(out, all + tail, capacity)
  {
    Overflows(out, before, more, capacity);
    assert before + more <= all + tail by {
      PrefixBetween([], before + more, all, tail);
      assert [] + (before + more) == before + more && [] + all + tail == all + tail;
    }
    AfterFullExtends(out, before + more, all + tail, capacity);
  }

  /** A round that succeeded: the message fitted and did not stop the run. */
  lemma RoundWritten(out: seq<Item>, head: seq<Item>, ms: seq<Message>, i: nat, capacity: nat,
                     write: Message -> seq<Item>, stops: Message -> bool)
    requires i < |ms| && !Aborted(ms[..i], stops) && !stops(ms[i])
    requires 1 <= |write(ms[i])| <= Room(After(out, head + Body(ms[..i], write, stops), capacity), capacity)
    ensures !Aborted(ms[..i + 1], stops)
    ensures |head + Body(ms[..i + 1], write, stops)| <= Room(out, capacity)
  {
    var before := head + Body(ms[..i], write, stops);
    FitsAfter(out, before, write(ms[i]), capacity);
    BodyNext(ms, i, write, stops);
    assert before + write(ms[i]) == head + Body(ms[..i + 1], write, stops);
  }

  /** A round that failed: the run stopped there, or the stream overflowed. */
  lemma RoundFailed(out: seq<Item>, head: seq<Item>, ms: seq<Message>, i: nat, capacity: nat,
                    write: Message -> seq<Item>, stops: Message -> bool)
    requires i < |ms| && !Aborted(ms[..i], stops)
    requires stops(ms[i]) || |write(ms[i])| > Room(After(out, head + Body(ms[..i], write, stops), capacity), capacity)
    ensures Aborted(ms, stops) || |head + Body(ms, write, stops)| > Room(out, capacity)
    ensures After(out, head + Body(ms[..i + 1], write, stops), capacity) ==
      After(out, head + Body(ms, write, stops) + (if Aborted(ms, stops) then [] else [DocSuffix]), capacity)
  {
    if stops(ms[i]) {
      StoppedMessage(ms, i, write, stops);
    } else {
      OverflowedMessage(out, head, ms, i, capacity, write, stops,
        if Aborted(ms, stops) then [] else [DocSuffix]);
    }
  }

  /**
   * One round of the message loop of dbc2bsm: message `i`, written after
   * the ones before it.
   */
  method WriteMessage(ms: seq<Message>, i: nat, o: Stream, ghost out: seq<Item>, ghost head: seq<Item>)
    returns (res: int)
    requires i < |ms| && ValidMessage(ms[i]) && !Aborted(ms[..i], MuxError)
    requires o.out == After(out, head + Body(ms[..i], TopLevel, MuxError), o.capacity)
    requires i > 0 ==> |head + Body(ms[..i], TopLevel, MuxError)| <= Room(out, o.capacity)
    modifies o
    ensures res == 0 || res == -1
    ensures res == 0 ==> !Aborted(ms[..i + 1], MuxError)
    ensures res == 0 ==> |head + Body(ms[..i + 1], TopLevel, MuxError)| <= Room(out, o.capacity)
    ensures res == 0 ==> o.out == After(out, head + Body(ms[..i + 1], TopLevel, MuxError), o.capacity)
    ensures res == -1 ==> Aborted(ms, MuxError) || |head + Body(ms, TopLevel, MuxError)| > Room(out, o.capacity)
    ensures res == -1 ==>
      o.out == After(out, head + Body(ms, TopLevel, MuxError) + (if Aborted(ms, MuxError) then [] else [DocSuffix]), o.capacity)
  {
    res := Msg2Bsm(ms[i], o, 1);
    MessageStep(out, head, ms, i, o.capacity, TopLevel, MuxError);
    if res < 0 {
      RoundFailed(out, head, ms, i, o.capacity, TopLevel, MuxError);
    } else {
      MessageItemsNonEmpty(ms[i], 1);
      RoundWritten(out, head, ms, i, o.capacity, TopLevel, MuxError);
    }
  }

  /**
   * The message loop of dbc2bsm, after `head` was written to a stream that
   * held `out`: each message at depth 1, returning -1 at the first one that
   * fails.  On failure the stream holds what writing the whole document
   * would leave there.
   */
  method WriteMessages(ms: seq<Message>, o: Stream, ghost out: seq<Item>, ghost head: seq<Item>) returns (r: int)
    requires forall i :: 0 <= i < |ms| ==> ValidMessage(ms[i])
    requires o.out == After(out, head, o.capacity)
    modifies o
    ensures r == 0 || r == -1
    ensures r == 0 <==> !Aborted(ms, MuxError) && (ms == [] || |head + Body(ms, TopLevel, MuxError)| <= Room(out, o.capacity))
    ensures r == 0 ==> o.out == After(out, head + Body(ms, TopLevel, MuxError), o.capacity)
    ensures r == -1 ==> o.out == After(out, head + Body(ms, TopLevel, MuxError) +
      (if Aborted(ms, MuxError) then [] else [DocSuffix]), o.capacity)
  {
    var i := 0;
    assert ms[..0] == [];
    while i < |ms|
      invariant i <= |ms|
      invariant !Aborted(ms[..i], MuxError)
      invariant o.out == After(out, head + Body(ms[..i], TopLevel, MuxError), o.capacity)
      invariant i > 0 ==> |head + Body(ms[..i], TopLevel, MuxError)| <= Room(out, o.capacity)
    {
      var res := WriteMessage(ms, i, o, out, head);
      if res < 0 {
        return -1;
      }
      i := i + 1;
    }
    assert ms[..i] == ms;
    r := 0;
  }

  /**
   * dbc2bsm: writes the generator comment, BSM_PREFIX and, when asked, the
   * time comment; then each message at depth 1 in index order, returning
   * -1 at the first message that fails; then BSM_SUFFIX.  The clock is the
   * parameter `stamp`.
   */
  method Dbc2Bsm(d: Database, o: Stream, useTimeStamps: bool, stamp: string) returns (r: int)
    requires ValidDatabase(d)
    modifies o
    ensures o.out == After(old(o.out), DatabaseItems(d, useTimeStamps, stamp), o.capacity)
    ensures r == 0 || r == -1
    ensures r == 0 <==>
      !Aborted(d.messages, MuxError) &&
      (d.messages == [] || |Head(useTimeStamps, stamp) + Body(d.messages, TopLevel, MuxError)| <= Room(old(o.out), o.capacity))
  {
    ghost var out0 := o.out;
    ghost var head := Head(useTimeStamps, stamp);
    WriteHead(o, useTimeStamps, stamp);
    r := WriteMessages(d.messages, o, out0, head);
    if r < 0 {
      return;
    }
    var ok := o.Put(DocSuffix);
    AfterAppend(out0, head + Body(d.messages, TopLevel, MuxError), [DocSuffix], o.capacity);
  }

  // ---------------------------------------------------------------------
  // Example
  // ---------------------------------------------------------------------

  /**
   * One message, id 100, holding one unsigned 8-bit signal Foo at bit 0:
   * payload size 8, one Whole block with Bits="0" Size=8 and eight flipped
   * tokens, no fillers.
   */
  lemma SingleSignalMessageExample()
    ensures var foo := Plain("Foo", 0, 8);
      MessageItems(Message("Msg", "ECU", 1, 100, [foo]), 1) ==
        [ Text("\t"),
          MessagePrefix("Msg", 100, 100, 8),
          BlockOpen("Foo", Whole),
          BlockEntry("Foo", Whole, false, Bits, "0", 8),
          BlockEntry("Foo", Whole, true, MultiBits, "1,1,1,1,1,1,1,1", 8),
          BlockClose,
          MessageSuffix ]
  {
    var foo := Plain("Foo", 0, 8);
    SingleByteExample();
    assert [Real(foo)][..0] == [];
    assert OnesText(8) == "1,1,1,1,1,1,1,1";
  }
}
