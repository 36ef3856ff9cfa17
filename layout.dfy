/**
 * The layout analysis msg2bsm does over a message's signals: the padding
 * pass, which adds up signal lengths and gaps and rounds the sum to a
 * payload size, and the emission plan, which drops multiplexor and
 * multiplexed signals, puts an UNKNOWN filler in every gap and fails on a
 * second multiplexor.
 */
module Layout {
  import opened Model
  import opened SignalSort

  /** The bit just past a signal. */
  function End(s: Signal): nat
  {
    s.startBit + s.bitLength
  }

  // ---------------------------------------------------------------------
  // Padding pass
  // ---------------------------------------------------------------------

  /** The accumulators `padding_size` and `last_bit` of the first pass. */
  datatype PadState = PadState(sum: nat, last: nat)

  /** One signal of the first pass: a gap before it counts, then its length. */
  function PadStep(st: PadState, s: Signal): PadState
  {
    if st.last < s.startBit then PadState(st.sum + (s.startBit - st.last) + s.bitLength, End(s))
    else PadState(st.sum + s.bitLength, End(s))
  }

  /** The first pass over `ss`, in order, from `padding_size = last_bit = 0`. */
  function PadFold(ss: seq<Signal>): PadState
  {
    if ss == [] then PadState(0, 0) else PadStep(PadFold(ss[..|ss| - 1]), ss[|ss| - 1])
  }

  /** The raw padding sum, before rounding. */
  function RawPadding(ss: seq<Signal>): nat
  {
    PadFold(ss).sum
  }

  /** The payload sizes the sum is rounded up to. */
  const LADDER: seq<nat> := [8, 16, 24, 32]

  /**
   * The rounding chain: a sum of at most 32 becomes the least size of the
   * ladder that holds it; a larger sum is left as it is.
   */
  function RoundPadding(p: nat): (r: nat)
    ensures r >= p
    ensures p <= 32 ==> r in LADDER && forall v :: v in LADDER && v >= p ==> r <= v
    ensures p > 32 ==> r == p
  {
    if p <= 8 then 8
    else if p <= 16 then 16
    else if p <= 24 then 24
    else if p <= 32 then 32
    else p
  }

  /** The payload size msg2bsm writes into the message prefix. */
  function Padding(ss: seq<Signal>): nat
  {
    RoundPadding(RawPadding(ss))
  }

  /** The sum never falls behind `last_bit` and never shrinks. */
  lemma {:induction false} PadFoldCovers(ss: seq<Signal>)
    ensures PadFold(ss).sum >= PadFold(ss).last
    ensures ss != [] ==> PadFold(ss).last == End(ss[|ss| - 1])
    ensures forall i :: 0 <= i < |ss| ==> End(ss[i]) <= PadFold(ss).sum
  {
    if ss != [] {
      var init := ss[..|ss| - 1];
      PadFoldCovers(init);
      forall i | 0 <= i < |ss|
        ensures End(ss[i]) <= PadFold(ss).sum
      {
        if i < |ss| - 1 {
          assert ss[i] == init[i];
        }
      }
    }
  }

  /** The raw padding reaches past the end of every signal, multiplexed ones included. */
  lemma RawPaddingCoversAll(ss: seq<Signal>)
    ensures forall s :: s in ss ==> End(s) <= RawPadding(ss)
  {
    PadFoldCovers(ss);
  }

  /** No two signals share a bit and they run in ascending order. */
  ghost predicate Disjoint(ss: seq<Signal>)
  {
    forall i :: 0 < i < |ss| ==> End(ss[i - 1]) <= ss[i].startBit
  }

  /** For disjoint signals in ascending order the raw padding is the end of the last one. */
  lemma {:induction false} RawPaddingOfDisjoint(ss: seq<Signal>)
    requires Disjoint(ss)
    ensures RawPadding(ss) == if ss == [] then 0 else End(ss[|ss| - 1])
  {
    if ss != [] {
      var init := ss[..|ss| - 1];
      assert Disjoint(init) by {
        forall i | 0 < i < |init|
          ensures End(init[i - 1]) <= init[i].startBit
        {
          assert init[i - 1] == ss[i - 1] && init[i] == ss[i];
        }
      }
      RawPaddingOfDisjoint(init);
      PadFoldCovers(init);
      if init != [] {
        assert init[|init| - 1] == ss[|ss| - 2];
      }
    }
  }

  // ---------------------------------------------------------------------
  // Emission plan
  // ---------------------------------------------------------------------

  /** One signal block the second pass emits: a real signal or a filler for a gap. */
  datatype Entry = Real(signal: Signal) | Gap(start: nat, length: nat)

  /** The zeroed `unknownsig` with its name, units, start bit and length set. */
  function Filler(start: nat, length: nat): (r: Signal)
    ensures r.name == "UNKNOWN" && r.units == []
    ensures r.startBit == start && r.bitLength == length
    ensures !r.isMultiplexor && !r.isMultiplexed
  {
    Signal("UNKNOWN", start, length, Motorola, false, "0", "0", "0", "0", "", false, false, 0)
  }

  /** The signal signal2bsm is given for an entry. */
  function EntrySignal(e: Entry): Signal
  {
    match e
    case Real(s) => s
    case Gap(start, length) => Filler(start, length)
  }

  /** Where the entry before position `i` ends; the walk starts at bit 0. */
  function EndBefore(es: seq<Entry>, i: nat): nat
    requires i <= |es|
  {
    if i == 0 then 0 else End(EntrySignal(es[i - 1]))
  }

  /**
   * The state of the second pass: the entries emitted so far, `last_bit`,
   * whether a multiplexor has been seen, and whether a second one stopped
   * the pass.
   */
  datatype PlanState = PlanState(entries: seq<Entry>, last: nat, seenMux: bool, failed: bool)

  /** One signal of the second pass. */
  function PlanStep(st: PlanState, s: Signal): PlanState
  {
    if st.failed then st
    else if s.isMultiplexor then
      (if st.seenMux then st.(failed := true) else st.(seenMux := true))
    else if s.isMultiplexed then st
    else if st.last < s.startBit then
      st.(entries := st.entries + [Gap(st.last, s.startBit - st.last), Real(s)], last := End(s))
    else
      st.(entries := st.entries + [Real(s)], last := End(s))
  }

  /** The second pass over `ss`, in order. */
  function PlanFold(ss: seq<Signal>): PlanState
  {
    if ss == [] then PlanState([], 0, false, false)
    else PlanStep(PlanFold(ss[..|ss| - 1]), ss[|ss| - 1])
  }

  /** The number of multiplexor signals. */
  function MuxCount(ss: seq<Signal>): nat
  {
    if ss == [] then 0
    else MuxCount(ss[..|ss| - 1]) + (if ss[|ss| - 1].isMultiplexor then 1 else 0)
  }

  /** The signals the second pass emits: neither multiplexor nor multiplexed. */
  function Ordinary(ss: seq<Signal>): seq<Signal>
  {
    if ss == [] then []
    else
      var last := ss[|ss| - 1];
      Ordinary(ss[..|ss| - 1]) + (if last.isMultiplexor || last.isMultiplexed then [] else [last])
  }

  /** The real signals among the entries, in order. */
  function Reals(es: seq<Entry>): seq<Signal>
  {
    if es == [] then []
    else (if es[0].Real? then [es[0].signal] else []) + Reals(es[1..])
  }

  lemma RealsAppend(a: seq<Entry>, b: seq<Entry>)
    ensures Reals(a + b) == Reals(a) + Reals(b)
  {
    if a == [] {
      assert a + b == b;
    } else {
      assert (a + b)[1..] == a[1..] + b;
      RealsAppend(a[1..], b);
    }
  }

  /** The pass fails exactly when there are two or more multiplexors; a multiplexor has been seen exactly when there is one. */
  lemma {:induction false} PlanFailsOnSecondMux(ss: seq<Signal>)
    ensures PlanFold(ss).failed <==> MuxCount(ss) >= 2
    ensures PlanFold(ss).seenMux <==> MuxCount(ss) >= 1
  {
    if ss != [] {
      PlanFailsOnSecondMux(ss[..|ss| - 1]);
    }
  }

  /** Once failed, the pass ignores every further signal. */
  lemma {:induction false} PlanFailSticks(p: seq<Signal>, q: seq<Signal>)
    requires PlanFold(p).failed
    ensures PlanFold(p + q) == PlanFold(p)
    decreases |q|
  {
    if q == [] {
      assert p + q == p;
    } else {
      assert (p + q)[..|p + q| - 1] == p + q[..|q| - 1];
      PlanFailSticks(p, q[..|q| - 1]);
    }
  }

  /** A pass that does not fail emits exactly the ordinary signals, in their order. */
  lemma {:induction false} PlanRealsAreOrdinary(ss: seq<Signal>)
    ensures !PlanFold(ss).failed ==> Reals(PlanFold(ss).entries) == Ordinary(ss)
  {
    if ss != [] {
      var init := ss[..|ss| - 1];
      PlanRealsAreOrdinary(init);
      var st := PlanFold(init);
      var s := ss[|ss| - 1];
      if !st.failed && !s.isMultiplexor && !s.isMultiplexed {
        assert Ordinary(ss) == Ordinary(init) + [s];
        var added := if st.last < s.startBit then [Gap(st.last, s.startBit - st.last), Real(s)] else [Real(s)];
        assert PlanFold(ss).entries == st.entries + added;
        assert [Real(s)][1..] == [];
        assert Reals([Real(s)]) == [s] + Reals([]);
        if st.last < s.startBit {
          assert added[1..] == [Real(s)];
          assert Reals(added) == Reals(added[1..]);
        }
        RealsAppend(st.entries, added);
      }
    }
  }

  /** Each entry starts no later than the entry before it ends, so no bit range is skipped. */
  ghost predicate NoHoles(es: seq<Entry>)
  {
    forall i {:trigger EndBefore(es, i)} :: 0 <= i < |es| ==> EntrySignal(es[i]).startBit <= EndBefore(es, i)
  }

  /**
   * A filler starts where the entry before it ends, is not empty, and is
   * followed by the real signal that starts where the filler ends; so the
   * plan never ends in a filler.
   */
  ghost predicate GapsPlaced(es: seq<Entry>)
  {
    forall i {:trigger EndBefore(es, i)} :: 0 <= i < |es| && es[i].Gap? ==>
      && es[i].start == EndBefore(es, i)
      && es[i].length > 0
      && i + 1 < |es|
      && es[i + 1].Real?
      && es[i + 1].signal.startBit == es[i].start + es[i].length
  }

  lemma NoHolesAppend(es: seq<Entry>, e: Entry)
    requires NoHoles(es)
    requires EntrySignal(e).startBit <= EndBefore(es, |es|)
    ensures NoHoles(es + [e])
  {
    var es' := es + [e];
    forall i | 0 <= i < |es'|
      ensures EntrySignal(es'[i]).startBit <= EndBefore(es', i)
    {
      if i < |es| {
        assert es'[i] == es[i];
        if i > 0 {
          assert es'[i - 1] == es[i - 1];
        }
        assert EndBefore(es', i) == EndBefore(es, i);
      }
    }
  }

  lemma GapsPlacedReal(es: seq<Entry>, s: Signal)
    requires GapsPlaced(es)
    requires es != [] ==> es[|es| - 1].Real?
    ensures GapsPlaced(es + [Real(s)])
  {
    var es' := es + [Real(s)];
    forall i | 0 <= i < |es'| && es'[i].Gap?
      ensures es'[i].start == EndBefore(es', i) && es'[i].length > 0
      ensures i + 1 < |es'| && es'[i + 1].Real?
      ensures es'[i + 1].signal.startBit == es'[i].start + es'[i].length
    {
      assert es'[i] == es[i];
      if i > 0 {
        assert es'[i - 1] == es[i - 1];
      }
      assert EndBefore(es', i) == EndBefore(es, i);
      assert es'[i + 1] == es[i + 1];
    }
  }

  lemma GapsPlacedGap(es: seq<Entry>, last: nat, s: Signal)
    requires GapsPlaced(es)
    requires last == EndBefore(es, |es|) && last < s.startBit
    ensures GapsPlaced(es + [Gap(last, s.startBit - last), Real(s)])
  {
    var es' := es + [Gap(last, s.startBit - last), Real(s)];
    forall i | 0 <= i < |es'| && es'[i].Gap?
      ensures es'[i].start == EndBefore(es', i) && es'[i].length > 0
      ensures i + 1 < |es'| && es'[i + 1].Real?
      ensures es'[i + 1].signal.startBit == es'[i].start + es'[i].length
    {
      if i < |es| {
        assert es'[i] == es[i];
        if i > 0 {
          assert es'[i - 1] == es[i - 1];
        }
        assert EndBefore(es', i) == EndBefore(es, i);
        if i + 1 < |es| {
          assert es'[i + 1] == es[i + 1];
        }
      }
    }
  }

  /** The last entry of a plan, if any, is a real signal taken from the input. */
  lemma {:induction false} PlanEndsInInput(ss: seq<Signal>)
    ensures var es := PlanFold(ss).entries;
      es != [] ==> es[|es| - 1].Real? && es[|es| - 1].signal in ss
  {
    if ss != [] {
      var init := ss[..|ss| - 1];
      PlanEndsInInput(init);
      var es := PlanFold(init).entries;
      if PlanFold(ss).entries == es && es != [] {
        var j :| 0 <= j < |init| && init[j] == es[|es| - 1].signal;
        assert ss[j] == init[j];
      }
    }
  }

  /** A well-placed plan in which `last_bit` is where it ends. */
  ghost predicate WellPlaced(es: seq<Entry>, last: nat)
  {
    NoHoles(es) && GapsPlaced(es) && last == EndBefore(es, |es|)
  }

  /** A filler for the gap before `s`, then `s`, keep the plan well placed. */
  lemma WellPlacedGap(es: seq<Entry>, last: nat, s: Signal)
    requires WellPlaced(es, last) && last < s.startBit
    ensures WellPlaced(es + [Gap(last, s.startBit - last), Real(s)], End(s))
  {
    var g := Gap(last, s.startBit - last);
    NoHolesAppend(es, g);
    NoHolesAppend(es + [g], Real(s));
    assert es + [g] + [Real(s)] == es + [g, Real(s)];
    GapsPlacedGap(es, last, s);
  }

  /** A signal that starts no later than the plan ends keeps it well placed. */
  lemma WellPlacedReal(es: seq<Entry>, last: nat, s: Signal)
    requires WellPlaced(es, last) && s.startBit <= last
    requires es != [] ==> es[|es| - 1].Real?
    ensures WellPlaced(es + [Real(s)], End(s))
  {
    NoHolesAppend(es, Real(s));
    GapsPlacedReal(es, s);
  }

  /** One step of the second pass keeps the plan well placed. */
  lemma PlanStepWellPlaced(st: PlanState, s: Signal)
    requires WellPlaced(st.entries, st.last)
    requires st.entries != [] ==> st.entries[|st.entries| - 1].Real?
    ensures WellPlaced(PlanStep(st, s).entries, PlanStep(st, s).last)
  {
    if !st.failed && !s.isMultiplexor && !s.isMultiplexed {
      if st.last < s.startBit {
        WellPlacedGap(st.entries, st.last, s);
      } else {
        WellPlacedReal(st.entries, st.last, s);
      }
    }
  }

  /** Every plan has no holes and well-placed fillers, and `last_bit` is where it ends. */
  lemma {:induction false} PlanWellPlaced(ss: seq<Signal>)
    ensures NoHoles(PlanFold(ss).entries) && GapsPlaced(PlanFold(ss).entries)
    ensures PlanFold(ss).last == EndBefore(PlanFold(ss).entries, |PlanFold(ss).entries|)
  {
    if ss != [] {
      var init := ss[..|ss| - 1];
      PlanWellPlaced(init);
      PlanEndsInInput(init);
      PlanStepWellPlaced(PlanFold(init), ss[|ss| - 1]);
    }
  }

  /** Entries in ascending order of start bit. */
  ghost predicate Ascending(es: seq<Entry>)
  {
    forall i, j :: 0 <= i < j < |es| ==> EntrySignal(es[i]).startBit <= EntrySignal(es[j]).startBit
  }

  lemma AscendingAppend(es: seq<Entry>, e: Entry)
    requires Ascending(es)
    requires es != [] ==> EntrySignal(es[|es| - 1]).startBit <= EntrySignal(e).startBit
    ensures Ascending(es + [e])
  {
    var es' := es + [e];
    forall i | 0 < i < |es'|
      ensures EntrySignal(es'[i - 1]).startBit <= EntrySignal(es'[i]).startBit
    {
      assert es'[i - 1] == es[i - 1];
      if i < |es| {
        assert es'[i] == es[i];
      }
    }
  }

  /**
   * One step of the second pass keeps the plan ascending when the signal
   * starts no earlier than the last entry does.
   */
  lemma PlanStepAscending(st: PlanState, s: Signal)
    requires Ascending(st.entries)
    requires st.last == EndBefore(st.entries, |st.entries|)
    requires st.entries != [] ==> EntrySignal(st.entries[|st.entries| - 1]).startBit <= s.startBit
    ensures Ascending(PlanStep(st, s).entries)
  {
    var es := st.entries;
    if !st.failed && !s.isMultiplexor && !s.isMultiplexed {
      if st.last < s.startBit {
        var g := Gap(st.last, s.startBit - st.last);
        AscendingAppend(es, g);
        AscendingAppend(es + [g], Real(s));
        assert es + [g] + [Real(s)] == es + [g, Real(s)];
      } else {
        AscendingAppend(es, Real(s));
      }
    }
  }

  /** A prefix of a sorted sequence is sorted. */
  lemma SortedPrefix(ss: seq<Signal>, k: nat)
    requires Sorted(ss) && k <= |ss|
    ensures Sorted(ss[..k])
  {
    forall i, j | 0 <= i < j < k
      ensures ss[..k][i].startBit <= ss[..k][j].startBit
    {
      assert ss[..k][i] == ss[i] && ss[..k][j] == ss[j];
    }
  }

  /** With the signals sorted by start bit, as ast2msg leaves them, the plan comes out in ascending bit order. */
  lemma {:induction false} PlanAscending(ss: seq<Signal>)
    requires Sorted(ss)
    ensures Ascending(PlanFold(ss).entries)
  {
    if ss != [] {
      var init := ss[..|ss| - 1];
      SortedPrefix(ss, |ss| - 1);
      PlanAscending(init);
      PlanWellPlaced(init);
      PlanEndsInInput(init);
      var es := PlanFold(init).entries;
      var s := ss[|ss| - 1];
      if es != [] {
        var r := es[|es| - 1].signal;
        var j :| 0 <= j < |init| && init[j] == r;
        assert ss[j] == r;
      }
      PlanStepAscending(PlanFold(init), s);
    }
  }

  /** The bits the plan's entries cover, counted with multiplicity. */
  function TotalLength(es: seq<Entry>): nat
  {
    if es == [] then 0 else EntrySignal(es[0]).bitLength + TotalLength(es[1..])
  }

  lemma TotalLengthAppend(a: seq<Entry>, b: seq<Entry>)
    ensures TotalLength(a + b) == TotalLength(a) + TotalLength(b)
  {
    if a == [] {
      assert a + b == b;
    } else {
      assert (a + b)[1..] == a[1..] + b;
      TotalLengthAppend(a[1..], b);
    }
  }

  /**
   * Without multiplexing the two passes agree: the raw padding is the total
   * length of the emitted entries, fillers included, and both passes end
   * with the same `last_bit`.
   */
  lemma {:induction false} PassesAgree(ss: seq<Signal>)
    requires forall i :: 0 <= i < |ss| ==> !ss[i].isMultiplexor && !ss[i].isMultiplexed
    ensures !PlanFold(ss).failed
    ensures RawPadding(ss) == TotalLength(PlanFold(ss).entries)
    ensures PadFold(ss).last == PlanFold(ss).last
  {
    if ss != [] {
      var init := ss[..|ss| - 1];
      PassesAgree(init);
      var st := PlanFold(init);
      var s := ss[|ss| - 1];
      if st.last < s.startBit {
        TotalLengthAppend(st.entries, [Gap(st.last, s.startBit - st.last), Real(s)]);
        assert [Gap(st.last, s.startBit - st.last), Real(s)][1..] == [Real(s)];
        assert [Real(s)][1..] == [];
      } else {
        TotalLengthAppend(st.entries, [Real(s)]);
        assert [Real(s)][1..] == [];
      }
    }
  }

  // ---------------------------------------------------------------------
  // Examples
  // ---------------------------------------------------------------------

  function Plain(name: string, start: nat, length: nat): Signal
  {
    Signal(name, start, length, Motorola, false, "1", "0", "0", "255", "", false, false, 0)
  }

  /** One 8-bit signal at bit 0: padded to 8, emitted alone. */
  lemma SingleByteExample()
    ensures Padding([Plain("Foo", 0, 8)]) == 8
    ensures PlanFold([Plain("Foo", 0, 8)]).entries == [Real(Plain("Foo", 0, 8))]
  {
    assert [Plain("Foo", 0, 8)][..0] == [];
  }

  /**
   * Signals at bits [0,8) and [16,24): a filler for [8,16) goes between
   * them and the 24 bits pad to 24.
   */
  lemma GapExample()
    ensures Padding([Plain("A", 0, 8), Plain("B", 16, 8)]) == 24
    ensures PlanFold([Plain("A", 0, 8), Plain("B", 16, 8)]).entries ==
      [Real(Plain("A", 0, 8)), Gap(8, 8), Real(Plain("B", 16, 8))]
  {
    var ss := [Plain("A", 0, 8), Plain("B", 16, 8)];
    assert ss[..1] == [Plain("A", 0, 8)];
    assert ss[..1][..0] == [];
    assert PadFold(ss[..1]) == PadState(8, 8);
    assert PadFold(ss) == PadState(24, 24);
  }
}
