/**
 * The model builder: signals, messages and the database built from the
 * syntax tree. A failed assertion, or a NULL or out-of-range node the source
 * would dereference, stops the build with a BuildError.
 */
module Can {
  import opened Results
  import opened Ast
  import opened Decimal
  import opened Model
  import opened SignalSort

  datatype BuildError =
    | MissingNode(tag: string)               // a lookup found nothing and its result is dereferenced
    | MissingChild(tag: string, index: nat)  // children[index] of the node is read past its end
    | NotANumber(tag: string)                // sscanf "%u" converted nothing
    | StartBitTooLarge(startBit: nat)        // start bit above 64
    | LengthTooLarge(bitLength: nat)         // length above 64
    | BadEndianness(c: char)                 // neither '0' nor '1'
    | BadSign(c: char)                       // neither '+' nor '-'
    | MultiplexConflict                      // multiplexed and multiplexor at once

  const NAME_TAG := "name|ident|regex"
  const START_TAG := "startbit|integer|regex"
  const LENGTH_TAG := "length|regex"
  const ENDIAN_TAG := "endianess|char"
  const SIGN_TAG := "sign|char"
  const SCALE_TAG := "y_mx_c|>"
  const RANGE_TAG := "range|>"
  const UNIT_TAG := "unit|string|>"
  const UNIT_TEXT_TAG := "regex"
  const MUX_VALUE_TAG := "multiplexor|>"
  const MUX_MARK_TAG := "multiplexor|char"
  const ECU_TAG := "ecu|ident|regex"
  const DLC_TAG := "dlc|integer|regex"
  const ID_TAG := "id|integer|regex"
  const SIGNAL_TAG := "signal|>"
  const MESSAGES_TAG := "messages|>"
  const MESSAGE_TAG := "message|>"

  /** The first character of a node's text; the terminator when the text is empty. */
  function FirstChar(s: string): char
  {
    if s == [] then '\0' else s[0]
  }

  function Field(n: Node, tag: string): (r: Result<Node, BuildError>)
    ensures r.Ok? <==> Child(n, tag).Some?
    ensures r.Ok? ==> r.value == Child(n, tag).value
  {
    match Child(n, tag)
    case None => Err(MissingNode(tag))
    case Some(c) => Ok(c)
  }

  function ChildAt(n: Node, tag: string, index: nat): Result<Node, BuildError>
  {
    if index < |n.children| then Ok(n.children[index]) else Err(MissingChild(tag, index))
  }

  /** The unsigned value of a field's text, when the field exists and converts. */
  function UnsignedOf(n: Node, tag: string): Option<nat>
  {
    match Child(n, tag)
    case None => None
    case Some(c) => ParseUnsigned(c.contents)
  }

  function UnsignedField(n: Node, tag: string): (r: Result<nat, BuildError>)
    ensures r.Ok? <==> UnsignedOf(n, tag).Some?
    ensures r.Ok? ==> r.value == UnsignedOf(n, tag).value
  {
    var f :- Field(n, tag);
    match ParseUnsigned(f.contents)
    case None => Err(NotANumber(tag))
    case Some(v) => Ok(v)
  }

  /** The character field `tag` spells, or the terminator when it is absent. */
  function CharOf(n: Node, tag: string): char
  {
    match Child(n, tag)
    case None => '\0'
    case Some(c) => FirstChar(c.contents)
  }

  /** Start bit and length both convert and neither exceeds 64. */
  predicate WellFormedBits(n: Node)
  {
    && UnsignedOf(n, START_TAG).Some? && UnsignedOf(n, START_TAG).value <= 64
    && UnsignedOf(n, LENGTH_TAG).Some? && UnsignedOf(n, LENGTH_TAG).value <= 64
  }

  /** The endianness character is '0' or '1' and the sign character '+' or '-'. */
  predicate WellFormedEncoding(n: Node)
  {
    && Child(n, ENDIAN_TAG).Some? && (CharOf(n, ENDIAN_TAG) == '0' || CharOf(n, ENDIAN_TAG) == '1')
    && Child(n, SIGN_TAG).Some? && (CharOf(n, SIGN_TAG) == '+' || CharOf(n, SIGN_TAG) == '-')
  }

  /** The scaling pair, the range pair and the unit text are all present. */
  predicate WellFormedScaling(n: Node)
  {
    && Child(n, SCALE_TAG).Some? && |Child(n, SCALE_TAG).value.children| >= 4
    && Child(n, RANGE_TAG).Some? && |Child(n, RANGE_TAG).value.children| >= 4
    && Child(n, UNIT_TAG).Some? && Child(Child(n, UNIT_TAG).value, UNIT_TEXT_TAG).Some?
  }

  /** A multiplex value carries its number, and is not combined with a multiplexor marker. */
  predicate WellFormedMultiplexing(n: Node)
  {
    && (Child(n, MUX_VALUE_TAG).Some? ==> |Child(n, MUX_VALUE_TAG).value.children| >= 2)
    && !(Child(n, MUX_VALUE_TAG).Some? && Child(n, MUX_MARK_TAG).Some?)
  }

  /** Every node of `nodes` is a well-formed signal node. */
  predicate AllWellFormedSignals(nodes: seq<Node>)
  {
    forall i :: 0 <= i < |nodes| ==> WellFormedSignal(nodes[i])
  }

  /** The shape ast2signal accepts, stated field by field. */
  predicate WellFormedSignal(n: Node)
  {
    && Child(n, NAME_TAG).Some?
    && WellFormedBits(n)
    && WellFormedEncoding(n)
    && WellFormedScaling(n)
    && WellFormedMultiplexing(n)
  }

  /** Start bit and length, each asserted to be at most 64 (can.c's sscanf "%u" and assert). */
  function BitRange(n: Node): (r: Result<(nat, nat), BuildError>)
    ensures r.Ok? <==> WellFormedBits(n)
    ensures r.Ok? ==> r.value == (UnsignedOf(n, START_TAG).value, UnsignedOf(n, LENGTH_TAG).value)
  {
    var start :- UnsignedField(n, START_TAG);
    if start > 64 then Err(StartBitTooLarge(start)) else
    var length :- UnsignedField(n, LENGTH_TAG);
    if length > 64 then Err(LengthTooLarge(length)) else
    Ok((start, length))
  }

  /** Endianness from '0'/'1' and signedness from '+'/'-'. */
  function Encoding(n: Node): (r: Result<(Endianness, bool), BuildError>)
    ensures r.Ok? <==> WellFormedEncoding(n)
    ensures r.Ok? ==> (r.value.0 == Motorola <==> CharOf(n, ENDIAN_TAG) == '0')
    ensures r.Ok? ==> (r.value.0 == Intel <==> CharOf(n, ENDIAN_TAG) == '1')
    ensures r.Ok? ==> (r.value.1 <==> CharOf(n, SIGN_TAG) == '-')
  {
    var endian :- Field(n, ENDIAN_TAG);
    var endChar := FirstChar(endian.contents);
    if endChar != '0' && endChar != '1' then Err(BadEndianness(endChar)) else
    var sign :- Field(n, SIGN_TAG);
    var signChar := FirstChar(sign.contents);
    if signChar != '+' && signChar != '-' then Err(BadSign(signChar)) else
    Ok((if endChar == '0' then Motorola else Intel, signChar == '-'))
  }

  /** The uninterpreted texts of scaling, offset, minimum, maximum and units. */
  datatype Scaling = Scaling(scaling: string, offset: string, minimum: string, maximum: string, units: string)

  /** The texts y_mx_c, range and units read from a well-formed signal node. */
  function ScalingTexts(n: Node): Scaling
    requires WellFormedScaling(n)
  {
    var scale := Child(n, SCALE_TAG).value;
    var range := Child(n, RANGE_TAG).value;
    Scaling(scale.children[1].contents, scale.children[3].contents,
            range.children[1].contents, range.children[3].contents,
            Child(Child(n, UNIT_TAG).value, UNIT_TEXT_TAG).value.contents)
  }

  /** y_mx_c, range and units: children 1 and 3 of the pairs, the regex child of the unit. */
  function ScalingOf(n: Node): (r: Result<Scaling, BuildError>)
    ensures r.Ok? <==> WellFormedScaling(n)
    ensures r.Ok? ==> r.value == ScalingTexts(n)
  {
    var scale :- Field(n, SCALE_TAG);
    var scaling :- ChildAt(scale, SCALE_TAG, 1);
    var offset :- ChildAt(scale, SCALE_TAG, 3);
    var range :- Field(n, RANGE_TAG);
    var minimum :- ChildAt(range, RANGE_TAG, 1);
    var maximum :- ChildAt(range, RANGE_TAG, 3);
    var unit :- Field(n, UNIT_TAG);
    var unitText :- Field(unit, UNIT_TEXT_TAG);
    Ok(Scaling(scaling.contents, offset.contents, minimum.contents, maximum.contents, unitText.contents))
  }

  /** The multiplexing flags and switch value (is_multiplexor, is_multiplexed, switchval). */
  datatype Multiplexing = Multiplexing(isMultiplexor: bool, isMultiplexed: bool, switchValue: int)

  function MultiplexingOf(n: Node): (r: Result<Multiplexing, BuildError>)
    ensures r.Ok? <==> WellFormedMultiplexing(n)
    ensures r.Ok? ==> (r.value.isMultiplexed <==> Child(n, MUX_VALUE_TAG).Some?)
    ensures r.Ok? ==> (r.value.isMultiplexor <==> Child(n, MUX_MARK_TAG).Some?)
    ensures r.Ok? ==> !(r.value.isMultiplexor && r.value.isMultiplexed)
    ensures r.Ok? && !r.value.isMultiplexed ==> r.value.switchValue == 0
    ensures r.Ok? && r.value.isMultiplexed ==>
      r.value.switchValue == ParseLong(Child(n, MUX_VALUE_TAG).value.children[1].contents)
  {
    var muxValue :- match Child(n, MUX_VALUE_TAG)
      case None => Ok(None)
      case Some(m) => (var v :- ChildAt(m, MUX_VALUE_TAG, 1); Ok(Some(ParseLong(v.contents))));
    var isMultiplexor := Child(n, MUX_MARK_TAG).Some?;
    if isMultiplexor && muxValue.Some? then Err(MultiplexConflict) else
    Ok(Multiplexing(isMultiplexor, muxValue.Some?, if muxValue.Some? then muxValue.value else 0))
  }

  /**
   * ast2signal: reads the fields of one signal node in the order the source
   * dereferences them and checks its assertions.
   */
  function Ast2Signal(n: Node): Result<Signal, BuildError>
  {
    var name :- Field(n, NAME_TAG);
    var bits :- BitRange(n);
    var encoding :- Encoding(n);
    var scaling :- ScalingOf(n);
    var mux :- MultiplexingOf(n);
    Ok(Signal(
      name := name.contents,
      startBit := bits.0,
      bitLength := bits.1,
      endianness := encoding.0,
      isSigned := encoding.1,
      scaling := scaling.scaling,
      offset := scaling.offset,
      minimum := scaling.minimum,
      maximum := scaling.maximum,
      units := scaling.units,
      isMultiplexor := mux.isMultiplexor,
      isMultiplexed := mux.isMultiplexed,
      switchValue := mux.switchValue))
  }

  /** ast2signal succeeds exactly on a well-formed signal node. */
  lemma Ast2SignalSucceeds(n: Node)
    ensures Ast2Signal(n).Ok? <==> WellFormedSignal(n)
  {
  }

  /**
   * What ast2signal promises: it succeeds exactly on a well-formed signal
   * node, the result is a valid signal, and each field comes from the child
   * the source reads it from.
   */
  lemma Ast2SignalMeaning(n: Node)
    ensures Ast2Signal(n).Ok? <==> WellFormedSignal(n)
    ensures Ast2Signal(n).Ok? ==> ValidSignal(Ast2Signal(n).value)
    ensures Ast2Signal(n).Ok? ==> Ast2Signal(n).value.name == Child(n, NAME_TAG).value.contents
    ensures Ast2Signal(n).Ok? ==> Ast2Signal(n).value.startBit == UnsignedOf(n, START_TAG).value
    ensures Ast2Signal(n).Ok? ==> Ast2Signal(n).value.bitLength == UnsignedOf(n, LENGTH_TAG).value
    ensures Ast2Signal(n).Ok? ==> (Ast2Signal(n).value.endianness == Motorola <==> CharOf(n, ENDIAN_TAG) == '0')
    ensures Ast2Signal(n).Ok? ==> (Ast2Signal(n).value.endianness == Intel <==> CharOf(n, ENDIAN_TAG) == '1')
    ensures Ast2Signal(n).Ok? ==> (Ast2Signal(n).value.isSigned <==> CharOf(n, SIGN_TAG) == '-')
    ensures Ast2Signal(n).Ok? ==> (Ast2Signal(n).value.isMultiplexed <==> Child(n, MUX_VALUE_TAG).Some?)
    ensures Ast2Signal(n).Ok? ==> (Ast2Signal(n).value.isMultiplexor <==> Child(n, MUX_MARK_TAG).Some?)
    ensures Ast2Signal(n).Ok? && !Ast2Signal(n).value.isMultiplexed ==> Ast2Signal(n).value.switchValue == 0
    ensures Ast2Signal(n).Ok? && Ast2Signal(n).value.isMultiplexed ==>
      Ast2Signal(n).value.switchValue == ParseLong(Child(n, MUX_VALUE_TAG).value.children[1].contents)
    ensures Ast2Signal(n).Ok? ==>
      var t := ScalingTexts(n);
      var s := Ast2Signal(n).value;
      s.scaling == t.scaling && s.offset == t.offset && s.minimum == t.minimum &&
      s.maximum == t.maximum && s.units == t.units
  {
  }

  /** Builds every node in order; the first failure stops the build. */
  function BuildEach<T>(build: Node -> Result<T, BuildError>, nodes: seq<Node>): Result<seq<T>, BuildError>
  {
    if nodes == [] then Ok([])
    else
      var init :- BuildEach(build, nodes[..|nodes| - 1]);
      var last :- build(nodes[|nodes| - 1]);
      Ok(init + [last])
  }

  /** A successful build holds one result per node, in the nodes' order. */
  lemma {:induction false} BuildEachShape<T>(build: Node -> Result<T, BuildError>, nodes: seq<Node>)
    ensures BuildEach(build, nodes).Ok? <==> forall i :: 0 <= i < |nodes| ==> build(nodes[i]).Ok?
    ensures BuildEach(build, nodes).Ok? ==>
      |BuildEach(build, nodes).value| == |nodes| &&
      forall i :: 0 <= i < |nodes| ==> build(nodes[i]) == Ok(BuildEach(build, nodes).value[i])
  {
    if nodes != [] {
      BuildEachShape(build, nodes[..|nodes| - 1]);
    }
  }

  /** A build succeeds exactly when every node meets the condition under which one node builds. */
  lemma BuildEachSucceeds<T>(build: Node -> Result<T, BuildError>, nodes: seq<Node>, ok: Node -> bool)
    requires forall x :: build(x).Ok? <==> ok(x)
    ensures BuildEach(build, nodes).Ok? <==> forall i :: 0 <= i < |nodes| ==> ok(nodes[i])
  {
    BuildEachShape(build, nodes);
  }

  /** Once a prefix fails, nothing after it is built and its error is the result. */
  lemma {:induction false} BuildEachStops<T>(build: Node -> Result<T, BuildError>, p: seq<Node>, q: seq<Node>)
    requires BuildEach(build, p).Err?
    ensures BuildEach(build, p + q) == BuildEach(build, p)
    decreases |q|
  {
    if q == [] {
      assert p + q == p;
    } else {
      assert (p + q)[..|p + q| - 1] == p + q[..|q| - 1];
      BuildEachStops(build, p, q[..|q| - 1]);
    }
  }

  /** One step of the collection loop: the next matching node builds successfully. */
  lemma BuildEachNext<T>(build: Node -> Result<T, BuildError>, cs: seq<Node>, tag: string, lo: nat, k: nat, acc: seq<T>)
    requires lo <= k < |cs| && cs[k].tag == tag
    requires forall j :: lo <= j < k ==> cs[j].tag != tag
    requires BuildEach(build, Matching(cs[..lo], tag)) == Ok(acc)
    requires build(cs[k]).Ok?
    ensures BuildEach(build, Matching(cs[..k + 1], tag)) == Ok(acc + [build(cs[k]).value])
  {
    MatchingUpTo(cs, tag, lo, k);
    var prior := Matching(cs[..lo], tag);
    assert (prior + [cs[k]])[..|prior|] == prior;
  }

  /** The collection loop meets a matching node that fails: the whole build fails with its error. */
  lemma BuildEachFails<T>(build: Node -> Result<T, BuildError>, cs: seq<Node>, tag: string, lo: nat, k: nat, acc: seq<T>)
    requires lo <= k < |cs| && cs[k].tag == tag
    requires forall j :: lo <= j < k ==> cs[j].tag != tag
    requires BuildEach(build, Matching(cs[..lo], tag)) == Ok(acc)
    requires build(cs[k]).Err?
    ensures BuildEach(build, Matching(cs, tag)) == Err(build(cs[k]).error)
  {
    MatchingUpTo(cs, tag, lo, k);
    var prior := Matching(cs[..lo], tag);
    assert (prior + [cs[k]])[..|prior|] == prior;
    assert cs == cs[..k + 1] + cs[k + 1..];
    MatchingConcat(cs[..k + 1], cs[k + 1..], tag);
    BuildEachStops(build, Matching(cs[..k + 1], tag), Matching(cs[k + 1..], tag));
  }

  /** The collection loop finds no further match: what it built is the whole build. */
  lemma BuildEachDone<T>(build: Node -> Result<T, BuildError>, cs: seq<Node>, tag: string, lo: nat, acc: seq<T>)
    requires lo <= |cs|
    requires forall j :: lo <= j < |cs| ==> cs[j].tag != tag
    requires BuildEach(build, Matching(cs[..lo], tag)) == Ok(acc)
    ensures BuildEach(build, Matching(cs, tag)) == Ok(acc)
  {
    MatchingSkip(cs, tag, lo, |cs|);
    assert cs[..|cs|] == cs;
  }

  /** The signals of a message node in source order, each built by ast2signal. */
  function SignalsOf(n: Node): Result<seq<Signal>, BuildError>
  {
    BuildEach(Ast2Signal, Matching(n.children, SIGNAL_TAG))
  }

  /** The message ast2msg builds: its header fields, then its signals sorted by start bit. */
  function MessageOf(n: Node): (r: Result<Message, BuildError>)
    ensures r.Ok? ==> SignalsOf(n).Ok? && r.value.signals == SortByStart(SignalsOf(n).value)
  {
    var name :- Field(n, NAME_TAG);
    var ecu :- Field(n, ECU_TAG);
    var dlc :- UnsignedField(n, DLC_TAG);
    var id :- UnsignedField(n, ID_TAG);
    var signals :- SignalsOf(n);
    Ok(Message(name.contents, ecu.contents, dlc, id, SortByStart(signals)))
  }

  /**
   * ast2msg succeeds exactly when name, ecu, dlc and id are present, dlc and
   * id convert with "%u", and every child tagged "signal|>" is a well-formed
   * signal node; the header fields are then the texts and values read.
   */
  lemma MessageOfMeaning(n: Node)
    ensures MessageOf(n).Ok? <==>
      && Child(n, NAME_TAG).Some? && Child(n, ECU_TAG).Some?
      && UnsignedOf(n, DLC_TAG).Some? && UnsignedOf(n, ID_TAG).Some?
      && AllWellFormedSignals(Matching(n.children, SIGNAL_TAG))
    ensures MessageOf(n).Ok? ==>
      var m := MessageOf(n).value;
      && m.name == Child(n, NAME_TAG).value.contents
      && m.ecu == Child(n, ECU_TAG).value.contents
      && m.dlc == UnsignedOf(n, DLC_TAG).value
      && m.id == UnsignedOf(n, ID_TAG).value
  {
    SignalsOfSucceed(n);
  }

  /** The signals of a message build exactly when every signal child is well formed. */
  lemma SignalsOfSucceed(n: Node)
    ensures SignalsOf(n).Ok? <==> AllWellFormedSignals(Matching(n.children, SIGNAL_TAG))
  {
    var nodes := Matching(n.children, SIGNAL_TAG);
    assert SignalsOf(n).Ok? <==> AllWellFormedSignals(nodes) by {
      assert forall x :: Ast2Signal(x).Ok? <==> WellFormedSignal(x) by {
        forall x
          ensures Ast2Signal(x).Ok? <==> WellFormedSignal(x)
        {
          Ast2SignalSucceeds(x);
        }
      }
      BuildEachSucceeds(Ast2Signal, nodes, WellFormedSignal);
      assert SignalsOf(n) == BuildEach(Ast2Signal, nodes);
    }
  }

  /**
   * A built message holds one valid signal per child tagged "signal|>",
   * sorted by start bit, stable, and a permutation of the signals in
   * source order.
   */
  lemma MessageOfSignals(n: Node)
    requires MessageOf(n).Ok?
    ensures var nodes := Matching(n.children, SIGNAL_TAG);
      var built := BuildEach(Ast2Signal, nodes);
      && built.Ok?
      && |built.value| == |nodes|
      && (forall i :: 0 <= i < |nodes| ==> Ast2Signal(nodes[i]) == Ok(built.value[i]))
      && var sorted := MessageOf(n).value.signals;
      && sorted == SortByStart(built.value)
      && |sorted| == |nodes|
      && Sorted(sorted)
      && multiset(sorted) == multiset(built.value)
      && SameOrderPerStart(sorted, built.value)
      && ValidMessage(MessageOf(n).value)
  {
    var nodes := Matching(n.children, SIGNAL_TAG);
    var built := SignalsOf(n).value;
    var sorted := MessageOf(n).value.signals;
    assert sorted == SortByStart(built);
    assert BuildEach(Ast2Signal, nodes) == Ok(built);
    assert |built| == |nodes| && forall i :: 0 <= i < |nodes| ==> Ast2Signal(nodes[i]) == Ok(built[i]) by {
      BuiltSignalsValid(nodes, built);
    }
    assert |sorted| == |nodes| && Sorted(sorted) && multiset(sorted) == multiset(built) && SameOrderPerStart(sorted, built) by {
      SortByStartCorrect(built);
    }
    assert ValidMessage(MessageOf(n).value) by {
      BuiltSignalsValid(nodes, built);
      SortKeepsValid(built);
    }
  }

  /** Every signal a successful build yields is valid, and comes from the node at its position. */
  lemma BuiltSignalsValid(nodes: seq<Node>, built: seq<Signal>)
    requires BuildEach(Ast2Signal, nodes) == Ok(built)
    ensures |built| == |nodes|
    ensures forall i :: 0 <= i < |nodes| ==> Ast2Signal(nodes[i]) == Ok(built[i])
    ensures forall i :: 0 <= i < |built| ==> ValidSignal(built[i])
  {
    BuildEachShape(Ast2Signal, nodes);
    forall i | 0 <= i < |built|
      ensures ValidSignal(built[i])
    {
      Ast2SignalMeaning(nodes[i]);
    }
  }

  /** Sorting keeps every signal, so it keeps every signal valid. */
  lemma SortKeepsValid(built: seq<Signal>)
    requires forall i :: 0 <= i < |built| ==> ValidSignal(built[i])
    ensures forall i :: 0 <= i < |SortByStart(built)| ==> ValidSignal(SortByStart(built)[i])
  {
    var sorted := SortByStart(built);
    SortByStartCorrect(built);
    forall i | 0 <= i < |sorted|
      ensures ValidSignal(sorted[i])
    {
      assert sorted[i] in multiset(built);
    }
  }

  /**
   * The collection loop of ast2msg: builds each child tagged "signal|>"
   * with ast2signal, in order, found with the indexed lookup.
   */
  method CollectSignals(n: Node) returns (r: Result<seq<Signal>, BuildError>)
    ensures r == BuildEach(Ast2Signal, Matching(n.children, SIGNAL_TAG))
  {
    var cs := n.children;
    var collected: seq<Signal> := [];
    var i: int := 0;
    ghost var scanned: nat := 0;
    while i >= 0
      invariant scanned <= |cs|
      invariant i >= 0 ==> i == scanned
      invariant i < 0 ==> forall j :: scanned <= j < |cs| ==> cs[j].tag != SIGNAL_TAG
      invariant BuildEach(Ast2Signal, Matching(cs[..scanned], SIGNAL_TAG)) == Ok(collected)
      decreases if i < 0 then 0 else |cs| + 1 - i
    {
      var k := IndexFrom(n, SIGNAL_TAG, i);
      if k >= 0 {
        ChildFromMatch(n, SIGNAL_TAG, k);
        var sigNode := ChildFrom(n, SIGNAL_TAG, k).value;
        assert sigNode == cs[k];
        var s := Ast2Signal(sigNode);
        if s.Err? {
          BuildEachFails(Ast2Signal, cs, SIGNAL_TAG, scanned, k, collected);
          return Err(s.error);
        }
        BuildEachNext(Ast2Signal, cs, SIGNAL_TAG, scanned, k, collected);
        collected := collected + [s.value];
        scanned := k + 1;
        i := k + 1;
      } else {
        i := k;
      }
    }
    BuildEachDone(Ast2Signal, cs, SIGNAL_TAG, scanned, collected);
    r := Ok(collected);
  }

  /** The sort of ast2msg, run in place on an array when there are two or more signals. */
  method SortSignals(collected: seq<Signal>) returns (sorted: seq<Signal>)
    ensures sorted == SortByStart(collected)
  {
    var a := new Signal[|collected|](j requires 0 <= j < |collected| => collected[j]);
    assert a[..] == collected;
    if a.Length > 1 {
      BubbleSort(a);
    } else {
      SortByStartOfSorted(collected);
    }
    sorted := a[..];
  }

  /**
   * ast2msg: reads the header, collects the signal children in source order,
   * then sorts them by start bit.
   */
  method Ast2Msg(n: Node) returns (r: Result<Message, BuildError>)
    ensures r == MessageOf(n)
  {
    var name :- Field(n, NAME_TAG);
    var ecu :- Field(n, ECU_TAG);
    var dlc :- UnsignedField(n, DLC_TAG);
    var id :- UnsignedField(n, ID_TAG);
    var collected :- CollectSignals(n);
    var sorted := SortSignals(collected);
    r := Ok(Message(name.contents, ecu.contents, dlc, id, sorted));
  }

  /** The messages ast2dbc builds, or None where the source returns NULL. */
  function DatabaseOf(n: Node): Result<Option<Database>, BuildError>
  {
    var index := IndexFrom(n, MESSAGES_TAG, 0);
    if index < 0 then Ok(None)
    else
      var list := n.children[index];
      if |list.children| == 0 then Ok(None)
      else
        var messages :- BuildEach(MessageOf, Matching(list.children, MESSAGE_TAG));
        Ok(Some(Database(messages)))
  }

  /**
   * ast2dbc yields NULL exactly when there is no "messages|>" child or it has
   * no children; otherwise one message per child tagged "message|>", in
   * source order, each with its signals sorted.
   */
  lemma DatabaseOfMessages(n: Node)
    requires DatabaseOf(n).Ok?
    ensures DatabaseOf(n).value.None? <==>
      Child(n, MESSAGES_TAG).None? || |Child(n, MESSAGES_TAG).value.children| == 0
    ensures DatabaseOf(n).value.Some? ==>
      var nodes := Matching(Child(n, MESSAGES_TAG).value.children, MESSAGE_TAG);
      var d := DatabaseOf(n).value.value;
      && |d.messages| == |nodes|
      && (forall i :: 0 <= i < |nodes| ==> MessageOf(nodes[i]) == Ok(d.messages[i]))
      && (forall i :: 0 <= i < |d.messages| ==> Sorted(d.messages[i].signals))
      && ValidDatabase(d)
  {
    if DatabaseOf(n).value.Some? {
      var nodes := Matching(Child(n, MESSAGES_TAG).value.children, MESSAGE_TAG);
      BuildEachShape(MessageOf, nodes);
      var d := DatabaseOf(n).value.value;
      forall i | 0 <= i < |d.messages|
        ensures Sorted(d.messages[i].signals) && ValidMessage(d.messages[i])
      {
        assert MessageOf(nodes[i]) == Ok(d.messages[i]);
        MessageOfSignals(nodes[i]);
      }
    }
  }

  /**
   * The collection loop of ast2dbc: builds each child of `list` tagged
   * "message|>" with ast2msg, in order, stopping at the first failure.
   */
  method CollectMessages(list: Node) returns (r: Result<seq<Message>, BuildError>)
    ensures r == BuildEach(MessageOf, Matching(list.children, MESSAGE_TAG))
  {
    var cs := list.children;
    var built: seq<Message> := [];
    var i: int := 0;
    ghost var scanned: nat := 0;
    while i >= 0
      invariant scanned <= |cs|
      invariant i >= 0 ==> i == scanned
      invariant i < 0 ==> forall j :: scanned <= j < |cs| ==> cs[j].tag != MESSAGE_TAG
      invariant BuildEach(MessageOf, Matching(cs[..scanned], MESSAGE_TAG)) == Ok(built)
      decreases if i < 0 then 0 else |cs| + 1 - i
    {
      var k := IndexFrom(list, MESSAGE_TAG, i);
      if k >= 0 {
        ChildFromMatch(list, MESSAGE_TAG, k);
        var msgNode := ChildFrom(list, MESSAGE_TAG, k).value;
        assert msgNode == cs[k];
        var m := Ast2Msg(msgNode);
        if m.Err? {
          BuildEachFails(MessageOf, cs, MESSAGE_TAG, scanned, k, built);
          return Err(m.error);
        }
        BuildEachNext(MessageOf, cs, MESSAGE_TAG, scanned, k, built);
        built := built + [m.value];
        scanned := k + 1;
        i := k + 1;
      } else {
        i := k;
      }
    }
    BuildEachDone(MessageOf, cs, MESSAGE_TAG, scanned, built);
    r := Ok(built);
  }

  /**
   * ast2dbc: finds the "messages|>" child, returns None (NULL) when it is
   * missing or has no children, and otherwise builds its "message|>"
   * children in order.
   */
  method Ast2Dbc(n: Node) returns (r: Result<Option<Database>, BuildError>)
    ensures r == DatabaseOf(n)
  {
    var index := IndexFrom(n, MESSAGES_TAG, 0);
    var list := ChildFrom(n, MESSAGES_TAG, 0);
    if index < 0 {
      return Ok(None);
    }
    if |list.value.children| == 0 {
      return Ok(None);
    }
    var messages :- CollectMessages(list.value);
    r := Ok(Some(Database(messages)));
  }
}
