/** The in-memory model of a CAN database: signals, messages and the database. */
module Model {

  /** Bit numbering of a signal: '0' in the source text is Motorola, '1' is Intel. */
  datatype Endianness = Motorola | Intel

  /**
   * One signal_t. The floating-point fields (scaling, offset, minimum,
   * maximum) are kept as the text they were read from.
   */
  datatype Signal = Signal(
    name: string,
    startBit: nat,
    bitLength: nat,
    endianness: Endianness,
    isSigned: bool,
    scaling: string,
    offset: string,
    minimum: string,
    maximum: string,
    units: string,
    isMultiplexor: bool,
    isMultiplexed: bool,
    switchValue: int)

  /** What the model builder guarantees of every signal it builds. */
  predicate ValidSignal(s: Signal)
  {
    s.startBit <= 64 && s.bitLength <= 64 && !(s.isMultiplexor && s.isMultiplexed)
  }

  /** One can_msg_t; `signals` holds the array and signal_count is its length. */
  datatype Message = Message(name: string, ecu: string, dlc: nat, id: nat, signals: seq<Signal>)

  predicate ValidMessage(m: Message)
  {
    forall i :: 0 <= i < |m.signals| ==> ValidSignal(m.signals[i])
  }

  /** One dbc_t; `messages` holds the array and message_count is its length. */
  datatype Database = Database(messages: seq<Message>)

  predicate ValidDatabase(d: Database)
  {
    forall i :: 0 <= i < |d.messages| ==> ValidMessage(d.messages[i])
  }
}
