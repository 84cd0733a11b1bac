/** The cards' controls and the calls that change them.

    Each card keeps a log of the calls made to it. A call's outcome is drawn from an
    oracle: a function from a card and the number of calls made to it so far to a
    reply. A statement for every oracle is a statement for every pattern of sensor
    readings and of faults. */
module Hardware {
  import opened Cards

  /** The fans of a card: all automatic, all at one percentage, or anything else. */
  datatype Fan = Automatic | Fixed(percent: int) | Mixed

  datatype Clock = Unlocked | Locked(min: int, max: int)

  /** The four controls of one card. */
  datatype Card = Card(pstate: int, fan: Fan, clock: Clock, offset: int)

  datatype Call =
    | Utilization
    | Temperature
    | SetPState(pstate: int)
    | ResetLockedClocks
    | SetLockedClocks(min: int, max: int)
    | SetCoreOffset(offset: int)
    | SetFan(percent: int)
    | SetFanAuto

  /** A failing call either changes nothing or leaves the whole card in an arbitrary state,
      its `residue`. */
  datatype Reply = Done(reading: U32) | Failed | FailedWith(residue: Card)

  type Oracle = (int, nat) -> Reply

  /** One call to a card, with the controls right before and right after it. */
  datatype Entry = Entry(call: Call, reply: Reply, before: Card, after: Card)

  /** One card: its controls and its log. */
  datatype Bus = Bus(index: int, card: Card, log: seq<Entry>)

  /** The controls after a call. */
  function Effect(card: Card, call: Call, reply: Reply): Card {
    match reply
    case Failed => card
    case Done(_) =>
      (match call
       case Utilization => card
       case Temperature => card
       case SetPState(p) => card.(pstate := p)
       case ResetLockedClocks => card.(clock := Unlocked)
       case SetLockedClocks(a, b) => card.(clock := Locked(a, b))
       case SetCoreOffset(o) => card.(offset := o)
       case SetFan(p) => card.(fan := Fixed(p))
       case SetFanAuto => card.(fan := Automatic))
    case FailedWith(residue) => residue
  }

  /** One call: the next reply of the oracle decides its outcome. */
  function Do(env: Oracle, b: Bus, call: Call): Bus {
    var reply := env(b.index, |b.log|);
    var card := Effect(b.card, call, reply);
    Bus(b.index, card, b.log + [Entry(call, reply, b.card, card)])
  }

  /** The last call returned no error. */
  predicate LastOk(b: Bus) {
    |b.log| > 0 && b.log[|b.log| - 1].reply.Done?
  }

  function LastReading(b: Bus): U32
    requires LastOk(b)
  {
    b.log[|b.log| - 1].reply.reading
  }

  /** What is needed about one call, without looking into the log. */
  lemma DoFacts(env: Oracle, b: Bus, call: Call)
    ensures var r := Do(env, b, call);
            && r.index == b.index
            && |r.log| == |b.log| + 1 && r.log[..|b.log|] == b.log
            && r.log[|b.log|].call == call && r.log[|b.log|].before == b.card && r.log[|b.log|].after == r.card
            && (LastOk(r) <==> r.log[|b.log|].reply.Done?)
  {
  }

  /** The hardware handle the governor holds. */
  class Device {
    var buses: map<int, Bus>
    const env: Oracle

    constructor (buses: map<int, Bus>, env: Oracle)
      ensures this.buses == buses && this.env == env
    {
      this.buses := buses;
      this.env := env;
    }

    /** One hardware call; `ok` tells whether it returned without an error. */
    method Perform(i: int, call: Call) returns (ok: bool, reading: U32)
      requires i in buses
      modifies this
      ensures buses == old(buses)[i := Do(env, old(buses[i]), call)]
      ensures ok == LastOk(buses[i])
      ensures ok ==> reading == LastReading(buses[i])
    {
      var b := buses[i];
      var reply := env(b.index, |b.log|);
      var card := Effect(b.card, call, reply);
      buses := buses[i := Bus(b.index, card, b.log + [Entry(call, reply, b.card, card)])];
      ok := reply.Done?;
      reading := if ok then reply.reading else 0;
    }
  }
}
