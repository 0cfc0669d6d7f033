/** The MSI protocol of cache/msi.c: pure transition functions on one line. */
module Msi {

  datatype LineState = Invalid | Shared | Modified

  datatype Event =
    | Read         // processor read
    | Write        // processor write
    | BusRead      // another cache wants to read
    | BusReadX     // another cache wants to write a line it does not hold
    | BusUpgrade   // another cache wants to write a line it holds shared
    | BusFlush     // a line is being written back

  // What a transition asks of the other caches on the bus.
  datatype BusRequest = Silent | Ask(event: Event)

  /** How much a state permits: nothing, reading, or reading and writing. */
  function Rank(s: LineState): (n: nat)
    ensures n <= 2 && (n == 0 <==> s == Invalid) && (n == 2 <==> s == Modified)
  {
    match s
    case Invalid => 0
    case Shared => 1
    case Modified => 2
  }

  // s' permits no more than s.
  predicate Demoted(s': LineState, s: LineState) {
    Rank(s') <= Rank(s)
  }

  /**
   * The state after an event, and the request it puts on the bus.
   * A processor event ends in a state that permits it and is silent exactly when
   * the old state permitted it already; a bus event only ever takes permission away.
   */
  function NewState(previous: LineState, event: Event): (r: (LineState, BusRequest))
    ensures event == Write ==> r.0 == Modified && (r.1 == Silent <==> previous == Modified)
    ensures event == Read ==> r.0 != Invalid && (r.1 == Silent <==> previous != Invalid)
    ensures event == Read && previous != Invalid ==> r.0 == previous
    ensures event !in {Read, Write} ==> Demoted(r.0, previous) && r.1 == Silent
    ensures r.1.Ask? && r.0 == Modified ==> r.1.event in {BusReadX, BusUpgrade}
    ensures r.1.Ask? && r.0 == Shared ==> r.1.event == BusRead
    ensures event in {BusReadX, BusUpgrade, BusFlush} ==> r.0 == Invalid
    ensures event == BusRead ==> r.0 != Modified && (r.0 == Invalid <==> previous == Invalid)
  {
    match event
    case Write =>
      (match previous
       case Invalid => (Modified, Ask(BusReadX))
       case Shared => (Modified, Ask(BusUpgrade))
       case Modified => (Modified, Silent))
    case Read =>
      (match previous
       case Invalid => (Shared, Ask(BusRead))
       case Shared => (Shared, Silent)
       case Modified => (Modified, Silent))
    case BusRead =>
      (match previous
       case Invalid => (Invalid, Silent)
       case Shared => (Shared, Silent)
       case Modified => (Shared, Silent))
    case BusReadX => (Invalid, Silent)
    case BusUpgrade => (Invalid, Silent)
    case BusFlush => (Invalid, Silent)
  }

  // Whether evicting a line in this state has to be written back.
  predicate FlushNeeded(s: LineState) {
    s == Modified
  }
}
