/**
 * Log levels and their order, and log events whose message may be computed
 * on first read and then kept.
 */
module Logging {

  datatype Level = Error | Warning | Info | Custom(value: int) | Debug | Verbose

  /** `approximateValue`: the rank of a level; every custom level ranks with `info`. */
  function ApproximateValue(level: Level): (v: int)
    ensures -2 <= v <= 2
    ensures v == 0 <==> level.Info? || level.Custom?
  {
    match level
    case Error => 2
    case Warning => 1
    case Info => 0
    case Custom(_) => 0
    case Debug => -1
    case Verbose => -2
  }

  /**
   * `<`: by rank; within rank 0, custom levels by their value, with `info`
   * sitting between `custom(0)` and `custom(1)`.
   */
  predicate Less(lhs: Level, rhs: Level)
    ensures ApproximateValue(lhs) < ApproximateValue(rhs) ==> Less(lhs, rhs)
    ensures ApproximateValue(lhs) > ApproximateValue(rhs) ==> !Less(lhs, rhs)
    ensures Less(lhs, rhs) ==> lhs != rhs
    ensures lhs.Custom? && rhs.Custom? ==> (Less(lhs, rhs) <==> lhs.value < rhs.value)
  {
    var lhsRank := ApproximateValue(lhs);
    var rhsRank := ApproximateValue(rhs);
    if lhsRank != rhsRank then lhsRank < rhsRank
    else if lhs.Custom? && lhs.value == 0 && rhs == Info then true
    else if rhs.Custom? && rhs.value == 0 && lhs == Info then false
    else
      var lhsValue := if lhs.Custom? then lhs.value else lhsRank;
      var rhsValue := if rhs.Custom? then rhs.value else rhsRank;
      lhsValue < rhsValue
  }

  /**
   * An independent ranking: the rank, then a position within the rank that
   * places `custom(k)` at 2k and `info` at 1.
   */
  function Position(level: Level): int {
    match level
    case Custom(k) => 2 * k
    case Info => 1
    case _ => 0
  }

  predicate RankedBefore(a: Level, b: Level) {
    ApproximateValue(a) < ApproximateValue(b) ||
    (ApproximateValue(a) == ApproximateValue(b) && Position(a) < Position(b))
  }

  /** `<` is the lexicographic order of (rank, position). */
  lemma LessIsRankedBefore(a: Level, b: Level)
    ensures Less(a, b) <==> RankedBefore(a, b)
  {
  }

  /** Different levels have different (rank, position) pairs. */
  lemma RankingIsInjective(a: Level, b: Level)
    requires ApproximateValue(a) == ApproximateValue(b) && Position(a) == Position(b)
    ensures a == b
  {
  }

  /** `<` is irreflexive, asymmetric and transitive, and of two different levels exactly one comes first. */
  lemma LessIsStrictTotalOrder(a: Level, b: Level, c: Level)
    ensures !Less(a, a)
    ensures Less(a, b) ==> !Less(b, a)
    ensures Less(a, b) && Less(b, c) ==> Less(a, c)
    ensures a != b ==> Less(a, b) || Less(b, a)
  {
    LessIsRankedBefore(a, b);
    LessIsRankedBefore(b, a);
    LessIsRankedBefore(b, c);
    LessIsRankedBefore(a, c);
    LessIsRankedBefore(a, a);
    if a != b && !RankedBefore(a, b) && !RankedBefore(b, a) {
      RankingIsInjective(a, b);
    }
  }

  /** error > warning > info and every custom level > debug > verbose. */
  lemma Ranks(k: int)
    ensures Less(Warning, Error) && Less(Info, Warning) && Less(Custom(k), Warning)
    ensures Less(Debug, Info) && Less(Debug, Custom(k)) && Less(Verbose, Debug)
  {
  }

  /** Custom levels against each other and against `info`. */
  lemma CustomLevels(a: int, b: int)
    ensures Less(Custom(a), Custom(b)) <==> a < b
    ensures Less(Custom(a), Info) <==> a <= 0
    ensures Less(Info, Custom(a)) <==> a > 0
  {
  }

  // ----- events -----

  /** A message as given, or a closure that computes it when first read. */
  datatype MessageType = Simple(message: string) | Dynamic(compute: () -> string)

  class Event {
    var messageType: MessageType
    var level: Level

    /** `init(level:_:)` with a string. */
    constructor(level: Level, message: string)
      ensures this.level == level && messageType == Simple(message)
    {
      this.level := level;
      messageType := Simple(message);
    }

    /** `init(level:_:)` with a closure. */
    constructor Deferred(level: Level, compute: () -> string)
      ensures this.level == level && messageType == Dynamic(compute)
    {
      this.level := level;
      messageType := Dynamic(compute);
    }

    /** `read()`: the message; a computed one is kept as a simple message, so later reads return it without computing again. */
    method Read() returns (message: string)
      modifies this
      ensures old(messageType).Simple? ==> message == old(messageType).message
      ensures old(messageType).Dynamic? ==> message == old(messageType).compute()
      ensures messageType == Simple(message) && level == old(level)
    {
      match messageType
      case Simple(m) =>
        message := m;
      case Dynamic(compute) =>
        var unwrap := compute();
        messageType := Simple(unwrap);
        message := unwrap;
    }
  }

  /** What `Log.event` does with an event of a level, in a debug or a release build. */
  datatype Disposition = Fatal | Printed | Dropped

  function Dispatch(level: Level, debugBuild: bool): (d: Disposition)
    ensures d == Fatal <==> level.Error? && debugBuild
    ensures d == Dropped <==> (level.Debug? || level.Verbose?) && !debugBuild
  {
    match level
    case Error => if debugBuild then Fatal else Printed
    case Warning => Printed
    case Info => Printed
    case Custom(_) => Printed
    case Debug => if debugBuild then Printed else Dropped
    case Verbose => if debugBuild then Printed else Dropped
  }

  /** A release build never stops the program, and prints exactly the levels of rank 0 or higher. */
  lemma ReleaseKeepsRankZeroAndAbove(level: Level)
    ensures Dispatch(level, false) != Fatal
    ensures Dispatch(level, false) == Printed <==> ApproximateValue(level) >= 0
  {
  }
}
