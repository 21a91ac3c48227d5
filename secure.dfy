/**
 * The plate-lock position: an enum whose members stand for the numbers the
 * device's secure command takes, and the pass-through that turns either form
 * into a number.
 */
module Secure {
  /** `SecurePosition`. */
  datatype SecurePosition = Locked | Unlocked

  /** The enum's `.value`. */
  function PositionValue(p: SecurePosition): (v: int)
    ensures v == 0 <==> p == Locked
    ensures v == 1 <==> p == Unlocked
  {
    match p
    case Locked => 0
    case Unlocked => 1
  }

  /** The argument of `resolve_value`: an enum member, or a number passed as it is. */
  datatype PositionArg = Position(p: SecurePosition) | Number(n: int)

  /** `SecurePosition.resolve_value`: an enum member becomes its value, anything else is returned unchanged. */
  function ResolveValue(position: PositionArg): (r: int)
    ensures position.Number? ==> r == position.n
    ensures position.Position? ==> r == PositionValue(position.p)
  {
    match position
    case Position(p) => PositionValue(p)
    case Number(n) => n
  }

  /** Resolving a resolved value changes nothing. */
  lemma ResolveIdempotent(position: PositionArg)
    ensures ResolveValue(Number(ResolveValue(position))) == ResolveValue(position)
  {
  }

  /** Distinct members resolve to distinct numbers, so the lock and the unlock cannot be confused. */
  lemma ResolveDistinguishesMembers(p: SecurePosition, q: SecurePosition)
    ensures ResolveValue(Position(p)) == ResolveValue(Position(q)) <==> p == q
  {
  }

  /** The values the repository's tests pin. */
  lemma ResolveExamples()
    ensures ResolveValue(Position(Locked)) == 0
    ensures ResolveValue(Position(Unlocked)) == 1
    ensures ResolveValue(Number(123)) == 123
  {
  }
}
