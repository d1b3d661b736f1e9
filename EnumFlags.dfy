/**
 * `EnumFlags`: the flag arithmetic of the enum extensions.  The extensions
 * convert an enum to its 64-bit `long` value and combine values with `&`, `|`,
 * `^` and `~`; here a `long` is its two's-complement bit pattern, written as the
 * set of positions (0 = least significant, 63 = sign) that hold a 1.
 */
module EnumFlags {

  /** A 64-bit pattern: the positions of its 1 bits. */
  type Long = s: set<nat> | forall i :: i in s ==> i < 64

  /** `-1L`: all 64 bits set. */
  const AllBits: Long := set i: nat | i < 64

  /** The single bit `1L << i`. */
  function Bit(i: nat): (r: Long)
    requires i < 64
    ensures i in r && |r| == 1
  {
    {i}
  }

  /** `a & b` */
  function And(a: Long, b: Long): Long { a * b }

  /** `a | b` */
  function Or(a: Long, b: Long): Long { a + b }

  /** `a ^ b` */
  function Xor(a: Long, b: Long): Long { (a - b) + (b - a) }

  /** `~a` */
  function Not(a: Long): (r: Long)
    ensures forall i :: 0 <= i < 64 ==> (i in r <==> i !in a)
  {
    AllBits - a
  }

  /** `(value & flag) == flag`. */
  predicate HasFlagFast(value: Long, flag: Long) {
    And(value, flag) == flag
  }

  /** Having a flag means every bit of the flag is set in the value. */
  lemma HasFlagMeansEveryBit(value: Long, flag: Long)
    ensures HasFlagFast(value, flag) <==> forall i :: i in flag ==> i in value
  {
  }

  /** `value | flag`: holds both, and nothing smaller does (`AddFlagIsLeast`). */
  function AddFlag(value: Long, flag: Long): (r: Long)
    ensures HasFlagFast(r, value) && HasFlagFast(r, flag)
  {
    Or(value, flag)
  }

  lemma AddFlagIsLeast(value: Long, flag: Long, w: Long)
    requires HasFlagFast(w, value) && HasFlagFast(w, flag)
    ensures HasFlagFast(w, AddFlag(value, flag))
  {
  }

  /** `value & ~flag`: part of `value`, sharing no bit with `flag`, and nothing
      larger is (`RemoveFlagIsGreatest`). */
  function RemoveFlag(value: Long, flag: Long): (r: Long)
    ensures HasFlagFast(value, r)
    ensures And(r, flag) == {}
    ensures forall i :: i !in flag ==> (i in r <==> i in value)
  {
    And(value, Not(flag))
  }

  lemma RemoveFlagIsGreatest(value: Long, flag: Long, w: Long)
    requires HasFlagFast(value, w) && And(w, flag) == {}
    ensures HasFlagFast(RemoveFlag(value, flag), w)
  {
    forall i | i in w ensures i in Not(flag) {
      assert i !in And(w, flag);
    }
  }

  /** `value ^ flag`: the bits of `flag` flipped, every other bit kept. */
  function ToggleFlag(value: Long, flag: Long): (r: Long)
    ensures forall i :: i in flag ==> (i in r <==> i !in value)
    ensures forall i :: i !in flag ==> (i in r <==> i in value)
  {
    Xor(value, flag)
  }

  /** Every value has the empty flag. */
  lemma HasNoFlag(value: Long)
    ensures HasFlagFast(value, {})
  {
  }

  /** Toggling twice gives the value back. */
  lemma ToggleTwice(value: Long, flag: Long)
    ensures ToggleFlag(ToggleFlag(value, flag), flag) == value
  {
  }

  /** A removed non-empty flag is gone. */
  lemma {:induction false} RemovedFlagIsGone(value: Long, flag: Long)
    requires flag != {}
    ensures !HasFlagFast(RemoveFlag(value, flag), flag)
  {
    var i :| i in flag;
    assert i !in RemoveFlag(value, flag);
  }

  /** Adding then removing a flag restores the value exactly when the value had
      none of the flag's bits. */
  lemma RemoveUndoesAdd(value: Long, flag: Long)
    ensures RemoveFlag(AddFlag(value, flag), flag) == value <==> And(value, flag) == {}
  {
    if And(value, flag) == {} {
      forall i | i in value ensures i in Not(flag) {
        assert i !in And(value, flag);
      }
    } else {
      var i :| i in And(value, flag);
      assert i !in RemoveFlag(AddFlag(value, flag), flag);
    }
  }

  /** Removing then adding a flag restores the value exactly when the value had
      all of the flag's bits. */
  lemma AddUndoesRemove(value: Long, flag: Long)
    ensures AddFlag(RemoveFlag(value, flag), flag) == value <==> HasFlagFast(value, flag)
  {
    if HasFlagFast(value, flag) {
      forall i | i in value ensures i in flag || i in Not(flag) {
        assert i < 64;
      }
    }
  }

  /** The flags of the library's sample `[Flags]` enum: None = 0, A = 1, B = 2, C = 4. */
  const FlagNone: Long := {}
  const FlagA: Long := Bit(0)
  const FlagB: Long := Bit(1)
  const FlagC: Long := Bit(2)

  lemma FlagExamples()
    ensures HasFlagFast(Or(FlagA, FlagB), FlagA) && HasFlagFast(Or(FlagA, FlagB), FlagB)
    ensures !HasFlagFast(Or(FlagA, FlagB), FlagC) && HasFlagFast(FlagA, FlagNone)
    ensures AddFlag(FlagA, FlagB) == Or(FlagA, FlagB)
    ensures RemoveFlag(Or(FlagA, FlagB), FlagA) == FlagB
    ensures ToggleFlag(FlagA, FlagB) == Or(FlagA, FlagB) && ToggleFlag(Or(FlagA, FlagB), FlagB) == FlagA
    ensures ToggleFlag(FlagA, FlagA) == FlagNone && ToggleFlag(ToggleFlag(FlagA, FlagA), FlagA) == FlagA
  {
    assert 2 !in Or(FlagA, FlagB);
    assert RemoveFlag(Or(FlagA, FlagB), FlagA) == FlagB by {
      assert 1 in Not(FlagA);
    }
  }
}
