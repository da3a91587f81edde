/** Bit ranges of packed one-byte flags inside one 64-bit register. */
module SimdLayout {

  type Name = string

  datatype Slot = Slot(name: Name, start: nat, bits: nat)

  const MAX_PACK_BITS := 64

  // ---- the naming convention: a name ending in `_<digits>bit` ----

  predicate IsDigit(c: char) { '0' <= c <= '9' }

  predicate AllDigits(s: string) { forall i :: 0 <= i < |s| ==> IsDigit(s[i]) }

  /** Number of digits at the end of `s`. */
  function DigitRun(s: string): (n: nat)
    ensures n <= |s|
    ensures forall i :: |s| - n <= i < |s| ==> IsDigit(s[i])
    ensures n < |s| ==> !IsDigit(s[|s| - n - 1])
  {
    if s == "" || !IsDigit(s[|s| - 1]) then 0 else DigitRun(s[..|s| - 1]) + 1
  }

  function Decimal(s: string): nat
    requires AllDigits(s)
  {
    if s == "" then 0
    else
      assert IsDigit(s[|s| - 1]);
      10 * Decimal(s[..|s| - 1]) + (s[|s| - 1] as int - '0' as int)
  }

  const DIGITS := "0123456789"

  /** A numeral's value: a digit alone is its place in the list of digits, and writing
      one more digit behind a numeral makes ten times it and that digit. */
  lemma DecimalLaws(s: string, d: nat)
    requires AllDigits(s) && d < 10
    ensures AllDigits([DIGITS[d]]) && Decimal([DIGITS[d]]) == d
    ensures AllDigits(s + [DIGITS[d]]) && Decimal(s + [DIGITS[d]]) == 10 * Decimal(s) + d
  {
    var c := DIGITS[d];
    assert IsDigit(c) && c as int - '0' as int == d;
    assert [c][..0] == [] && (s + [c])[..|s|] == s;
    assert Decimal([]) == 0;
  }

  /** The declared width, if the name declares one. */
  function Width(name: Name): int {
    if |name| < 3 || name[|name| - 3..] != "bit" then -1
    else
      var head := name[..|name| - 3];
      var n := DigitRun(head);
      if n == 0 || n == |head| || head[|head| - n - 1] != '_' then -1
      else
        TailDigits(head, n);
        Decimal(head[|head| - n..])
  }

  lemma TailDigits(s: string, n: nat)
    requires n <= |s| && forall i :: |s| - n <= i < |s| ==> IsDigit(s[i])
    ensures AllDigits(s[|s| - n..])
  {
  }

  ghost predicate Declares(name: Name, pre: string, digits: string) {
    digits != "" && AllDigits(digits) && name == pre + "_" + digits + "bit"
  }

  /** The width is the number written between the last `_` and `bit`. */
  lemma WidthIsDeclared(name: Name, pre: string, digits: string)
    requires Declares(name, pre, digits)
    ensures Width(name) == Decimal(digits)
  {
    var head := pre + "_" + digits;
    assert name == head + "bit";
    assert name[|name| - 3..] == "bit" && name[..|name| - 3] == head;
    RunIs(head, pre + "_", digits);
    assert head[|head| - |digits|..] == digits;
    assert head[|pre|] == '_';
  }

  /** A name has a width only if it declares one. */
  lemma WidthDeclares(name: Name) returns (pre: string, digits: string)
    requires Width(name) >= 0
    ensures Declares(name, pre, digits) && Width(name) == Decimal(digits)
  {
    var head := name[..|name| - 3];
    var n := DigitRun(head);
    pre, digits := head[..|head| - n - 1], head[|head| - n..];
    assert head == pre + "_" + digits;
    assert name == head + "bit";
  }

  lemma {:induction false} RunIs(s: string, pre: string, digits: string)
    requires s == pre + digits && pre != "" && !IsDigit(pre[|pre| - 1])
    requires AllDigits(digits)
    ensures DigitRun(s) == |digits|
    decreases |digits|
  {
    if digits == "" {
      assert s == pre;
    } else {
      var n := |digits| - 1;
      assert s[..|s| - 1] == pre + digits[..n];
      RunIs(s[..|s| - 1], pre, digits[..n]);
    }
  }

  // ---- the layout ----

  ghost predicate InRange(s: Slot) { 1 <= s.bits <= 8 && s.start + s.bits <= MAX_PACK_BITS }

  ghost predicate Disjoint(s: Slot, t: Slot) { s.start + s.bits <= t.start || t.start + t.bits <= s.start }

  /** Slots lie one behind the other in packing order, each inside the register. */
  ghost predicate Packed(slots: map<Name, Slot>, order: seq<Name>, next: nat) {
    && next <= MAX_PACK_BITS
    && (forall n :: n in slots <==> n in order)
    && (forall n :: n in slots ==> slots[n].name == n && InRange(slots[n]) && slots[n].start + slots[n].bits <= next)
    && (forall i, j :: 0 <= i < j < |order| ==> order[i] != order[j])
    && (forall m, n :: m in slots && n in slots && m != n ==> Disjoint(slots[m], slots[n]))
  }

  class Layout {
    var slots: map<Name, Slot>
    var order: seq<Name>
    var nextBit: nat
    var frozen: bool

    ghost predicate Valid()
      reads this
    {
      Packed(slots, order, nextBit)
    }

    constructor ()
      ensures Valid() && slots == map[] && order == [] && nextBit == 0 && !frozen
    {
      slots, order, nextBit, frozen := map[], [], 0, false;
    }

    /** Can `name`, a global of `size` bytes, still be given a slot? */
    predicate Fits(name: Name, size: int)
      reads this
    {
      !frozen && size == 1 && 1 <= Width(name) <= 8 && nextBit + Width(name) <= MAX_PACK_BITS
    }

    /** Give `name` a slot if it qualifies; existing slots never move. */
    method Consider(name: Name, size: int) returns (packed: bool)
      requires Valid()
      modifies this
      ensures Valid() && frozen == old(frozen)
      ensures packed <==> old(name in slots || Fits(name, size))
      ensures packed <==> name in slots
      ensures old(name in slots) || !packed ==> slots == old(slots) && order == old(order) && nextBit == old(nextBit)
      ensures !old(name in slots) && packed ==>
                && slots == old(slots)[name := Slot(name, old(nextBit), Width(name))]
                && order == old(order) + [name] && nextBit == old(nextBit) + Width(name)
    {
      if name in slots {
        return true;
      }
      if frozen || size != 1 {
        return false;
      }
      var bits := Width(name);
      if !(1 <= bits <= 8) || nextBit + bits > MAX_PACK_BITS {
        return false;
      }
      slots := slots[name := Slot(name, nextBit, bits)];
      order := order + [name];
      nextBit := nextBit + bits;
      return true;
    }
  }
}
