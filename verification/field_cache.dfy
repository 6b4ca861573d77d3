/**
 * The last-valid-value cache of main.cpp: one slot per metric (a value and a valid
 * flag, the pairs of fields of lastValidData), and the two extractors
 * parseValueSafely and parseIntValueSafely that refresh a slot from a JSON scalar or
 * fall back to it.
 *
 * The source passes the slot by reference (float& / int& and bool&); here the slot is
 * passed in and its new contents returned, and the caller stores them back.
 */
module FieldCache {
  import opened Options
  import opened Json

  /** A cache slot: the last value that parsed, and whether any value ever did. */
  datatype Slot<T> = Slot(value: T, valid: bool)
  {
    /** What the source hands on when there is no fresh value: the cached one if valid, else zero. */
    function OrZero(zero: T): T
    {
      if valid then value else zero
    }

    /** The slot after one extraction that obtained outcome (None when it fell back). */
    function Refresh(outcome: Option<T>): Slot<T>
    {
      match outcome
      case Some(v) => Slot(v, true)
      case None => this
    }
  }

  /** The literal strings the extractors treat as an absent value. */
  predicate IsNullToken(s: string)
  {
    s == "" || s == "null" || s == "NULL"
  }

  /**
   * The fresh value parseValueSafely obtains: any JSON number, or a string other than
   * the null tokens that stof accepts; None for everything else.
   */
  function FreshFloat(v: Value, stof: string -> Option<real>): Option<real>
  {
    match v
    case Str(s) => if IsNullToken(s) then None else stof(s)
    case Int(i) => Some(i as real)
    case Float(f) => Some(f)
    case _ => None
  }

  /**
   * The fresh value parseIntValueSafely obtains: an integer JSON number, or a string
   * other than the null tokens that stoi accepts; a floating-point number is absent.
   */
  function FreshInt(v: Value, stoi: string -> Option<int>): Option<int>
  {
    match v
    case Int(i) => Some(i)
    case Str(s) => if IsNullToken(s) then None else stoi(s)
    case _ => None
  }

  /**
   * parseValueSafely. A fresh value is stored in the slot, marks it valid and is
   * returned; otherwise the slot is left as it was and its cached value (zero while it
   * has never been valid) is returned. Either way the result is what the slot now
   * holds, and a valid slot stays valid.
   */
  method ParseValueSafely(value: Value, slot: Slot<real>, stof: string -> Option<real>)
    returns (r: real, slot': Slot<real>)
    ensures FreshFloat(value, stof).Some? ==> r == FreshFloat(value, stof).value && slot' == Slot(r, true)
    ensures FreshFloat(value, stof).None? ==> slot' == slot
    ensures r == slot'.OrZero(0.0)
    ensures slot.valid ==> slot'.valid
  {
    slot' := slot;
    if value.Str? {
      var strVal := value.s;
      if strVal != "" && strVal != "null" && strVal != "NULL" {
        var parsed := stof(strVal);
        if parsed.Some? {
          r := parsed.value;
          slot' := Slot(r, true);
          return;
        }
        // stof threw: the exception is caught and the fallback below is taken
      }
    } else if value.Int? || value.Float? {
      r := if value.Int? then value.i as real else value.f;
      slot' := Slot(r, true);
      return;
    }
    if slot.valid {
      r := slot.value;
    } else {
      r := 0.0;
    }
  }

  /** parseIntValueSafely: as ParseValueSafely, with integer numbers and stoi. */
  method ParseIntValueSafely(value: Value, slot: Slot<int>, stoi: string -> Option<int>)
    returns (r: int, slot': Slot<int>)
    ensures FreshInt(value, stoi).Some? ==> r == FreshInt(value, stoi).value && slot' == Slot(r, true)
    ensures FreshInt(value, stoi).None? ==> slot' == slot
    ensures r == slot'.OrZero(0)
    ensures slot.valid ==> slot'.valid
  {
    slot' := slot;
    if value.Int? {
      r := value.i;
      slot' := Slot(r, true);
      return;
    } else if value.Str? {
      var strVal := value.s;
      if strVal != "" && strVal != "null" && strVal != "NULL" {
        var parsed := stoi(strVal);
        if parsed.Some? {
          r := parsed.value;
          slot' := Slot(r, true);
          return;
        }
      }
    }
    if slot.valid {
      r := slot.value;
    } else {
      r := 0;
    }
  }

  /**
   * A slot after a run of cycles, given what each cycle's extraction obtained (None
   * for a fallback, including a whole-feed fallback).
   */
  function Replay<T>(slot: Slot<T>, outcomes: seq<Option<T>>): Slot<T>
  {
    if outcomes == [] then slot
    else Replay(slot, outcomes[..|outcomes| - 1]).Refresh(outcomes[|outcomes| - 1])
  }

  /**
   * Over a run of cycles the flag becomes true exactly when some cycle obtained a
   * fresh value, and never goes back: before the first success the slot is untouched.
   */
  lemma {:induction false} ReplayValid<T>(slot: Slot<T>, outcomes: seq<Option<T>>)
    ensures Replay(slot, outcomes).valid <==>
            slot.valid || exists k :: 0 <= k < |outcomes| && outcomes[k].Some?
    ensures (forall k :: 0 <= k < |outcomes| ==> outcomes[k].None?) ==> Replay(slot, outcomes) == slot
  {
    if outcomes != [] {
      var init := outcomes[..|outcomes| - 1];
      ReplayValid(slot, init);
      assert forall k :: 0 <= k < |init| ==> init[k] == outcomes[k];
      if Replay(slot, outcomes).valid && !slot.valid && outcomes[|outcomes| - 1].None? {
        var k :| 0 <= k < |init| && init[k].Some?;
        assert outcomes[k].Some?;
      }
    }
  }

  /**
   * After a run of cycles the slot holds the value of the last cycle that obtained one:
   * later fallbacks return that value unchanged.
   */
  lemma {:induction false} ReplayKeepsLast<T>(slot: Slot<T>, outcomes: seq<Option<T>>, k: nat)
    requires k < |outcomes| && outcomes[k].Some?
    requires forall j :: k < j < |outcomes| ==> outcomes[j].None?
    ensures Replay(slot, outcomes) == Slot(outcomes[k].value, true)
  {
    if k < |outcomes| - 1 {
      var init := outcomes[..|outcomes| - 1];
      ReplayKeepsLast(slot, init, k);
    }
  }
}
