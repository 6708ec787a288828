/**
 * Null-analysis helpers (de.sebthom.eclipse.commons.util.NullAnalysisHelper).
 * A nullable `T` is an `Option<T>`, `null` being `None`.
 */
module NullAnalysis {
  import opened Common

  /**
   * `castNonNull(value)`: for callers that know the value is not null; the
   * value itself comes back.
   */
  function CastNonNull<T>(value: Option<T>): (r: T)
    requires value.Some?
    ensures Some(r) == value
  {
    value.value
  }

  /** `castNullable(value)`: the same value, seen as nullable. */
  function CastNullable<T>(value: T): (r: Option<T>)
    ensures r.Some? && CastNonNull(r) == value
  {
    Some(value)
  }

  /** `defaultIfNull(object, defaultValue)`. */
  function DefaultIfNull<T>(obj: Option<T>, defaultValue: T): (r: T)
    ensures obj.Some? ==> r == obj.value
    ensures obj.None? ==> r == defaultValue
  {
    if obj.None? then defaultValue else obj.value
  }

  /** A `Supplier<T>` that hands out `value` and counts how often it was asked. */
  class Supplier<T> {
    const value: T
    var calls: nat

    constructor (value: T)
      ensures this.value == value && calls == 0
    {
      this.value := value;
      calls := 0;
    }

    /** `get()`. */
    method Get() returns (v: T)
      modifies this
      ensures v == value && calls == old(calls) + 1
    {
      v := value;
      calls := calls + 1;
    }
  }

  /**
   * `defaultIfNull(object, supplier)`: the supplier is asked once when the
   * object is null and not at all otherwise.
   */
  method DefaultIfNullFrom<T>(obj: Option<T>, defaultValue: Supplier<T>) returns (r: T)
    modifies defaultValue
    ensures r == DefaultIfNull(obj, defaultValue.value)
    ensures defaultValue.calls == old(defaultValue.calls) + (if obj.None? then 1 else 0)
  {
    if obj.None? {
      r := defaultValue.Get();
      return;
    }
    r := obj.value;
  }

  /** A value made nullable and then defaulted is the value itself. */
  lemma DefaultOfNullableIsIdentity<T>(value: T, defaultValue: T)
    ensures DefaultIfNull(CastNullable(value), defaultValue) == value
  {
  }
}
