/**
 * Date arithmetic and the record merge the strategies use for their settings.
 *
 * Instants are whole milliseconds since the epoch. A JavaScript number that
 * results from arithmetic on `undefined` is NaN; `Millis` keeps that case
 * visible, because the scheduling code can produce it (see module Leitner).
 */
module Utils {
  import opened Wrappers

  function Min(a: int, b: int): int { if a <= b then a else b }

  function Max(a: int, b: int): int { if a >= b then a else b }

  /** Milliseconds in one day (`DateUtils.DAYS_TO_MILLIS`). */
  const DaysToMillis: int := 86400000

  /** A millisecond quantity, or the NaN that arithmetic on a missing value yields. */
  datatype Millis = Finite(ms: int) | NaN

  /** The largest distance from the epoch a JavaScript `Date` can hold (TimeClip in ECMA-262). */
  const MaxTime: int := 8640000000000000

  /**
   * `DateUtils.addTime`: the instant `time` milliseconds after `date`.
   * An offset that is NaN, or a sum beyond the range a `Date` holds, gives an
   * invalid date, whose time is NaN.
   */
  function AddTime(date: int, time: Millis): (r: Millis)
    ensures r.NaN? <==> time.NaN? || date + time.ms > MaxTime || date + time.ms < -MaxTime
    ensures r.Finite? ==> r.ms - date == time.ms && -MaxTime <= r.ms <= MaxTime
  {
    match time
    case Finite(t) => if -MaxTime <= date + t <= MaxTime then Finite(date + t) else NaN
    case NaN => NaN
  }

  /** A plain JavaScript object used as a record from property names to values. */
  class Obj<V> {
    var fields: map<string, V>

    constructor (fields: map<string, V>)
      ensures this.fields == fields
    {
      this.fields := fields;
    }
  }

  /**
   * `ObjectUtils.assignOnly`: copies into `obj` the values `source` has for the
   * properties `obj` already has, and returns `obj` itself (not a copy).
   * A missing `source` (null or undefined) leaves `obj` as it is.
   */
  method AssignOnly<V>(obj: Obj<V>, source: Option<map<string, V>>) returns (r: Obj<V>)
    modifies obj
    ensures r == obj
    ensures obj.fields.Keys == old(obj.fields).Keys
    ensures forall k :: k in obj.fields && source.Some? && k in source.value ==> obj.fields[k] == source.value[k]
    ensures forall k :: k in obj.fields && (source.None? || k !in source.value) ==> obj.fields[k] == old(obj.fields)[k]
  {
    r := obj;
    if source.Some? {
      var src := source.value;
      var keys := obj.fields.Keys;
      while keys != {}
        invariant keys <= old(obj.fields).Keys
        invariant r == obj && obj.fields.Keys == old(obj.fields).Keys
        invariant forall k :: k in obj.fields && k !in keys && k in src ==> obj.fields[k] == src[k]
        invariant forall k :: k in obj.fields && (k in keys || k !in src) ==> obj.fields[k] == old(obj.fields)[k]
        decreases keys
      {
        var k :| k in keys;
        if k in src {
          r.fields := r.fields[k := src[k]];
        }
        keys := keys - {k};
      }
    }
  }
}
