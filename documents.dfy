/** Document-store primitives shared by every schema: optional values, record
    identifiers, Mongoose's `required` rule for strings, and the way an update
    document is merged into a stored one. */
module Documents {

  /** A JSON value that may be absent (`undefined` in a request body or a
      document). */
  datatype Option<+T> = None | Some(value: T) {

    /** The carried value, or `default` when absent. */
    function Or(default: T): T {
      if Some? then value else default
    }
  }

  /** A store-generated identifier. Naturals drawn from one counter stand for
      MongoDB ObjectIds, which are unique across all collections. */
  type Id = nat

  /** A String path declared `required: true` accepts only a string that is
      set and non-empty. */
  predicate Present(s: Option<string>) {
    s.Some? && s.value != ""
  }

  /** An array path whose element type is a required String: every element
      must pass `Present`. The array itself may be empty. */
  predicate AllPresent(xs: seq<string>) {
    forall i :: 0 <= i < |xs| ==> xs[i] != ""
  }

  /** How `findByIdAndUpdate` merges one field: an update field that is set
      replaces the stored value, and one that is `undefined` leaves it as it
      was. This is a modelling assumption about the driver. */
  function Merge<T>(current: Option<T>, patch: Option<T>): Option<T> {
    if patch.Some? then patch else current
  }
}
