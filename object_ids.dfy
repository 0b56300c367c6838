/** MongoDB ObjectIds as the handlers meet them: `ObjectId.is_valid`, the
    `ObjectId(s)` constructor on a string, and `str(oid)`. An id is the
    number its 24 hex digits denote. */
module ObjectIds {

  import opened Wrappers
  import opened Digits
  import opened Json

  type ObjectId = nat

  /** Number of hex digits in the text form of an ObjectId. */
  const IdDigits: nat := 24

  /** The text ObjectId accepts: exactly 24 hex digits, either case. */
  predicate IsIdString(s: string)
  {
    |s| == IdDigits && AllHex(s)
  }

  /** `ObjectId.is_valid(x)` for a value taken from a request body. */
  predicate IsValidId(j: Json)
  {
    j.JStr? && IsIdString(j.s)
  }

  /** `ObjectId(s)` on a string: None stands for the `InvalidId` it raises. */
  function ParseId(s: string): (r: Option<ObjectId>)
    ensures r.Some? <==> IsIdString(s)
    ensures r.Some? ==> r.value < Pow16(IdDigits)
  {
    if IsIdString(s) then
      HexValueBound(s);
      Some(HexValue(s))
    else None
  }

  /** `ObjectId(x)` on a value from a request body or a token: anything but
      a valid id string raises. */
  function ParseIdJson(j: Json): (r: Option<ObjectId>)
    ensures r.Some? <==> IsValidId(j)
  {
    if j.JStr? then ParseId(j.s) else None
  }

  /** `str(oid)`: 24 lower-case hex digits. */
  function IdString(id: ObjectId): (s: string)
    ensures IsIdString(s)
  {
    HexFixedValue(id, IdDigits);
    HexFixed(id, IdDigits)
  }

  /** Every id the 24 digits can hold survives `str` and `ObjectId(...)`. */
  lemma IdStringRoundTrip(id: ObjectId)
    requires id < Pow16(IdDigits)
    ensures ParseId(IdString(id)) == Some(id)
  {
    HexFixedValue(id, IdDigits);
    DivModUnique(id, Pow16(IdDigits), 0, id);
  }
}
