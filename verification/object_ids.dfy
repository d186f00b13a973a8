/**
 * The text form of a server identifier, as it travels in a query string
 * (`?id=${note._id}`) and is parsed back by `new ObjectId(id)`. The hexadecimal
 * ObjectId format is abstracted to decimal digits: what matters is that printing
 * an identifier and parsing it back is the identity, and that text which is not
 * an identifier is rejected (the constructor throws).
 */
module ObjectIds {
  import opened Wrappers
  import opened Notes

  predicate IsDigit(c: char) { '0' <= c <= '9' }

  predicate AllDigits(s: string) { forall i :: 0 <= i < |s| ==> IsDigit(s[i]) }

  function DigitChar(d: nat): (c: char)
    requires d < 10
    ensures IsDigit(c)
  {
    ('0' as int + d) as char
  }

  /** The identifier printed in decimal, most significant digit first. */
  function IdText(id: RemoteId): (s: string)
    ensures s != [] && AllDigits(s)
    decreases id
  {
    if id < 10 then [DigitChar(id)] else IdText(id / 10) + [DigitChar(id % 10)]
  }

  function DigitsValue(s: string): nat
    requires AllDigits(s)
    decreases |s|
  {
    if s == [] then 0
    else DigitsValue(s[..|s| - 1]) * 10 + (s[|s| - 1] as int - '0' as int)
  }

  /** `new ObjectId(text)`: `None` when the constructor would throw. */
  function ParseId(text: string): (r: Option<RemoteId>)
    ensures r.Some? <==> text != [] && AllDigits(text)
  {
    if text != [] && AllDigits(text) then Some(DigitsValue(text)) else None
  }

  /** An identifier survives the round trip through its text form. */
  lemma {:induction false} ParseIdText(id: RemoteId)
    ensures ParseId(IdText(id)) == Some(id)
    decreases id
  {
    var s := IdText(id);
    if id < 10 {
      assert s[..0] == [];
      assert DigitsValue(s) == id;
    } else {
      ParseIdText(id / 10);
      assert s[..|s| - 1] == IdText(id / 10);
      assert DigitsValue(s) == DigitsValue(IdText(id / 10)) * 10 + id % 10;
    }
  }

  /** Distinct identifiers have distinct text forms. */
  lemma IdTextInjective(a: RemoteId, b: RemoteId)
    requires IdText(a) == IdText(b)
    ensures a == b
  {
    ParseIdText(a);
    ParseIdText(b);
  }
}
