/** Record ids. The store assigns each new user an id of its own; the service
    writes it into the `Location` header as `/user/<id>` and reads it back from
    the `:id` path parameter, where text that is not an id makes the lookup
    fail with a cast error. Ids are modelled as naturals written in decimal. */
module ObjectIds {

  import opened Options

  type Id = nat

  function DigitChar(d: nat): (c: char)
    requires d < 10
    ensures '0' <= c <= '9'
  {
    "0123456789"[d]
  }

  function DigitValue(c: char): (d: nat)
    requires '0' <= c <= '9'
    ensures d < 10 && DigitChar(d) == c
  {
    (c as int - '0' as int) as nat
  }

  predicate AllDigits(s: string)
  {
    forall i :: 0 <= i < |s| ==> '0' <= s[i] <= '9'
  }

  /** The textual form of an id, as it appears in a URL path. */
  function IdText(id: Id): (s: string)
    ensures |s| > 0 && AllDigits(s)
  {
    if id < 10 then [DigitChar(id)] else IdText(id / 10) + [DigitChar(id % 10)]
  }

  function DigitsValue(s: string): nat
    requires AllDigits(s)
  {
    if s == [] then 0 else 10 * DigitsValue(s[..|s| - 1]) + DigitValue(s[|s| - 1])
  }

  /** Reads an id from a path parameter; `None` is the cast error. */
  function ParseId(s: string): (r: Option<Id>)
    ensures r.Some? <==> |s| > 0 && AllDigits(s)
  {
    if |s| > 0 && AllDigits(s) then Some(DigitsValue(s)) else None
  }

  /** The id written into a path reads back as the same id. */
  lemma {:induction false} ParseIdText(id: Id)
    ensures ParseId(IdText(id)) == Some(id)
  {
    DigitsValueOfText(id);
  }

  lemma {:induction false} DigitsValueOfText(id: Id)
    ensures DigitsValue(IdText(id)) == id
  {
    var s := IdText(id);
    if id < 10 {
      assert s[..|s| - 1] == [];
    } else {
      assert s[..|s| - 1] == IdText(id / 10);
      DigitsValueOfText(id / 10);
    }
  }

  /** Distinct ids have distinct paths. */
  lemma IdTextInjective(a: Id, b: Id)
    requires IdText(a) == IdText(b)
    ensures a == b
  {
    ParseIdText(a);
    ParseIdText(b);
  }
}
