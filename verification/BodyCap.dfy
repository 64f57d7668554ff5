/** The early refusal of a request that declares too long a body. */
module BodyCap {
  import opened Basics
  import opened Text
  import opened HeaderMaps
  import opened Numbers
  import opened Forward

  /** Parsing gives the number back, unless it does not fit 64 bits. */
  lemma ParseDecimal(n: nat)
    ensures ParseU64(Decimal(n)) == if n < WORD then Some(n) else None
    ensures Readable(Decimal(n))
  {
    hide DecimalValue, Decimal;
    DecimalReads(n);
    var s := Decimal(n);
    assert s[0] in s;
    forall i | 0 <= i < |s| ensures Visible(s[i]) { assert s[i] in s; }
  }

  /** A plus sign in front is allowed; anything else that is not a digit makes the text unreadable as a number. */
  lemma ParseOthers(n: nat, s: string, i: nat)
    ensures ParseU64("+" + Decimal(n)) == if n < WORD then Some(n) else None
    ensures i < |s| && !('0' <= s[i] <= '9') && !(i == 0 && s[0] == '+') ==> ParseU64(s) == None
    ensures ParseU64("") == None && ParseU64("+") == None
  {
    hide DecimalValue, Decimal;
    DecimalReads(n);
    assert ("+" + Decimal(n))[1..] == Decimal(n);
    assert i < |s| ==> s[i] in s;
    assert 0 < i < |s| ==> s[1..][i - 1] == s[i] && s[i] in s[1..];
  }

  /**
   A declared length is refused exactly if it is above the cap and fits 64
   bits; one that does not fit passes this check and is left to the cap on the
   streamed body.
   */
  lemma DeclaredLengthRefused(client: Fields, policy: Policy, max: nat, declared: nat)
    requires policy.maxRequestBody == Some(max) && First(client, ContentLength) == Some(Decimal(declared))
    ensures Refusal(client, false, policy) == Some(PAYLOAD_TOO_LARGE) <==>
            max < declared < WORD && !(policy.via.Some? && ViaContains(client, policy.via.value))
    ensures Refusal(client, false, policy) != Some(PAYLOAD_TOO_LARGE) ==>
              Refusal(client, false, policy) == None || Refusal(client, false, policy) == Some(LOOP_DETECTED)
  {
    hide ViaContains, ParseU64, Decimal;
    ParseDecimal(declared);
  }
}
