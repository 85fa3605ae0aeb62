/** CurrencyHelper: the currency allow-list and the code normaliser. */
module CurrencyHelper {
  import opened Text

  /** The members of AllowedCurrencies, as written. */
  const AllowedCodes: set<string> := {"EUR", "USD", "RON"}

  /** CurrencyHelper.NormalizeCurrency: Trim() then ToUpperInvariant(). */
  function NormalizeCurrency(currency: string): (r: string)
  {
    ToUpper(Trim(currency))
  }

  /**
   * AllowedCurrencies.Contains(code): the set is built with
   * StringComparer.OrdinalIgnoreCase, so membership ignores case (but not
   * surrounding white space).
   */
  predicate IsAllowed(code: string) {
    exists a :: a in AllowedCodes && EqualsIgnoreCase(a, code)
  }

  /** The normalised code is the input without its surrounding white space, upper-cased. */
  lemma NormalizeCurrencySpec(currency: string)
    ensures var r := NormalizeCurrency(currency);
      && |r| == |Trim(currency)|
      && (forall i :: 0 <= i < |r| ==> r[i] == UpperChar(Trim(currency)[i]))
      && (r == [] || (!IsWhiteSpace(r[0]) && !IsWhiteSpace(r[|r| - 1])))
      && (forall i :: 0 <= i < |r| ==> !('a' <= r[i] <= 'z'))
  {
    TrimSpec(currency);
    var t := Trim(currency);
    var r := NormalizeCurrency(currency);
    if t != [] {
      UpperCharWhiteSpace(t[0]);
      UpperCharWhiteSpace(t[|t| - 1]);
    }
    forall i | 0 <= i < |r| ensures !('a' <= r[i] <= 'z') {
      UpperCharIsNotLower(t[i]);
    }
  }

  /** Normalising twice is normalising once. */
  lemma NormalizeCurrencyIdempotent(currency: string)
    ensures NormalizeCurrency(NormalizeCurrency(currency)) == NormalizeCurrency(currency)
  {
    var t := Trim(currency);
    TrimToUpper(t);
    TrimIdempotent(currency);
    ToUpperIdempotent(t);
  }

  /** The allow-list is exactly EUR, USD and RON, compared without regard to case. */
  lemma IsAllowedSpec(code: string)
    ensures IsAllowed(code) <==> ToUpper(code) in AllowedCodes
  {
    if ToUpper(code) in AllowedCodes {
      var a := ToUpper(code);
      assert ToUpper(a) == a;
      assert EqualsIgnoreCase(a, code);
    }
    if IsAllowed(code) {
      var a :| a in AllowedCodes && EqualsIgnoreCase(a, code);
      assert ToUpper(a) == a;
    }
  }

  /** Every casing of an allowed code is a member; a normalised code is a member iff it is one of the three. */
  lemma NormalizedMembership(currency: string)
    ensures IsAllowed(NormalizeCurrency(currency)) <==> NormalizeCurrency(currency) in AllowedCodes
  {
    IsAllowedSpec(NormalizeCurrency(currency));
    ToUpperIdempotent(Trim(currency));
  }
}
