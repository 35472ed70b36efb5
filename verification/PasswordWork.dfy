/** How much bcrypt work a password login does, so that a login for an unknown user
    cannot be told from one with a wrong password. Work is counted in units of
    2^cost per bcrypt evaluation. */
module PasswordWork {

  import opened Prelude
  import opened Text

  /** The highest cost the settings accept at startup. */
  const MAX_BCRYPT_COST: nat := 31
  /** The range of costs bcrypt itself accepts. */
  const BCRYPT_LOWEST: nat := 4

  function Pow2(n: nat): (r: nat)
    ensures r >= 1
  {
    if n == 0 then 1 else 2 * Pow2(n - 1)
  }

  lemma {:induction false} Pow2Splits(a: nat, b: nat)
    ensures Pow2(a + b) == Pow2(a) * Pow2(b)
  {
    if a > 0 {
      Pow2Splits(a - 1, b);
      assert 2 * Pow2(a - 1) * Pow2(b) == 2 * (Pow2(a - 1) * Pow2(b));
    }
  }

  lemma {:induction false} Pow2Grows(a: nat, b: nat)
    requires a < b
    ensures Pow2(a) < Pow2(b)
  {
    if b > a + 1 { Pow2Grows(a, b - 1); }
  }

  predicate Hashable(cost: nat) {
    BCRYPT_LOWEST <= cost <= MAX_BCRYPT_COST
  }

  // ---------------------------------------------------- the cost in a hash

  function Digits(s: string): Option<nat> {
    if s == "" then Some(0)
    else
      var last := s[|s| - 1];
      var front := Digits(s[..|s| - 1]);
      if '0' <= last <= '9' && front.Some? then Some(10 * front.value + (last as int - '0' as int)) else None
  }

  /** `str::parse::<u32>`: an optional plus sign, at least one digit, no overflow. */
  function ParseU32(s: string): Option<nat> {
    var digits := if s != "" && s[0] == '+' then s[1..] else s;
    if digits == "" then None
    else
      var value := Digits(digits);
      if value.Some? && value.value < U32_LIMIT then value else None
  }

  /** The cost field of `$2b$12$...`. */
  function StoredHashCost(hash: string): Option<nat> {
    var parts := Split(hash, '$');
    if parts[0] != "" || |parts| < 3 then None else ParseU32(parts[2])
  }

  // --------------------------------------------------------------- the meter

  /** The process-wide cache of dummy hashes, a count of the bcrypt work done, and of the
      50 ms naps taken where no dummy hash could be made. */
  class Bcrypt {
    var dummies: map<nat, bool>
    var work: nat
    var naps: nat

    constructor ()
      ensures dummies == map[] && work == 0 && naps == 0
    {
      dummies := map[];
      work := 0;
      naps := 0;
    }

    /** Costs already tried have an entry, true where bcrypt accepts the cost. */
    ghost predicate Valid()
      reads this
    {
      forall cost :: cost in dummies ==> dummies[cost] == Hashable(cost)
    }

    /** True if there is a dummy hash for this cost; hashing it is paid once. */
    method DummyPasswordHash(cost: nat) returns (some: bool)
      requires Valid()
      modifies this
      ensures Valid() && some == Hashable(cost) && naps == old(naps)
      ensures dummies == old(dummies)[cost := Hashable(cost)]
      ensures work == old(work) + if cost !in old(dummies) && Hashable(cost) then Pow2(cost) else 0
    {
      if cost in dummies {
        return dummies[cost];
      }
      some := Hashable(cost);
      if some {
        work := work + Pow2(cost);
      }
      dummies := dummies[cost := some];
    }

    method Verify(cost: nat)
      modifies this
      ensures work == old(work) + (if Hashable(cost) then Pow2(cost) else 0) && dummies == old(dummies) &&
              naps == old(naps)
    {
      if BCRYPT_LOWEST <= cost <= MAX_BCRYPT_COST {
        work := work + Pow2(cost);
      }
    }

    /** The extra verifications at the stored cost add up to the missing work, and their
        number, a 32-bit shift less one, never overflows. */
    method PadTimingTo(hash: string, configured: nat)
      requires Valid() && configured <= MAX_BCRYPT_COST
      modifies this
      ensures Valid()
      ensures var stored := StoredHashCost(hash);
              && (stored.None? || stored.value >= configured ==>
                  work == old(work) && naps == old(naps) && dummies == old(dummies))
              && (stored.Some? && stored.value < configured ==>
                  dummies == old(dummies)[stored.value := Hashable(stored.value)])
              && (stored.Some? && stored.value < configured && stored.value < BCRYPT_LOWEST ==>
                  work == old(work) && naps == old(naps) + 1)
              && (stored.Some? && BCRYPT_LOWEST <= stored.value < configured ==>
                    && naps == old(naps)
                    && work == old(work) + Pow2(configured) - Pow2(stored.value)
                               + (if stored.value in old(dummies) then 0 else Pow2(stored.value)))
    {
      var parsed := StoredHashCost(hash);
      if parsed.None? || parsed.value >= configured {
        return;
      }
      var stored := parsed.value;
      var some := DummyPasswordHash(stored);
      if !some {
        naps := naps + 1;
        return;
      }
      var shift := configured - stored;
      ShiftFits(shift);
      VerifyRepeatedly(stored, Pow2(shift) - 1);
      Pow2Splits(shift, stored);
    }

    method VerifyRepeatedly(cost: nat, times: nat)
      requires Hashable(cost) && times < U32_LIMIT
      modifies this
      ensures work == old(work) + (times + 1) * Pow2(cost) - Pow2(cost)
      ensures dummies == old(dummies) && naps == old(naps)
    {
      for k := 0 to times
        invariant work == old(work) + (k + 1) * Pow2(cost) - Pow2(cost)
        invariant dummies == old(dummies) && naps == old(naps)
      {
        assert (k + 2) * Pow2(cost) == (k + 1) * Pow2(cost) + Pow2(cost);
        Verify(cost);
      }
    }

    /** `verified` is bcrypt's own answer for the stored hash; it gives none, and does no work, for
        a hash it cannot use. Only a stored hash that verifies is accepted. */
    method VerifyPasswordTimingSafe(hash: Option<string>, verified: Option<bool>, configured: nat) returns (ok: bool)
      requires Valid() && configured <= MAX_BCRYPT_COST
      modifies this
      ensures Valid()
      ensures ok <==> hash.Some? && verified == Some(true)
      ensures work == old(work) + LoginWork(old(dummies), hash, verified, configured)
      ensures hash.None? ==> naps == old(naps) + if Hashable(configured) then 0 else 1
    {
      if hash.None? {
        var some := DummyPasswordHash(configured);
        if some { Verify(configured); } else { naps := naps + 1; }
        return false;
      }
      PadTimingTo(hash.value, configured);
      var stored := StoredHashCost(hash.value);
      if stored.Some? && verified.Some? {
        Verify(stored.value);
      }
      ok := verified == Some(true);
    }
  }

  // ---------------------------------------------- what a login costs on each path

  function Evaluation(cost: nat): nat {
    if Hashable(cost) then Pow2(cost) else 0
  }

  /** Up to the configured cost, with the dummy of the stored cost hashed first if it is not cached. */
  function Padding(dummies: map<nat, bool>, stored: Option<nat>, configured: nat): int {
    if stored.None? || stored.value >= configured || !Hashable(stored.value) then 0
    else Pow2(configured) - Pow2(stored.value) + if stored.value in dummies then 0 else Pow2(stored.value)
  }

  /** The bcrypt work of a login: for an unknown user (no hash), and for a stored one. */
  function LoginWork(dummies: map<nat, bool>, hash: Option<string>, verified: Option<bool>, configured: nat): int {
    if hash.None? then
      Evaluation(configured) + if configured in dummies then 0 else Evaluation(configured)
    else
      var stored := StoredHashCost(hash.value);
      Padding(dummies, stored, configured)
      + if stored.Some? && verified.Some? then Evaluation(stored.value) else 0
  }

  /** Whether the stored hash of this cost, verified or refused by bcrypt, is padded to exactly
      the work of one evaluation at the configured cost. */
  predicate PaddedExactly(dummies: map<nat, bool>, stored: nat, answered: bool, configured: nat) {
    && 4 <= stored <= configured
    && if answered then stored == configured || stored in dummies else stored < configured && stored !in dummies
  }

  /** A login with a stored hash does exactly the work of one evaluation at the configured cost if and
      only if its cost can be read, bcrypt accepts that cost, it does not exceed the configured one and,
      where bcrypt answers, it is the configured one or has its dummy cached; where bcrypt refuses the
      hash, only a lower cost without a cached dummy happens to come out the same. */
  lemma StoredHashCostsOneEvaluationIff(
    dummies: map<nat, bool>, hash: string, verified: Option<bool>, configured: nat)
    requires configured <= 31
    ensures LoginWork(dummies, Some(hash), verified, configured) == Pow2(configured) <==>
            StoredHashCost(hash).Some?
            && PaddedExactly(dummies, StoredHashCost(hash).value, verified.Some?, configured)
  {
    var stored := StoredHashCost(hash);
    if stored.Some? {
      if stored.value < configured { Pow2Grows(stored.value, configured); }
      if stored.value > configured { Pow2Grows(configured, stored.value); }
    }
  }

  /** A login with a stored hash does the work of one for an unknown user if and only if it is padded
      exactly, once the dummy of the configured cost is cached; the first unknown user pays for that
      dummy as well, and only a hash one cost higher does as much. */
  lemma StoredHashCostsLikeUnknownUserIff(
    dummies: map<nat, bool>, hash: string, verified: Option<bool>, nobody: Option<bool>, configured: nat)
    requires 4 <= configured <= 31
    ensures LoginWork(dummies, Some(hash), verified, configured) == LoginWork(dummies, None, nobody, configured) <==>
            var stored := StoredHashCost(hash);
            && stored.Some?
            && if configured in dummies then PaddedExactly(dummies, stored.value, verified.Some?, configured)
               else verified.Some? && stored.value == configured + 1 <= 31
  {
    if configured in dummies {
      StoredHashCostsOneEvaluationIff(dummies, hash, verified, configured);
    } else if StoredHashCost(hash).Some? {
      StoredHashCostsTwiceIff(dummies, StoredHashCost(hash).value, verified.Some?, configured);
    }
  }

  lemma StoredHashCostsTwiceIff(dummies: map<nat, bool>, stored: nat, answered: bool, configured: nat)
    requires 4 <= configured <= 31
    ensures Padding(dummies, Some(stored), configured) + (if answered then Evaluation(stored) else 0)
            == 2 * Pow2(configured) <==>
            answered && stored == configured + 1 <= 31
  {
    if stored < configured { Pow2Grows(stored, configured); }
    if stored > configured + 1 { Pow2Grows(configured + 1, stored); }
    assert Pow2(configured + 1) == 2 * Pow2(configured);
  }

  lemma Pow2Squared(n: nat, value: nat)
    requires Pow2(n) == value
    ensures Pow2(n + n) == value * value
  {
    Pow2Splits(n, n);
  }

  /** A 32-bit shift by fewer than 32 places does not overflow. */
  lemma ShiftFits(shift: nat)
    requires shift < 32
    ensures Pow2(shift) < U32_LIMIT
  {
    // Two as a variable: applied to literals, Pow2 would be unfolded step by step.
    var two: nat :| two == 2;
    assert Pow2(two - 1) == 2;
    Pow2Squared(two, 4);
    Pow2Squared(two + two, 16);
    var eight := two + two + two + two;
    Pow2Squared(eight, 256);
    Pow2Squared(eight + eight, 0x1_0000);
    var all := eight + eight + eight + eight;
    Pow2Grows(shift, all);
  }

  /** A hash rendered with a two-digit cost is read back with that cost. */
  lemma RenderedCostIsRead(version: string, tens: nat, ones: nat, rest: string)
    requires tens <= 9 && ones <= 9 && '$' !in version
    ensures var cost := [('0' as int + tens) as char, ('0' as int + ones) as char];
            StoredHashCost("$" + version + "$" + cost + "$" + rest) == Some(10 * tens + ones)
  {
    var cost := [('0' as int + tens) as char, ('0' as int + ones) as char];
    var hash := "$" + version + "$" + cost + "$" + rest;
    assert hash == "" + "$" + (version + "$" + (cost + "$" + rest));
    SplitAround("", '$', version + "$" + (cost + "$" + rest));
    SplitAround(version, '$', cost + "$" + rest);
    SplitAround(cost, '$', rest);
    SplitNothing(version, '$');
    SplitNothing(cost, '$');
    assert Split("", '$') == [""];
    assert Split(hash, '$') == [""] + ([version] + ([cost] + Split(rest, '$')));
    assert Digits(cost[..1][..0]) == Some(0);
    assert Digits(cost[..1]) == Some(tens);
    assert Digits(cost) == Some(10 * tens + ones);
  }

  /** No cost is read from a hash that does not start with the separator or has only one field. */
  lemma NoCostInOtherText(hash: string)
    requires hash == "" || hash[0] != '$' || '$' !in hash[1..]
    ensures StoredHashCost(hash).None?
  {
    if hash != "" && hash[0] == '$' {
      SplitNothing(hash[1..], '$');
    }
  }

  predicate NotANumber(field: string) {
    || field == "" || field == "+"
    || (field[0] != '+' && !('0' <= field[0] <= '9'))
    || (exists k :: 0 < k < |field| && !('0' <= field[k] <= '9'))
  }

  /** Nor from a field with anything but digits after an optional plus sign, nor from an empty one. */
  lemma NoCostInOtherField(version: string, field: string, rest: string)
    requires '$' !in version && '$' !in field && NotANumber(field)
    ensures StoredHashCost("$" + version + "$" + field + "$" + rest).None?
  {
    var hash := "$" + version + "$" + field + "$" + rest;
    assert hash == "" + "$" + (version + "$" + (field + "$" + rest));
    SplitAround("", '$', version + "$" + (field + "$" + rest));
    SplitAround(version, '$', field + "$" + rest);
    SplitAround(field, '$', rest);
    SplitNothing(version, '$');
    SplitNothing(field, '$');
    assert Split("", '$') == [""];
    assert Split(hash, '$') == [""] + ([version] + ([field] + Split(rest, '$')));
    UnparsedField(field);
  }

  lemma UnparsedField(field: string)
    requires NotANumber(field)
    ensures ParseU32(field).None?
  {
    if field != "" && field != "+" {
      if k :| 0 < k < |field| && !('0' <= field[k] <= '9') {
        if field[0] == '+' {
          assert field[1..][k - 1] == field[k];
          NotAllDigits(field[1..], k - 1);
        } else {
          NotAllDigits(field, k);
        }
      } else {
        NotAllDigits(field, 0);
      }
    }
  }

  lemma {:induction false} NotAllDigits(s: string, k: nat)
    requires k < |s| && !('0' <= s[k] <= '9')
    ensures Digits(s).None?
  {
    if k < |s| - 1 { NotAllDigits(s[..|s| - 1], k); }
  }

  /** A cost that is read fits 32 bits. */
  lemma CostFitsU32(hash: string)
    ensures StoredHashCost(hash).Some? ==> StoredHashCost(hash).value < 0x1_0000_0000
  {
  }
}
