/** Entity ids (lib/utils/idGenerator.ts): the clock reading in base 36, a `-`,
    then up to six base-36 digits of a random fraction. The clock
    (`Date.now()`) and the random number (`Math.random()`, given by its
    base-36 fraction digits) are parameters. */
module IdGenerator {
  import opened Radix
  import Text

  /** `Date.now().toString(36)`. */
  function TimestampPart(now: nat): string {
    ToRadix(now, 36)
  }

  /** `Math.random().toString(36).substring(2, 8)`: skips the leading `"0."`. */
  function RandomSuffix(random: seq<nat>): string
    requires IsDigits(random, 36)
  {
    Text.Substring(FractionText(random), 2, 8)
  }

  /** `generateId()`. */
  function GenerateId(now: nat, random: seq<nat>): string
    requires IsDigits(random, 36)
  {
    TimestampPart(now) + "-" + RandomSuffix(random)
  }

  /** `isValidId(id)`: non-empty and contains a `-`. */
  predicate IsValidId(id: string) {
    |id| > 0 && '-' in id
  }

  /** The empty string and any string without `-` are rejected. */
  lemma IsValidIdRejects(id: string)
    ensures !IsValidId("")
    ensures '-' !in id ==> !IsValidId(id)
  {
  }

  /** The suffix is the first `min(6, |random|)` random digits, so at most six
      characters of `[a-z0-9]`; it is empty when `Math.random()` returns 0. */
  lemma RandomSuffixShape(random: seq<nat>)
    requires IsDigits(random, 36)
    ensures var k := if |random| < 6 then |random| else 6;
      RandomSuffix(random) == DigitsText(random[..k])
    ensures |RandomSuffix(random)| <= 6 && AllDigitChars(RandomSuffix(random))
  {
    var k := if |random| < 6 then |random| else 6;
    if random != [] {
      var t := FractionText(random);
      assert t == "0." + DigitsText(random);
      assert t[2..2 + k] == DigitsText(random)[..k];
      DigitsTextPrefix(random, k);
    }
  }

  lemma {:induction false} DigitsTextPrefix(ds: seq<nat>, k: nat)
    requires IsDigits(ds, 36) && k <= |ds|
    ensures DigitsText(ds)[..k] == DigitsText(ds[..k])
  {
    if k > 0 {
      assert ds[..k][1..] == ds[1..][..k - 1];
      DigitsTextPrefix(ds[1..], k - 1);
    }
  }

  /** Every generated id passes `isValidId`, whatever the clock and the random draw. */
  lemma GeneratedIdIsValid(now: nat, random: seq<nat>)
    requires IsDigits(random, 36)
    ensures IsValidId(GenerateId(now, random))
  {
    var ts := TimestampPart(now);
    assert GenerateId(now, random)[|ts|] == '-';
  }

  /** Decoding, in base 36, the part before the first `-` gives back the clock reading. */
  lemma TimestampRoundTrip(now: nat, random: seq<nat>)
    requires IsDigits(random, 36)
    ensures AllDigitChars(Text.Before(GenerateId(now, random), '-'))
    ensures FromRadix(Text.Before(GenerateId(now, random), '-'), 36) == now
  {
    var ts := TimestampPart(now);
    Text.BeforeOfJoin(ts, '-', RandomSuffix(random));
    FromToRadix(now, 36);
  }

  /** Ids are made of `[a-z0-9]`, one `-`, and `[a-z0-9]` (the pattern
      `^[a-z0-9]+-[a-z0-9]*$`); the timestamp part is never empty. */
  lemma IdAlphabet(now: nat, random: seq<nat>)
    requires IsDigits(random, 36)
    ensures var id := GenerateId(now, random);
      var ts := TimestampPart(now);
      |ts| >= 1 && AllDigitChars(ts) && id[|ts|] == '-' && AllDigitChars(id[|ts| + 1..])
  {
    RandomSuffixShape(random);
    var ts := TimestampPart(now);
    assert GenerateId(now, random)[|ts| + 1..] == RandomSuffix(random);
  }

  /** Ids generated at different milliseconds differ, whatever the random draws. */
  lemma DistinctTimestampsDistinctIds(t1: nat, r1: seq<nat>, t2: nat, r2: seq<nat>)
    requires IsDigits(r1, 36) && IsDigits(r2, 36) && t1 != t2
    ensures GenerateId(t1, r1) != GenerateId(t2, r2)
  {
    TimestampRoundTrip(t1, r1);
    TimestampRoundTrip(t2, r2);
  }

  /** When `Math.random()` returns 0 the suffix is empty and the id ends in `-`. */
  lemma ZeroDrawGivesEmptySuffix(now: nat)
    ensures GenerateId(now, []) == TimestampPart(now) + "-"
  {
    assert RandomSuffix([]) == "";
  }
}
