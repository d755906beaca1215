/** The error value that models raise, register for and receive
    (ModelsTreeKit/Classes/Error/Error.swift).

    `ErrorDomain` and `ErrorCode` are protocols in the source: any type with a
    `rawValue` conforms. The model keeps the name of the conforming type next to
    the raw value, so that the source's equality, which looks at raw values
    only, is visibly coarser than structural equality. */
module Errors {
  import opened Wrappers
  import opened SwiftInt

  datatype ErrorDomain = ErrorDomain(typeName: string, rawValue: string)
  datatype ErrorCode = ErrorCode(typeName: string, rawValue: Int64)
  datatype Error = Error(domain: ErrorDomain, code: ErrorCode)

  /** What the source's `==` and `hashValue` look at: the two raw values. */
  datatype ErrorKey = ErrorKey(domain: string, code: Int64)

  function Key(e: Error): ErrorKey
  {
    ErrorKey(e.domain.rawValue, e.code.rawValue)
  }

  /** The source's `==` on errors. */
  predicate Equal(a: Error, b: Error)
  {
    a.code.rawValue == b.code.rawValue && a.domain.rawValue == b.domain.rawValue
  }

  lemma EqualIffSameKey(a: Error, b: Error)
    ensures Equal(a, b) <==> Key(a) == Key(b)
  {
  }

  lemma EqualIsEquivalence(a: Error, b: Error, c: Error)
    ensures Equal(a, a)
    ensures Equal(a, b) ==> Equal(b, a)
    ensures Equal(a, b) && Equal(b, c) ==> Equal(a, c)
  {
  }

  /** The conforming types play no part in equality. */
  lemma EqualIgnoresTypeNames(a: Error, domainType: string, codeType: string)
    ensures Equal(a, Error(a.domain.(typeName := domainType), a.code.(typeName := codeType)))
  {
  }

  // ---------------------------------------------------------------------------
  // hashValue

  /** `hashValue` as written: `(code.rawValue.hashValue + domain.rawValue.hashValue).hashValue`.
      `Int.hashValue` is the integer itself; the string hash is the parameter `strHash`.
      `None` is the overflow trap of Swift's `+`. */
  function HashValueAsWritten(e: Error, strHash: string -> Int64): (r: Option<Int64>)
    ensures r.Some? <==> MinInt <= e.code.rawValue as int + strHash(e.domain.rawValue) as int <= MaxInt
  {
    TrappingAdd(e.code.rawValue, strHash(e.domain.rawValue))
  }

  /** A code whose raw value is `Int.max`, in a domain whose string hash is positive,
      stops the program when the error is hashed, i.e. when it is put into or looked
      up in a set of registered errors. */
  lemma HashValueAsWrittenTraps(d: ErrorDomain, c: ErrorCode, strHash: string -> Int64)
    requires c.rawValue as int == MaxInt && strHash(d.rawValue) > 0
    ensures HashValueAsWritten(Error(d, c), strHash) == None
  {
  }

  /** Every domain whose string hash is not zero has a code that makes hashing trap. */
  lemma EveryDomainHasTrappingCode(d: ErrorDomain, strHash: string -> Int64)
    requires strHash(d.rawValue) != 0
    ensures exists raw: Int64 :: HashValueAsWritten(Error(d, ErrorCode("", raw)), strHash) == None
  {
    if strHash(d.rawValue) > 0 {
      assert HashValueAsWritten(Error(d, ErrorCode("", MaxInt as Int64)), strHash) == None;
    } else {
      assert HashValueAsWritten(Error(d, ErrorCode("", MinInt as Int64)), strHash) == None;
    }
  }

  /** `hashValue` with the wrapping `&+` that BubbleNotification.swift uses: total, and
      equal to the source's value wherever the source does not trap. */
  function HashValue(e: Error, strHash: string -> Int64): (r: Int64)
    ensures HashValueAsWritten(e, strHash).Some? ==> HashValueAsWritten(e, strHash).value == r
  {
    WrappingAdd(e.code.rawValue, strHash(e.domain.rawValue))
  }

  /** Equal errors hash equal, in both versions; so a set of errors is a set of keys. */
  lemma EqualErrorsHashEqual(a: Error, b: Error, strHash: string -> Int64)
    requires Equal(a, b)
    ensures HashValue(a, strHash) == HashValue(b, strHash)
    ensures HashValueAsWritten(a, strHash) == HashValueAsWritten(b, strHash)
  {
  }

  // ---------------------------------------------------------------------------
  // Decimal rendering of an Int, as string interpolation "\(n)" produces it

  predicate IsDigit(ch: char)
  {
    '0' <= ch <= '9'
  }

  predicate AllDigits(s: string)
  {
    forall i :: 0 <= i < |s| ==> IsDigit(s[i])
  }

  function DigitChar(d: nat): (ch: char)
    requires d < 10
    ensures IsDigit(ch) && (ch as int) - ('0' as int) == d
  {
    ('0' as int + d) as char
  }

  /** The decimal digits of `n`, most significant first, without leading zeros. */
  function NatDigits(n: nat): (s: string)
    ensures |s| > 0 && AllDigits(s)
    ensures |s| > 1 ==> s[0] != '0'
    decreases n
  {
    if n < 10 then [DigitChar(n)] else NatDigits(n / 10) + [DigitChar(n % 10)]
  }

  /** Swift's `"\(n)"` for an `Int`: a minus sign for negatives, then the digits. */
  function IntString(n: int): (s: string)
    ensures '.' !in s
  {
    if n < 0 then "-" + NatDigits(-n) else NatDigits(n)
  }

  function ParseDigits(s: string): (n: nat)
    requires AllDigits(s)
  {
    if s == [] then 0
    else ParseDigits(s[..|s| - 1]) * 10 + ((s[|s| - 1] as int) - ('0' as int))
  }

  /** Reads back what `IntString` writes. */
  function ParseInt(s: string): Option<int>
  {
    if |s| > 1 && s[0] == '-' && AllDigits(s[1..]) then Some(0 - ParseDigits(s[1..]) as int)
    else if |s| > 0 && AllDigits(s) then Some(ParseDigits(s))
    else None
  }

  lemma {:induction false} ParseDigitsOfNatDigits(n: nat)
    ensures ParseDigits(NatDigits(n)) == n
    decreases n
  {
    if n >= 10 {
      var s := NatDigits(n);
      assert s[..|s| - 1] == NatDigits(n / 10);
      ParseDigitsOfNatDigits(n / 10);
    }
  }

  lemma IntStringRoundTrip(n: int)
    ensures ParseInt(IntString(n)) == Some(n)
  {
    if n < 0 {
      assert IntString(n)[1..] == NatDigits(-n);
      ParseDigitsOfNatDigits(-n);
    } else {
      ParseDigitsOfNatDigits(n);
    }
  }

  // ---------------------------------------------------------------------------
  // descriptionString, localizedDescription, fullDescription

  /** `descriptionString()`: `"\(domain.rawValue).\(code.rawValue)"`. */
  function DescriptionString(e: Error): string
  {
    e.domain.rawValue + "." + IntString(e.code.rawValue as int)
  }

  /** `localizedDescription()`: the localization table is the parameter `localize`. */
  function LocalizedDescription(e: Error, localize: string -> string): string
  {
    localize(DescriptionString(e))
  }

  /** `fullDescription()`: the description, a colon and a space, then its
      localization. The error's domain and code can be read back from the part
      before the localization. */
  function FullDescription(e: Error, localize: string -> string): (s: string)
    ensures |DescriptionString(e)| <= |s| && ParseDescription(s[..|DescriptionString(e)|]) == Some(Key(e))
    ensures s[|DescriptionString(e)|..] == ": " + LocalizedDescription(e, localize)
  {
    DescriptionRoundTrip(e);
    var d := DescriptionString(e);
    var s := d + ": " + LocalizedDescription(e, localize);
    assert s[..|d|] == d;
    s
  }

  function LastIndexOf(s: string, ch: char): (r: Option<nat>)
    ensures r.Some? ==> r.value < |s| && s[r.value] == ch && ch !in s[r.value + 1..]
    ensures r.None? ==> ch !in s
  {
    if s == [] then None
    else if s[|s| - 1] == ch then Some(|s| - 1)
    else
      var r := LastIndexOf(s[..|s| - 1], ch);
      assert s == s[..|s| - 1] + [s[|s| - 1]];
      r
  }

  /** Splits a description at its last dot: the code's digits contain none. */
  function ParseDescription(s: string): Option<ErrorKey>
  {
    match LastIndexOf(s, '.')
    case None => None
    case Some(i) =>
      match ParseInt(s[i + 1..])
      case None => None
      case Some(v) => if MinInt <= v <= MaxInt then Some(ErrorKey(s[..i], v as Int64)) else None
  }

  lemma LastDotAfterPrefix(d: string, t: string)
    requires '.' !in t
    ensures LastIndexOf(d + "." + t, '.') == Some(|d|)
  {
    var s := d + "." + t;
    assert s[|d|] == '.';
    assert s[|d| + 1..] == t;
  }

  lemma DescriptionRoundTrip(e: Error)
    ensures ParseDescription(DescriptionString(e)) == Some(Key(e))
  {
    var d, t := e.domain.rawValue, IntString(e.code.rawValue as int);
    var s := DescriptionString(e);
    LastDotAfterPrefix(d, t);
    assert s[|d| + 1..] == t;
    assert s[..|d|] == d;
    IntStringRoundTrip(e.code.rawValue as int);
  }

  /** Two errors are equal exactly when their descriptions are, so the description
      (and the localization looked up under it) identifies an error. */
  lemma EqualIffSameDescription(a: Error, b: Error)
    ensures Equal(a, b) <==> DescriptionString(a) == DescriptionString(b)
  {
    if DescriptionString(a) == DescriptionString(b) {
      DescriptionRoundTrip(a);
      DescriptionRoundTrip(b);
    }
  }

  lemma EqualErrorsDescribedAlike(a: Error, b: Error, localize: string -> string)
    requires Equal(a, b)
    ensures FullDescription(a, localize) == FullDescription(b, localize)
  {
    EqualIffSameDescription(a, b);
  }
}
